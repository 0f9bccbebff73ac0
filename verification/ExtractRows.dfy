/** Which lines of an index an extraction takes, where each of them lands, and what its links become. */
module ExtractRows {
  import opened Bytes
  import opened Paths
  import opened Disk
  import opened Extract
  import opened ExtractSafety
  import opened ExtractOutcome
  import Glob

  // ------------------------------------------------------------------- names

  predicate BecomesUnderscore(c: char) {
    c == '/' || c == '\\' || '\U{0000}' <= c <= '\U{001F}' || c == '\U{007F}'
  }

  /** Character by character: separators, control characters and a leading dot become underscores, nothing else. */
  lemma FlattenedExactly(name: string)
    ensures name == "" ==> SafeNameSegment(name) == "_"
    ensures name != "" ==> |SafeNameSegment(name)| == |name|
    ensures forall i :: 0 <= i < |name| ==>
              SafeNameSegment(name)[i] ==
                if BecomesUnderscore(name[i]) || (i == 0 && name[0] == '.') then '_' else name[i]
  {
  }

  /** The formats with a dump extension of their own name, and the one with another. */
  lemma ExtensionsExact(format: string)
    ensures DumpExtension("custom") == "dump"
    ensures format in {"sql", "archive", "bak", "fbk", "bacpac", "rdb", "sqlite"} ==> DumpExtension(format) == format
    ensures format != "custom" ==> DumpExtension(format) == format
  {
  }

  /** A dump lands in the folder for databases, under its flattened name and extension. */
  lemma DumpLandsAt(cwd: Path, outputDir: string, row: DatabaseRow)
    requires Plain(cwd)
    ensures var extension := if row.format == "custom" then "dump" else SafeNameSegment(row.format);
            DatabaseTarget(cwd, outputDir, row) ==
            Resolve(cwd, [outputDir]) + ["databases", SafeNameSegment(row.name) + "." + extension]
  {
    hide SafeNameSegment, Resolve;
    SafeNamesAreSegments(row.name);
    SafeNamesAreSegments(row.format);
    FlattenedExactly("dump");
    assert SafeNameSegment("dump") == "dump";
    SafeNamesAreSegments("dump");
    var name := SafeNameSegment(row.name) + "." + SafeNameSegment(DumpExtension(row.format));
    assert |name| > 2 && PlainName(name) && PlainName("databases");
    ResolveBelow(cwd, outputDir, "databases", name);
  }

  /** Names with a separator between any two. */
  function Joined(names: Path): string
    requires names != []
  {
    if |names| == 1 then names[0] else names[0] + "/" + Joined(names[1..])
  }

  lemma {:induction false} HeadSegment(name: string, rest: string)
    requires '/' !in name
    ensures Segments(name + "/" + rest) == [name] + Segments(rest)
  {
    var text := name + "/" + rest;
    if name == "" {
      assert text[1..] == rest;
    } else {
      assert text[1..] == name[1..] + "/" + rest;
      HeadSegment(name[1..], rest);
      assert [name[0]] + name[1..] == name;
    }
  }

  lemma {:induction false} SegmentsOfJoined(names: Path)
    requires names != [] && forall i :: 0 <= i < |names| ==> '/' !in names[i]
    ensures Segments(Joined(names)) == names
    decreases |names|
  {
    if |names| == 1 {
      OneSegment(names[0]);
    } else {
      SegmentsOfJoined(names[1..]);
      HeadSegment(names[0], Joined(names[1..]));
    }
  }

  lemma {:induction false} PlainNormalized(base: Path, names: Path)
    requires Plain(base) && Plain(names)
    ensures Normalized(base, names) == base + names
    decreases |names|
  {
    if names != [] {
      assert PlainName(names[0]);
      PlainNormalized(base + [names[0]], names[1..]);
    }
  }

  /** A file of plain names lands under its source, those names further down. */
  lemma FileLandsAt(cwd: Path, outputDir: string, src: string, names: Path)
    requires Plain(cwd) && PlainName(src) && names != [] && Plain(names)
    ensures Resolve(cwd, [outputDir, src, Joined(names)]) == Resolve(cwd, [outputDir]) + [src] + names
  {
    hide Segments, Normalized;
    var base, path := Resolve(cwd, [outputDir]), Joined(names);
    assert [outputDir, src, path][1..] == [src] + [path] && [outputDir][1..] == [];
    ResolveStep(base, src, [path]);
    assert forall i :: 0 <= i < |names| ==> PlainName(names[i]);
    SegmentsOfJoined(names);
    PlainNormalized(base + [src], names);
    var arguments: seq<string> := [path];
    assert arguments[1..] == [] && path[0] == names[0][0] && names[0][0] in names[0];
  }

  /**
   * The paths that are not plain: one that starts at the top leaves the output directory altogether, a single
   * dot stays, and two dots lead from the source back to the output directory.
   */
  lemma DotsAndTop(cwd: Path, outputDir: string, src: string, names: Path)
    requires Plain(cwd) && PlainName(src) && names != [] && Plain(names)
    ensures Resolve(cwd, [outputDir, src, "/" + Joined(names)]) == names
    ensures Resolve(cwd, [outputDir, src, "./" + Joined(names)]) == Resolve(cwd, [outputDir]) + [src] + names
    ensures Resolve(cwd, [outputDir, src, "../" + Joined(names)]) == Resolve(cwd, [outputDir]) + names
  {
    hide Segments, Normalized, Joined;
    assert forall i :: 0 <= i < |names| ==> PlainName(names[i]);
    var base, rest := Resolve(cwd, [outputDir]), Joined(names);
    SegmentsOfJoined(names);
    ThirdOf(cwd, outputDir, src, "/" + rest);
    ThirdOf(cwd, outputDir, src, "./" + rest);
    ThirdOf(cwd, outputDir, src, "../" + rest);
    HeadSegment("", rest);
    HeadSegment(".", rest);
    HeadSegment("..", rest);
    assert "" + "/" + rest == "/" + rest && "." + "/" + rest == "./" + rest && ".." + "/" + rest == "../" + rest;
    NoName([], "", names);
    assert [] + names == names;
    NoName(base + [src], ".", names);
    NameBack(base, src, names);
  }

  lemma ThirdOf(cwd: Path, outputDir: string, src: string, path: string)
    requires Plain(cwd) && PlainName(src) && path != ""
    ensures Resolve(cwd, [outputDir, src, path]) ==
            Normalized(if path[0] == '/' then [] else Resolve(cwd, [outputDir]) + [src], Segments(path))
  {
    hide Segments, Normalized;
    assert [outputDir, src, path] == [outputDir] + [src, path] && [src, path] == [src] + [path];
    assert [outputDir] + [] == [outputDir] && [path] + [] == [path];
    OneArgument(cwd, outputDir, [src, path]);
    OneArgument(cwd, outputDir, []);
    var base := Resolve(cwd, [outputDir]);
    ResolveStep(base, src, [path]);
    OneArgument(base + [src], path, []);
  }

  lemma OneArgument(base: Path, argument: string, more: seq<string>)
    requires Plain(base)
    ensures Resolve(base, [argument] + more) ==
            Resolve(Normalized(if argument != "" && argument[0] == '/' then [] else base, Segments(argument)), more)
  {
    hide Segments, Normalized;
    assert ([argument] + more)[1..] == more;
  }

  lemma NoName(base: Path, name: string, names: Path)
    requires Plain(base) && Plain(names) && name in {"", "."}
    ensures (forall i :: 0 <= i < |[name] + names| ==> '/' !in ([name] + names)[i])
            && Normalized(base, [name] + names) == base + names
  {
    assert forall i :: 0 <= i < |names| ==> PlainName(names[i]);
    PlainNormalized(base, names);
    assert ([name] + names)[1..] == names;
  }

  lemma NameBack(base: Path, src: string, names: Path)
    requires Plain(base) && PlainName(src) && Plain(names)
    ensures (forall i :: 0 <= i < |[".."] + names| ==> '/' !in ([".."] + names)[i])
            && Normalized(base + [src], [".."] + names) == base + names
  {
    assert forall i :: 0 <= i < |names| ==> PlainName(names[i]);
    PlainNormalized(base, names);
    assert ([".."] + names)[1..] == names && (base + [src])[..|base + [src]| - 1] == base;
  }

  // --------------------------------------------------------------- selection

  /** Exactly when a dump is stored: it is selected, and the output directory is not the top of the file system. */
  lemma DatabaseRowExact(cwd: Path, outputDir: string, patterns: seq<string>, row: DatabaseRow)
    requires Plain(cwd)
    ensures DatabaseTask(cwd, outputDir, patterns, row) ==
            if && (patterns == [] || Glob.Selects("databases/" + row.name, patterns, false))
               && Resolve(cwd, [outputDir]) != []
            then Store(DatabaseTarget(cwd, outputDir, row),
                       match row.entry case None => Unresolved case Some((size, delivery)) => Streamed(size, delivery),
                       row.hash)
            else Skip
  {
    hide Resolve, StartsBelow, DatabaseTarget, Glob.MatchesAny, Glob.Selects;
    DatabaseRefusedExactly(cwd, outputDir, row);
    Glob.MatchesAnyExact("databases/" + row.name, patterns);
  }

  /** Selected by its path, and leading to the output directory or strictly below it. */
  predicate Taken(cwd: Path, outputDir: string, patterns: seq<string>, row: FileRow)
    requires Plain(cwd)
  {
    var target, root := Resolve(cwd, [outputDir, row.src, row.path]), Resolve(cwd, [outputDir]);
    && (patterns == [] || Glob.Selects(row.path, patterns, false))
    && (target == root || (root != [] && Inside(target, root)))
  }

  /** Exactly those file lines are stored, and those of them that are links are kept for later. */
  lemma FileRowExact(cwd: Path, outputDir: string, patterns: seq<string>, row: FileRow)
    requires Plain(cwd)
    ensures Accepted(cwd, outputDir, patterns, row) <==> Taken(cwd, outputDir, patterns, row)
    ensures FileTask(cwd, outputDir, patterns, row) ==
            if Taken(cwd, outputDir, patterns, row) && row.lnk == None
            then Store(Resolve(cwd, [outputDir, row.src, row.path]), row.source, row.hash)
            else Skip
  {
    hide Resolve, StartsBelow, Inside, Glob.MatchesAny, Glob.Selects;
    StringCheckExact(Resolve(cwd, [outputDir, row.src, row.path]), Resolve(cwd, [outputDir]));
    Glob.MatchesAnyExact(row.path, patterns);
  }

  /** The link lines taken, with their texts, in the order of the index. */
  lemma {:induction false} LinkRowsInOrder(cwd: Path, outputDir: string, patterns: seq<string>, files: seq<FileRow>)
    returns (rows: seq<nat>)
    requires Plain(cwd)
    ensures var links := Links(cwd, outputDir, patterns, files);
            && |rows| == |links|
            && (forall l :: 0 <= l < |links| ==>
                  && rows[l] < |files| && files[rows[l]].lnk.Some?
                  && Taken(cwd, outputDir, patterns, files[rows[l]])
                  && links[l] == (Resolve(cwd, [outputDir, files[rows[l]].src, files[rows[l]].path]),
                                  files[rows[l]].lnk.value))
            && (forall l, m :: 0 <= l < m < |rows| ==> rows[l] < rows[m])
            && (forall j :: 0 <= j < |files| && files[j].lnk.Some? && Taken(cwd, outputDir, patterns, files[j]) ==>
                  j in rows)
    decreases |files|
  {
    hide Resolve, Accepted, Taken;
    rows := [];
    if files != [] {
      var last := |files| - 1;
      FileRowExact(cwd, outputDir, patterns, files[last]);
      rows := LinkRowsInOrder(cwd, outputDir, patterns, files[..last]);
      if Taken(cwd, outputDir, patterns, files[last]) && files[last].lnk.Some? {
        rows := rows + [last];
      }
    }
  }

  // ------------------------------------------------------------ what links become

  lemma LinkMade(d: Disk, target: Path, linkTarget: string)
    requires Plain(target) && target != [] && ClearWay(d.links, Parent(target)) && !LinkRun(d, target, linkTarget).0
    ensures Last(d, LinkRun(d, target, linkTarget).1).links == d.links[target := linkTarget]
  {
    hide Follow;
    MadeKeepsLinks(d, Parent(target));
    ClearSlot(d.links, target);
    ClearSlot(Removed(MakeDirs(d, Parent(target)).value, target).links, target);
  }

  lemma FirstLinkMade(d: Disk, links: seq<(Path, string)>)
    requires links != [] && Flat(d, links) && !LinkRun(d, links[0].0, links[0].1).0
    ensures Last(d, LinkRun(d, links[0].0, links[0].1).1).links == d.links[links[0].0 := links[0].1]
  {
    hide LinkRun, ClearWay;
    LinkMade(d, links[0].0, links[0].1);
  }

  /** What the last link row with this target says. */
  function Latest(links: seq<(Path, string)>, target: Path): Option<string> {
    if links == [] then None
    else
      var later := Latest(links[1..], target);
      if later.Some? then later else if links[0].0 == target then Some(links[0].1) else None
  }

  /** Once a link phase is through, every target is a link with its last row's text, and no other link has changed. */
  lemma {:induction false} LinksMade(d: Disk, links: seq<(Path, string)>, target: Path)
    requires Flat(d, links) && !LinkPhase(d, links).threw
    ensures var end := Last(d, LinkPhase(d, links).states).links;
            match Latest(links, target)
            case Some(text) => target in end && end[target] == text
            case None => (target in end <==> target in d.links) && (target in end ==> end[target] == d.links[target])
    decreases |links|
  {
    if links != [] {
      var mid := Last(d, LinkRun(d, links[0].0, links[0].1).1);
      FirstLinkMade(d, links);
      FlatStays(d, links);
      hide LinkRun, Flat;
      LinksMade(mid, links[1..], target);
    }
  }

  lemma {:induction false} LatestThere(links: seq<(Path, string)>, l: nat)
    requires l < |links| && forall m :: l < m < |links| ==> links[m].0 != links[l].0
    ensures Latest(links, links[l].0) == Some(links[l].1)
  {
    var later := links[1..];
    assert forall m :: 0 <= m < |later| ==> later[m] == links[m + 1];
    if l > 0 {
      LatestThere(later, l - 1);
    } else {
      NoneLater(later, links[0].0);
    }
  }

  lemma {:induction false} NoneLater(links: seq<(Path, string)>, target: Path)
    requires forall m :: 0 <= m < |links| ==> links[m].0 != target
    ensures Latest(links, target) == None
  {
    if links != [] {
      NoneLater(links[1..], target);
    }
  }
}
