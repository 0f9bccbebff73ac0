/** Incremental chains: what is carried forward, how a snapshot resolves, and that it restores its tree. */
module Chain {
  import opened Bytes
  import opened PaxNames
  import opened TarNumeric
  import opened TarWriter
  import opened EntryKeys
  import opened Archive

  type Tree = map<(bytes, bytes), bytes>

  // ----------------------------------------------------------------- reading

  /** The siblings a snapshot depends on, opened, and the names that are not in the folder. */
  datatype Siblings = Siblings(chain: map<bytes, ArchiveFile>, missing: seq<bytes>)

  /** A sibling that is there but cannot be opened ends it. */
  function OpenedChain(codec: Codec, folder: map<bytes, bytes>, deps: seq<bytes>): Result<Siblings, ReadError> {
    if deps == [] then Ok(Siblings(map[], []))
    else
      match OpenedChain(codec, folder, deps[..|deps| - 1])
      case Err(error) => Err(error)
      case Ok(before) =>
        var name := deps[|deps| - 1];
        if name !in folder then Ok(before.(missing := before.missing + [name]))
        else
          match Opened(codec, folder[name])
          case Err(error) => Err(error)
          case Ok(archive) => Ok(before.(chain := before.chain[name := archive]))
  }

  method OpenChain(codec: Codec, folder: map<bytes, bytes>, deps: seq<bytes>) returns (r: Result<Siblings, ReadError>)
    ensures r == OpenedChain(codec, folder, deps)
  {
    hide Opened;
    var chain: map<bytes, ArchiveFile>, missing: seq<bytes> := map[], [];
    for i := 0 to |deps|
      invariant Ok(Siblings(chain, missing)) == OpenedChain(codec, folder, deps[..i])
    {
      assert deps[..i + 1][..i] == deps[..i];
      var name := deps[i];
      if name !in folder {
        missing := missing + [name];
        continue;
      }
      var sibling := Opened(codec, folder[name]);
      if sibling.Err? {
        ErrorStays(codec, folder, deps, i + 1);
        return Err(sibling.error);
      }
      chain := chain[name := sibling.value];
    }
    assert deps[..|deps|] == deps;
    r := Ok(Siblings(chain, missing));
  }

  lemma {:induction false} ErrorStays(codec: Codec, folder: map<bytes, bytes>, deps: seq<bytes>, n: nat)
    requires n <= |deps| && OpenedChain(codec, folder, deps[..n]).Err?
    ensures OpenedChain(codec, folder, deps) == OpenedChain(codec, folder, deps[..n])
    decreases |deps|
  {
    hide Opened;
    if n == |deps| {
      assert deps[..n] == deps;
    } else {
      assert deps[..|deps| - 1][..n] == deps[..n];
      ErrorStays(codec, folder, deps[..|deps| - 1], n);
    }
  }

  /** It fails exactly if some sibling that is there cannot be opened; else it holds and misses the right ones. */
  lemma {:induction false} OpenedChainExact(codec: Codec, folder: map<bytes, bytes>, deps: seq<bytes>)
    ensures var r := OpenedChain(codec, folder, deps);
            && (r.Ok? <==> forall d :: d in deps && d in folder ==> Opened(codec, folder[d]).Ok?)
            && (r.Ok? ==>
                  && (forall d :: d in r.value.chain <==> d in deps && d in folder)
                  && (forall d :: d in r.value.chain ==> Opened(codec, folder[d]) == Ok(r.value.chain[d]))
                  && (forall d :: d in r.value.missing <==> d in deps && d !in folder))
  {
    hide Opened;
    if deps != [] {
      OpenedChainExact(codec, folder, deps[..|deps| - 1]);
      assert deps == deps[..|deps| - 1] + [deps[|deps| - 1]];
    }
  }

  /** A snapshot opened by name, from nothing but the files of its folder. */
  datatype Snapshot = Snapshot(archive: ArchiveFile, siblings: Siblings)

  function OpenSnapshot(codec: Codec, folder: map<bytes, bytes>, name: bytes): Result<Snapshot, ReadError> {
    if name !in folder then Err(MissingArchive)
    else
      match Opened(codec, folder[name])
      case Err(error) => Err(error)
      case Ok(archive) =>
        match OpenedChain(codec, folder, archive.index.deps)
        case Err(error) => Err(error)
        case Ok(siblings) => Ok(Snapshot(archive, siblings))
  }

  function ResolveEntry(archive: ArchiveFile, chain: map<bytes, ArchiveFile>, ordinal: nat, from: Option<bytes>)
    : Result<(ArchiveFile, EntryLine), ReadError>
  {
    var named := from.Some? && from.value != [];
    if named && from.value !in chain then Err(MissingArchive)
    else
      var target := if named then chain[from.value] else archive;
      if EntryKey(None, ordinal) in target.index.entries then
        Ok((target, target.index.entries[EntryKey(None, ordinal)]))
      else if EntryKey(from, ordinal) in archive.index.entries then
        Ok((target, archive.index.entries[EntryKey(from, ordinal)]))
      else Err(MissingEntry)
  }

  function ReadFileFromArchive(codec: Codec, archive: ArchiveFile, chain: map<bytes, ArchiveFile>, line: FileLine)
    : Result<bytes, ReadError>
  {
    if line.n.None? then Err(NoOrdinal)
    else
      match ResolveEntry(archive, chain, line.n.value, line.a)
      case Err(error) => Err(error)
      case Ok((target, entry)) =>
        match DecodeEntry(codec, target, entry)
        case Err(error) => Err(error)
        case Ok(payload) => Ok(CutOut(payload, line.slice))
  }

  // ---------------------------------------------------------- carry forward

  /** The predecessor's file lines that are kept: links never, and the holder is named, not the predecessor. */
  function CarriedFiles(files: seq<FileLine>, previousArchive: bytes, keep: set<bytes>): (carried: seq<FileLine>)
    ensures forall i :: 0 <= i < |carried| ==> carried[i].a.Some? && carried[i].lnk.None?
  {
    if files == [] then []
    else
      var line := files[|files| - 1];
      var before := CarriedFiles(files[..|files| - 1], previousArchive, keep);
      if FileKey(line.src, line.path) !in keep || line.lnk.Some? then before
      else before + [line.(a := Some(if line.a.Some? then line.a.value else previousArchive))]
  }

  /** For every key the kept lines need, the archive field the predecessor's index has it under. */
  function NeededEntries(files: seq<FileLine>, previousArchive: bytes, keep: set<bytes>): map<bytes, Option<bytes>> {
    if files == [] then map[]
    else
      var line := files[|files| - 1];
      var before := NeededEntries(files[..|files| - 1], previousArchive, keep);
      if FileKey(line.src, line.path) !in keep || line.lnk.Some? || line.n.None? then before
      else before[EntryKey(Some(if line.a.Some? then line.a.value else previousArchive), line.n.value) := line.a]
  }

  /** One carried entry, found again from its key. */
  function CarriedEntry(entries: map<bytes, EntryLine>, key: bytes, originalArchive: Option<bytes>)
    : Result<EntryLine, ReadError>
  {
    if HASH !in key || SplitKey(key).1 < 0 then Err(MissingEntry)
    else
      var (archive, ordinal) := SplitKey(key);
      if EntryKey(originalArchive, ordinal) !in entries then Err(MissingEntry)
      else Ok(entries[EntryKey(originalArchive, ordinal)].(a := Some(archive)))
  }

  /** An entry line is what a needed key leads to. */
  ghost predicate LedTo(previous: Index, needed: map<bytes, Option<bytes>>, key: bytes, entry: EntryLine) {
    key in needed && Ok(entry) == CarriedEntry(previous.entries, key, needed[key])
  }

  /** These entry lines are what these keys lead to, all of them and nothing else. */
  ghost predicate Covers(previous: Index, needed: map<bytes, Option<bytes>>, keys: set<bytes>,
                         entries: seq<EntryLine>)
  {
    && (forall key :: key in keys ==> exists i :: 0 <= i < |entries| && LedTo(previous, needed, key, entries[i]))
    && (forall i :: 0 <= i < |entries| ==> exists key :: key in needed && LedTo(previous, needed, key, entries[i]))
  }

  /** The carried lines: the kept files, and one entry line for every needed key, in any order. */
  ghost predicate CarriesForward(previous: Index, previousArchive: bytes, keep: set<bytes>,
                                 files: seq<FileLine>, entries: seq<EntryLine>)
  {
    var needed := NeededEntries(previous.files, previousArchive, keep);
    && files == CarriedFiles(previous.files, previousArchive, keep)
    && Covers(previous, needed, needed.Keys, entries)
  }

  // ----------------------------------------------------------------- history

  /** A chain so far: the folder, its newest archive, and the tree that archive describes. */
  datatype State = State(folder: map<bytes, ArchiveFile>, lastName: bytes, tree: Tree)

  /** One backup run: what is stored anew, and which unchanged files are kept. */
  datatype Version = Version(name: bytes, build: Build, index: Item, keep: set<bytes>,
                             carriedFiles: seq<FileLine>, carriedEntries: seq<EntryLine>)

  function StoredTree(parts: seq<Part>): Tree {
    if parts == [] then map[]
    else
      var last := parts[|parts| - 1];
      StoredTree(parts[..|parts| - 1])[(last.src, last.path) := last.content]
  }

  /** No member is read by a name of the plan's before it, so every offset is the right one. */
  ghost predicate NamesDistinct(build: Build)
    requires AllValid(build.Items()) && |build.members| == |build.planned|
  {
    forall k :: 1 <= k <= |build.planned| ==> NameIsLast(Length, build.Items(), k)
  }

  ghost predicate ValidBuild(codec: Codec, build: Build) {
    var parts := PlannedParts(build.planned);
    && Packs(codec, build)
    && NamesDistinct(build)
    && (forall i, j :: 0 <= i < j < |parts| ==> (parts[i].src, parts[i].path) != (parts[j].src, parts[j].path))
    && (forall i :: 0 <= i < |parts| ==> NUL !in parts[i].src)
  }

  /** A file is either stored again or kept, never both. */
  ghost predicate ValidVersion(codec: Codec, v: Version) {
    && ValidBuild(codec, v.build)
    && v.name != []
    && forall i :: 0 <= i < |PlannedParts(v.build.planned)| ==>
         FileKey(PlannedParts(v.build.planned)[i].src, PlannedParts(v.build.planned)[i].path) !in v.keep
  }

  /** The tree a run is meant to preserve: the kept files as they were, and the stored ones as they are now. */
  function NextTree(tree: Tree, keep: set<bytes>, stored: Tree): Tree {
    (map key | key in tree && FileKey(key.0, key.1) in keep :: tree[key]) + stored
  }

  ghost predicate First(codec: Codec, v: Version, s: State) {
    && ValidVersion(codec, v) && v.keep == {} && v.carriedFiles == [] && v.carriedEntries == []
    && CreateArchive(codec, v.build, [], []).Ok?
    && WrittenOut(codec, v.build, v.index, CreateArchive(codec, v.build, [], []).value)
    && s == State(map[v.name := CreateArchive(codec, v.build, [], []).value], v.name,
                  StoredTree(PlannedParts(v.build.planned)))
  }

  ghost predicate Follows(codec: Codec, s: State, v: Version, s': State) {
    && ValidVersion(codec, v) && v.name !in s.folder && s.lastName in s.folder
    && CarriesForward(s.folder[s.lastName].index, s.lastName, v.keep, v.carriedFiles, v.carriedEntries)
    && CreateArchive(codec, v.build, v.carriedFiles, v.carriedEntries).Ok?
    && WrittenOut(codec, v.build, v.index, CreateArchive(codec, v.build, v.carriedFiles, v.carriedEntries).value)
    && s' == State(s.folder[v.name := CreateArchive(codec, v.build, v.carriedFiles, v.carriedEntries).value],
                   v.name, NextTree(s.tree, v.keep, StoredTree(PlannedParts(v.build.planned))))
  }

  /** A history: a full backup, then any number of incremental ones. */
  ghost predicate History(codec: Codec, versions: seq<Version>, states: seq<State>) {
    && |versions| == |states| > 0
    && First(codec, versions[0], states[0])
    && forall i {:trigger states[i]} :: 0 < i < |states| ==> Follows(codec, states[i - 1], versions[i], states[i])
  }

  // --------------------------------------------------------------- invariant

  /** The archive physically holding a line's bytes. */
  function Holder(line: FileLine, own: bytes): bytes {
    if line.a.Some? then line.a.value else own
  }

  /** A line names the physical holder, the index repeats that holder's entry, and the bytes are the tree's. */
  ghost predicate Sound(codec: Codec, s: State, line: FileLine)
    requires s.lastName in s.folder
  {
    if line.lnk.Some? then line.a.None?
    else
      var holder := Holder(line, s.lastName);
      && line.n.Some?
      && holder != [] && holder in s.folder
      && (line.a.Some? ==> line.a.value != s.lastName)
      && NUL !in line.src
      && EntryKey(None, line.n.value) in s.folder[holder].index.entries
      && s.folder[holder].index.entries[EntryKey(None, line.n.value)].n == line.n.value
      && (s.folder[holder].index.entries[EntryKey(None, line.n.value)].bundle <==> line.slice.Some?)
      && EntryKey(line.a, line.n.value) in s.folder[s.lastName].index.entries
      && s.folder[s.lastName].index.entries[EntryKey(line.a, line.n.value)]
         == s.folder[holder].index.entries[EntryKey(None, line.n.value)].(a := line.a)
      && (line.src, line.path) in s.tree
      && ReadOwn(codec, s.folder[holder], line.n.value, line.slice) == Ok(s.tree[(line.src, line.path)])
  }

  predicate Lists(files: seq<FileLine>, key: (bytes, bytes)) {
    exists i :: 0 <= i < |files| && files[i].lnk.None? && (files[i].src, files[i].path) == key
  }

  ghost predicate Inv(codec: Codec, s: State) {
    && s.lastName in s.folder
    && var index := s.folder[s.lastName].index;
    && index.deps == DepsOf(index.files)
    && (forall i :: 0 <= i < |index.files| ==> Sound(codec, s, index.files[i]))
    && (forall key :: key in s.tree ==> Lists(index.files, key))
  }

  // -------------------------------------------------------------- own lines

  lemma {:induction false} BundleSlice(parts: seq<Part>, before: bytes, ordinal: nat, i: nat)
    requires i < |parts|
    ensures var line := PartLines(parts, ordinal, |before|)[i];
            && line == FileLine(parts[i].src, parts[i].path, Some(ordinal), None, line.slice, None)
            && line.slice.Some?
            && CutOut(before + Concat(Contents(parts)), line.slice) == parts[i].content
  {
    var p := parts[0];
    assert Contents(parts)[1..] == Contents(parts[1..]);
    assert before + Concat(Contents(parts)) == (before + p.content) + Concat(Contents(parts[1..]));
    if i == 0 {
      var whole := before + Concat(Contents(parts));
      assert whole[|before|..|before| + |p.content|] == p.content;
      if |before| >= |whole| {
        assert p.content == [];
      }
    } else {
      BundleSlice(parts[1..], before + p.content, ordinal, i - 1);
    }
  }

  /** The line written for the `i`-th stored file: which plan entry it points into, and what it cuts out. */
  lemma {:induction false} OwnLine(planned: seq<Planned>, ordinal: nat, i: nat) returns (k: nat)
    requires i < |PlannedParts(planned)|
    ensures |OwnFileLines(planned, ordinal)| == |PlannedParts(planned)| && k < |planned|
    ensures var line := OwnFileLines(planned, ordinal)[i];
            var part := PlannedParts(planned)[i];
            && line == FileLine(part.src, part.path, Some(ordinal + k), None, line.slice, None)
            && (line.slice.Some? <==> planned[k].origin.Bundle?)
            && CutOut(Plain(planned[k].origin), line.slice) == part.content
  {
    hide CutOut, Plain, PartLines;
    var head := match planned[0].origin case Database(_, _) => [] case Single(p) => [p] case Bundle(parts) => parts;
    OwnLineCount(planned[1..], ordinal + 1);
    if i < |head| {
      k := 0;
      HeadLine(planned, ordinal, i);
    } else {
      var k' := OwnLine(planned[1..], ordinal + 1, i - |head|);
      k := k' + 1;
      LaterLine(planned, ordinal, i, i - |head|);
    }
  }

  /** The lines after those are the lines of the later plan entries. */
  lemma LaterLine(planned: seq<Planned>, ordinal: nat, i: nat, j: nat)
    requires planned != [] && j < |PlannedParts(planned[1..])|
    requires i == j + match planned[0].origin case Database(_, _) => 0 case Single(_) => 1 case Bundle(parts) => |parts|
    requires |OwnFileLines(planned[1..], ordinal + 1)| == |PlannedParts(planned[1..])|
    ensures |OwnFileLines(planned, ordinal)| == |PlannedParts(planned)| && i < |PlannedParts(planned)|
    ensures OwnFileLines(planned, ordinal)[i] == OwnFileLines(planned[1..], ordinal + 1)[j]
    ensures PlannedParts(planned)[i] == PlannedParts(planned[1..])[j]
  {
  }

  /** The lines of the first plan entry. */
  lemma HeadLine(planned: seq<Planned>, ordinal: nat, i: nat)
    requires planned != [] && i < |PlannedParts(planned)| && |OwnFileLines(planned, ordinal)| == |PlannedParts(planned)|
    requires i < match planned[0].origin case Database(_, _) => 0 case Single(_) => 1 case Bundle(parts) => |parts|
    ensures var line := OwnFileLines(planned, ordinal)[i];
            var part := PlannedParts(planned)[i];
            && line == FileLine(part.src, part.path, Some(ordinal), None, line.slice, None)
            && (line.slice.Some? <==> planned[0].origin.Bundle?)
            && CutOut(Plain(planned[0].origin), line.slice) == part.content
  {
    if planned[0].origin.Bundle? {
      var parts := planned[0].origin.parts;
      BundleSlice(parts, [], ordinal, i);
      assert [] + Concat(Contents(parts)) == Concat(Contents(parts));
    }
  }

  lemma {:induction false} OwnLineCount(planned: seq<Planned>, ordinal: nat)
    ensures |OwnFileLines(planned, ordinal)| == |PlannedParts(planned)|
  {
    if planned != [] {
      OwnLineCount(planned[1..], ordinal + 1);
    }
  }

  lemma {:induction false} StoredTreeHas(parts: seq<Part>, i: nat)
    requires i < |parts|
    requires forall i, j :: 0 <= i < j < |parts| ==> (parts[i].src, parts[i].path) != (parts[j].src, parts[j].path)
    ensures (parts[i].src, parts[i].path) in StoredTree(parts)
    ensures StoredTree(parts)[(parts[i].src, parts[i].path)] == parts[i].content
  {
    if i < |parts| - 1 {
      StoredTreeHas(parts[..|parts| - 1], i);
    }
  }

  lemma {:induction false} StoredTreeOnly(parts: seq<Part>, key: (bytes, bytes)) returns (i: nat)
    requires key in StoredTree(parts)
    ensures i < |parts| && (parts[i].src, parts[i].path) == key
  {
    var last := |parts| - 1;
    if (parts[last].src, parts[last].path) == key {
      i := last;
    } else {
      i := StoredTreeOnly(parts[..last], key);
    }
  }

  /** Lines an archive writes for its own files are sound, whatever it carries besides. */
  lemma OwnLineSound(codec: Codec, v: Version, s': State, i: nat)
    requires codec.Lawful() && ValidVersion(codec, v) && Carried(v.carriedEntries)
    requires CreateArchive(codec, v.build, v.carriedFiles, v.carriedEntries).Ok?
    requires s'.lastName == v.name && v.name in s'.folder
    requires s'.folder[v.name] == CreateArchive(codec, v.build, v.carriedFiles, v.carriedEntries).value
    requires var stored := StoredTree(PlannedParts(v.build.planned));
             forall key :: key in stored ==> key in s'.tree && s'.tree[key] == stored[key]
    requires i < |PlannedParts(v.build.planned)|
    ensures i < |OwnFileLines(v.build.planned, 1)|
    ensures Sound(codec, s', OwnFileLines(v.build.planned, 1)[i])
  {
    hide CreateArchive, EntryKey, ReadOwn, OwnFileLines, PlannedParts, StoredTree, Plain, CutOut, OffsetByMember,
      Locations, Packs, NamesDistinct;
    var parts := PlannedParts(v.build.planned);
    var k := OwnLine(v.build.planned, 1, i);
    OwnEntryFound(codec, v.build, v.carriedFiles, v.carriedEntries, k);
    NameOfPlanned(codec, v.build, k);
    EntryReadsBack(codec, v.build, v.carriedFiles, v.carriedEntries, k);
    ReadOwnSlice(codec, s'.folder[v.name], k + 1, OwnFileLines(v.build.planned, 1)[i].slice);
    StoredTreeHas(parts, i);
  }

  lemma NameOfPlanned(codec: Codec, build: Build, k: nat)
    requires ValidBuild(codec, build) && k < |build.planned|
    ensures k + 1 < |build.Items()| && NameIsLast(Length, build.Items(), k + 1)
  {
    hide NameIsLast, Stored;
  }

  lemma ReadOwnSlice(codec: Codec, holder: ArchiveFile, n: nat, slice: Option<(nat, nat)>)
    requires ReadOwn(codec, holder, n, None).Ok?
    ensures ReadOwn(codec, holder, n, slice) == Ok(CutOut(ReadOwn(codec, holder, n, None).value, slice))
  {
    hide EntryKey, DecodeEntry;
  }

  // ----------------------------------------------------------- carried lines

  /** A carried line is a kept line of the predecessor with its holder written out. */
  lemma {:induction false} CarriedFrom(files: seq<FileLine>, previousArchive: bytes, keep: set<bytes>, i: nat)
    returns (j: nat)
    requires i < |CarriedFiles(files, previousArchive, keep)|
    ensures j < |files| && files[j].lnk.None? && FileKey(files[j].src, files[j].path) in keep
    ensures CarriedFiles(files, previousArchive, keep)[i] ==
            files[j].(a := Some(if files[j].a.Some? then files[j].a.value else previousArchive))
  {
    hide FileKey;
    var before := CarriedFiles(files[..|files| - 1], previousArchive, keep);
    if i < |before| {
      j := CarriedFrom(files[..|files| - 1], previousArchive, keep, i);
    } else {
      j := |files| - 1;
    }
  }

  lemma {:induction false} KeptIsCarried(files: seq<FileLine>, previousArchive: bytes, keep: set<bytes>, j: nat)
    requires j < |files| && files[j].lnk.None? && FileKey(files[j].src, files[j].path) in keep
    ensures Lists(CarriedFiles(files, previousArchive, keep), (files[j].src, files[j].path))
  {
    hide FileKey;
    var carried := CarriedFiles(files, previousArchive, keep);
    var before := CarriedFiles(files[..|files| - 1], previousArchive, keep);
    if j == |files| - 1 {
      assert (carried[|before|].src, carried[|before|].path) == (files[j].src, files[j].path);
    } else {
      KeptIsCarried(files[..|files| - 1], previousArchive, keep, j);
      var i :| 0 <= i < |before| && before[i].lnk.None?
               && (before[i].src, before[i].path) == (files[j].src, files[j].path);
      assert carried[i] == before[i];
    }
  }

  /** Every needed key comes from a kept line. */
  lemma {:induction false} NeededFrom(files: seq<FileLine>, previousArchive: bytes, keep: set<bytes>, key: bytes)
    returns (j: nat)
    requires key in NeededEntries(files, previousArchive, keep)
    ensures j < |files| && files[j].lnk.None? && files[j].n.Some?
    ensures NeededEntries(files, previousArchive, keep)[key] == files[j].a
    ensures key == EntryKey(Some(if files[j].a.Some? then files[j].a.value else previousArchive), files[j].n.value)
  {
    hide FileKey, EntryKey;
    var line := files[|files| - 1];
    if !(FileKey(line.src, line.path) !in keep || line.lnk.Some? || line.n.None?)
       && key == EntryKey(Some(if line.a.Some? then line.a.value else previousArchive), line.n.value)
    {
      j := |files| - 1;
    } else {
      j := NeededFrom(files[..|files| - 1], previousArchive, keep, key);
    }
  }

  lemma {:induction false} KeptIsNeeded(files: seq<FileLine>, previousArchive: bytes, keep: set<bytes>, j: nat)
    requires j < |files| && files[j].lnk.None? && files[j].n.Some? && FileKey(files[j].src, files[j].path) in keep
    ensures EntryKey(Some(if files[j].a.Some? then files[j].a.value else previousArchive), files[j].n.value)
            in NeededEntries(files, previousArchive, keep)
  {
    hide FileKey, EntryKey;
    if j < |files| - 1 {
      KeptIsNeeded(files[..|files| - 1], previousArchive, keep, j);
    }
  }

  /** The entry line found again from a needed key is the holder's own entry, marked with the holder. */
  lemma CarriedEntryExact(codec: Codec, s: State, keep: set<bytes>, key: bytes) returns (j: nat)
    requires Inv(codec, s)
    requires key in NeededEntries(s.folder[s.lastName].index.files, s.lastName, keep)
    ensures var index := s.folder[s.lastName].index;
            var needed := NeededEntries(index.files, s.lastName, keep);
            && j < |index.files| && index.files[j].lnk.None? && index.files[j].n.Some?
            && key == EntryKey(Some(Holder(index.files[j], s.lastName)), index.files[j].n.value)
            && Holder(index.files[j], s.lastName) in s.folder
            && EntryKey(None, index.files[j].n.value) in s.folder[Holder(index.files[j], s.lastName)].index.entries
            && CarriedEntry(index.entries, key, needed[key]) ==
               Ok(s.folder[Holder(index.files[j], s.lastName)].index.entries[EntryKey(None, index.files[j].n.value)]
                  .(a := Some(Holder(index.files[j], s.lastName))))
  {
    hide EntryKey, ReadOwn, SplitKey, NeededEntries;
    var index := s.folder[s.lastName].index;
    j := NeededFrom(index.files, s.lastName, keep, key);
    assert Sound(codec, s, index.files[j]);
    SplitKeyInverts(Some(Holder(index.files[j], s.lastName)), index.files[j].n.value);
  }

  lemma CoveredFrom(previous: Index, needed: map<bytes, Option<bytes>>, entries: seq<EntryLine>, i: nat)
    returns (key: bytes)
    requires Covers(previous, needed, needed.Keys, entries) && i < |entries|
    ensures key in needed && Ok(entries[i]) == CarriedEntry(previous.entries, key, needed[key])
  {
    hide SplitKey, EntryKey;
    var entry := entries[i];
    key :| key in needed && LedTo(previous, needed, key, entry);
  }

  /** Where a carried entry line comes from: a sound line of the predecessor. */
  lemma CarriedOrigin(codec: Codec, s: State, v: Version, s': State, i: nat) returns (j: nat)
    requires Inv(codec, s) && Follows(codec, s, v, s') && i < |v.carriedEntries|
    ensures var files := s.folder[s.lastName].index.files;
            && j < |files| && files[j].lnk.None? && Sound(codec, s, files[j])
            && v.carriedEntries[i] ==
               s.folder[Holder(files[j], s.lastName)].index.entries[EntryKey(None, files[j].n.value)]
               .(a := Some(Holder(files[j], s.lastName)))
  {
    hide CreateArchive, EntryKey, ReadOwn, NeededEntries, CarriedEntry, ValidVersion, CarriedFiles;
    var index := s.folder[s.lastName].index;
    var needed := NeededEntries(index.files, s.lastName, v.keep);
    assert CarriesForward(index, s.lastName, v.keep, v.carriedFiles, v.carriedEntries);
    var key := CoveredFrom(index, needed, v.carriedEntries, i);
    j := CarriedEntryExact(codec, s, v.keep, key);
  }

  lemma CarriedAreMarked(codec: Codec, s: State, v: Version, s': State)
    requires Inv(codec, s) && Follows(codec, s, v, s')
    ensures Carried(v.carriedEntries)
  {
    hide Inv, Follows, EntryKey, ReadOwn;
    forall i | 0 <= i < |v.carriedEntries|
      ensures v.carriedEntries[i].a.Some? && v.carriedEntries[i].a.value != []
    {
      var j := CarriedOrigin(codec, s, v, s', i);
    }
  }

  /** Two carried entry lines under one key are the same line. */
  lemma CarriedAgree(codec: Codec, s: State, v: Version, s': State, i: nat, k: nat)
    requires Inv(codec, s) && Follows(codec, s, v, s')
    requires i < |v.carriedEntries| && k < |v.carriedEntries|
    requires var e, f := v.carriedEntries[i], v.carriedEntries[k]; EntryKey(e.a, e.n) == EntryKey(f.a, f.n)
    ensures v.carriedEntries[i] == v.carriedEntries[k]
  {
    hide Inv, Follows, EntryKey, ReadOwn;
    var j := CarriedOrigin(codec, s, v, s', i);
    var j' := CarriedOrigin(codec, s, v, s', k);
    EntryKeyExact(v.carriedEntries[i].a, v.carriedEntries[i].n, v.carriedEntries[k].a, v.carriedEntries[k].n);
  }

  /** The new index answers a carried key with the carried line. */
  lemma CarriedEntryFound(codec: Codec, s: State, v: Version, s': State, i: nat)
    requires Inv(codec, s) && Follows(codec, s, v, s') && i < |v.carriedEntries|
    ensures v.name in s'.folder
    ensures var entries := s'.folder[v.name].index.entries;
            var key := EntryKey(v.carriedEntries[i].a, v.carriedEntries[i].n);
            key in entries && entries[key] == v.carriedEntries[i]
  {
    hide Inv, Follows, EntryKey, EntryMap, CreateArchive, Packs, OwnLinesOf, ReadOwn, CarriesForward, NextTree;
    CarriedAreMarked(codec, s, v, s');
    FollowsMeans(codec, s, v, s');
    IndexOfCreated(codec, v.build, v.carriedFiles, v.carriedEntries);
    var entries := v.carriedEntries;
    forall k | 0 <= k < |entries|
      ensures EntryKey(entries[k].a, entries[k].n) == EntryKey(entries[i].a, entries[i].n) ==> entries[k] == entries[i]
    {
      if EntryKey(entries[k].a, entries[k].n) == EntryKey(entries[i].a, entries[i].n) {
        CarriedAgree(codec, s, v, s', k, i);
      }
    }
    LaterEntryFound(OwnLinesOf(codec, v.build), v.carriedEntries, i);
  }

  lemma LaterEntryFound(own: seq<EntryLine>, later: seq<EntryLine>, i: nat)
    requires i < |later|
    requires forall k :: 0 <= k < |later| ==> EntryKey(later[k].a, later[k].n) == EntryKey(later[i].a, later[i].n) ==>
                                              later[k] == later[i]
    ensures EntryKey(later[i].a, later[i].n) in EntryMap(own + later)
    ensures EntryMap(own + later)[EntryKey(later[i].a, later[i].n)] == later[i]
  {
    hide EntryKey, EntryMap;
    var lines := own + later;
    forall k | |own| + i < k < |lines|
      ensures EntryKey(lines[k].a, lines[k].n) == EntryKey(lines[|own| + i].a, lines[|own| + i].n) ==>
                lines[k] == lines[|own| + i]
    {
      assert lines[k] == later[k - |own|];
    }
    EntryMapHas(lines, |own| + i);
  }

  /** The entry lines an archive writes for itself. */
  ghost function OwnLinesOf(codec: Codec, build: Build): seq<EntryLine>
    requires Packs(codec, build)
  {
    var offsets := OffsetByMember(Locations(Length, build.Items(), 0));
    if forall i :: 0 <= i < |build.planned| ==> build.planned[i].member in offsets
    then OwnEntryLines(build, offsets) else []
  }

  lemma IndexOfCreated(codec: Codec, build: Build, files: seq<FileLine>, entries: seq<EntryLine>)
    requires Packs(codec, build) && CreateArchive(codec, build, files, entries).Ok?
    ensures var index := CreateArchive(codec, build, files, entries).value.index;
            && index.entries == EntryMap(OwnLinesOf(codec, build) + entries)
            && index.files == OwnFileLines(build.planned, 1) + LinkLines(build.links) + files
            && index.deps == DepsOf(index.files)
  {
    hide EntryMap, TarWalk.Walk, WriteAll, Locations, OffsetByMember, OwnEntryLines;
    WalkFindsBuild(codec, build);
  }

  lemma FollowsMeans(codec: Codec, s: State, v: Version, s': State)
    requires Follows(codec, s, v, s')
    ensures Packs(codec, v.build)
    ensures CreateArchive(codec, v.build, v.carriedFiles, v.carriedEntries).Ok?
    ensures s'.folder == s.folder[v.name := CreateArchive(codec, v.build, v.carriedFiles, v.carriedEntries).value]
    ensures s'.lastName == v.name != [] && v.name !in s.folder
    ensures s'.tree == NextTree(s.tree, v.keep, StoredTree(PlannedParts(v.build.planned)))
    ensures CarriesForward(s.folder[s.lastName].index, s.lastName, v.keep, v.carriedFiles, v.carriedEntries)
  {
    hide CreateArchive, CarriesForward, Packs, NextTree;
  }

  lemma InvMeans(codec: Codec, s: State)
    requires Inv(codec, s)
    ensures s.lastName in s.folder
  {
  }

  lemma InvLine(codec: Codec, s: State, j: nat)
    requires Inv(codec, s) && j < |s.folder[s.lastName].index.files|
    ensures var line := s.folder[s.lastName].index.files[j];
            && Sound(codec, s, line)
            && (line.lnk.None? ==>
                  && line.n.Some? && Holder(line, s.lastName) in s.folder
                  && EntryKey(None, line.n.value) in s.folder[Holder(line, s.lastName)].index.entries)
  {
    hide EntryKey, ReadOwn;
  }

  /** The entry line carried for a kept line: its holder's own entry, marked with the holder. */
  lemma CarriedEntryAt(codec: Codec, s: State, keep: set<bytes>, files: seq<FileLine>, entries: seq<EntryLine>, j: nat)
    returns (k: nat)
    requires Inv(codec, s) && CarriesForward(s.folder[s.lastName].index, s.lastName, keep, files, entries)
    requires var lines := s.folder[s.lastName].index.files;
             j < |lines| && lines[j].lnk.None? && FileKey(lines[j].src, lines[j].path) in keep
    ensures var line := s.folder[s.lastName].index.files[j];
            var holder := Holder(line, s.lastName);
            && line.n.Some? && holder in s.folder && EntryKey(None, line.n.value) in s.folder[holder].index.entries
            && k < |entries|
            && entries[k] == s.folder[holder].index.entries[EntryKey(None, line.n.value)].(a := Some(holder))
  {
    hide EntryKey, NeededEntries, CarriedEntry, CarriedFiles, FileKey, Inv, Sound;
    InvMeans(codec, s);
    var index := s.folder[s.lastName].index;
    var line := index.files[j];
    var holder := Holder(line, s.lastName);
    InvLine(codec, s, j);
    KeptIsNeeded(index.files, s.lastName, keep, j);
    var key := EntryKey(Some(holder), line.n.value);
    k :| 0 <= k < |entries| && LedTo(index, NeededEntries(index.files, s.lastName, keep), key, entries[k]);
    var j' := CarriedEntryExact(codec, s, keep, key);
    EntryKeyExact(Some(holder), line.n.value, Some(Holder(index.files[j'], s.lastName)), index.files[j'].n.value);
  }

  /** A carried file line: the sound line it was, and the entry line carried for it. */
  lemma CarriedLineOrigin(codec: Codec, s: State, v: Version, s': State, i: nat) returns (j: nat, k: nat)
    requires Inv(codec, s) && Follows(codec, s, v, s') && i < |v.carriedFiles|
    ensures s.lastName in s.folder
    ensures var files := s.folder[s.lastName].index.files;
            j < |files| && files[j].lnk.None? && Sound(codec, s, files[j])
    ensures var kept := s.folder[s.lastName].index.files[j];
            var holder := Holder(kept, s.lastName);
            && FileKey(kept.src, kept.path) in v.keep
            && v.carriedFiles[i] == kept.(a := Some(holder))
            && k < |v.carriedEntries|
            && v.carriedEntries[k] == s.folder[holder].index.entries[EntryKey(None, kept.n.value)].(a := Some(holder))
  {
    hide EntryKey, CarriedEntry, FileKey, Follows, Inv, LedTo;
    FollowsMeans(codec, s, v, s');
    InvMeans(codec, s);
    j := CarriedFrom(s.folder[s.lastName].index.files, s.lastName, v.keep, i);
    InvLine(codec, s, j);
    k := CarriedEntryAt(codec, s, v.keep, v.carriedFiles, v.carriedEntries, j);
  }

  lemma CarriedLineSound(codec: Codec, s: State, v: Version, s': State, i: nat)
    requires Inv(codec, s) && Follows(codec, s, v, s') && i < |v.carriedFiles|
    ensures s'.lastName in s'.folder
    ensures Sound(codec, s', v.carriedFiles[i])
  {
    hide Inv, CreateArchive, EntryKey, ReadOwn, Follows, FileKey, NextTree, Packs, CarriesForward;
    FollowsMeans(codec, s, v, s');
    var j, k := CarriedLineOrigin(codec, s, v, s', i);
    CarriedEntryFound(codec, s, v, s', k);
    KeptKeepsContent(codec, s, v, s', (v.carriedFiles[i].src, v.carriedFiles[i].path));
  }

  lemma {:induction false} NotStored(parts: seq<Part>, key: (bytes, bytes))
    requires forall i :: 0 <= i < |parts| ==> (parts[i].src, parts[i].path) != key
    ensures key !in StoredTree(parts)
  {
    if parts != [] {
      NotStored(parts[..|parts| - 1], key);
    }
  }

  lemma KeptKeepsContent(codec: Codec, s: State, v: Version, s': State, key: (bytes, bytes))
    requires Follows(codec, s, v, s') && key in s.tree && FileKey(key.0, key.1) in v.keep
    ensures key in s'.tree && s'.tree[key] == s.tree[key]
  {
    hide CreateArchive, FileKey, CarriesForward, StoredTree, PlannedParts, ValidBuild;
    var parts := PlannedParts(v.build.planned);
    forall i | 0 <= i < |parts| ensures (parts[i].src, parts[i].path) != key {
      assert FileKey(parts[i].src, parts[i].path) !in v.keep;
    }
    NotStored(parts, key);
  }

  // --------------------------------------------------------------- the chain

  lemma FirstKeepsInv(codec: Codec, v: Version, s: State)
    requires codec.Lawful() && First(codec, v, s)
    ensures Inv(codec, s)
  {
    hide EntryKey, ReadOwn, OwnFileLines, StoredTree, PlannedParts, EntryMap, TarWalk.Walk, WriteAll, Sound, ValidBuild,
      OwnEntryLines;
    var files := s.folder[v.name].index.files;
    var parts := PlannedParts(v.build.planned);
    OwnLineCount(v.build.planned, 1);
    AllSound(codec, v, s, files);
    forall key | key in s.tree ensures Lists(files, key) {
      var i := StoredTreeOnly(parts, key);
      StoredIsListed(v.build.planned, files, i);
    }
  }

  lemma AllSound(codec: Codec, v: Version, s: State, files: seq<FileLine>)
    requires codec.Lawful() && ValidVersion(codec, v) && Carried(v.carriedEntries)
    requires CreateArchive(codec, v.build, v.carriedFiles, v.carriedEntries).Ok?
    requires s.lastName == v.name && v.name in s.folder
    requires s.folder[v.name] == CreateArchive(codec, v.build, v.carriedFiles, v.carriedEntries).value
    requires files == OwnFileLines(v.build.planned, 1) + LinkLines(v.build.links) + v.carriedFiles
    requires var stored := StoredTree(PlannedParts(v.build.planned));
             forall key :: key in stored ==> key in s.tree && s.tree[key] == stored[key]
    requires forall i :: 0 <= i < |v.carriedFiles| ==> Sound(codec, s, v.carriedFiles[i])
    ensures forall i :: 0 <= i < |files| ==> Sound(codec, s, files[i])
  {
    hide CreateArchive, EntryKey, ReadOwn, OwnFileLines, StoredTree, PlannedParts, ValidVersion;
    var own, links := OwnFileLines(v.build.planned, 1), LinkLines(v.build.links);
    OwnLineCount(v.build.planned, 1);
    forall i | 0 <= i < |files| ensures Sound(codec, s, files[i]) {
      if i < |own| {
        OwnLineSound(codec, v, s, i);
      } else if i < |own| + |links| {
        assert files[i] == links[i - |own|];
      } else {
        assert files[i] == v.carriedFiles[i - |own| - |links|];
      }
    }
  }

  lemma StoredIsListed(planned: seq<Planned>, files: seq<FileLine>, i: nat)
    requires i < |PlannedParts(planned)| && OwnFileLines(planned, 1) <= files
    ensures Lists(files, (PlannedParts(planned)[i].src, PlannedParts(planned)[i].path))
  {
    hide OwnFileLines, PlannedParts;
    var k := OwnLine(planned, 1, i);
    assert files[i] == OwnFileLines(planned, 1)[i];
  }

  lemma FollowsKeepsInv(codec: Codec, s: State, v: Version, s': State)
    requires codec.Lawful() && Inv(codec, s) && Follows(codec, s, v, s')
    ensures Inv(codec, s')
  {
    hide EntryKey, ReadOwn, OwnFileLines, StoredTree, PlannedParts, EntryMap, TarWalk.Walk, WriteAll, Sound, ValidBuild,
      OwnEntryLines, CarriesForward, FileKey, NextTree, Lists;
    CarriedAreMarked(codec, s, v, s');
    var files := s'.folder[v.name].index.files;
    assert files == OwnFileLines(v.build.planned, 1) + LinkLines(v.build.links) + v.carriedFiles;
    forall i | 0 <= i < |v.carriedFiles| ensures Sound(codec, s', v.carriedFiles[i]) {
      CarriedLineSound(codec, s, v, s', i);
    }
    NextTreeHas(codec, s, v, s');
    AllSound(codec, v, s', files);
    forall key | key in s'.tree ensures Lists(files, key) {
      NextIsListed(codec, s, v, s', key);
    }
  }

  lemma NextTreeHas(codec: Codec, s: State, v: Version, s': State)
    requires Follows(codec, s, v, s')
    ensures var stored := StoredTree(PlannedParts(v.build.planned));
            forall key :: key in stored ==> key in s'.tree && s'.tree[key] == stored[key]
  {
    hide StoredTree, PlannedParts, ValidVersion, CarriesForward, CreateArchive;
  }

  lemma NextIsListed(codec: Codec, s: State, v: Version, s': State, key: (bytes, bytes))
    requires Inv(codec, s) && Follows(codec, s, v, s') && key in s'.tree && v.name in s'.folder
    requires s'.folder[v.name].index.files ==
             OwnFileLines(v.build.planned, 1) + LinkLines(v.build.links) + v.carriedFiles
    ensures Lists(s'.folder[v.name].index.files, key)
  {
    hide Inv, StoredTree, PlannedParts, OwnFileLines, ValidVersion, CarriesForward, CreateArchive, FileKey;
    var files, parts := s'.folder[v.name].index.files, PlannedParts(v.build.planned);
    var own, links := OwnFileLines(v.build.planned, 1), LinkLines(v.build.links);
    if key in StoredTree(parts) {
      var i := StoredTreeOnly(parts, key);
      StoredIsListed(v.build.planned, files, i);
    } else {
      KeptIsListed(codec, s, v, s', key);
      var i :| 0 <= i < |v.carriedFiles| && v.carriedFiles[i].lnk.None?
               && (v.carriedFiles[i].src, v.carriedFiles[i].path) == key;
      assert files[|own| + |links| + i] == v.carriedFiles[i];
    }
  }

  lemma KeptIsListed(codec: Codec, s: State, v: Version, s': State, key: (bytes, bytes))
    requires Inv(codec, s) && Follows(codec, s, v, s')
    requires key in s.tree && FileKey(key.0, key.1) in v.keep
    ensures Lists(v.carriedFiles, key)
  {
    hide CreateArchive, Sound, CarriedFiles, FileKey, ValidBuild;
    var files := s.folder[s.lastName].index.files;
    var j :| 0 <= j < |files| && files[j].lnk.None? && (files[j].src, files[j].path) == key;
    KeptIsCarried(files, s.lastName, v.keep, j);
  }

  lemma {:induction false} HistoryKeepsInv(codec: Codec, versions: seq<Version>, states: seq<State>, i: nat)
    requires codec.Lawful() && History(codec, versions, states) && i < |states|
    ensures Inv(codec, states[i])
  {
    if i == 0 {
      FirstKeepsInv(codec, versions[0], states[0]);
    } else {
      HistoryKeepsInv(codec, versions, states, i - 1);
      FollowsKeepsInv(codec, states[i - 1], versions[i], states[i]);
    }
  }

  /** These siblings hold every archive the newest one depends on, as it was written. */
  predicate HoldsDeps(s: State, chain: map<bytes, ArchiveFile>)
    requires s.lastName in s.folder
  {
    forall d :: d in s.folder[s.lastName].index.deps && d in s.folder ==> d in chain && chain[d] == s.folder[d]
  }

  /** Resolving a line through its opened chain leads to the archive that holds it, and to its own entry there. */
  lemma ResolvesToHolder(codec: Codec, s: State, chain: map<bytes, ArchiveFile>, line: FileLine)
    requires Inv(codec, s) && HoldsDeps(s, chain) && line in s.folder[s.lastName].index.files && line.lnk.None?
    ensures var archive, holder := s.folder[s.lastName], Holder(line, s.lastName);
            && line.n.Some? && holder in s.folder
            && EntryKey(None, line.n.value) in s.folder[holder].index.entries
            && var entry := s.folder[holder].index.entries[EntryKey(None, line.n.value)];
            && ResolveEntry(archive, chain, line.n.value, line.a) == Ok((s.folder[holder], entry))
            && (entry.bundle <==> line.slice.Some?)
  {
    hide EntryKey, ReadOwn;
    assert Sound(codec, s, line);
  }

  /** Reading a line through its opened chain is reading it from the archive that holds it. */
  lemma ReadsThroughHolder(codec: Codec, s: State, chain: map<bytes, ArchiveFile>, line: FileLine)
    requires Inv(codec, s) && HoldsDeps(s, chain) && line in s.folder[s.lastName].index.files && line.lnk.None?
    ensures var archive := s.folder[s.lastName];
            && (line.src, line.path) in s.tree
            && ReadFileFromArchive(codec, archive, chain, line) == Ok(s.tree[(line.src, line.path)])
  {
    hide EntryKey, DecodeEntry, ResolveEntry;
    ResolvesToHolder(codec, s, chain, line);
    assert Sound(codec, s, line);
  }

  // ------------------------------------------------------ opened from its bytes

  /** The files of the folder, as anything that reads them sees them. */
  function FilesOf(s: State): map<bytes, bytes> {
    map name | name in s.folder :: s.folder[name].file
  }

  /** The archive of a version, as it was written. */
  ghost predicate ArchiveOf(codec: Codec, v: Version, archive: ArchiveFile) {
    && Packs(codec, v.build) && CreateArchive(codec, v.build, v.carriedFiles, v.carriedEntries) == Ok(archive)
    && WrittenOut(codec, v.build, v.index, archive)
  }

  lemma StepBuilds(codec: Codec, s: State, v: Version, s': State)
    requires Follows(codec, s, v, s')
    ensures v.name == s'.lastName && v.name in s'.folder && ArchiveOf(codec, v, s'.folder[v.name])
    ensures v.name !in s.folder && s'.folder == s.folder[v.name := s'.folder[v.name]]
  {
    hide CreateArchive, WrittenOut, CarriesForward, NextTree, Packs;
  }

  lemma FirstBuilds(codec: Codec, v: Version, s: State)
    requires First(codec, v, s)
    ensures v.name == s.lastName && s.folder.Keys == {v.name} && ArchiveOf(codec, v, s.folder[v.name])
  {
    hide CreateArchive, WrittenOut, Packs;
  }

  /** Every archive in the folder is the one of some version so far. */
  lemma {:induction false} FolderBuilds(codec: Codec, versions: seq<Version>, states: seq<State>, i: nat, name: bytes)
    returns (k: nat)
    requires History(codec, versions, states) && i < |states| && name in states[i].folder
    ensures k <= i && k < |versions| && versions[k].name == name
    ensures ArchiveOf(codec, versions[k], states[i].folder[name])
  {
    hide First, Follows, ArchiveOf;
    if i == 0 {
      FirstBuilds(codec, versions[0], states[0]);
      assert name in states[0].folder.Keys;
      k := 0;
    } else {
      assert Follows(codec, states[i - 1], versions[i], states[i]);
      StepBuilds(codec, states[i - 1], versions[i], states[i]);
      if name == versions[i].name {
        k := i;
      } else {
        k := FolderBuilds(codec, versions, states, i - 1, name);
      }
    }
  }

  /** The folder's archive of every version so far. */
  lemma {:induction false} VersionInFolder(codec: Codec, versions: seq<Version>, states: seq<State>, i: nat, k: nat)
    requires History(codec, versions, states) && k <= i < |states|
    ensures versions[k].name in states[i].folder
    ensures ArchiveOf(codec, versions[k], states[i].folder[versions[k].name])
  {
    hide First, Follows, ArchiveOf;
    if i == 0 {
      FirstBuilds(codec, versions[0], states[0]);
      assert versions[0].name in states[0].folder.Keys;
    } else {
      assert Follows(codec, states[i - 1], versions[i], states[i]);
      StepBuilds(codec, states[i - 1], versions[i], states[i]);
      if k < i {
        VersionInFolder(codec, versions, states, i - 1, k);
      }
    }
  }

  /** The newest archive itself, or one it depends on. */
  predicate Needs(s: State, name: bytes)
    requires s.lastName in s.folder
  {
    name == s.lastName || name in s.folder[s.lastName].index.deps
  }

  /** What is read for the manifest of every archive that is needed leads to that archive's own secret. */
  ghost predicate AllOpenRight(codec: Codec, versions: seq<Version>, s: State, i: nat)
    requires i < |versions| && s.lastName in s.folder
  {
    forall k :: 0 <= k <= i && Needs(s, versions[k].name) ==>
      Finished(versions[k].build, versions[k].index) && OpensRight(codec, versions[k].build, versions[k].index)
  }

  lemma ArchiveOpens(codec: Codec, v: Version, archive: ArchiveFile)
    requires ArchiveOf(codec, v, archive)
    ensures Finished(v.build, v.index)
    ensures Opened(codec, archive.file) == Ok(archive) <==> OpensRight(codec, v.build, v.index)
  {
    hide CreateArchive, Opened, OpensRight, OpenArchive, Finished, Packs;
    OpensExactly(codec, v.build, v.index, v.carriedFiles, v.carriedEntries);
  }

  lemma OneEach(codec: Codec, versions: seq<Version>, states: seq<State>)
    requires History(codec, versions, states)
    ensures |versions| == |states|
  {
  }

  lemma NeededOpen(codec: Codec, versions: seq<Version>, states: seq<State>, i: nat)
    requires History(codec, versions, states) && i < |states| && states[i].lastName in states[i].folder
    ensures AllOpenRight(codec, versions, states[i], i) <==>
            forall name :: Needs(states[i], name) && name in states[i].folder ==>
              Opened(codec, states[i].folder[name].file) == Ok(states[i].folder[name])
  {
    hide History, ArchiveOf, Opened, OpensRight, Finished, Needs;
    OneEach(codec, versions, states);
    var s := states[i];
    forall k | 0 <= k <= i
      ensures versions[k].name in s.folder && Finished(versions[k].build, versions[k].index)
      ensures Opened(codec, s.folder[versions[k].name].file) == Ok(s.folder[versions[k].name]) <==>
              OpensRight(codec, versions[k].build, versions[k].index)
    {
      VersionInFolder(codec, versions, states, i, k);
      ArchiveOpens(codec, versions[k], s.folder[versions[k].name]);
    }
    if AllOpenRight(codec, versions, s, i) {
      forall name | Needs(s, name) && name in s.folder
        ensures Opened(codec, s.folder[name].file) == Ok(s.folder[name])
      {
        var k := FolderBuilds(codec, versions, states, i, name);
      }
    }
  }

  /** Opening the newest archive gives what was written, and finds every sibling as it was written. */
  ghost predicate OpensAsWritten(codec: Codec, s: State)
    requires s.lastName in s.folder
  {
    var found := OpenSnapshot(codec, FilesOf(s), s.lastName);
    && found.Ok? && found.value.archive == s.folder[s.lastName] && found.value.siblings.missing == []
    && HoldsDeps(s, found.value.siblings.chain)
  }

  /**
   * Opened from nothing but its files, a chain is what was written if and only if what is read for the
   * manifest of each needed archive leads to that archive's own secret.
   */
  lemma OpensAsWrittenExactly(codec: Codec, versions: seq<Version>, states: seq<State>, i: nat)
    requires codec.Lawful() && History(codec, versions, states) && i < |states|
    ensures states[i].lastName in states[i].folder
    ensures OpensAsWritten(codec, states[i]) <==> AllOpenRight(codec, versions, states[i], i)
  {
    hide History, Opened, AllOpenRight, Inv;
    var s := states[i];
    HistoryKeepsInv(codec, versions, states, i);
    InvMeans(codec, s);
    NeededOpen(codec, versions, states, i);
    OpenedChainExact(codec, FilesOf(s), s.folder[s.lastName].index.deps);
    forall d | d in s.folder[s.lastName].index.deps ensures d in s.folder {
      DepsInFolder(codec, s, d);
    }
    NoneMissing(codec, s);
  }

  lemma NoneMissing(codec: Codec, s: State)
    requires s.lastName in s.folder && forall d :: d in s.folder[s.lastName].index.deps ==> d in s.folder
    ensures var r := OpenedChain(codec, FilesOf(s), s.folder[s.lastName].index.deps);
            r.Ok? ==> r.value.missing == []
  {
    hide Opened;
    OpenedChainExact(codec, FilesOf(s), s.folder[s.lastName].index.deps);
    var r := OpenedChain(codec, FilesOf(s), s.folder[s.lastName].index.deps);
    if r.Ok? && r.value.missing != [] {
      assert r.value.missing[0] in r.value.missing;
    }
  }

  /** What opening this snapshot finds: nothing missing, every file of the tree, and each read as the tree has it. */
  ghost predicate Restores(codec: Codec, s: State, tree: Tree) {
    var found := OpenSnapshot(codec, FilesOf(s), s.lastName);
    && found.Ok? && found.value.siblings.missing == []
    && var archive, chain := found.value.archive, found.value.siblings.chain;
    && (forall key :: key in tree ==> Lists(archive.index.files, key))
    && (forall line :: line in archive.index.files && line.lnk.None? ==>
          && (line.src, line.path) in tree
          && ReadFileFromArchive(codec, archive, chain, line) == Ok(tree[(line.src, line.path)]))
  }

  /**
   * For every history and every archive of it, opened from nothing but the files of its folder: it opens
   * as it was written if and only if each needed archive's manifest is read right, and then nothing is
   * missing, every file of the tree is listed, and every listed file reads back as exactly the tree has it.
   */
  lemma ChainRestoresTree(codec: Codec, versions: seq<Version>, states: seq<State>, i: nat)
    requires codec.Lawful() && History(codec, versions, states) && i < |states|
    ensures states[i].lastName in states[i].folder
    ensures OpensAsWritten(codec, states[i]) <==> AllOpenRight(codec, versions, states[i], i)
    ensures AllOpenRight(codec, versions, states[i], i) ==> Restores(codec, states[i], states[i].tree)
  {
    hide ReadFileFromArchive, OpenSnapshot, History, Sound, AllOpenRight, FilesOf;
    OneEach(codec, versions, states);
    HistoryKeepsInv(codec, versions, states, i);
    OpensAsWrittenExactly(codec, versions, states, i);
    var s := states[i];
    if AllOpenRight(codec, versions, s, i) {
      var found := OpenSnapshot(codec, FilesOf(s), s.lastName).value;
      forall line | line in found.archive.index.files && line.lnk.None?
        ensures (line.src, line.path) in s.tree
        ensures ReadFileFromArchive(codec, found.archive, found.siblings.chain, line) ==
                Ok(s.tree[(line.src, line.path)])
      {
        ReadsThroughHolder(codec, s, found.siblings.chain, line);
      }
    }
  }

  /** Where the names of a plan survive reading by pattern, its archive opens right. */
  lemma SurvivingNamesOpen(codec: Codec, v: Version, archive: ArchiveFile)
    requires ArchiveOf(codec, v, archive)
    requires forall item :: item in v.build.members + v.build.linkMembers ==>
               item.Valid() && Survives(Pattern, item)
               && item.naming.FullName() != [] && item.naming.FullName()[0] in {100, 115}
    ensures Finished(v.build, v.index) && OpensRight(codec, v.build, v.index)
  {
    hide CreateArchive, Opened, OpensRight, OpenArchive, Finished, Packs, ReadName;
    SurvivingNamesAreNoManifest(v.build, v.index);
    OpensExactly(codec, v.build, v.index, v.carriedFiles, v.carriedEntries);
  }

  /** Encrypted archives always do: no opaque name holds a line end. */
  lemma OpaqueNamesOpen(codec: Codec, v: Version, archive: ArchiveFile)
    requires ArchiveOf(codec, v, archive) && v.build.linkMembers == []
    requires forall k :: 0 <= k < |v.build.planned| ==> v.build.planned[k].member == OpaqueName(k + 1)
    ensures Finished(v.build, v.index) && OpensRight(codec, v.build, v.index)
  {
    hide CreateArchive, WrittenOut, OpensRight, ReadName, Stored, OpaqueName, PaxPath, NoLineEnd;
    var members := v.build.members;
    forall item | item in members + v.build.linkMembers
      ensures item.Valid() && Survives(Pattern, item)
      ensures item.naming.FullName() != [] && item.naming.FullName()[0] in {100, 115}
    {
      var k :| 0 <= k < |members| && members[k] == item;
      assert v.build.Items()[k + 1] == item;
      OpaqueIsOneLine(k + 1);
      NothingBefore();
      OneLineSurvives(item);
    }
    SurvivingNamesOpen(codec, v, archive);
  }

  lemma OpaqueIsOneLine(n: nat)
    ensures OpaqueName(n) != [] && OpaqueName(n)[0] == 100 && NoLineEnd(OpaqueName(n))
  {
    hide Decimal;
    var name := OpaqueName(n);
    forall i | 0 <= i <= |name| ensures !StartsLineEnd(name[i..]) {
      assert i < |name| ==> name[i..][0] == name[i];
    }
  }

  lemma NothingBefore()
    ensures PaxPath([]) == None
  {
  }

  // -------------------------------------------------------- given snapshots

  /** Only files that did not change are kept, the plan holds what the tree now has, and nothing is forgotten. */
  ghost predicate Records(keep: set<bytes>, stored: Tree, previous: Tree, tree: Tree) {
    && (forall key :: key in previous && FileKey(key.0, key.1) in keep ==> key in tree && tree[key] == previous[key])
    && (forall key :: key in stored ==> key in tree && tree[key] == stored[key])
    && (forall key :: key in tree ==> key in stored || (key in previous && FileKey(key.0, key.1) in keep))
  }

  /** A run preserves a given tree if and only if it keeps and stores the right files for it. */
  lemma NextTreeExact(keep: set<bytes>, stored: Tree, previous: Tree, tree: Tree)
    requires forall key :: key in stored ==> FileKey(key.0, key.1) !in keep
    ensures NextTree(previous, keep, stored) == tree <==> Records(keep, stored, previous, tree)
  {
    hide FileKey;
    var next := NextTree(previous, keep, stored);
    if next == tree {
      forall key | key in previous && FileKey(key.0, key.1) in keep ensures key in tree && tree[key] == previous[key] {
        assert key in next;
      }
      forall key | key in stored ensures key in tree && tree[key] == stored[key] {
        assert key in next;
      }
    }
    if Records(keep, stored, previous, tree) {
      assert next == tree;
    }
  }

  /** Each run of the history is asked to preserve its snapshot. */
  ghost predicate RecordsAll(versions: seq<Version>, snapshots: seq<Tree>) {
    && |versions| == |snapshots| > 0
    && StoredTree(PlannedParts(versions[0].build.planned)) == snapshots[0]
    && forall i {:trigger snapshots[i]} :: 0 < i < |snapshots| ==>
         Records(versions[i].keep, StoredTree(PlannedParts(versions[i].build.planned)), snapshots[i - 1], snapshots[i])
  }

  lemma {:induction false} TreesAreSnapshots(codec: Codec, versions: seq<Version>, states: seq<State>,
                                             snapshots: seq<Tree>, i: nat)
    requires History(codec, versions, states) && RecordsAll(versions, snapshots) && i < |states|
    ensures states[i].tree == snapshots[i]
  {
    hide CreateArchive, CarriesForward, Records, StoredTree, NextTree, ValidBuild;
    if i > 0 {
      TreesAreSnapshots(codec, versions, states, snapshots, i - 1);
      var v := versions[i];
      var stored := StoredTree(PlannedParts(v.build.planned));
      assert Follows(codec, states[i - 1], v, states[i]);
      assert snapshots[i] == snapshots[i];
      assert Records(v.keep, stored, snapshots[i - 1], snapshots[i]);
      forall key | key in stored ensures FileKey(key.0, key.1) !in v.keep {
        var k := StoredTreeOnly(PlannedParts(v.build.planned), key);
      }
      NextTreeExact(v.keep, stored, snapshots[i - 1], snapshots[i]);
    }
  }

  /**
   * For every sequence of snapshots stored as a chain: any archive of it, opened from nothing but the files
   * of the folder, lists every file of its snapshot and reads each as exactly the snapshot has it, where
   * each needed archive's manifest is read right. Where one is not, the chain does not open as written.
   */
  lemma ChainRestoresSnapshots(codec: Codec, versions: seq<Version>, states: seq<State>, snapshots: seq<Tree>, i: nat)
    requires codec.Lawful() && History(codec, versions, states) && RecordsAll(versions, snapshots) && i < |states|
    ensures states[i].lastName in states[i].folder
    ensures OpensAsWritten(codec, states[i]) <==> AllOpenRight(codec, versions, states[i], i)
    ensures AllOpenRight(codec, versions, states[i], i) ==> Restores(codec, states[i], snapshots[i])
  {
    hide *;
    ChainRestoresTree(codec, versions, states, i);
    TreesAreSnapshots(codec, versions, states, snapshots, i);
  }

  /** Encrypted archives need no care with names: opaque ones never repeat. */
  lemma OpaqueNamesNeverRepeat(codec: Codec, build: Build)
    requires Packs(codec, build) && build.linkMembers == []
    requires forall k :: 0 <= k < |build.planned| ==> build.planned[k].member == OpaqueName(k + 1)
    ensures NamesDistinct(build)
  {
    hide OpaqueName, Packs, ReadName;
    NameInItems(codec, build, 0);
    var items := build.Items();
    forall k, j | 1 <= k <= |build.planned| && k < j < |items|
      ensures ReadName(Length, items[j]) != ReadName(Length, items[k])
    {
      NameInItems(codec, build, j - 1);
      NameInItems(codec, build, k - 1);
      OpaqueNamesDistinct(j, k);
    }
  }

  lemma NameInItems(codec: Codec, build: Build, k: nat)
    requires Packs(codec, build) && build.linkMembers == []
    ensures AllValid(build.Items()) && |build.members| == |build.planned| && |build.Items()| == |build.planned| + 1
    ensures k < |build.planned| ==> ReadName(Length, build.Items()[k + 1]) == build.planned[k].member
  {
    hide Stored, ReadName;
    if k < |build.planned| {
      PlannedNameRead(codec, build, k);
    }
  }

  lemma DepsInFolder(codec: Codec, s: State, d: bytes)
    requires Inv(codec, s) && d in s.folder[s.lastName].index.deps
    ensures d in s.folder
  {
    var files := s.folder[s.lastName].index.files;
    var i :| 0 <= i < |files| && files[i].a == Some(d);
    assert Sound(codec, s, files[i]);
  }

  // ----------------------------------------------------------- never stuck

  lemma CoversMore(previous: Index, needed: map<bytes, Option<bytes>>, keys: set<bytes>, before: seq<EntryLine>,
                   key: bytes, entry: EntryLine)
    requires Covers(previous, needed, keys - {key}, before) && LedTo(previous, needed, key, entry)
    ensures Covers(previous, needed, keys, before + [entry])
  {
    var entries := before + [entry];
    assert LedTo(previous, needed, key, entries[|before|]);
    forall k | k in keys ensures exists i :: 0 <= i < |entries| && LedTo(previous, needed, k, entries[i]) {
      if k != key {
        assert k in keys - {key};
        var i :| 0 <= i < |before| && LedTo(previous, needed, k, before[i]);
        assert LedTo(previous, needed, k, entries[i]);
      }
    }
    forall i | 0 <= i < |entries| ensures exists k :: k in needed && LedTo(previous, needed, k, entries[i]) {
      if i < |before| {
        var k :| k in needed && LedTo(previous, needed, k, before[i]);
        assert LedTo(previous, needed, k, entries[i]);
      }
    }
  }

  /** One entry line for each of these needed keys. */
  lemma {:induction false} EntriesFor(codec: Codec, s: State, keep: set<bytes>, keys: set<bytes>)
    returns (entries: seq<EntryLine>)
    requires Inv(codec, s) && keys <= NeededEntries(s.folder[s.lastName].index.files, s.lastName, keep).Keys
    ensures var index := s.folder[s.lastName].index;
            Covers(index, NeededEntries(index.files, s.lastName, keep), keys, entries)
    decreases |keys|
  {
    hide NeededEntries, CarriedEntry, Inv, EntryKey, Sound, Covers;
    InvMeans(codec, s);
    var index := s.folder[s.lastName].index;
    var needed := NeededEntries(index.files, s.lastName, keep);
    if keys == {} {
      entries := [];
      CoversNothing(index, needed);
    } else {
      var key :| key in keys;
      var before := EntriesFor(codec, s, keep, keys - {key});
      var j := CarriedEntryExact(codec, s, keep, key);
      var entry := CarriedEntry(index.entries, key, needed[key]).value;
      entries := before + [entry];
      CoversMore(index, needed, keys, before, key, entry);
    }
  }

  lemma CoversNothing(previous: Index, needed: map<bytes, Option<bytes>>)
    ensures Covers(previous, needed, {}, [])
  {
  }

  /** A plan whose manifest is the archive's first member, and leads to the secret everything is sealed with. */
  ghost predicate ValidPlan(codec: Codec, build: Build) {
    && ValidBuild(codec, build) && build.manifest.naming == Short(MANIFEST_MEMBER)
    && codec.readManifest(build.manifest.payload) == Some(build.secret)
  }

  /** With the index filled in as the last member, a valid plan is a valid build. */
  lemma PlanCloses(codec: Codec, build: Build, files: seq<FileLine>, entries: seq<EntryLine>)
    returns (closed: Build, index: Item)
    requires codec.Lawful() && ValidPlan(codec, build) && CreateArchive(codec, build, files, entries).Ok?
    requires IndexFits(codec, build.secret, CreateArchive(codec, build, files, entries).value.index)
    ensures closed == build.(indexRecord := closed.indexRecord) && ValidBuild(codec, closed)
    ensures CreateArchive(codec, closed, files, entries).Ok?
    ensures WrittenOut(codec, closed, index, CreateArchive(codec, closed, files, entries).value)
  {
    hide CreateArchive, WrittenOut, Packs, NamesDistinct, Closed, IndexFits, PlannedParts;
    BuildPacks(codec, build);
    var said := CreateArchive(codec, build, files, entries).value.index;
    closed, index := ClosedBuild(codec, build, said), IndexItem(codec, build.secret, said);
    ClosedIsWrittenOut(codec, build, files, entries);
    SameDistinct(codec, build, closed.indexRecord);
  }

  ghost function ClosedBuild(codec: Codec, build: Build, index: Index): (closed: Build)
    requires IndexFits(codec, build.secret, index)
    ensures closed == build.(indexRecord := closed.indexRecord)
  {
    Closed(codec, build, index)
  }

  lemma SameDistinct(codec: Codec, build: Build, record: bytes)
    requires ValidBuild(codec, build)
    ensures ValidBuild(codec, build.(indexRecord := record))
  {
    hide Stored, NameIsLast;
    assert build.(indexRecord := record).Items() == build.Items();
  }

  /** A full backup of any valid plan starts a history. */
  lemma FirstAlwaysPossible(codec: Codec, name: bytes, build: Build) returns (v: Version, s: State)
    requires codec.Lawful() && ValidPlan(codec, build) && name != []
    requires CreateArchive(codec, build, [], []).Ok? ==>
               IndexFits(codec, build.secret, CreateArchive(codec, build, [], []).value.index)
    ensures v == Version(name, build.(indexRecord := v.build.indexRecord), v.index, {}, [], []) && First(codec, v, s)
  {
    hide CreateArchive, ValidBuild, Packs, WrittenOut, IndexFits;
    BuildPacks(codec, build);
    AlwaysCreated(codec, build, [], []);
    var closed, index := PlanCloses(codec, build, [], []);
    v := Version(name, closed, index, {}, [], []);
    s := State(map[name := CreateArchive(codec, closed, [], []).value], name, StoredTree(PlannedParts(build.planned)));
  }

  lemma BuildPacks(codec: Codec, build: Build)
    requires ValidBuild(codec, build)
    ensures Packs(codec, build) && AllValid(build.Items()) && |build.members| == |build.planned|
  {
  }

  /** The index of the archive that would follow is one a TAR member can hold. */
  ghost predicate NextFits(codec: Codec, s: State, build: Build, keep: set<bytes>)
    requires Packs(codec, build)
  {
    forall files, entries ::
      && s.lastName in s.folder
      && CarriesForward(s.folder[s.lastName].index, s.lastName, keep, files, entries)
      && CreateArchive(codec, build, files, entries).Ok?
      ==> IndexFits(codec, build.secret, CreateArchive(codec, build, files, entries).value.index)
  }

  /**
   * Carrying forward never fails along a history: whatever is kept and whatever valid plan is stored,
   * the next archive can be made.
   */
  lemma NextAlwaysPossible(codec: Codec, s: State, name: bytes, build: Build, keep: set<bytes>)
    returns (v: Version, s': State)
    requires codec.Lawful() && Inv(codec, s) && ValidPlan(codec, build) && name != [] && name !in s.folder
    requires forall i :: 0 <= i < |PlannedParts(build.planned)| ==>
               FileKey(PlannedParts(build.planned)[i].src, PlannedParts(build.planned)[i].path) !in keep
    requires NextFits(codec, s, build, keep)
    ensures v.name == name && v.build == build.(indexRecord := v.build.indexRecord) && v.keep == keep
    ensures Follows(codec, s, v, s')
  {
    hide CreateArchive, NeededEntries, CarriedFiles, Inv, Packs, ValidBuild, Covers, FileKey, WrittenOut, IndexFits;
    InvMeans(codec, s);
    BuildPacks(codec, build);
    var index := s.folder[s.lastName].index;
    var files := CarriedFiles(index.files, s.lastName, keep);
    var entries := EntriesFor(codec, s, keep, NeededEntries(index.files, s.lastName, keep).Keys);
    AlwaysCreated(codec, build, files, entries);
    var closed, item := PlanCloses(codec, build, files, entries);
    v := Version(name, closed, item, keep, files, entries);
    assert ValidVersion(codec, v) by {
      assert PlannedParts(v.build.planned) == PlannedParts(build.planned);
    }
    s' := State(s.folder[name := CreateArchive(codec, closed, files, entries).value], name,
                NextTree(s.tree, keep, StoredTree(PlannedParts(build.planned))));
  }
}
