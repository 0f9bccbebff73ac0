/** What an extraction run guarantees about the disk, over every state it passes through. */
module ExtractSafety {
  import opened Bytes
  import opened Paths
  import opened Disk
  import opened Extract

  /** The output directory leads to a physical place that holds no link below it. */
  ghost predicate Rooted(d: Disk, root: Path, at: Path) {
    Physical(d.links, root) == Some(at) && NoLinksBelow(d.links, at)
  }

  predicate SameFile(d: Disk, e: Disk, spot: Path) {
    (spot in d.files <==> spot in e.files) && (spot in d.files ==> d.files[spot] == e.files[spot])
  }

  function Prefixes(path: Path): set<Path> {
    set k | 0 <= k <= |path| :: path[..k]
  }

  /** The only differences: files at these spots, and directories on the way to `dir`. */
  ghost predicate Touches(d: Disk, e: Disk, spots: set<Path>, dir: Path) {
    && e.links == d.links
    && (forall q :: q !in spots ==> SameFile(d, e, q))
    && d.dirs <= e.dirs && e.dirs <= d.dirs + Prefixes(dir)
  }

  // ------------------------------------------------------------- single steps

  lemma MakeDirsBelow(d: Disk, root: Path, at: Path, names: Path)
    requires Rooted(d, root, at) && Plain(names) && MakeDirs(d, root + names).Some?
    ensures MakeDirs(d, root + names).value == d.(dirs := d.dirs + Prefixes(at + names))
  {
    PhysicalBelow(d.links, root, at, names);
  }

  lemma PartialBelow(root: Path, names: Path)
    requires names != [] && Plain(names)
    ensures Suffixed(root + names) == root + Suffixed(names) && Plain(Suffixed(names))
    ensures |Suffixed(names)| == |names| && Parent(Suffixed(names)) == Parent(names)
    ensures Parent(root + names) == root + Parent(names)
    ensures Suffixed(names) != names
  {
    var last := names[|names| - 1];
    assert PlainName(last);
    assert PlainName(last + ".partial") by {
      assert |last + ".partial"| > 2;
    }
    assert (root + names)[|root + names| - 1] == last;
    assert Suffixed(names)[|names| - 1] == last + ".partial";
    assert |last + ".partial"| != |last|;
  }

  lemma NotALink(d: Disk, root: Path, at: Path, names: Path)
    requires Rooted(d, root, at) && names != []
    ensures at + names !in d.links
  {
    assert (at + names)[..|at|] == at;
  }

  /** Removing, writing and renaming below a link-free root touch exactly the entries named. */
  lemma RemoveBelow(d: Disk, root: Path, at: Path, names: Path)
    requires Rooted(d, root, at) && Plain(names) && names != []
    ensures Removed(d, root + names) == if IsDir(d, at + names) then d else d.(files := d.files - {at + names})
  {
    PhysicalBelow(d.links, root, at, names);
    NotALink(d, root, at, names);
  }

  lemma RenameBelow(d: Disk, root: Path, at: Path, from: Path, to: Path)
    requires Rooted(d, root, at) && Plain(from) && Plain(to) && from != [] && to != [] && at + from in d.files
    ensures Renamed(d, root + from, root + to) ==
            if IsDir(d, at + to) then None
            else Some(d.(files := (d.files - {at + from})[at + to := d.files[at + from]]))
  {
    hide Slot, Physical;
    PhysicalBelow(d.links, root, at, from);
    PhysicalBelow(d.links, root, at, to);
    NotALink(d, root, at, to);
    assert d.links - {at + to} == d.links;
  }

  // ------------------------------------------------------ verify before visible

  /** The disk with the partial file taken away again, unless a directory has its name. */
  function Swept(d: Disk, partial: Path): Disk {
    if IsDir(d, partial) then d else d.(files := d.files - {partial})
  }

  /** What streaming does once the directories are there, as plain changes to files. */
  function PlainRun(d1: Disk, target: Path, partial: Path, delivery: Delivery, accepted: bool)
    : (StreamResult, seq<Disk>)
  {
    var content := Concat(delivery.chunks);
    if IsDir(d1, partial) then (Threw, [d1, d1])
    else
      var states := [d1] + Appending(d1, partial, delivery.chunks);
      var full := d1.(files := d1.files[partial := content]);
      if delivery.broken then (Threw, states + [Swept(full, partial)])
      else if !accepted then (Mismatch, states + [Swept(full, partial)])
      else if IsDir(d1, target) then (Threw, states)
      else (Written(true), states + [d1.(files := (d1.files - {partial})[target := content])])
  }

  lemma StreamIsPlain(d: Disk, root: Path, at: Path, names: Path, size: nat, delivery: Delivery,
                      expected: Option<bytes>, sha: bytes -> bytes)
    requires Rooted(d, root, at) && Plain(names) && names != []
    requires MakeDirs(d, Parent(root + names)).Some?
    ensures var d1 := d.(dirs := d.dirs + Prefixes(at + Parent(names)));
            StreamRun(d, root + names, size, delivery, expected, sha) ==
            if size == 0 then (Threw, [d1])
            else
              PlainRun(d1, at + names, at + Suffixed(names), delivery, HashOk(sha, expected, Concat(delivery.chunks)))
  {
    hide MakeDirs, Removed, Renamed, HashOk, WritableAt, Suffixed;
    PartialBelow(root, names);
    MakeDirsBelow(d, root, at, Parent(names));
    if size > 0 {
      var d1 := MakeDirs(d, Parent(root + names)).value;
      var partial := at + Suffixed(names);
      WriteBelow(d1, root, at, Suffixed(names));
      RemoveBelow(d1, root, at, Suffixed(names));
      assert IsDir(d1, at + Parent(names)) by {
        assert at + Parent(names) == (at + Parent(names))[..|at + Parent(names)|];
      }
      if WritableAt(d1, root + Suffixed(names)).Some? {
        var appending := Appending(d1, partial, delivery.chunks);
        var full := d1.(files := d1.files[partial := Concat(delivery.chunks)]);
        assert ([d1] + appending)[|appending|] == full;
        RemoveBelow(full, root, at, Suffixed(names));
        RenameBelow(full, root, at, Suffixed(names), names);
        assert d1.files - {partial} == full.files - {partial};
      }
    }
  }

  lemma TargetIsNotPartial(at: Path, names: Path)
    requires names != [] && Plain(names)
    ensures at + names != at + Suffixed(names)
  {
    PartialBelow([], names);
    assert (at + names)[|at|..] == names && (at + Suffixed(names))[|at|..] == Suffixed(names);
  }

  lemma PlainRunTouches(d: Disk, target: Path, partial: Path, dir: Path, delivery: Delivery, accepted: bool)
    requires target != partial
    ensures var d1 := d.(dirs := d.dirs + Prefixes(dir));
            var (result, states) := PlainRun(d1, target, partial, delivery, accepted);
            && states != []
            && (forall e :: e in states ==> Touches(d, e, {target, partial}, dir))
            && (forall k {:trigger states[k]} :: 0 <= k < |states| && (k < |states| - 1 || !result.Written?) ==>
                  SameFile(d, states[k], target))
  {
    hide Prefixes;
    var d1 := d.(dirs := d.dirs + Prefixes(dir));
    var (result, states) := PlainRun(d1, target, partial, delivery, accepted);
    var appending := Appending(d1, partial, delivery.chunks);
    forall k {:trigger states[k]} | 0 <= k < |states|
      ensures Touches(d, states[k], {target, partial}, dir)
      ensures k < |states| - 1 || !result.Written? ==> SameFile(d, states[k], target)
    {
      if !IsDir(d1, partial) && 0 < k <= |appending| {
        assert states[k] == appending[k - 1];
      }
    }
  }

  lemma PlainRunEnds(d1: Disk, target: Path, partial: Path, delivery: Delivery, accepted: bool)
    ensures var (result, states) := PlainRun(d1, target, partial, delivery, accepted);
            && states != []
            && (result.Written? ==>
                  && !delivery.broken && accepted
                  && states[|states| - 1].files == (d1.files - {partial})[target := Concat(delivery.chunks)])
            && (result.Mismatch? ==>
                  !delivery.broken && !accepted && states[|states| - 1].files == d1.files - {partial})
  {
    hide Concat;
    assert d1.files[partial := Concat(delivery.chunks)] - {partial} == d1.files - {partial};
  }

  /**
   * What one streamed entry does, state by state. Until the very last state the target shows what it
   * showed before; that last state shows the whole verified entry, and only if nothing failed.
   */
  lemma VerifyBeforeVisible(d: Disk, root: Path, at: Path, names: Path, size: nat, delivery: Delivery,
                            expected: Option<bytes>, sha: bytes -> bytes)
    requires Rooted(d, root, at) && Plain(names) && names != []
    ensures var (result, states) := StreamRun(d, root + names, size, delivery, expected, sha);
            var target, partial := at + names, at + Suffixed(names);
            && target != partial
            && (forall e :: e in states ==> Touches(d, e, {target, partial}, at + Parent(names)))
            && (forall k {:trigger states[k]} :: 0 <= k < |states| && (k < |states| - 1 || !result.Written?) ==>
                  SameFile(d, states[k], target))
            && (result.Written? ==>
                  && states != [] && size > 0 && !delivery.broken
                  && (expected == None || expected == Some([]) || expected == Some(sha(Concat(delivery.chunks))))
                  && states[|states| - 1].files == (d.files - {partial})[target := Concat(delivery.chunks)])
            && (result.Mismatch? ==>
                  && states != [] && size > 0 && !delivery.broken
                  && expected.Some? && expected.value != [] && expected.value != sha(Concat(delivery.chunks))
                  && states[|states| - 1].files == d.files - {partial})
  {
    hide MakeDirs, Removed, Renamed, HashOk, WritableAt, Suffixed, Prefixes;
    TargetIsNotPartial(at, names);
    DigestSpelled(sha, expected, Concat(delivery.chunks));
    var target, partial := at + names, at + Suffixed(names);
    if MakeDirs(d, Parent(root + names)).Some? {
      StreamIsPlain(d, root, at, names, size, delivery, expected, sha);
      var d1, accepted := d.(dirs := d.dirs + Prefixes(at + Parent(names))),
                          HashOk(sha, expected, Concat(delivery.chunks));
      hide PlainRun, Touches, SameFile, StreamRun, Rooted, Concat;
      PlainRunTouches(d, target, partial, at + Parent(names), delivery, accepted);
      PlainRunEnds(d1, target, partial, delivery, accepted);
    } else {
      NoDirsNoState(d, root + names, size, delivery, expected, sha);
    }
  }

  lemma NoDirsNoState(d: Disk, target: Path, size: nat, delivery: Delivery, expected: Option<bytes>,
                      sha: bytes -> bytes)
    requires MakeDirs(d, Parent(target)).None?
    ensures StreamRun(d, target, size, delivery, expected, sha) == (Threw, [])
  {
  }

  lemma WriteBelow(d: Disk, root: Path, at: Path, names: Path)
    requires Rooted(d, root, at) && Plain(names) && names != []
    ensures WritableAt(d, root + names) ==
            if IsDir(d, at + names) || !IsDir(d, at + Parent(names)) then None else Some(at + names)
  {
    PhysicalBelow(d.links, root, at, names);
    assert Parent(at + names) == at + Parent(names);
  }

  /**
   * What becomes of the partial file. Where the directories cannot be made, the entry is empty, or a
   * directory has the partial's name, the run throws and leaves every file as it was, an old partial
   * included. Otherwise a partial stays behind if and only if everything was delivered and verified and
   * the rename then found a directory at the target.
   */
  lemma NoPartialRemains(d: Disk, root: Path, at: Path, names: Path, size: nat, delivery: Delivery,
                         expected: Option<bytes>, sha: bytes -> bytes)
    requires Rooted(d, root, at) && Plain(names) && names != []
    ensures var (result, states) := StreamRun(d, root + names, size, delivery, expected, sha);
            var made, partial, end := MakeDirs(d, Parent(root + names)), at + Suffixed(names), Last(d, states);
            if made.None? || size == 0 || IsDir(made.value, partial) then result.Threw? && end.files == d.files
            else
              partial in end.files <==>
              && !delivery.broken && IsDir(made.value, at + names)
              && (expected == None || expected == Some([]) || expected == Some(sha(Concat(delivery.chunks))))
  {
    hide MakeDirs, Removed, Renamed, HashOk, WritableAt, Suffixed, Prefixes;
    DigestSpelled(sha, expected, Concat(delivery.chunks));
    TargetIsNotPartial(at, names);
    PartialBelow(root, names);
    if MakeDirs(d, Parent(root + names)).Some? {
      MakeDirsBelow(d, root, at, Parent(names));
      StreamIsPlain(d, root, at, names, size, delivery, expected, sha);
      var d1 := MakeDirs(d, Parent(root + names)).value;
      assert ([d1] + Appending(d1, at + Suffixed(names), delivery.chunks))[|delivery.chunks| + 1] ==
             d1.(files := d1.files[at + Suffixed(names) := Concat(delivery.chunks)]);
    }
  }

  /**
   * For a stream that was opened and delivered everything, the digest alone decides: with a wrong one the
   * target stays as it was, with the right one, or none recorded, it becomes the content where no directory
   * has its place.
   */
  lemma DigestDecides(d: Disk, root: Path, at: Path, names: Path, size: nat, delivery: Delivery,
                      expected: Option<bytes>, sha: bytes -> bytes)
    requires Rooted(d, root, at) && Plain(names) && names != []
    requires MakeDirs(d, Parent(root + names)).Some? && size > 0 && !delivery.broken
    requires !IsDir(MakeDirs(d, Parent(root + names)).value, at + Suffixed(names))
    ensures var (result, states) := StreamRun(d, root + names, size, delivery, expected, sha);
            var content, target, partial := Concat(delivery.chunks), at + names, at + Suffixed(names);
            var end := Last(d, states).files;
            if expected.Some? && expected.value != [] && sha(content) != expected.value then
              result == Mismatch && end == d.files - {partial} && target != partial
            else if IsDir(MakeDirs(d, Parent(root + names)).value, target) then result == Threw
            else result == Written(true) && end == (d.files - {partial})[target := content]
  {
    hide MakeDirs, Removed, Renamed, HashOk, WritableAt, Suffixed, Prefixes;
    TargetIsNotPartial(at, names);
    DigestSpelled(sha, expected, Concat(delivery.chunks));
    PartialBelow(root, names);
    MakeDirsBelow(d, root, at, Parent(names));
    StreamIsPlain(d, root, at, names, size, delivery, expected, sha);
    assert d.files[at + Suffixed(names) := Concat(delivery.chunks)] - {at + Suffixed(names)}
           == d.files - {at + Suffixed(names)};
  }

  // ---------------------------------------------------------------- containment

  /** Nothing outside the physical output directory changes, except the directories leading to it. */
  ghost predicate Contained(d: Disk, e: Disk, at: Path) {
    && e.links == d.links
    && (forall q :: !Inside(q, at) ==> SameFile(d, e, q))
    && d.dirs <= e.dirs
    && (forall q :: q in e.dirs && q !in d.dirs ==> Inside(q, at) || q in Prefixes(at))
  }

  ghost predicate AllContained(d: Disk, states: seq<Disk>, at: Path) {
    forall e :: e in states ==> Contained(d, e, at)
  }

  /** Every task that stores something has a target strictly below the output directory. */
  ghost predicate AllBelow(tasks: seq<Task>, root: Path) {
    forall i :: 0 <= i < |tasks| && tasks[i].Store? ==> Plain(tasks[i].target) && Inside(tasks[i].target, root)
  }

  lemma InsideAt(at: Path, names: Path)
    requires names != []
    ensures Inside(at + names, at)
  {
    assert (at + names)[..|at|] == at;
  }

  lemma PrefixesBelow(at: Path, names: Path, q: Path)
    requires q in Prefixes(at + names)
    ensures Inside(q, at) || q in Prefixes(at)
  {
    var k :| 0 <= k <= |at + names| && q == (at + names)[..k];
    if k <= |at| {
      assert q == at[..k];
    } else {
      assert q[..|at|] == at;
    }
  }

  lemma TouchesIsContained(d: Disk, e: Disk, spots: set<Path>, at: Path, names: Path)
    requires Touches(d, e, spots, at + names) && forall q :: q in spots ==> Inside(q, at)
    ensures Contained(d, e, at)
  {
    forall q | q in e.dirs && q !in d.dirs ensures Inside(q, at) || q in Prefixes(at) {
      PrefixesBelow(at, names, q);
    }
  }

  lemma BundleBelow(d: Disk, root: Path, at: Path, names: Path, content: bytes, expected: Option<bytes>,
                    sha: bytes -> bytes)
    requires Rooted(d, root, at) && Plain(names) && names != []
    ensures var (result, states) := BundleRun(d, root + names, content, expected, sha);
            && (forall e :: e in states ==> Touches(d, e, {at + names}, at + Parent(names)))
            && (!result.Threw? ==>
                  && result == Written(HashOk(sha, expected, content))
                  && states != [] && states[|states| - 1].files == d.files[at + names := content])
  {
    hide MakeDirs, WritableAt, HashOk;
    PartialBelow(root, names);
    var made := MakeDirs(d, Parent(root + names));
    if made.Some? {
      MakeDirsBelow(d, root, at, Parent(names));
      WriteBelow(made.value, root, at, names);
    }
  }

  lemma TaskContained(d: Disk, root: Path, at: Path, task: Task, sha: bytes -> bytes)
    requires Rooted(d, root, at) && task.Store? && Plain(task.target) && Inside(task.target, root)
    ensures var states := TaskRun(d, task, sha).1;
            AllContained(d, states, at)
  {
    hide StreamRun, BundleRun, Touches, Contained, Suffixed;
    var names := task.target[|root|..];
    assert task.target == root + names;
    var states := TaskRun(d, task, sha).1;
    PartialBelow(root, names);
    InsideAt(at, names);
    InsideAt(at, Suffixed(names));
    match task.source {
      case Bundled(Some(content)) =>
        BundleBelow(d, root, at, names, content, task.expected, sha);
        forall e | e in states ensures Contained(d, e, at) {
          TouchesIsContained(d, e, {at + names}, at, Parent(names));
        }
      case Streamed(size, delivery) =>
        VerifyBeforeVisible(d, root, at, names, size, delivery, task.expected, sha);
        forall e | e in states ensures Contained(d, e, at) {
          TouchesIsContained(d, e, {at + names, at + Suffixed(names)}, at, Parent(names));
        }
      case _ =>
    }
  }

  lemma ContainedThrough(d: Disk, e: Disk, f: Disk, root: Path, at: Path)
    requires Rooted(d, root, at) && Contained(d, e, at) && Contained(e, f, at)
    ensures Contained(d, f, at) && Rooted(e, root, at)
  {
    forall q | !Inside(q, at) ensures SameFile(d, f, q) {
      assert SameFile(d, e, q) && SameFile(e, f, q);
    }
  }

  /** Every state of the file phase leaves the outside alone and creates no link. */
  lemma {:induction false} FilePhaseContained(d: Disk, root: Path, at: Path, tasks: seq<Task>, sha: bytes -> bytes)
    requires Rooted(d, root, at) && AllBelow(tasks, root)
    ensures var states := FilePhase(d, tasks, sha).states;
            AllContained(d, states, at)
    decreases |tasks|
  {
    hide TaskRun, Contained, Rooted;
    if tasks != [] {
      if tasks[0].Skip? {
        FilePhaseContained(d, root, at, tasks[1..], sha);
      } else {
        var (result, states) := TaskRun(d, tasks[0], sha);
        TaskContained(d, root, at, tasks[0], sha);
        SelfContained(d, at);
        var mid := Last(d, states);
        ContainedThrough(d, mid, mid, root, at) by {
          SelfContained(mid, at);
        }
        if !result.Threw? {
          FilePhaseContained(mid, root, at, tasks[1..], sha);
          var later := FilePhase(mid, tasks[1..], sha).states;
          forall e | e in later ensures Contained(d, e, at) {
            ContainedThrough(d, mid, e, root, at);
          }
        }
      }
    }
  }

  lemma SelfContained(d: Disk, at: Path)
    ensures Contained(d, d, at)
  {
  }

  // -------------------------------------- rows that name the directory itself

  /** Every link lies in directories that exist, as it does on any disk. */
  ghost predicate Grounded(d: Disk) {
    forall l, k :: l in d.links && 0 <= k < |l| ==> IsDir(d, l[..k])
  }

  /** The string checks let a target through that lies strictly below the output directory, or is that directory. */
  ghost predicate Admitted(tasks: seq<Task>, root: Path) {
    forall i :: 0 <= i < |tasks| && tasks[i].Store? ==>
                  Plain(tasks[i].target) && (Inside(tasks[i].target, root) || tasks[i].target == root)
  }

  /** The entry beside the output directory that streaming to that directory itself uses as partial file. */
  function Beside(links: map<Path, string>, root: Path): Path {
    match Slot(links, Suffixed(root))
    case None => []
    case Some(spot) => spot
  }

  lemma PhysicalOfChild(links: map<Path, string>, upper: Path, name: string, at: Path)
    requires PlainName(name) && Physical(links, upper) == Some(at) && at + [name] !in links
    ensures Physical(links, upper + [name]) == Some(at + [name])
  {
    FollowInTwo(links, [], upper, [name], MAX_LINKS);
    assert [name][1..] == [];
  }

  /** Where the output directory's own entry is, and the partial file's beside it: never inside. */
  lemma RootPlace(d: Disk, root: Path, at: Path) returns (upper: Path)
    requires Rooted(d, root, at) && root != [] && Plain(root)
    ensures Physical(d.links, Parent(root)) == Some(upper)
    ensures upper + [root[|root| - 1]] in d.links || at == upper + [root[|root| - 1]]
    ensures Beside(d.links, root) == upper + [root[|root| - 1] + ".partial"]
    ensures Slot(d.links, Suffixed(root)) == Some(Beside(d.links, root))
    ensures !Inside(Beside(d.links, root), at) && Parent(Suffixed(root)) == Parent(root)
    ensures PlainName(root[|root| - 1] + ".partial")
  {
    var name := root[|root| - 1];
    assert root == Parent(root) + [name];
    FollowInTwo(d.links, [], Parent(root), [name], MAX_LINKS);
    upper := Physical(d.links, Parent(root)).value;
    assert [name][1..] == [] && PlainName(name);
    assert Parent(Suffixed(root)) == Parent(root);
    var slot, spot := upper + [name], upper + [name + ".partial"];
    if slot in d.links {
      assert !Inside(slot, at);
      assert |at| <= |upper| ==> slot[..|at|] == upper[..|at|] == spot[..|at|];
    } else {
      PhysicalOfChild(d.links, Parent(root), name, upper);
    }
  }

  /** Creating the directories above the output directory adds none but those leading to it. */
  lemma UpperDirs(d: Disk, root: Path, at: Path)
    requires Grounded(d) && Rooted(d, root, at) && root != [] && Plain(root) && MakeDirs(d, Parent(root)).Some?
    ensures var d1 := MakeDirs(d, Parent(root)).value;
            && Contained(d, d1, at) && d1.files == d.files && d1.links == d.links
            && IsDir(d1, Parent(Beside(d.links, root)))
  {
    var upper := RootPlace(d, root, at);
    var d1, slot := MakeDirs(d, Parent(root)).value, upper + [root[|root| - 1]];
    assert Parent(Beside(d.links, root)) == upper == upper[..|upper|];
    forall q | q in d1.dirs && q !in d.dirs ensures q in Prefixes(at) {
      var k :| 0 <= k <= |upper| && q == upper[..k];
      assert slot[..k] == q;
      if slot in d.links {
        assert IsDir(d, slot[..k]) && at[..0] == [];
      } else {
        assert at[..k] == q;
      }
    }
  }

  /** The row stores something, its directories can be made, and its file can be opened for writing. */
  predicate Opens(d: Disk, task: Task)
    requires task.Store?
  {
    match MakeDirs(d, Parent(task.target))
    case None => false
    case Some(d1) =>
      match task.source
      case Unresolved => false
      case Bundled(content) => content.Some? && WritableAt(d1, task.target).Some?
      case Streamed(size, _) => size > 0 && WritableAt(d1, Suffixed(task.target)).Some?
  }

  /** The run gets as far as opening a file for a row that names the output directory itself. */
  predicate OpensRoot(d: Disk, tasks: seq<Task>, root: Path, sha: bytes -> bytes)
    decreases |tasks|
  {
    if tasks == [] then false
    else if tasks[0].Skip? then OpensRoot(d, tasks[1..], root, sha)
    else
      var (result, states) := TaskRun(d, tasks[0], sha);
      (tasks[0].target == root && Opens(d, tasks[0]))
      || (!result.Threw? && OpensRoot(Last(d, states), tasks[1..], root, sha))
  }

  /** Where opening the partial file beside the directory would put its bytes: there, or nowhere. */
  lemma BesideOpened(d: Disk, root: Path, at: Path)
    requires Grounded(d) && Rooted(d, root, at) && root != [] && Plain(root) && Beside(d.links, root) !in d.links
    requires MakeDirs(d, Parent(root)).Some?
    ensures var d1, spot := MakeDirs(d, Parent(root)).value, Beside(d.links, root);
            && Contained(d, d1, at) && d1.files == d.files
            && WritableAt(d1, Suffixed(root)) == (if IsDir(d1, spot) then None else Some(spot))
            && Removed(d1, Suffixed(root)) == (if IsDir(d1, spot) then d1 else d1.(files := d1.files - {spot}))
            && (WritableAt(d1, root).Some? ==> WritableAt(d1, root) == Some(at))
  {
    hide MakeDirs, Contained, Follow;
    var upper := RootPlace(d, root, at);
    UpperDirs(d, root, at);
    PhysicalOfChild(d.links, Parent(root), root[|root| - 1] + ".partial", upper);
    assert Suffixed(root) == Parent(root) + [root[|root| - 1] + ".partial"];
    var d1, spot := MakeDirs(d, Parent(root)).value, Beside(d.links, root);
    assert d1.links - {spot} == d1.links;
  }

  /** A row naming the directory that is not opened throws, and changes nothing outside. */
  lemma UnopenedRootRow(d: Disk, root: Path, at: Path, task: Task, sha: bytes -> bytes)
    requires Grounded(d) && Rooted(d, root, at) && root != [] && Plain(root) && Beside(d.links, root) !in d.links
    requires task.Store? && task.target == root && !Opens(d, task)
    ensures TaskRun(d, task, sha).0.Threw? && AllContained(d, TaskRun(d, task, sha).1, at)
  {
    hide MakeDirs, Contained, HashOk, WritableAt, Removed, Renamed, Suffixed, Grounded, Rooted, Beside;
    if MakeDirs(d, Parent(root)).Some? {
      BesideOpened(d, root, at);
      if task.source.Streamed? {
        UnopenedStream(d, root, task.source.size, task.source.delivery, task.expected, sha);
      }
    }
  }

  lemma UnopenedStream(d: Disk, target: Path, size: nat, delivery: Delivery, expected: Option<bytes>,
                       sha: bytes -> bytes)
    requires MakeDirs(d, Parent(target)).Some?
    requires size == 0 || WritableAt(MakeDirs(d, Parent(target)).value, Suffixed(target)).None?
    ensures var d1 := MakeDirs(d, Parent(target)).value;
            var (result, states) := StreamRun(d, target, size, delivery, expected, sha);
            result.Threw? && states == if size == 0 then [d1] else [d1, Removed(d1, Suffixed(target))]
  {
    hide MakeDirs, WritableAt, Removed, Renamed, Suffixed, HashOk;
  }

  /** An opened stream first makes the file empty, and in the end it holds all that arrived. */
  lemma OpenedStream(d: Disk, target: Path, size: nat, delivery: Delivery, expected: Option<bytes>, sha: bytes -> bytes,
                     spot: Path)
    requires MakeDirs(d, Parent(target)).Some? && size > 0
    requires WritableAt(MakeDirs(d, Parent(target)).value, Suffixed(target)) == Some(spot)
    ensures var states := StreamRun(d, target, size, delivery, expected, sha).1;
            && (exists e :: e in states && spot in e.files && e.files[spot] == [])
            && (exists e :: e in states && spot in e.files && e.files[spot] == Concat(delivery.chunks))
  {
    hide MakeDirs, WritableAt, Removed, Renamed, Suffixed, HashOk;
    var d1, states := MakeDirs(d, Parent(target)).value, StreamRun(d, target, size, delivery, expected, sha).1;
    var appending, n := Appending(d1, spot, delivery.chunks), |delivery.chunks|;
    assert delivery.chunks[..0] == [];
    assert ([d1] + appending)[1] == appending[0] && ([d1] + appending)[n + 1] == appending[n];
    assert states[1] == appending[0] && states[1] in states;
    assert states[n + 1] == appending[n] && states[n + 1] in states;
  }

  /**
   * Writing for this row would show, beside the directory or in its place: it does unless the same bytes
   * are there already, or an empty stream meets an empty file.
   */
  predicate WouldShow(d: Disk, task: Task, beside: Path, at: Path)
    requires task.Store?
  {
    match task.source
    case Unresolved => true
    case Bundled(content) => !(content.Some? && at in d.files && d.files[at] == content.value)
    case Streamed(_, delivery) =>
      !(beside in d.files && d.files[beside] == []) || Concat(delivery.chunks) != []
  }

  /** An opened one leaves a file where none belongs, beside the directory or in its place, and mostly it shows. */
  lemma RootRowWritesBeside(d: Disk, root: Path, at: Path, task: Task, sha: bytes -> bytes)
    requires Grounded(d) && Rooted(d, root, at) && root != [] && Plain(root) && Beside(d.links, root) !in d.links
    requires task.Store? && task.target == root && Opens(d, task)
    ensures !Inside(Beside(d.links, root), at)
    ensures exists e :: e in TaskRun(d, task, sha).1 && (Beside(d.links, root) in e.files || at in e.files)
    ensures WouldShow(d, task, Beside(d.links, root), at) ==>
              exists e :: e in TaskRun(d, task, sha).1
                          && (!SameFile(d, e, Beside(d.links, root)) || !SameFile(d, e, at))
  {
    hide MakeDirs, HashOk, WritableAt, Removed, Suffixed, Grounded, Rooted, Beside, StreamRun, Concat;
    var upper := RootPlace(d, root, at);
    BesideOpened(d, root, at);
    var states := TaskRun(d, task, sha).1;
    match task.source {
      case Bundled(Some(content)) =>
        assert states[1] in states && at in states[1].files && states[1].files[at] == content;
      case Streamed(size, delivery) =>
        var spot := Beside(d.links, root);
        OpenedStream(d, root, size, delivery, task.expected, sha, spot);
        var e :| e in states && spot in e.files && e.files[spot] == [];
        var f :| f in states && spot in f.files && f.files[spot] == Concat(delivery.chunks);
      case _ =>
    }
  }

  lemma GroundedStays(d: Disk, e: Disk, root: Path, at: Path)
    requires Grounded(d) && Rooted(d, root, at) && Contained(d, e, at)
    ensures Grounded(e) && Rooted(e, root, at)
  {
    forall l, k | l in e.links && 0 <= k < |l| ensures IsDir(e, l[..k]) {
      assert IsDir(d, l[..k]);
    }
  }

  /** Every row that names the output directory itself would show. */
  predicate AllWouldShow(d: Disk, tasks: seq<Task>, root: Path, at: Path) {
    forall k :: 0 <= k < |tasks| && tasks[k].Store? && tasks[k].target == root ==>
      WouldShow(d, tasks[k], Beside(d.links, root), at)
  }

  /** Before it opens the directory's own row, the run changes nothing outside; doing so it leaves a file there. */
  lemma {:induction false} ContainedUpToRoot(d: Disk, root: Path, at: Path, tasks: seq<Task>, sha: bytes -> bytes)
    requires Grounded(d) && Rooted(d, root, at) && root != [] && Plain(root) && Admitted(tasks, root)
    requires Beside(d.links, root) !in d.links
    ensures var states, beside := FilePhase(d, tasks, sha).states, Beside(d.links, root);
            && (!OpensRoot(d, tasks, root, sha) ==> AllContained(d, states, at))
            && (OpensRoot(d, tasks, root, sha) && AllWouldShow(d, tasks, root, at) ==>
                  exists e :: e in states && (!SameFile(d, e, beside) || !SameFile(d, e, at)))
    decreases |tasks|
  {
    hide TaskRun, Contained, Rooted, Grounded, Opens, Beside, SameFile, WouldShow;
    if tasks != [] {
      var later, beside := tasks[1..], Beside(d.links, root);
      assert forall k :: 0 <= k < |later| ==> later[k] == tasks[k + 1];
      if tasks[0].Skip? {
        ContainedUpToRoot(d, root, at, later, sha);
      } else {
        var (result, states) := TaskRun(d, tasks[0], sha);
        var mid, whole := Last(d, states), FilePhase(d, tasks, sha).states;
        if tasks[0].target == root && Opens(d, tasks[0]) {
          RootRowWritesBeside(d, root, at, tasks[0], sha);
          if WouldShow(d, tasks[0], beside, at) {
            var e :| e in states && (!SameFile(d, e, beside) || !SameFile(d, e, at));
            assert e in whole;
          }
        } else {
          FirstRowContained(d, root, at, tasks[0], sha);
          SelfContained(d, at);
          MidContained(d, root, at, states);
          if !result.Threw? {
            ContainedUpToRoot(mid, root, at, later, sha);
            LaterContained(d, mid, root, at, states, FilePhase(mid, later, sha).states);
            LaterShows(d, mid, root, at, later, FilePhase(mid, later, sha).states);
            assert forall e :: e in FilePhase(mid, later, sha).states ==> e in whole;
          }
        }
      }
    }
  }

  /** What shows against the disk in between shows against the one before. */
  lemma LaterShows(d: Disk, mid: Disk, root: Path, at: Path, later: seq<Task>, states: seq<Disk>)
    requires Rooted(d, root, at) && root != [] && Plain(root) && Contained(d, mid, at)
    ensures var beside := Beside(d.links, root);
            && mid.links == d.links
            && (AllWouldShow(d, later, root, at) ==> AllWouldShow(mid, later, root, at))
            && ((exists e :: e in states && (!SameFile(mid, e, beside) || !SameFile(mid, e, at))) ==>
                  exists e :: e in states && (!SameFile(d, e, beside) || !SameFile(d, e, at)))
  {
    hide Beside, Rooted, Concat;
    var upper := RootPlace(d, root, at);
    var beside := Beside(d.links, root);
    assert SameFile(d, mid, beside) && SameFile(d, mid, at);
  }

  lemma FirstRowContained(d: Disk, root: Path, at: Path, task: Task, sha: bytes -> bytes)
    requires Grounded(d) && Rooted(d, root, at) && root != [] && Plain(root) && Beside(d.links, root) !in d.links
    requires task.Store? && Plain(task.target)
    requires Inside(task.target, root) || (task.target == root && !Opens(d, task))
    ensures AllContained(d, TaskRun(d, task, sha).1, at)
  {
    hide TaskRun, Contained, Rooted, Grounded, Opens, Beside;
    if task.target == root {
      UnopenedRootRow(d, root, at, task, sha);
    } else {
      TaskContained(d, root, at, task, sha);
    }
  }

  lemma MidContained(d: Disk, root: Path, at: Path, states: seq<Disk>)
    requires Grounded(d) && Rooted(d, root, at) && AllContained(d, states, at)
    ensures var mid := Last(d, states);
            Contained(d, mid, at) && Grounded(mid) && Rooted(mid, root, at) && mid.links == d.links
  {
    SelfContained(d, at);
    GroundedStays(d, Last(d, states), root, at);
  }

  lemma LaterContained(d: Disk, mid: Disk, root: Path, at: Path, states: seq<Disk>, later: seq<Disk>)
    requires Rooted(d, root, at) && AllContained(d, states, at) && Contained(d, mid, at)
    ensures AllContained(mid, later, at) ==> AllContained(d, states + later, at)
  {
    if AllContained(mid, later, at) {
      forall e | e in later ensures Contained(d, e, at) {
        ContainedThrough(d, mid, e, root, at);
      }
    }
  }

  /**
   * Exactly when every state of the file phase is contained: if the run never gets to open a file for a
   * row naming the output directory itself. The way back takes rows that would show.
   */
  lemma ContainedExactly(d: Disk, root: Path, at: Path, tasks: seq<Task>, sha: bytes -> bytes)
    requires Grounded(d) && Rooted(d, root, at) && root != [] && Plain(root) && Admitted(tasks, root)
    requires Beside(d.links, root) !in d.links
    ensures var states := FilePhase(d, tasks, sha).states;
            && (!OpensRoot(d, tasks, root, sha) ==> AllContained(d, states, at))
            && (AllWouldShow(d, tasks, root, at) ==>
                  (AllContained(d, states, at) <==> !OpensRoot(d, tasks, root, sha)))
            && (Beside(d.links, root) !in d.files && at !in d.files ==> AllWouldShow(d, tasks, root, at))
  {
    hide FilePhase, OpensRoot, Grounded, Beside, SameFile, AllWouldShow;
    if Beside(d.links, root) !in d.files && at !in d.files {
      NothingThereShows(d, tasks, root, at);
    }
    ContainedUpToRoot(d, root, at, tasks, sha);
    var upper := RootPlace(d, root, at);
    var states := FilePhase(d, tasks, sha).states;
    if OpensRoot(d, tasks, root, sha) && AllWouldShow(d, tasks, root, at) {
      var e :| e in states && (!SameFile(d, e, Beside(d.links, root)) || !SameFile(d, e, at));
      assert !Contained(d, e, at);
    }
  }

  /** On a disk with nothing in either place, every such row would show. */
  lemma NothingThereShows(d: Disk, tasks: seq<Task>, root: Path, at: Path)
    requires Beside(d.links, root) !in d.files && at !in d.files
    ensures AllWouldShow(d, tasks, root, at)
  {
  }

  // ------------------------------------------------- what such a row can do

  /** Besides what containment allows, only the directory's own place and the entry beside it may differ. */
  ghost predicate AtMostBeside(d: Disk, e: Disk, root: Path, at: Path) {
    && e.links == d.links
    && (forall q :: !Inside(q, at) && q != at && q != Beside(d.links, root) ==> SameFile(d, e, q))
    && d.dirs <= e.dirs
    && (forall q :: q in e.dirs && q !in d.dirs ==> Inside(q, at) || q in Prefixes(at))
  }

  lemma BesideThrough(d: Disk, e: Disk, f: Disk, root: Path, at: Path)
    requires AtMostBeside(d, e, root, at) && AtMostBeside(e, f, root, at)
    ensures AtMostBeside(d, f, root, at)
  {
    hide Beside;
    forall q | !Inside(q, at) && q != at && q != Beside(d.links, root) ensures SameFile(d, f, q) {
      assert SameFile(d, e, q) && SameFile(e, f, q);
    }
  }

  lemma ContainedIsBeside(d: Disk, e: Disk, root: Path, at: Path)
    requires Contained(d, e, at)
    ensures AtMostBeside(d, e, root, at)
  {
  }

  /** Taking the partial file away again, and renaming it onto the directory. */
  lemma BesideTaken(d: Disk, full: Disk, root: Path, at: Path)
    requires Rooted(d, root, at) && root != [] && Plain(root) && full.links == d.links
    requires Slot(d.links, root) == Some(at) && at !in d.links
    requires Beside(d.links, root) !in d.links && Beside(d.links, root) in full.files
    ensures var spot := Beside(d.links, root);
            && at != spot
            && Removed(full, Suffixed(root)) == Swept(full, spot)
            && Renamed(full, Suffixed(root), root) ==
               if IsDir(full, at) then None
               else Some(full.(files := (full.files - {spot})[at := full.files[spot]]))
  {
    hide Physical;
    var upper := RootPlace(d, root, at);
    var name := root[|root| - 1];
    assert at == upper + [name] && at[|upper|] == name;
    assert Beside(d.links, root)[|upper|] == name + ".partial" && |name + ".partial"| != |name|;
    assert full.links - {at} == full.links && full.links - {Beside(d.links, root)} == full.links;
  }

  /** Streaming to the output directory itself, where that is no link: the plain changes, beside it and in its place. */
  lemma StreamAtRoot(d: Disk, root: Path, at: Path, size: nat, delivery: Delivery, expected: Option<bytes>,
                     sha: bytes -> bytes)
    requires Grounded(d) && Rooted(d, root, at) && root != [] && Plain(root) && Beside(d.links, root) !in d.links
    requires Slot(d.links, root) == Some(at) && at !in d.links && MakeDirs(d, Parent(root)).Some? && size > 0
    ensures var d1 := MakeDirs(d, Parent(root)).value;
            StreamRun(d, root, size, delivery, expected, sha) ==
            PlainRun(d1, at, Beside(d.links, root), delivery, HashOk(sha, expected, Concat(delivery.chunks)))
  {
    hide MakeDirs, HashOk, WritableAt, Removed, Renamed, Suffixed, Grounded, Rooted, Beside;
    BesideOpened(d, root, at);
    UpperDirs(d, root, at);
    var d1, spot := MakeDirs(d, Parent(root)).value, Beside(d.links, root);
    var full := d1.(files := d1.files[spot := Concat(delivery.chunks)]);
    assert ([d1] + Appending(d1, spot, delivery.chunks))[|delivery.chunks| + 1] == full;
    BesideTaken(d, full, root, at);
    assert full.files - {spot} == d1.files - {spot};
  }

  /**
   * How streaming such a row ends. Over an existing directory a verified entry throws, which ends the run;
   * over none it takes the directory's place, and no row below can be extracted after it.
   */
  lemma RootRowOutcome(d: Disk, root: Path, at: Path, size: nat, delivery: Delivery, expected: Option<bytes>,
                       sha: bytes -> bytes)
    requires Grounded(d) && Rooted(d, root, at) && root != [] && Plain(root) && Beside(d.links, root) !in d.links
    requires Slot(d.links, root) == Some(at) && at !in d.links
    requires Opens(d, Store(root, Streamed(size, delivery), expected))
    ensures var (result, states) := StreamRun(d, root, size, delivery, expected, sha);
            && (result.Threw? <==>
                  || delivery.broken
                  || (IsDir(MakeDirs(d, Parent(root)).value, at)
                      && (expected == None || expected == Some([]) || expected == Some(sha(Concat(delivery.chunks))))))
            && (result.Written? ==> forall names, e :: e == Last(d, states) && Plain(names) && names != [] ==>
                                      MakeDirs(e, Parent(root + names)).None?)
  {
    hide MakeDirs, HashOk, Beside, Appending;
    DigestSpelled(sha, expected, Concat(delivery.chunks));
    StreamAtRoot(d, root, at, size, delivery, expected, sha);
    var spot := Beside(d.links, root);
    var (result, states) := StreamRun(d, root, size, delivery, expected, sha);
    UpperDirs(d, root, at);
    PartialOpen(d, root, at, Store(root, Streamed(size, delivery), expected));
    if result.Written? {
      var e := Last(d, states);
      assert at in e.files && e.links == d.links;
      forall names | Plain(names) && names != [] ensures MakeDirs(e, Parent(root + names)).None? {
        FileInTheWay(e, root, at, names);
      }
    }
  }

  lemma PartialOpen(d: Disk, root: Path, at: Path, task: Task)
    requires Grounded(d) && Rooted(d, root, at) && root != [] && Plain(root) && Beside(d.links, root) !in d.links
    requires task.Store? && task.target == root && task.source.Streamed? && Opens(d, task)
    ensures !IsDir(MakeDirs(d, Parent(root)).value, Beside(d.links, root))
  {
    hide MakeDirs, Beside, WritableAt, Grounded, Rooted, Suffixed;
    BesideOpened(d, root, at);
  }

  lemma FileInTheWay(e: Disk, root: Path, at: Path, names: Path)
    requires Rooted(e, root, at) && at in e.files && Plain(names) && names != []
    ensures MakeDirs(e, Parent(root + names)).None?
  {
    var upper := Parent(names);
    assert Parent(root + names) == root + upper;
    PhysicalBelow(e.links, root, at, upper);
    assert (at + upper)[..|at|] == at;
  }

  lemma RootRowBeside(d: Disk, root: Path, at: Path, task: Task, sha: bytes -> bytes)
    requires Grounded(d) && Rooted(d, root, at) && root != [] && Plain(root) && Beside(d.links, root) !in d.links
    requires Slot(d.links, root) == Some(at) && at !in d.links && task.Store? && task.target == root
    ensures forall e :: e in TaskRun(d, task, sha).1 ==> AtMostBeside(d, e, root, at)
  {
    hide MakeDirs, Beside, HashOk, Grounded, Rooted, StreamRun;
    if MakeDirs(d, Parent(root)).Some? {
      UpperDirs(d, root, at);
      var d1, spot := MakeDirs(d, Parent(root)).value, Beside(d.links, root);
      match task.source {
        case Streamed(size, delivery) =>
          if size > 0 {
            StreamAtRoot(d, root, at, size, delivery, task.expected, sha);
            PlainRunBeside(d, d1, root, at, delivery, HashOk(sha, task.expected, Concat(delivery.chunks)));
          } else {
            NothingStreamed(d, root, delivery, task.expected, sha);
          }
        case Bundled(Some(content)) =>
          assert WritableAt(d1, root) == None || WritableAt(d1, root) == Some(at) by {
            SamePhysical(d, d1, root, at);
          }
        case _ =>
      }
    } else {
      NoDirsNoStates(d, task, sha);
    }
  }

  lemma SamePhysical(d: Disk, e: Disk, root: Path, at: Path)
    requires Rooted(d, root, at) && e.links == d.links
    ensures Physical(e.links, root) == Some(at)
  {
  }

  lemma NothingStreamed(d: Disk, target: Path, delivery: Delivery, expected: Option<bytes>, sha: bytes -> bytes)
    requires MakeDirs(d, Parent(target)).Some?
    ensures StreamRun(d, target, 0, delivery, expected, sha).1 == [MakeDirs(d, Parent(target)).value]
  {
    hide MakeDirs;
  }

  lemma NoDirsNoStates(d: Disk, task: Task, sha: bytes -> bytes)
    requires task.Store? && MakeDirs(d, Parent(task.target)).None?
    ensures TaskRun(d, task, sha).1 == []
  {
    hide MakeDirs;
  }

  lemma TwoPlacesBeside(d: Disk, d1: Disk, e: Disk, root: Path, at: Path)
    requires Contained(d, d1, at) && d1.files == d.files && e.links == d1.links && e.dirs == d1.dirs
    requires forall q :: q != at && q != Beside(d.links, root) ==> SameFile(d1, e, q)
    ensures AtMostBeside(d, e, root, at)
  {
    hide Prefixes, Slot;
    forall q | !Inside(q, at) && q != at && q != Beside(d.links, root) ensures SameFile(d, e, q) {
      assert SameFile(d, d1, q) && SameFile(d1, e, q);
    }
  }

  lemma PlainRunBeside(d: Disk, d1: Disk, root: Path, at: Path, delivery: Delivery, accepted: bool)
    requires Contained(d, d1, at) && d1.files == d.files
    ensures var states := PlainRun(d1, at, Beside(d.links, root), delivery, accepted).1;
            forall e :: e in states ==> AtMostBeside(d, e, root, at)
  {
    hide Beside, Contained, AtMostBeside;
    var spot := Beside(d.links, root);
    var states := PlainRun(d1, at, spot, delivery, accepted).1;
    PlainRunPlaces(d1, at, spot, delivery, accepted);
    forall e | e in states ensures AtMostBeside(d, e, root, at) {
      TwoPlacesBeside(d, d1, e, root, at);
    }
  }

  /** Nothing but the target and the partial file ever differs. */
  lemma PlainRunPlaces(d1: Disk, target: Path, partial: Path, delivery: Delivery, accepted: bool)
    ensures forall e :: e in PlainRun(d1, target, partial, delivery, accepted).1 ==>
              && e.links == d1.links && e.dirs == d1.dirs
              && forall q :: q != target && q != partial ==> SameFile(d1, e, q)
  {
    hide Concat;
    var states := PlainRun(d1, target, partial, delivery, accepted).1;
    var appending := Appending(d1, partial, delivery.chunks);
    forall e | e in states
      ensures e.links == d1.links && e.dirs == d1.dirs && forall q :: q != target && q != partial ==> SameFile(d1, e, q)
    {
      var k :| 0 <= k < |states| && states[k] == e;
      if !IsDir(d1, partial) && 0 < k <= |appending| {
        assert states[k] == appending[k - 1];
      }
    }
  }

  lemma BesideKeepsGround(d: Disk, e: Disk, root: Path, at: Path)
    requires Grounded(d) && Rooted(d, root, at) && AtMostBeside(d, e, root, at)
    ensures Grounded(e) && Rooted(e, root, at) && e.links == d.links
  {
    forall l, k | l in e.links && 0 <= k < |l| ensures IsDir(e, l[..k]) {
      assert IsDir(d, l[..k]);
    }
  }

  /** Whatever rows there are and however they end, nothing outside changes but those two places. */
  lemma {:induction false} FilePhaseBeside(d: Disk, root: Path, at: Path, tasks: seq<Task>, sha: bytes -> bytes)
    requires Grounded(d) && Rooted(d, root, at) && root != [] && Plain(root) && Admitted(tasks, root)
    requires Beside(d.links, root) !in d.links && Slot(d.links, root) == Some(at) && at !in d.links
    ensures forall e :: e in FilePhase(d, tasks, sha).states ==> AtMostBeside(d, e, root, at)
    decreases |tasks|
  {
    hide TaskRun, AtMostBeside, Rooted, Grounded, Beside, Contained;
    if tasks != [] {
      if tasks[0].Skip? {
        FilePhaseBeside(d, root, at, tasks[1..], sha);
      } else {
        var (result, states) := TaskRun(d, tasks[0], sha);
        if tasks[0].target == root {
          RootRowBeside(d, root, at, tasks[0], sha);
        } else {
          TaskContained(d, root, at, tasks[0], sha);
          forall e | e in states ensures AtMostBeside(d, e, root, at) {
            ContainedIsBeside(d, e, root, at);
          }
        }
        var mid := Last(d, states);
        SelfContained(d, at);
        ContainedIsBeside(d, d, root, at);
        BesideKeepsGround(d, mid, root, at);
        if !result.Threw? {
          FilePhaseBeside(mid, root, at, tasks[1..], sha);
          forall e | e in FilePhase(mid, tasks[1..], sha).states ensures AtMostBeside(d, e, root, at) {
            BesideThrough(d, mid, e, root, at);
          }
        }
      }
    }
  }

  // ------------------------------------------------- at the top of the file system

  /** Streaming to the top itself: a partial file called ".partial", and a rename that never succeeds. */
  lemma TopStreamIsPlain(d: Disk, size: nat, delivery: Delivery, expected: Option<bytes>, sha: bytes -> bytes)
    requires Rooted(d, [], []) && MakeDirs(d, []).Some? && size > 0
    ensures StreamRun(d, [], size, delivery, expected, sha) ==
            PlainRun(MakeDirs(d, []).value, [], [".partial"], delivery, HashOk(sha, expected, Concat(delivery.chunks)))
  {
    hide HashOk, Follow;
    var spot: Path := [".partial"];
    assert Plain(spot) && [] + spot == spot && Parent(spot) == [];
    var d1 := MakeDirs(d, []).value;
    WriteBelow(d1, [], [], spot);
    RemoveBelow(d1, [], [], spot);
    var full := d1.(files := d1.files[spot := Concat(delivery.chunks)]);
    assert ([d1] + Appending(d1, spot, delivery.chunks))[|delivery.chunks| + 1] == full;
    RemoveBelow(full, [], [], spot);
  }

  lemma TopRowContained(d: Disk, task: Task, sha: bytes -> bytes)
    requires Rooted(d, [], []) && task.Store? && task.target == []
    ensures AllContained(d, TaskRun(d, task, sha).1, [])
  {
    hide HashOk, Follow, StreamRun, Contained;
    if MakeDirs(d, []).Some? {
      var d1 := MakeDirs(d, []).value;
      TopDirs(d);
      match task.source {
        case Streamed(size, delivery) =>
          if size > 0 {
            TopStreamIsPlain(d, size, delivery, task.expected, sha);
            TopStates(d, d1, delivery, HashOk(sha, task.expected, Concat(delivery.chunks)));
          } else {
            NothingStreamed(d, [], delivery, task.expected, sha);
          }
        case _ =>
      }
    } else {
      NoDirsNoStates(d, task, sha);
    }
  }

  lemma TopDirs(d: Disk)
    requires Rooted(d, [], []) && MakeDirs(d, []).Some?
    ensures Contained(d, MakeDirs(d, []).value, []) && MakeDirs(d, []).value.files == d.files
  {
  }

  lemma TopStates(d: Disk, d1: Disk, delivery: Delivery, accepted: bool)
    requires Contained(d, d1, []) && d1.files == d.files && IsDir(d1, [])
    ensures forall e :: e in PlainRun(d1, [], [".partial"], delivery, accepted).1 ==> Contained(d, e, [])
  {
    hide Contained, PlainRun;
    var states := PlainRun(d1, [], [".partial"], delivery, accepted).1;
    PlainRunPlaces(d1, [], [".partial"], delivery, accepted);
    TopUntouched(d1, delivery, accepted);
    forall e | e in states ensures Contained(d, e, []) {
      OnlyTop(d, d1, e);
    }
  }

  lemma TopUntouched(d1: Disk, delivery: Delivery, accepted: bool)
    ensures forall e :: e in PlainRun(d1, [], [".partial"], delivery, accepted).1 ==> SameFile(d1, e, [])
  {
    hide Concat;
    var states := PlainRun(d1, [], [".partial"], delivery, accepted).1;
    var appending := Appending(d1, [".partial"], delivery.chunks);
    forall e | e in states ensures SameFile(d1, e, []) {
      var k :| 0 <= k < |states| && states[k] == e;
      if !IsDir(d1, [".partial"]) && 0 < k <= |appending| {
        assert states[k] == appending[k - 1];
      }
    }
  }

  lemma OnlyTop(d: Disk, d1: Disk, e: Disk)
    requires Contained(d, d1, []) && d1.files == d.files && e.links == d1.links && e.dirs == d1.dirs
    requires SameFile(d1, e, [])
    ensures Contained(d, e, [])
  {
    hide Prefixes;
    assert forall q: Path :: Inside(q, []) <==> q != [];
  }

  /** Where the output directory is the top of the file system, everything is inside. */
  lemma {:induction false} TopContained(d: Disk, tasks: seq<Task>, sha: bytes -> bytes)
    requires Rooted(d, [], []) && Admitted(tasks, [])
    ensures AllContained(d, FilePhase(d, tasks, sha).states, [])
    decreases |tasks|
  {
    hide TaskRun, Contained, Rooted;
    if tasks != [] {
      if tasks[0].Skip? {
        TopContained(d, tasks[1..], sha);
      } else {
        var (result, states) := TaskRun(d, tasks[0], sha);
        if tasks[0].target == [] {
          TopRowContained(d, tasks[0], sha);
        } else {
          TaskContained(d, [], [], tasks[0], sha);
        }
        SelfContained(d, []);
        var mid := Last(d, states);
        SelfContained(mid, []);
        ContainedThrough(d, mid, mid, [], []);
        if !result.Threw? {
          TopContained(mid, tasks[1..], sha);
          LaterContained(d, mid, [], [], states, FilePhase(mid, tasks[1..], sha).states);
        }
      }
    }
  }

  // --------------------------------------------------------------- whole runs

  /** The string checks admit only targets strictly below the output directory, or that directory itself. */
  lemma ChecksAdmitOnlyBelow(cwd: Path, outputDir: string, patterns: seq<string>,
                             databases: seq<DatabaseRow>, files: seq<FileRow>)
    requires Plain(cwd)
    ensures Admitted(Tasks(cwd, outputDir, patterns, databases, files), Resolve(cwd, [outputDir]))
  {
    hide Resolve, StartsBelow, SafeNameSegment, Inside;
    var root := Resolve(cwd, [outputDir]);
    forall i | 0 <= i < |databases| && DatabaseTask(cwd, outputDir, patterns, databases[i]).Store?
      ensures Plain(DatabaseTask(cwd, outputDir, patterns, databases[i]).target)
      ensures Inside(DatabaseTask(cwd, outputDir, patterns, databases[i]).target, root)
    {
      StringCheckExact(DatabaseTarget(cwd, outputDir, databases[i]), root);
    }
    forall i | 0 <= i < |files| && FileTask(cwd, outputDir, patterns, files[i]).Store?
      ensures var target := FileTask(cwd, outputDir, patterns, files[i]).target;
              Plain(target) && (Inside(target, root) || target == root)
    {
      StringCheckExact(Resolve(cwd, [outputDir, files[i].src, files[i].path]), root);
    }
  }

  /**
   * Over a whole run, for any index whatever rows and links it lists: no link is created before the last
   * file is on disk. If no row that stores something resolves to the output directory itself, every state
   * until then is contained. In general it is so if the run never opens a file for such a row, and, where
   * writing for it would show, only if. Where the directory is no link, such a row can change no more
   * than its own place and the partial's beside it, and the rows below still land inside.
   */
  lemma ExtractionStaysInside(d: Disk, cwd: Path, outputDir: string, patterns: seq<string>,
                              databases: seq<DatabaseRow>, files: seq<FileRow>, at: Path, sha: bytes -> bytes)
    requires Plain(cwd) && Rooted(d, Resolve(cwd, [outputDir]), at)
    ensures var root := Resolve(cwd, [outputDir]);
            var tasks := Tasks(cwd, outputDir, patterns, databases, files);
            var states := WholeRun(d, tasks, Links(cwd, outputDir, patterns, files), sha).0.states;
            var beside := Beside(d.links, root);
            && (root == [] || NoneIsTheRoot(tasks, root) ==> AllContained(d, states, at))
            && (root != [] && Grounded(d) && beside !in d.links ==>
                  && (!OpensRoot(d, tasks, root, sha) ==> AllContained(d, states, at))
                  && (AllWouldShow(d, tasks, root, at) ==>
                        (AllContained(d, states, at) <==> !OpensRoot(d, tasks, root, sha)))
                  && (Slot(d.links, root) == Some(at) && at !in d.links ==>
                        forall e :: e in states ==> AtMostBeside(d, e, root, at)))
  {
    hide FilePhase, LinkPhase, Rooted, Grounded, Admitted, Tasks, Beside, OpensRoot, AtMostBeside, Resolve, Links,
      NoneIsTheRoot, AllBelow, AllWouldShow;
    ChecksAdmitOnlyBelow(cwd, outputDir, patterns, databases, files);
    var root := Resolve(cwd, [outputDir]);
    var tasks := Tasks(cwd, outputDir, patterns, databases, files);
    if root == [] {
      TopIsTop(d, at);
      TopContained(d, tasks, sha);
    } else {
      if NoneIsTheRoot(tasks, root) {
        AdmittedIsBelow(tasks, root);
        FilePhaseContained(d, root, at, tasks, sha);
      }
      if Grounded(d) && Beside(d.links, root) !in d.links {
        ContainedExactly(d, root, at, tasks, sha);
        if Slot(d.links, root) == Some(at) && at !in d.links {
          FilePhaseBeside(d, root, at, tasks, sha);
        }
      }
    }
  }

  predicate NoneIsTheRoot(tasks: seq<Task>, root: Path) {
    forall i :: 0 <= i < |tasks| && tasks[i].Store? ==> tasks[i].target != root
  }

  lemma AdmittedIsBelow(tasks: seq<Task>, root: Path)
    requires Admitted(tasks, root) && NoneIsTheRoot(tasks, root)
    ensures AllBelow(tasks, root)
  {
  }

  lemma TopIsTop(d: Disk, at: Path)
    requires Rooted(d, [], at)
    ensures at == []
  {
  }

  // ------------------------------------------------------------ database names

  lemma SafeNamesAreSegments(name: string)
    ensures SafeNameSegment(name) != "" && '/' !in SafeNameSegment(name) && SafeNameSegment(name)[0] != '.'
  {
  }

  /** A database name is flattened to one segment: its dump is refused only at the top of the file system. */
  lemma DatabaseRefusedExactly(cwd: Path, outputDir: string, row: DatabaseRow)
    requires Plain(cwd)
    ensures var root := Resolve(cwd, [outputDir]);
            && Inside(DatabaseTarget(cwd, outputDir, row), root)
            && (StartsBelow(DatabaseTarget(cwd, outputDir, row), root) <==> root != [])
  {
    hide SafeNameSegment, DumpExtension, StartsBelow;
    SafeNamesAreSegments(row.name);
    SafeNamesAreSegments(DumpExtension(row.format));
    var name := SafeNameSegment(row.name) + "." + SafeNameSegment(DumpExtension(row.format));
    var root := Resolve(cwd, [outputDir]);
    assert PlainName(name) && PlainName("databases");
    ResolveBelow(cwd, outputDir, "databases", name);
    var target := DatabaseTarget(cwd, outputDir, row);
    assert target[..|root|] == root;
    StringCheckExact(target, root);
  }
}
