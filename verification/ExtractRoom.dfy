/** When an extraction gets through: what makes one row throw, and a disk on which none does. */
module ExtractRoom {
  import opened Bytes
  import opened Paths
  import opened Disk
  import opened Extract
  import opened ExtractSafety
  import opened ExtractOutcome

  /** A file lies where a directory has to be. */
  predicate FileOnTheWay(d: Disk, dir: Path) {
    exists k :: 0 <= k <= |dir| && dir[..k] in d.files
  }

  /** What there is to write has arrived whole. */
  predicate Complete(source: Source) {
    match source
    case Unresolved => false
    case Bundled(content) => content.Some?
    case Streamed(size, delivery) => size > 0 && !delivery.broken
  }

  lemma MakeDirsFails(d: Disk, root: Path, at: Path, names: Path)
    requires Rooted(d, root, at) && Plain(names)
    ensures MakeDirs(d, root + names).None? <==> FileOnTheWay(d, at + names)
  {
    PhysicalBelow(d.links, root, at, names);
  }

  /** The directories made for an entry are shorter than it, so none of them is in its place. */
  lemma LongerIsNoPrefix(dir: Path, spot: Path)
    requires |spot| > |dir|
    ensures spot !in Prefixes(dir)
  {
  }

  lemma PlaceKept(d: Disk, root: Path, at: Path, names: Path, spot: Path)
    requires Rooted(d, root, at) && Plain(names) && names != [] && |spot| == |at + names|
    requires MakeDirs(d, Parent(root + names)).Some?
    ensures IsDir(MakeDirs(d, Parent(root + names)).value, spot) <==> IsDir(d, spot)
  {
    hide MakeDirs, Prefixes, Suffixed;
    PartialBelow(root, names);
    MakeDirsBelow(d, root, at, Parent(names));
    LongerIsNoPrefix(at + Parent(names), spot);
  }

  /**
   * Exactly when a row below the output directory throws: its content cannot be had, a file is in the way
   * of its directories, a directory is in its place, or, where it is streamed, its entry is empty, its
   * partial file's name is a directory's, or what arrives breaks off.
   */
  lemma RowThrowsExactly(d: Disk, root: Path, at: Path, task: Task, sha: bytes -> bytes)
    requires Rooted(d, root, at) && task.Store? && Plain(task.target) && Inside(task.target, root)
    ensures var names := task.target[|root|..];
            TaskRun(d, task, sha).0.Threw? <==>
            || !Complete(task.source)
            || FileOnTheWay(d, at + Parent(names))
            || (task.source.Bundled? && IsDir(d, at + names))
            || (task.source.Streamed? && IsDir(d, at + Suffixed(names)))
            || (task.source.Streamed? && IsDir(d, at + names)
                && (task.expected == None || task.expected == Some([])
                    || task.expected == Some(sha(Concat(task.source.delivery.chunks)))))
  {
    hide StreamRun, BundleRun, MakeDirs, FileOnTheWay, Suffixed, HashOk, Rooted, IsDir, Concat;
    var names := task.target[|root|..];
    assert task.target == root + names;
    PartialBelow(root, names);
    MakeDirsFails(d, root, at, Parent(names));
    match task.source {
      case Bundled(Some(content)) => BundleThrows(d, root, at, names, content, task.expected, sha);
      case Streamed(size, delivery) =>
        DigestSpelled(sha, task.expected, Concat(delivery.chunks));
        StreamThrows(d, root, at, names, size, delivery, task.expected, sha);
      case _ =>
    }
  }

  lemma BundleThrows(d: Disk, root: Path, at: Path, names: Path, content: bytes, expected: Option<bytes>,
                     sha: bytes -> bytes)
    requires Rooted(d, root, at) && Plain(names) && names != []
    ensures BundleRun(d, root + names, content, expected, sha).0.Threw? <==>
            MakeDirs(d, Parent(root + names)).None? || IsDir(d, at + names)
  {
    hide MakeDirs, WritableAt, HashOk, Suffixed, Rooted;
    PartialBelow(root, names);
    var made := MakeDirs(d, Parent(root + names));
    if made.Some? {
      MakeDirsBelow(d, root, at, Parent(names));
      SameRoot(d, made.value, root, at);
      WriteBelow(made.value, root, at, names);
      PlaceKept(d, root, at, names, at + names);
      assert at + Parent(names) == (at + Parent(names))[..|at + Parent(names)|];
    }
  }

  lemma SameRoot(d: Disk, e: Disk, root: Path, at: Path)
    requires Rooted(d, root, at) && e.links == d.links
    ensures Rooted(e, root, at)
  {
  }

  lemma StreamThrows(d: Disk, root: Path, at: Path, names: Path, size: nat, delivery: Delivery,
                     expected: Option<bytes>, sha: bytes -> bytes)
    requires Rooted(d, root, at) && Plain(names) && names != []
    ensures StreamRun(d, root + names, size, delivery, expected, sha).0.Threw? <==>
            || MakeDirs(d, Parent(root + names)).None? || size == 0 || IsDir(d, at + Suffixed(names)) || delivery.broken
            || (HashOk(sha, expected, Concat(delivery.chunks)) && IsDir(d, at + names))
  {
    hide MakeDirs, Removed, Renamed, HashOk, WritableAt, Suffixed, Prefixes, IsDir, Rooted, Concat;
    PartialBelow(root, names);
    if MakeDirs(d, Parent(root + names)).Some? {
      MakeDirsBelow(d, root, at, Parent(names));
      StreamIsPlain(d, root, at, names, size, delivery, expected, sha);
      PlaceKept(d, root, at, names, at + names);
      PlaceKept(d, root, at, names, at + Suffixed(names));
    } else {
      NoDirsThrows(d, root + names, size, delivery, expected, sha);
    }
  }

  lemma NoDirsThrows(d: Disk, target: Path, size: nat, delivery: Delivery, expected: Option<bytes>, sha: bytes -> bytes)
    requires MakeDirs(d, Parent(target)).None?
    ensures StreamRun(d, target, size, delivery, expected, sha).0.Threw?
  {
  }

  // ------------------------------------------------------------ enough room

  /** Below the output directory, what a row's own entry is called, and the partial file's where it is streamed. */
  predicate Takes(task: Task, root: Path, names: Path)
    requires task.Store? && Inside(task.target, root)
  {
    names == task.target[|root|..] || (task.source.Streamed? && names == Suffixed(task.target[|root|..]))
  }

  /** There is room for a row: no file on its way, and no directory where it puts a file. */
  ghost predicate RoomFor(d: Disk, task: Task, root: Path, at: Path)
    requires task.Store? && Inside(task.target, root)
  {
    var names := task.target[|root|..];
    && !FileOnTheWay(d, at + Parent(names)) && !IsDir(d, at + names)
    && (task.source.Streamed? ==> !IsDir(d, at + Suffixed(names)))
  }

  /** No file of the first row is on the way to the second's place. */
  ghost predicate OutOfTheWay(first: Task, second: Task, root: Path)
    requires first.Store? && Inside(first.target, root) && second.Store? && Inside(second.target, root)
  {
    forall names :: Takes(first, root, names) ==> !(names <= Parent(second.target[|root|..]))
  }

  /** There is room for every row, and none gets in the way of another. */
  ghost predicate HasRoom(d: Disk, tasks: seq<Task>, root: Path, at: Path)
    requires AllBelow(tasks, root)
  {
    && (forall k :: 0 <= k < |tasks| && tasks[k].Store? ==> RoomFor(d, tasks[k], root, at))
    && (forall k, l :: 0 <= k < |tasks| && 0 <= l < |tasks| && tasks[k].Store? && tasks[l].Store? ==>
          OutOfTheWay(tasks[k], tasks[l], root))
  }

  ghost predicate AllComplete(tasks: seq<Task>) {
    forall k :: 0 <= k < |tasks| && tasks[k].Store? ==> Complete(tasks[k].source)
  }

  /** Where there is room for a row with complete content, it does not throw. */
  lemma RoomIsEnough(d: Disk, root: Path, at: Path, task: Task, sha: bytes -> bytes)
    requires Rooted(d, root, at) && task.Store? && Plain(task.target) && Inside(task.target, root)
    requires Complete(task.source) && RoomFor(d, task, root, at)
    ensures !TaskRun(d, task, sha).0.Threw?
  {
    hide TaskRun, FileOnTheWay, IsDir, Suffixed, HashOk, Concat, Rooted;
    RowThrowsExactly(d, root, at, task, sha);
  }

  /** What a row does to the disk, as far as others can stumble over it: one file more, and directories on its way. */
  lemma RowAdds(d: Disk, root: Path, at: Path, task: Task, sha: bytes -> bytes)
    requires Rooted(d, root, at) && task.Store? && Plain(task.target) && Inside(task.target, root)
    requires !TaskRun(d, task, sha).0.Threw?
    ensures var names, e := task.target[|root|..], Last(d, TaskRun(d, task, sha).1);
            && Rooted(e, root, at) && e.links == d.links
            && (forall q :: q in e.files ==> q in d.files || q == at + names)
            && e.dirs <= d.dirs + Prefixes(at + Parent(names))
  {
    hide TaskRun, Contained, Rooted, Suffixed, HashOk, Prefixes;
    var names := task.target[|root|..];
    TaskReplays(d, root, at, task, sha);
    RowTouches(d, root, at, task, sha);
    SameRoot(d, Last(d, TaskRun(d, task, sha).1), root, at);
  }

  lemma RowTouches(d: Disk, root: Path, at: Path, task: Task, sha: bytes -> bytes)
    requires Rooted(d, root, at) && task.Store? && Plain(task.target) && Inside(task.target, root)
    ensures var e := Last(d, TaskRun(d, task, sha).1);
            e.links == d.links && e.dirs <= d.dirs + Prefixes(at + Parent(task.target[|root|..]))
  {
    hide StreamRun, BundleRun, Suffixed, HashOk, Prefixes, Rooted;
    var names := task.target[|root|..];
    assert task.target == root + names;
    var states := TaskRun(d, task, sha).1;
    assert states != [] ==> states[|states| - 1] in states;
    match task.source {
      case Bundled(Some(content)) => BundleBelow(d, root, at, names, content, task.expected, sha);
      case Streamed(size, delivery) =>
        VerifyBeforeVisible(d, root, at, names, size, delivery, task.expected, sha);
      case _ =>
    }
  }

  lemma StillRoom(d: Disk, e: Disk, root: Path, at: Path, first: Task, second: Task)
    requires first.Store? && Inside(first.target, root) && second.Store? && Inside(second.target, root)
    requires Plain(second.target) && RoomFor(d, second, root, at)
    requires OutOfTheWay(first, second, root) && OutOfTheWay(second, first, root)
    requires forall q :: q in e.files ==> q in d.files || q == at + first.target[|root|..]
    requires e.dirs <= d.dirs + Prefixes(at + Parent(first.target[|root|..]))
    ensures RoomFor(e, second, root, at)
  {
    hide Suffixed, Prefixes;
    var one, two := first.target[|root|..], second.target[|root|..];
    var dir := at + Parent(two);
    assert Takes(first, root, one);
    if FileOnTheWay(e, dir) {
      var k :| 0 <= k <= |dir| && dir[..k] in e.files;
      assert dir[..k] !in d.files;
      PrefixBelow(at, Parent(two), one, k);
    }
    assert Takes(second, root, two);
    NoDirThere(at, Parent(one), two);
    if second.source.Streamed? {
      assert Takes(second, root, Suffixed(two));
      NoDirThere(at, Parent(one), Suffixed(two));
      assert second.target == root + two;
      PartialBelow(root, two);
    }
  }

  lemma PrefixBelow(at: Path, dir: Path, names: Path, k: nat)
    requires k <= |at + dir| && (at + dir)[..k] == at + names
    ensures names <= dir
  {
    assert forall i :: 0 <= i < |names| ==> (at + names)[|at| + i] == names[i];
  }

  lemma NoDirThere(at: Path, dir: Path, names: Path)
    requires !(names <= dir)
    ensures at + names !in Prefixes(at + dir)
  {
    if at + names in Prefixes(at + dir) {
      var k :| 0 <= k <= |at + dir| && at + names == (at + dir)[..k];
      PrefixBelow(at, dir, names, k);
    }
  }

  /** With room for everything and all content complete, an extraction gets through its rows. */
  lemma {:induction false} RunsThrough(d: Disk, root: Path, at: Path, tasks: seq<Task>, sha: bytes -> bytes)
    requires Rooted(d, root, at) && AllBelow(tasks, root) && HasRoom(d, tasks, root, at) && AllComplete(tasks)
    ensures !FilePhase(d, tasks, sha).threw
    decreases |tasks|
  {
    hide TaskRun, Rooted, RoomFor, OutOfTheWay, Complete;
    if tasks != [] {
      var later := tasks[1..];
      assert forall k :: 0 <= k < |later| ==> later[k] == tasks[k + 1];
      if tasks[0].Skip? {
        RunsThrough(d, root, at, later, sha);
      } else {
        RoomIsEnough(d, root, at, tasks[0], sha);
        RowAdds(d, root, at, tasks[0], sha);
        var mid := Last(d, TaskRun(d, tasks[0], sha).1);
        forall k | 0 <= k < |later| && later[k].Store? ensures RoomFor(mid, later[k], root, at) {
          assert RoomFor(d, tasks[k + 1], root, at) && OutOfTheWay(tasks[k + 1], tasks[0], root);
          StillRoom(d, mid, root, at, tasks[0], later[k]);
        }
        RunsThrough(mid, root, at, later, sha);
      }
    }
  }

  /** And there is still room then for any row that none of them gets in the way of. */
  lemma {:induction false} RoomStays(d: Disk, root: Path, at: Path, tasks: seq<Task>, watched: Task,
                                     sha: bytes -> bytes)
    requires Rooted(d, root, at) && AllBelow(tasks, root) && !FilePhase(d, tasks, sha).threw
    requires watched.Store? && Plain(watched.target) && Inside(watched.target, root) && RoomFor(d, watched, root, at)
    requires forall k :: 0 <= k < |tasks| && tasks[k].Store? ==>
               OutOfTheWay(tasks[k], watched, root) && OutOfTheWay(watched, tasks[k], root)
    ensures RoomFor(Last(d, FilePhase(d, tasks, sha).states), watched, root, at)
    ensures Last(d, FilePhase(d, tasks, sha).states).links == d.links
    decreases |tasks|
  {
    hide TaskRun, Rooted, RoomFor, OutOfTheWay;
    if tasks != [] {
      var later := tasks[1..];
      assert forall k :: 0 <= k < |later| ==> later[k] == tasks[k + 1];
      if tasks[0].Skip? {
        RoomStays(d, root, at, later, watched, sha);
      } else {
        RowAdds(d, root, at, tasks[0], sha);
        var mid := Last(d, TaskRun(d, tasks[0], sha).1);
        StillRoom(d, mid, root, at, tasks[0], watched);
        RoomStays(mid, root, at, later, watched, sha);
      }
    }
  }

  // --------------------------------------------------- rows that keep apart

  /** Neither row's file has the other's name, nor that of the other's partial file. */
  ghost predicate KeepApart(first: Task, second: Task, root: Path)
    requires first.Store? && Inside(first.target, root) && second.Store? && Inside(second.target, root)
  {
    !Takes(first, root, second.target[|root|..])
  }

  ghost predicate Apart(tasks: seq<Task>, root: Path)
    requires AllBelow(tasks, root)
  {
    forall k, l :: 0 <= k < |tasks| && 0 <= l < |tasks| && k != l && tasks[k].Store? && tasks[l].Store? ==>
      KeepApart(tasks[k], tasks[l], root)
  }

  /** Then no row after one alters the place of that one. */
  lemma {:induction false} ApartUnaltered(tasks: seq<Task>, root: Path, at: Path, sha: bytes -> bytes, spot: Path)
    requires AllBelow(tasks, root)
    requires forall k :: 0 <= k < |tasks| && tasks[k].Store? ==> forall names :: Takes(tasks[k], root, names) ==>
                                                                   at + names != spot
    ensures Untouched(Effects(tasks, root, at, sha), spot)
    decreases |tasks|
  {
    hide EffectOf, Suffixed;
    if tasks != [] {
      var later := tasks[1..];
      assert forall k :: 0 <= k < |later| ==> later[k] == tasks[k + 1];
      ApartUnaltered(later, root, at, sha, spot);
      var effects := Effects(tasks, root, at, sha);
      if tasks[0].Store? {
        EffectWithin(tasks[0], root, at, sha);
        assert forall j :: 0 < j < |effects| ==> effects[j] == Effects(later, root, at, sha)[j - 1];
      }
    }
  }

  lemma EffectWithin(task: Task, root: Path, at: Path, sha: bytes -> bytes)
    requires task.Store? && Inside(task.target, root)
    ensures var names, effect := task.target[|root|..], EffectOf(task, root, at, sha);
            && effect.spot == at + names && Takes(task, root, names)
            && (effect.swept.Some? ==> effect.swept.value == at + Suffixed(names) && Takes(task, root, Suffixed(names)))
  {
    hide Suffixed, HashOk;
  }

  // ------------------------------------- a directory with the partial's name

  lemma RowMakesDirs(d: Disk, root: Path, at: Path, task: Task, sha: bytes -> bytes)
    requires Rooted(d, root, at) && task.Store? && Plain(task.target) && Inside(task.target, root)
    requires !TaskRun(d, task, sha).0.Threw?
    ensures IsDir(Last(d, TaskRun(d, task, sha).1), at + Parent(task.target[|root|..]))
  {
    hide MakeDirs, Suffixed, HashOk, WritableAt, Removed, Renamed, Rooted, Concat;
    var names := task.target[|root|..];
    assert task.target == root + names;
    PartialBelow(root, names);
    var dir := at + Parent(names);
    assert dir == dir[..|dir|];
    if MakeDirs(d, Parent(root + names)).Some? {
      MakeDirsBelow(d, root, at, Parent(names));
      match task.source {
        case Streamed(size, delivery) => StreamIsPlain(d, root, at, names, size, delivery, task.expected, sha);
        case _ =>
      }
    }
  }

  /**
   * Files "x.partial/y" and then "x" of one source: the first makes a directory where the second streams
   * to, so the run throws, at the latest there.
   */
  lemma DirectoryTakesPartialName(d: Disk, cwd: Path, outputDir: string, root: Path, at: Path, first: FileRow,
                                  second: FileRow, leaf: string, sha: bytes -> bytes)
    requires Plain(cwd) && root == Resolve(cwd, [outputDir]) && root != [] && Rooted(d, root, at)
    requires PlainName(first.src) && PlainName(second.path) && PlainName(leaf)
    requires second.src == first.src && first.path == second.path + ".partial" + "/" + leaf
    requires first.lnk.None? && second.lnk.None? && second.source.Streamed?
    ensures FilePhase(d, FileTasks(cwd, outputDir, [], [first, second]), sha).threw
  {
    hide TaskRun, Resolve, Rooted, StartsBelow, FileTask, IsDir;
    var tasks := FileTasks(cwd, outputDir, [], [first, second]);
    var partial := second.path + ".partial";
    assert PlainName(partial) by {
      assert forall i :: 0 <= i < |partial| ==> partial[i] != '/';
      assert |partial| > 2;
    }
    DeepRow(cwd, outputDir, first, partial, leaf);
    PlainRow(cwd, outputDir, second);
    assert tasks[1..][0] == tasks[1] && tasks[1..][1..] == [];
    var result := TaskRun(d, tasks[0], sha).0;
    if !result.Threw? {
      var mid := Last(d, TaskRun(d, tasks[0], sha).1);
      RowAdds(d, root, at, tasks[0], sha);
      RowMakesDirs(d, root, at, tasks[0], sha);
      RowThrowsExactly(mid, root, at, tasks[1], sha);
      assert (root + [first.src, partial, leaf])[|root|..] == [first.src, partial, leaf];
      assert (root + [second.src, second.path])[|root|..] == [second.src, second.path];
      assert Parent([first.src, partial, leaf]) == [first.src, partial] == Suffixed([second.src, second.path]);
    }
  }

  lemma DeepRow(cwd: Path, outputDir: string, row: FileRow, folder: string, leaf: string)
    requires Plain(cwd) && PlainName(row.src) && PlainName(folder) && PlainName(leaf) && row.lnk.None?
    requires row.path == folder + "/" + leaf && Resolve(cwd, [outputDir]) != []
    ensures FileTask(cwd, outputDir, [], row) ==
            Store(Resolve(cwd, [outputDir]) + [row.src, folder, leaf], row.source, row.hash)
    ensures Inside(Resolve(cwd, [outputDir]) + [row.src, folder, leaf], Resolve(cwd, [outputDir]))
  {
    hide Resolve, StartsBelow;
    var root := Resolve(cwd, [outputDir]);
    ResolveDeeper(cwd, outputDir, row.src, folder, leaf);
    StringCheckExact(root + [row.src, folder, leaf], root);
    assert (root + [row.src, folder, leaf])[..|root|] == root;
  }
}
