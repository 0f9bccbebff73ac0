/** What an extraction run leaves on disk: which files survive it, and with which content. */
module ExtractOutcome {
  import opened Bytes
  import opened Paths
  import opened Disk
  import opened Extract
  import opened ExtractSafety

  /** What a task that did not throw leaves behind: content at a spot, and one entry swept away. */
  datatype Effect = Effect(spot: Path, swept: Option<Path>, content: Option<bytes>)

  function EffectOf(task: Task, root: Path, at: Path, sha: bytes -> bytes): Effect
    requires task.Store? && Inside(task.target, root)
  {
    var names := task.target[|root|..];
    match task.source
    case Streamed(_, delivery) =>
      var content := Concat(delivery.chunks);
      Effect(at + names, Some(at + Suffixed(names)),
             if task.expected == None || task.expected == Some([]) || task.expected == Some(sha(content))
             then Some(content) else None)
    case Bundled(content) => Effect(at + names, None, content)
    case Unresolved => Effect(at + names, None, None)
  }

  function Effects(tasks: seq<Task>, root: Path, at: Path, sha: bytes -> bytes): seq<Effect>
    requires forall i :: 0 <= i < |tasks| && tasks[i].Store? ==> Inside(tasks[i].target, root)
  {
    if tasks == [] then []
    else (if tasks[0].Store? then [EffectOf(tasks[0], root, at, sha)] else []) + Effects(tasks[1..], root, at, sha)
  }

  function Apply(files: map<Path, bytes>, effect: Effect): map<Path, bytes> {
    var left := if effect.swept.Some? then files - {effect.swept.value} else files;
    if effect.content.Some? then left[effect.spot := effect.content.value] else left
  }

  function Replay(files: map<Path, bytes>, effects: seq<Effect>): map<Path, bytes>
    decreases |effects|
  {
    if effects == [] then files else Replay(Apply(files, effects[0]), effects[1..])
  }

  lemma TaskReplays(d: Disk, root: Path, at: Path, task: Task, sha: bytes -> bytes)
    requires Rooted(d, root, at) && task.Store? && Plain(task.target) && Inside(task.target, root)
    requires !TaskRun(d, task, sha).0.Threw?
    ensures Last(d, TaskRun(d, task, sha).1).files == Apply(d.files, EffectOf(task, root, at, sha))
  {
    hide StreamRun, BundleRun, Touches, Suffixed, HashOk;
    var names := task.target[|root|..];
    assert task.target == root + names;
    match task.source {
      case Bundled(Some(content)) => BundleBelow(d, root, at, names, content, task.expected, sha);
      case Streamed(size, delivery) =>
        VerifyBeforeVisible(d, root, at, names, size, delivery, task.expected, sha);
        StreamResults(d, task.target, size, delivery, task.expected, sha);
      case _ =>
    }
  }

  lemma StreamResults(d: Disk, target: Path, size: nat, delivery: Delivery, expected: Option<bytes>,
                      sha: bytes -> bytes)
    ensures var result := StreamRun(d, target, size, delivery, expected, sha).0;
            !result.Threw? ==>
              (result.Written? <==>
               expected == None || expected == Some([]) || expected == Some(sha(Concat(delivery.chunks))))
  {
  }

  /** What arrived does not have the digest recorded for it. */
  predicate WrongDigest(task: Task, sha: bytes -> bytes) {
    && task.Store? && task.expected.Some? && task.expected.value != []
    && match task.source
       case Bundled(Some(content)) => sha(content) != task.expected.value
       case Streamed(_, delivery) => sha(Concat(delivery.chunks)) != task.expected.value
       case _ => false
  }

  function Stores(tasks: seq<Task>): nat {
    if tasks == [] then 0 else (if tasks[0].Store? then 1 else 0) + Stores(tasks[1..])
  }

  function Wrong(tasks: seq<Task>, sha: bytes -> bytes, streamedOnly: bool): nat {
    if tasks == [] then 0
    else
      (if WrongDigest(tasks[0], sha) && (streamedOnly ==> tasks[0].source.Streamed?) then 1 else 0)
      + Wrong(tasks[1..], sha, streamedOnly)
  }

  /**
   * What a phase that threw nothing reports: every row with a wrong digest is a mismatch, and every row is
   * extracted but the streamed ones with a wrong digest.
   */
  lemma {:induction false} CountersExact(d: Disk, tasks: seq<Task>, sha: bytes -> bytes)
    requires !FilePhase(d, tasks, sha).threw
    ensures FilePhase(d, tasks, sha).mismatches == Wrong(tasks, sha, false)
    ensures FilePhase(d, tasks, sha).extracted + Wrong(tasks, sha, true) == Stores(tasks)
    decreases |tasks|
  {
    if tasks != [] {
      if tasks[0].Store? {
        TaskCounted(d, tasks[0], sha);
        hide TaskRun, WrongDigest;
        CountersExact(Last(d, TaskRun(d, tasks[0], sha).1), tasks[1..], sha);
      } else {
        CountersExact(d, tasks[1..], sha);
      }
    }
  }

  lemma TaskCounted(d: Disk, task: Task, sha: bytes -> bytes)
    requires task.Store? && !TaskRun(d, task, sha).0.Threw?
    ensures TaskRun(d, task, sha).0 == Written(true) <==> !WrongDigest(task, sha)
    ensures TaskRun(d, task, sha).0.Written? <==> !(WrongDigest(task, sha) && task.source.Streamed?)
  {
    hide MakeDirs, WritableAt, Removed, Renamed, Suffixed, Concat;
  }

  /**
   * What the row that throws leaves behind. A broken stream sweeps its partial file; one that was verified
   * but could not be renamed leaves it; every other failure changes no file.
   */
  function FailureOf(d: Disk, task: Task, root: Path, at: Path): Effect
    requires task.Store? && Inside(task.target, root)
  {
    var names := task.target[|root|..];
    match task.source
    case Streamed(size, delivery) =>
      var made, partial := MakeDirs(d, Parent(task.target)), at + Suffixed(names);
      if made.None? || size == 0 || IsDir(made.value, partial) then Effect(at + names, None, None)
      else if delivery.broken then Effect(at + names, Some(partial), None)
      else Effect(partial, None, Some(Concat(delivery.chunks)))
    case _ => Effect(at + names, None, None)
  }

  lemma ThrowingTaskReplays(d: Disk, root: Path, at: Path, task: Task, sha: bytes -> bytes)
    requires Rooted(d, root, at) && task.Store? && Plain(task.target) && Inside(task.target, root)
    requires TaskRun(d, task, sha).0.Threw?
    ensures Last(d, TaskRun(d, task, sha).1).files == Apply(d.files, FailureOf(d, task, root, at))
  {
    hide StreamRun, BundleRun, MakeDirs, Suffixed, HashOk, Rooted;
    var names := task.target[|root|..];
    assert task.target == root + names;
    match task.source {
      case Bundled(Some(content)) => ThrowingBundle(d, task.target, content, task.expected, sha);
      case Streamed(size, delivery) => ThrowingStream(d, root, at, names, size, delivery, task.expected, sha);
      case _ =>
    }
  }

  lemma ThrowingBundle(d: Disk, target: Path, content: bytes, expected: Option<bytes>, sha: bytes -> bytes)
    ensures var (result, states) := BundleRun(d, target, content, expected, sha);
            result.Threw? ==> Last(d, states).files == d.files
  {
  }

  lemma ThrowingStream(d: Disk, root: Path, at: Path, names: Path, size: nat, delivery: Delivery,
                       expected: Option<bytes>, sha: bytes -> bytes)
    requires Rooted(d, root, at) && Plain(names) && names != []
    requires StreamRun(d, root + names, size, delivery, expected, sha).0.Threw?
    ensures var made, partial := MakeDirs(d, Parent(root + names)), at + Suffixed(names);
            var end := Last(d, StreamRun(d, root + names, size, delivery, expected, sha).1).files;
            end == if made.None? || size == 0 || IsDir(made.value, partial) then d.files
                   else if delivery.broken then d.files - {partial}
                   else d.files[partial := Concat(delivery.chunks)]
  {
    hide MakeDirs, Removed, Renamed, HashOk, WritableAt, Suffixed, Prefixes;
    var partial := at + Suffixed(names);
    PartialBelow(root, names);
    if MakeDirs(d, Parent(root + names)).Some? {
      MakeDirsBelow(d, root, at, Parent(names));
      StreamIsPlain(d, root, at, names, size, delivery, expected, sha);
      var d1 := MakeDirs(d, Parent(root + names)).value;
      var full := d1.(files := d1.files[partial := Concat(delivery.chunks)]);
      assert ([d1] + Appending(d1, partial, delivery.chunks))[|delivery.chunks| + 1] == full;
      assert full.files - {partial} == d.files - {partial};
    }
  }

  /** What the rows of a run leave, one after the other, up to and including one that throws. */
  function Done(d: Disk, tasks: seq<Task>, root: Path, at: Path, sha: bytes -> bytes): seq<Effect>
    requires forall i :: 0 <= i < |tasks| && tasks[i].Store? ==> Inside(tasks[i].target, root)
    decreases |tasks|
  {
    if tasks == [] then []
    else if tasks[0].Skip? then Done(d, tasks[1..], root, at, sha)
    else
      var (result, states) := TaskRun(d, tasks[0], sha);
      if result.Threw? then [FailureOf(d, tasks[0], root, at)]
      else [EffectOf(tasks[0], root, at, sha)] + Done(Last(d, states), tasks[1..], root, at, sha)
  }

  /** A file phase leaves exactly what replaying what its rows left leaves, whether one of them threw or not. */
  lemma {:induction false} FilePhaseReplays(d: Disk, root: Path, at: Path, tasks: seq<Task>, sha: bytes -> bytes)
    requires Rooted(d, root, at) && AllBelow(tasks, root)
    ensures Last(d, FilePhase(d, tasks, sha).states).files == Replay(d.files, Done(d, tasks, root, at, sha))
    decreases |tasks|
  {
    hide TaskRun, Contained, Rooted, EffectOf, FailureOf, Apply;
    if tasks != [] {
      if tasks[0].Skip? {
        FilePhaseReplays(d, root, at, tasks[1..], sha);
      } else {
        var (result, states) := TaskRun(d, tasks[0], sha);
        var done := Done(d, tasks, root, at, sha);
        if result.Threw? {
          ThrowingTaskReplays(d, root, at, tasks[0], sha);
          assert done[1..] == [];
        } else {
          TaskContained(d, root, at, tasks[0], sha);
          SelfContained(d, at);
          var mid := Last(d, states);
          ContainedThrough(d, mid, mid, root, at) by {
            SelfContained(mid, at);
          }
          TaskReplays(d, root, at, tasks[0], sha);
          FilePhaseReplays(mid, root, at, tasks[1..], sha);
          assert done[1..] == Done(mid, tasks[1..], root, at, sha);
        }
      }
    }
  }

  /** In a phase that threw nothing, that is the effect of every row that stores something. */
  lemma {:induction false} AllDone(d: Disk, root: Path, at: Path, tasks: seq<Task>, sha: bytes -> bytes)
    requires AllBelow(tasks, root) && !FilePhase(d, tasks, sha).threw
    ensures Done(d, tasks, root, at, sha) == Effects(tasks, root, at, sha)
    decreases |tasks|
  {
    hide TaskRun, EffectOf, FailureOf;
    if tasks != [] {
      if tasks[0].Skip? {
        AllDone(d, root, at, tasks[1..], sha);
        assert [] + Effects(tasks[1..], root, at, sha) == Effects(tasks[1..], root, at, sha);
      } else {
        AllDone(Last(d, TaskRun(d, tasks[0], sha).1), root, at, tasks[1..], sha);
      }
    }
  }

  /** A phase whose first row is done, or skipped, is the phase of the others from there. */
  lemma AfterFirst(d: Disk, root: Path, at: Path, tasks: seq<Task>, sha: bytes -> bytes)
    requires AllBelow(tasks, root) && tasks != [] && (tasks[0].Store? ==> !TaskRun(d, tasks[0], sha).0.Threw?)
    ensures var mid := if tasks[0].Store? then Last(d, TaskRun(d, tasks[0], sha).1) else d;
            var own := if tasks[0].Store? then [EffectOf(tasks[0], root, at, sha)] else [];
            && FilePhase(d, tasks, sha).threw == FilePhase(mid, tasks[1..], sha).threw
            && Last(d, FilePhase(d, tasks, sha).states) == Last(mid, FilePhase(mid, tasks[1..], sha).states)
            && Done(d, tasks, root, at, sha) == own + Done(mid, tasks[1..], root, at, sha)
            && Effects(tasks, root, at, sha) == own + Effects(tasks[1..], root, at, sha)
  {
    hide TaskRun, EffectOf, FailureOf;
  }

  lemma ThrowsFirst(d: Disk, root: Path, at: Path, tasks: seq<Task>, sha: bytes -> bytes)
    requires AllBelow(tasks, root) && tasks != [] && tasks[0].Store? && TaskRun(d, tasks[0], sha).0.Threw?
    ensures !FilePhase(d, tasks[..0], sha).threw && Last(d, FilePhase(d, tasks[..0], sha).states) == d
    ensures Done(d, tasks, root, at, sha) ==
            Effects(tasks[..0], root, at, sha) + [FailureOf(d, tasks[0], root, at)]
  {
    hide TaskRun, EffectOf, FailureOf;
    assert tasks[..0] == [] && [] + [FailureOf(d, tasks[0], root, at)] == [FailureOf(d, tasks[0], root, at)];
  }

  /** In a phase that threw, it is the effects of the rows before the one that threw, and what that one left. */
  lemma {:induction false} DoneUntilThrow(d: Disk, root: Path, at: Path, tasks: seq<Task>, sha: bytes -> bytes)
    returns (k: nat)
    requires AllBelow(tasks, root) && FilePhase(d, tasks, sha).threw
    ensures k < |tasks| && tasks[k].Store? && !FilePhase(d, tasks[..k], sha).threw
    ensures var mid := Last(d, FilePhase(d, tasks[..k], sha).states);
            && TaskRun(mid, tasks[k], sha).0.Threw?
            && Done(d, tasks, root, at, sha) ==
               Effects(tasks[..k], root, at, sha) + [FailureOf(mid, tasks[k], root, at)]
    decreases |tasks|
  {
    hide TaskRun, EffectOf, FailureOf, FilePhase, Done, Effects, Last;
    SomeTask(d, tasks, sha);
    if tasks[0].Store? && TaskRun(d, tasks[0], sha).0.Threw? {
      k := 0;
      ThrowsFirst(d, root, at, tasks, sha);
    } else {
      var mid := if tasks[0].Store? then Last(d, TaskRun(d, tasks[0], sha).1) else d;
      AfterFirst(d, root, at, tasks, sha);
      var k' := DoneUntilThrow(mid, root, at, tasks[1..], sha);
      k := k' + 1;
      assert tasks[..k][1..] == tasks[1..][..k'] && tasks[..k][0] == tasks[0];
      AfterFirst(d, root, at, tasks[..k], sha);
    }
  }

  lemma SomeTask(d: Disk, tasks: seq<Task>, sha: bytes -> bytes)
    requires FilePhase(d, tasks, sha).threw
    ensures tasks != []
  {
  }

  /** No effect writes or sweeps this spot. */
  predicate Untouched(effects: seq<Effect>, spot: Path) {
    forall j :: 0 <= j < |effects| ==>
                  effects[j].swept != Some(spot) && (effects[j].content.Some? ==> effects[j].spot != spot)
  }

  lemma {:induction false} UntouchedStays(files: map<Path, bytes>, effects: seq<Effect>, spot: Path)
    requires Untouched(effects, spot)
    ensures spot in Replay(files, effects) <==> spot in files
    ensures spot in files ==> Replay(files, effects)[spot] == files[spot]
    decreases |effects|
  {
    if effects != [] {
      UntouchedStays(Apply(files, effects[0]), effects[1..], spot);
    }
  }

  lemma {:induction false} ReplayInTwo(files: map<Path, bytes>, first: seq<Effect>, second: seq<Effect>)
    ensures Replay(files, first + second) == Replay(Replay(files, first), second)
    decreases |first|
  {
    hide Apply;
    if first == [] {
      assert first + second == second;
    } else {
      assert (first + second)[1..] == first[1..] + second;
      ReplayInTwo(Apply(files, first[0]), first[1..], second);
    }
  }

  lemma Followed(files: map<Path, bytes>, effects: seq<Effect>, k: nat)
    requires k < |effects|
    ensures Replay(files, effects) == Replay(Replay(files, effects[..k + 1]), effects[k + 1..])
    ensures Replay(files, effects[..k + 1]) == Apply(Replay(files, effects[..k]), effects[k])
  {
    hide Apply;
    assert effects == effects[..k + 1] + effects[k + 1..];
    ReplayInTwo(files, effects[..k + 1], effects[k + 1..]);
    assert effects[..k + 1] == effects[..k] + [effects[k]];
    ReplayInTwo(files, effects[..k], [effects[k]]);
    assert [effects[k]][1..] == [];
  }

  // ------------------------------------------------------- the file phase

  predicate Writes(effect: Effect, spot: Path) {
    effect.content.Some? && effect.spot == spot
  }

  /** The effect writes this spot, or sweeps it as the partial file of its own. */
  predicate Alters(effect: Effect, spot: Path) {
    effect.swept == Some(spot) || Writes(effect, spot)
  }

  /** The last effect after `i` that alters the spot. */
  predicate LastAfter(effects: seq<Effect>, spot: Path, i: int, j: int) {
    i < j < |effects| && 0 <= j && Alters(effects[j], spot)
    && forall k :: j < k < |effects| ==> !Alters(effects[k], spot)
  }

  lemma {:induction false} NoneOrLast(effects: seq<Effect>, spot: Path, i: nat) returns (j: int)
    requires i < |effects|
    ensures j == -1 || LastAfter(effects, spot, i, j)
    ensures j == -1 ==> forall k :: i < k < |effects| ==> !Alters(effects[k], spot)
  {
    j := |effects| - 1;
    while j > i && !Alters(effects[j], spot)
      invariant i <= j < |effects|
      invariant forall k :: j < k < |effects| ==> !Alters(effects[k], spot)
    {
      j := j - 1;
    }
    if j == i {
      j := -1;
    }
  }

  lemma AlteredShows(files: map<Path, bytes>, effect: Effect, spot: Path)
    requires Alters(effect, spot)
    ensures spot in Apply(files, effect) <==> Writes(effect, spot)
    ensures Writes(effect, spot) ==> Apply(files, effect)[spot] == effect.content.value
  {
  }

  /** What a spot shows at the end is what the last effect that altered it left there. */
  lemma LastAlterationShows(files: map<Path, bytes>, effects: seq<Effect>, spot: Path, j: nat)
    requires LastAfter(effects, spot, -1, j)
    ensures spot in Replay(files, effects) <==> Writes(effects[j], spot)
    ensures Writes(effects[j], spot) ==> Replay(files, effects)[spot] == effects[j].content.value
  {
    hide Apply;
    Followed(files, effects, j);
    AlteredShows(Replay(files, effects[..j]), effects[j], spot);
    UntouchedStays(Replay(files, effects[..j + 1]), effects[j + 1..], spot);
  }

  /**
   * A file's content is there at the end exactly if the last later effect that wrote its place, or swept
   * it as a partial file, wrote the same content; or if there was none.
   */
  lemma FileSurvivesExactly(files: map<Path, bytes>, effects: seq<Effect>, i: nat)
    requires i < |effects| && effects[i].content.Some?
    ensures var spot, end := effects[i].spot, Replay(files, effects);
            (spot in end && end[spot] == effects[i].content.value) <==>
            forall j :: LastAfter(effects, spot, i, j) ==>
                          Writes(effects[j], spot) && effects[j].content == effects[i].content
  {
    hide Apply, Replay;
    var spot := effects[i].spot;
    var j := NoneOrLast(effects, spot, i);
    if j == -1 {
      assert LastAfter(effects, spot, -1, i);
      LastAlterationShows(files, effects, spot, i);
    } else {
      LastAlterationShows(files, effects, spot, j);
      assert forall k :: LastAfter(effects, spot, i, k) ==> k == j;
    }
  }

  /** The same for the rows of a file phase, as far as it got. */
  lemma ExtractedFileExact(d: Disk, root: Path, at: Path, tasks: seq<Task>, sha: bytes -> bytes, i: nat)
    requires Rooted(d, root, at) && AllBelow(tasks, root)
    requires i < |Done(d, tasks, root, at, sha)| && Done(d, tasks, root, at, sha)[i].content.Some?
    ensures var done, end := Done(d, tasks, root, at, sha), Last(d, FilePhase(d, tasks, sha).states).files;
            var spot := done[i].spot;
            (spot in end && end[spot] == done[i].content.value) <==>
            forall j :: LastAfter(done, spot, i, j) ==>
                          Writes(done[j], spot) && done[j].content == done[i].content
  {
    hide FilePhase, Done, Replay, Rooted, LastAfter, Writes;
    FilePhaseReplays(d, root, at, tasks, sha);
    FileSurvivesExactly(d.files, Done(d, tasks, root, at, sha), i);
  }

  /** Two databases whose names flatten alike are written to one file. */
  lemma DatabasesCollide(cwd: Path, outputDir: string, format: string, first: DatabaseRow, second: DatabaseRow)
    requires Plain(cwd) && first.name == "a/b" && second.name == "a_b" && first.format == second.format == format
    ensures DatabaseTarget(cwd, outputDir, first) == DatabaseTarget(cwd, outputDir, second)
  {
    assert SafeNameSegment("a/b") == "a_b" == SafeNameSegment("a_b");
  }

  /** So the dump of the first is gone once the second is verified, unless they are the same. */
  lemma LaterDumpWins(d: Disk, cwd: Path, outputDir: string, root: Path, at: Path, names: Path,
                      first: DatabaseRow, second: DatabaseRow, sha: bytes -> bytes)
    requires Plain(cwd) && first.name == "a/b" && second.name == "a_b" && first.format == second.format
    requires first.entry.Some? && second.entry.Some? && first.hash == None && second.hash == None
    requires root == Resolve(cwd, [outputDir]) && root != [] && Rooted(d, root, at)
    requires DatabaseTarget(cwd, outputDir, first) == root + names
    requires !FilePhase(d, DatabaseTasks(cwd, outputDir, [], [first, second]), sha).threw
    ensures var end := Last(d, FilePhase(d, DatabaseTasks(cwd, outputDir, [], [first, second]), sha).states).files;
            at + names in end && end[at + names] == Concat(second.entry.value.1.chunks)
  {
    hide FilePhase, Resolve, Rooted, DatabaseTarget, DatabaseTasks, Effects, Done, Replay, Concat, LastAfter, Writes;
    DatabasesCollide(cwd, outputDir, first.format, first, second);
    var tasks := DatabaseTasks(cwd, outputDir, [], [first, second]);
    TwoTasks(cwd, outputDir, first, second, root, at, names, sha);
    FilePhaseReplays(d, root, at, tasks, sha);
    AllDone(d, root, at, tasks, sha);
    var effects := Effects(tasks, root, at, sha);
    LastOfTwo(effects);
    LastAlterationShows(d.files, effects, at + names, 1);
  }

  lemma LastOfTwo(effects: seq<Effect>)
    requires |effects| == 2 && effects[1].content.Some?
    ensures LastAfter(effects, effects[1].spot, -1, 1) && Writes(effects[1], effects[1].spot)
  {
  }

  lemma TwoTasks(cwd: Path, outputDir: string, first: DatabaseRow, second: DatabaseRow, root: Path, at: Path,
                 names: Path, sha: bytes -> bytes)
    requires Plain(cwd) && root == Resolve(cwd, [outputDir]) && root != []
    requires first.entry.Some? && second.entry.Some? && first.hash == None && second.hash == None
    requires DatabaseTarget(cwd, outputDir, second) == root + names
    ensures var tasks := DatabaseTasks(cwd, outputDir, [], [first, second]);
            && AllBelow(tasks, root)
            && var effects := Effects(tasks, root, at, sha);
            && |effects| == 2 && effects[1].spot == at + names
            && effects[1].content == Some(Concat(second.entry.value.1.chunks))
  {
    hide Resolve, DatabaseTarget, StartsBelow, Concat, Suffixed;
    DatabaseRefusedExactly(cwd, outputDir, first);
    DatabaseRefusedExactly(cwd, outputDir, second);
    var tasks := DatabaseTasks(cwd, outputDir, [], [first, second]);
    TargetIsPlain(cwd, outputDir, first);
    TargetIsPlain(cwd, outputDir, second);
    assert tasks[1..][0] == tasks[1] && tasks[1..][1..] == [];
    assert Effects(tasks[1..], root, at, sha) == [EffectOf(tasks[1], root, at, sha)] + [];
    assert (root + names)[|root|..] == names;
  }

  lemma TargetIsPlain(cwd: Path, outputDir: string, row: DatabaseRow)
    requires Plain(cwd)
    ensures Plain(DatabaseTarget(cwd, outputDir, row))
  {
  }

  /** A row whose path leads back up to the output directory is taken for that directory's own. */
  lemma DotDotNamesTheRoot(cwd: Path, outputDir: string, row: FileRow)
    requires Plain(cwd) && PlainName(row.src) && row.path == ".." && row.lnk.None?
    ensures FileTask(cwd, outputDir, [], row) == Store(Resolve(cwd, [outputDir]), row.source, row.hash)
  {
    hide Segments, StartsBelow, Normalized;
    var base := Resolve(cwd, [outputDir]);
    assert [outputDir, row.src, ".."][1..] == [row.src] + [".."] && [outputDir][1..] == [];
    ResolveStep(base, row.src, [".."]);
    OneStepUp(base, row.src);
  }

  lemma OneStepUp(base: Path, name: string)
    requires Plain(base) && PlainName(name)
    ensures Resolve(base + [name], [".."]) == base
  {
    OneSegment("..");
    assert [".."][1..] == [] && (base + [name])[..|base|] == base;
    assert Normalized(base + [name], [".."]) == Normalized(base, []);
  }

  /** A file called like the partial file of a later row is gone once that row has streamed. */
  lemma PartialNameIsSwept(d: Disk, cwd: Path, outputDir: string, root: Path, at: Path, first: FileRow, second: FileRow,
                           sha: bytes -> bytes)
    requires Plain(cwd) && root == Resolve(cwd, [outputDir]) && root != [] && Rooted(d, root, at)
    requires PlainName(first.src) && PlainName(second.path)
    requires second.src == first.src && first.path == second.path + ".partial"
    requires first.lnk.None? && second.lnk.None? && first.source.Streamed? && second.source.Streamed?
    requires !FilePhase(d, FileTasks(cwd, outputDir, [], [first, second]), sha).threw
    ensures at + [first.src, first.path] !in
            Last(d, FilePhase(d, FileTasks(cwd, outputDir, [], [first, second]), sha).states).files
  {
    hide FilePhase, Resolve, Rooted, FileTasks, Effects, Done, Replay, Concat, LastAfter, Writes;
    var tasks := FileTasks(cwd, outputDir, [], [first, second]);
    TwoRows(cwd, outputDir, first, second, root, at, sha);
    FilePhaseReplays(d, root, at, tasks, sha);
    AllDone(d, root, at, tasks, sha);
    var effects, spot := Effects(tasks, root, at, sha), at + [first.src, first.path];
    SweptLast(effects, spot);
    LastAlterationShows(d.files, effects, spot, 1);
  }

  lemma SweptLast(effects: seq<Effect>, spot: Path)
    requires |effects| == 2 && effects[1].swept == Some(spot) && effects[1].spot != spot
    ensures LastAfter(effects, spot, -1, 1) && !Writes(effects[1], spot)
  {
  }

  lemma PlainRow(cwd: Path, outputDir: string, row: FileRow)
    requires Plain(cwd) && PlainName(row.src) && PlainName(row.path) && row.lnk.None?
    requires Resolve(cwd, [outputDir]) != []
    ensures FileTask(cwd, outputDir, [], row) ==
            Store(Resolve(cwd, [outputDir]) + [row.src, row.path], row.source, row.hash)
    ensures Inside(Resolve(cwd, [outputDir]) + [row.src, row.path], Resolve(cwd, [outputDir]))
  {
    hide Resolve, StartsBelow;
    var root := Resolve(cwd, [outputDir]);
    ResolveBelow(cwd, outputDir, row.src, row.path);
    StringCheckExact(root + [row.src, row.path], root);
    assert (root + [row.src, row.path])[..|root|] == root;
  }

  lemma TwoRows(cwd: Path, outputDir: string, first: FileRow, second: FileRow, root: Path, at: Path,
                sha: bytes -> bytes)
    requires Plain(cwd) && root == Resolve(cwd, [outputDir]) && root != []
    requires PlainName(first.src) && PlainName(second.path)
    requires second.src == first.src && first.path == second.path + ".partial"
    requires first.lnk.None? && second.lnk.None? && first.source.Streamed? && second.source.Streamed?
    ensures var tasks := FileTasks(cwd, outputDir, [], [first, second]);
            && AllBelow(tasks, root)
            && var effects, spot := Effects(tasks, root, at, sha), at + [first.src, first.path];
               |effects| == 2 && effects[1].swept == Some(spot) && effects[1].spot != spot
  {
    hide Resolve, StartsBelow, FileTask, Concat;
    assert PlainName(first.path) by {
      assert forall i :: 0 <= i < |first.path| ==> first.path[i] != '/';
      assert |first.path| > 2;
    }
    PlainRow(cwd, outputDir, first);
    PlainRow(cwd, outputDir, second);
    var tasks := FileTasks(cwd, outputDir, [], [first, second]);
    assert tasks[1..][0] == tasks[1] && tasks[1..][1..] == [];
    assert Effects(tasks[1..], root, at, sha) == [EffectOf(tasks[1], root, at, sha)] + [];
    var names := [second.src, second.path];
    assert (root + names)[|root|..] == names && Suffixed(names) == [first.src, first.path];
    assert (at + names)[|at| + 1] != (at + [first.src, first.path])[|at| + 1] by {
      assert |first.path| != |second.path|;
    }
  }

  // -------------------------------------------------------- the link phase

  /** Making this link takes away the entry at the spot first. */
  predicate Unlinks(d: Disk, target: Path, spot: Path) {
    match MakeDirs(d, Parent(target))
    case None => false
    case Some(d1) => Slot(d1.links, target) == Some(spot) && !IsDir(d1, spot)
  }

  /** Some link the phase gets to takes it away. */
  predicate ClearedBy(d: Disk, links: seq<(Path, string)>, spot: Path)
    decreases |links|
  {
    links != [] &&
    var (threw, states) := LinkRun(d, links[0].0, links[0].1);
    Unlinks(d, links[0].0, spot) || (!threw && ClearedBy(Last(d, states), links[1..], spot))
  }

  /** Links never write a file: one is there after them if and only if none of them took it away. */
  lemma {:induction false} LinkPhaseKeeps(d: Disk, links: seq<(Path, string)>, spot: Path)
    ensures var end := Last(d, LinkPhase(d, links).states).files;
            && (spot in end <==> spot in d.files && !ClearedBy(d, links, spot))
            && (spot in end ==> end[spot] == d.files[spot])
    decreases |links|
  {
    if links != [] {
      var (threw, states) := LinkRun(d, links[0].0, links[0].1);
      LinkRunKeeps(d, links[0].0, links[0].1, spot);
      if !threw {
        hide LinkRun, Unlinks;
        LinkPhaseKeeps(Last(d, states), links[1..], spot);
      }
    }
  }

  lemma LinkRunKeeps(d: Disk, target: Path, linkTarget: string, spot: Path)
    ensures var end := Last(d, LinkRun(d, target, linkTarget).1).files;
            && (spot in end <==> spot in d.files && !Unlinks(d, target, spot))
            && (spot in end ==> end[spot] == d.files[spot])
  {
    hide Follow;
  }

  /** A link row at a file's own path takes the file away. */
  lemma LinkAtFilePath(d: Disk, root: Path, at: Path, names: Path, linkTarget: string, more: seq<(Path, string)>)
    requires Rooted(d, root, at) && Plain(names) && names != []
    requires MakeDirs(d, Parent(root + names)).Some? && !IsDir(d, at + names)
    ensures ClearedBy(d, [(root + names, linkTarget)] + more, at + names)
  {
    hide MakeDirs, LinkRun;
    PhysicalBelow(d.links, root, at, names);
    PartialBelow(root, names);
    MakeDirsBelow(d, root, at, Parent(names));
    assert at + names !in Prefixes(at + Parent(names)) by {
      assert forall k :: 0 <= k <= |at + Parent(names)| ==> |(at + Parent(names))[..k]| < |at + names|;
    }
  }

  /** No link on the way to this path, nor at it. */
  predicate ClearWay(links: map<Path, string>, path: Path) {
    forall k :: 0 < k <= |path| ==> path[..k] !in links
  }

  lemma {:induction false} FollowClear(links: map<Path, string>, done: Path, names: Path, fuel: nat)
    requires Plain(names) && forall k :: 0 < k <= |names| ==> done + names[..k] !in links
    ensures Follow(links, done, names, fuel) == Some((done + names, fuel))
    decreases |names|
  {
    if names == [] {
      assert done + names == done;
    } else {
      assert PlainName(names[0]) && done + names[..1] == done + [names[0]];
      forall k | 0 < k <= |names[1..]| ensures (done + [names[0]]) + names[1..][..k] !in links {
        assert (done + [names[0]]) + names[1..][..k] == done + names[..k + 1];
      }
      FollowClear(links, done + [names[0]], names[1..], fuel);
      assert (done + [names[0]]) + names[1..] == done + names;
    }
  }

  lemma ClearSlot(links: map<Path, string>, target: Path)
    requires Plain(target) && target != [] && ClearWay(links, Parent(target))
    ensures Physical(links, Parent(target)) == Some(Parent(target)) && Slot(links, target) == Some(target)
  {
    var upper := Parent(target);
    forall k | 0 < k <= |upper| ensures [] + upper[..k] !in links {
      assert [] + upper[..k] == upper[..k];
    }
    FollowClear(links, [], upper, MAX_LINKS);
    assert [] + upper == upper && target == upper + [target[|target| - 1]];
  }

  /** No link row lies below another, and no link of the disk on the way to any. */
  ghost predicate Flat(d: Disk, links: seq<(Path, string)>) {
    && (forall i, j :: 0 <= i < |links| && 0 <= j < |links| ==> !Inside(links[j].0, links[i].0))
    && (forall j :: 0 <= j < |links| ==>
          Plain(links[j].0) && links[j].0 != [] && ClearWay(d.links, Parent(links[j].0)))
  }

  /** The phase gets to a row with this target, and can make its directories. */
  predicate Reaches(d: Disk, links: seq<(Path, string)>, target: Path) {
    exists j :: 0 <= j < |links| && ReachesAt(d, links, target, j)
  }

  predicate ReachesAt(d: Disk, links: seq<(Path, string)>, target: Path, j: nat)
    requires j < |links|
  {
    && links[j].0 == target && !LinkPhase(d, links[..j]).threw
    && MakeDirs(Last(d, LinkPhase(d, links[..j]).states), Parent(target)).Some?
  }

  lemma ReachesNow(d: Disk, links: seq<(Path, string)>, target: Path)
    requires links != []
    ensures ReachesAt(d, links, target, 0) <==> links[0].0 == target && MakeDirs(d, Parent(target)).Some?
  {
    hide MakeDirs;
    assert links[..0] == [];
  }

  lemma ReachesLater(d: Disk, links: seq<(Path, string)>, target: Path, j: nat)
    requires 0 < j < |links|
    ensures ReachesAt(d, links, target, j) <==>
            !LinkRun(d, links[0].0, links[0].1).0
            && ReachesAt(Last(d, LinkRun(d, links[0].0, links[0].1).1), links[1..], target, j - 1)
  {
    hide LinkRun, MakeDirs;
    assert links[..j][1..] == links[1..][..j - 1] && links[..j][0] == links[0] && links[1..][j - 1] == links[j];
  }

  lemma ReachesOneDown(d: Disk, links: seq<(Path, string)>, target: Path)
    requires links != []
    ensures var (threw, states) := LinkRun(d, links[0].0, links[0].1);
            Reaches(d, links, target) <==>
            || (links[0].0 == target && MakeDirs(d, Parent(target)).Some?)
            || (!threw && Reaches(Last(d, states), links[1..], target))
  {
    hide LinkRun, MakeDirs, ReachesAt;
    var (threw, states) := LinkRun(d, links[0].0, links[0].1);
    ReachesNow(d, links, target);
    forall j | 0 < j < |links|
      ensures ReachesAt(d, links, target, j) <==> !threw && ReachesAt(Last(d, states), links[1..], target, j - 1)
    {
      ReachesLater(d, links, target, j);
    }
    if !threw && Reaches(Last(d, states), links[1..], target) {
      var j :| 0 <= j < |links[1..]| && ReachesAt(Last(d, states), links[1..], target, j);
      assert ReachesAt(d, links, target, j + 1);
    }
  }

  lemma FlatStays(d: Disk, links: seq<(Path, string)>)
    requires links != [] && Flat(d, links)
    ensures Flat(Last(d, LinkRun(d, links[0].0, links[0].1).1), links[1..])
  {
    hide MakeDirs;
    var target, e := links[0].0, Last(d, LinkRun(d, links[0].0, links[0].1).1);
    ClearSlot(d.links, target);
    OneLinkMore(d, target, links[0].1);
    forall j | 0 < j < |links| ensures ClearWay(e.links, Parent(links[j].0)) {
      var upper := Parent(links[j].0);
      forall k | 0 < k <= |upper| ensures upper[..k] !in e.links {
        assert !Inside(links[j].0, links[0].0) && upper[..k] !in d.links;
        assert links[j].0[..k] == upper[..k];
        assert upper[..k] != target;
      }
    }
    assert forall j :: 0 <= j < |links[1..]| ==> links[1..][j] == links[j + 1];
  }

  lemma OneLinkMore(d: Disk, target: Path, linkTarget: string)
    requires Plain(target) && target != [] && ClearWay(d.links, Parent(target))
    ensures forall q :: q in Last(d, LinkRun(d, target, linkTarget).1).links ==> q in d.links || q == target
  {
    hide Follow;
    MadeKeepsLinks(d, Parent(target));
    ClearSlot(d.links, target);
    if MakeDirs(d, Parent(target)).Some? {
      ClearSlot(Removed(MakeDirs(d, Parent(target)).value, target).links, target);
    }
  }

  lemma MadeKeepsLinks(d: Disk, path: Path)
    ensures MakeDirs(d, path).Some? ==>
              MakeDirs(d, path).value.links == d.links && MakeDirs(d, path).value.files == d.files
  {
  }

  /**
   * Where no link row lies below another, exactly a link row with the file's own path takes the file away;
   * in a phase that threw nothing, every such row does.
   */
  lemma {:induction false} FlatLinksClear(d: Disk, links: seq<(Path, string)>, spot: Path)
    requires Flat(d, links) && spot in d.files && !IsDir(d, spot)
    ensures ClearedBy(d, links, spot) <==> Reaches(d, links, spot)
    ensures !LinkPhase(d, links).threw ==>
              (ClearedBy(d, links, spot) <==> exists j :: 0 <= j < |links| && links[j].0 == spot)
    decreases |links|
  {
    hide Reaches, MakeDirs;
    if !LinkPhase(d, links).threw {
      LinksMadeDirs(d, links, spot);
    }
    if links == [] {
      NothingReached(d, spot);
    } else {
      hide LinkRun, Flat;
      var (threw, states) := LinkRun(d, links[0].0, links[0].1);
      FlatUnlinks(d, links, spot);
      ReachesOneDown(d, links, spot);
      if !Unlinks(d, links[0].0, spot) && !threw {
        FlatStays(d, links);
        StaysAFile(d, links[0].0, links[0].1, spot);
        FlatLinksClear(Last(d, states), links[1..], spot);
      }
    }
  }

  lemma NothingReached(d: Disk, spot: Path)
    ensures !Reaches(d, [], spot)
  {
  }

  /** A link phase that threw nothing gets to all its rows. */
  lemma {:induction false} LinksMadeDirs(d: Disk, links: seq<(Path, string)>, spot: Path)
    requires !LinkPhase(d, links).threw
    ensures Reaches(d, links, spot) <==> exists j :: 0 <= j < |links| && links[j].0 == spot
    decreases |links|
  {
    hide Reaches, MakeDirs;
    if links == [] {
      NothingReached(d, spot);
    } else {
      ReachesOneDown(d, links, spot);
      MadeForLink(d, links[0].0, links[0].1);
      hide LinkRun;
      var later := links[1..];
      LinksMadeDirs(Last(d, LinkRun(d, links[0].0, links[0].1).1), later, spot);
      assert forall j :: 0 <= j < |later| ==> later[j] == links[j + 1];
      assert forall j :: 0 < j < |links| ==> links[j] == later[j - 1];
    }
  }

  lemma MadeForLink(d: Disk, target: Path, linkTarget: string)
    ensures !LinkRun(d, target, linkTarget).0 ==> MakeDirs(d, Parent(target)).Some?
  {
  }

  lemma FlatUnlinks(d: Disk, links: seq<(Path, string)>, spot: Path)
    requires links != [] && Flat(d, links) && spot in d.files && !IsDir(d, spot)
    ensures Unlinks(d, links[0].0, spot) <==> links[0].0 == spot && MakeDirs(d, Parent(spot)).Some?
  {
    hide Follow;
    var target := links[0].0;
    ClearSlot(d.links, target);
    if target == spot && MakeDirs(d, Parent(spot)).Some? {
      assert forall k :: 0 <= k <= |Parent(spot)| ==> |Parent(spot)[..k]| < |spot|;
    }
  }

  lemma StaysAFile(d: Disk, target: Path, linkTarget: string, spot: Path)
    requires spot in d.files && !IsDir(d, spot) && !Unlinks(d, target, spot)
    ensures var e := Last(d, LinkRun(d, target, linkTarget).1); spot in e.files && !IsDir(e, spot)
  {
    hide Follow;
  }

  /**
   * After a whole run, wherever it ended, links included: a verified file's content is on disk if and only
   * if no later row wrote or swept its place with another outcome, and no link took it away.
   */
  lemma WholeRunLeaves(d: Disk, root: Path, at: Path, tasks: seq<Task>, links: seq<(Path, string)>,
                       sha: bytes -> bytes, i: nat)
    requires Rooted(d, root, at) && AllBelow(tasks, root)
    requires i < |Done(d, tasks, root, at, sha)| && Done(d, tasks, root, at, sha)[i].content.Some?
    ensures var done, (phase, linking) := Done(d, tasks, root, at, sha), WholeRun(d, tasks, links, sha);
            var mid, spot := Last(d, phase.states), done[i].spot;
            var end := Last(mid, linking.states).files;
            (spot in end && end[spot] == done[i].content.value) <==>
            && (forall j :: LastAfter(done, spot, i, j) ==>
                              Writes(done[j], spot) && done[j].content == done[i].content)
            && (phase.threw || !ClearedBy(mid, links, spot))
  {
    hide FilePhase, LinkPhase, Done, Rooted, LastAfter, Writes, ClearedBy;
    ExtractedFileExact(d, root, at, tasks, sha, i);
    LinkPhaseKeeps(Last(d, FilePhase(d, tasks, sha).states), links, Done(d, tasks, root, at, sha)[i].spot);
  }
}
