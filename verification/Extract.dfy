/** One extraction run: verify before visible, stay inside the output directory, links last. */
module Extract {
  import opened Bytes
  import opened Paths
  import opened Disk
  import Glob

  /** What the stream pipeline hands to the writer before it ends or breaks. */
  datatype Delivery = Delivery(chunks: seq<bytes>, broken: bool)

  /**
   * What resolving a row leads to: nothing, a file cut from a bundle (or a bundle that cannot be
   * read), or an entry of some stored size that is streamed.
   */
  datatype Source = Unresolved | Bundled(content: Option<bytes>) | Streamed(size: nat, delivery: Delivery)

  /** A dump is always streamed; None is an entry that cannot be resolved. */
  datatype DatabaseRow = DatabaseRow(name: string, format: string, entry: Option<(nat, Delivery)>, hash: Option<bytes>)

  datatype FileRow = FileRow(src: string, path: string, lnk: Option<string>, source: Source, hash: Option<bytes>)

  datatype StreamResult = Threw | Mismatch | Written(verified: bool)

  // ------------------------------------------------------------- one stream

  function Suffixed(path: Path): Path {
    if path == [] then [".partial"] else path[..|path| - 1] + [path[|path| - 1] + ".partial"]
  }

  predicate HashOk(sha: bytes -> bytes, expected: Option<bytes>, content: bytes) {
    expected.None? || expected.value == [] || sha(content) == expected.value
  }

  /** A recorded checksum is met by the content's own digest alone; none recorded, or an empty one, by anything. */
  lemma DigestSpelled(sha: bytes -> bytes, expected: Option<bytes>, content: bytes)
    ensures HashOk(sha, expected, content) <==>
            expected == None || expected == Some([]) || expected == Some(sha(content))
  {
  }

  /** The states while chunks are appended to a file that was opened empty. */
  function Appending(d: Disk, at: Path, chunks: seq<bytes>): (states: seq<Disk>)
    ensures |states| == |chunks| + 1
    ensures states[|chunks|] == d.(files := d.files[at := Concat(chunks)])
  {
    assert chunks[..|chunks|] == chunks;
    seq(|chunks| + 1, k requires 0 <= k <= |chunks| => d.(files := d.files[at := Concat(chunks[..k])]))
  }

  /** Every state one streamed entry takes the disk through. */
  function StreamRun(d: Disk, target: Path, size: nat, delivery: Delivery, expected: Option<bytes>, sha: bytes -> bytes)
    : (StreamResult, seq<Disk>)
  {
    var partial := Suffixed(target);
    match MakeDirs(d, Parent(target))
    case None => (Threw, [])
    case Some(d1) =>
      if size == 0 then (Threw, [d1])
      else
        match WritableAt(d1, partial)
        case None => (Threw, [d1, Removed(d1, partial)])
        case Some(at) =>
          var states := [d1] + Appending(d1, at, delivery.chunks);
          var full := states[|states| - 1];
          if delivery.broken then (Threw, states + [Removed(full, partial)])
          else if !HashOk(sha, expected, Concat(delivery.chunks)) then (Mismatch, states + [Removed(full, partial)])
          else
            match Renamed(full, partial, target)
            case None => (Threw, states)
            case Some(done) => (Written(true), states + [done])
  }

  /** Every state one file cut from a bundle takes the disk through: it is written even when the hash is wrong. */
  function BundleRun(d: Disk, target: Path, content: bytes, expected: Option<bytes>, sha: bytes -> bytes)
    : (StreamResult, seq<Disk>)
  {
    match MakeDirs(d, Parent(target))
    case None => (Threw, [])
    case Some(d1) =>
      match WritableAt(d1, target)
      case None => (Threw, [d1])
      case Some(at) => (Written(HashOk(sha, expected, content)), [d1, d1.(files := d1.files[at := content])])
  }

  // ------------------------------------------------------------ a whole run

  datatype Task = Skip | Store(target: Path, source: Source, expected: Option<bytes>)

  function TaskRun(d: Disk, task: Task, sha: bytes -> bytes): (StreamResult, seq<Disk>)
    requires task.Store?
  {
    match task.source
    case Unresolved => (Threw, [])
    case Bundled(None) => (Threw, [])
    case Bundled(Some(content)) => BundleRun(d, task.target, content, task.expected, sha)
    case Streamed(size, delivery) => StreamRun(d, task.target, size, delivery, task.expected, sha)
  }

  function Last(d: Disk, states: seq<Disk>): Disk {
    if states == [] then d else states[|states| - 1]
  }

  datatype Phase = Phase(threw: bool, states: seq<Disk>, extracted: nat, mismatches: nat)

  /** Tasks one after the other until one throws. */
  function FilePhase(d: Disk, tasks: seq<Task>, sha: bytes -> bytes): Phase
    decreases |tasks|
  {
    if tasks == [] then Phase(false, [], 0, 0)
    else if tasks[0].Skip? then FilePhase(d, tasks[1..], sha)
    else
      var (result, states) := TaskRun(d, tasks[0], sha);
      if result.Threw? then Phase(true, states, 0, 0)
      else
        var rest := FilePhase(Last(d, states), tasks[1..], sha);
        Phase(rest.threw, states + rest.states,
              rest.extracted + (if result.Written? then 1 else 0),
              rest.mismatches + (if result == Written(true) then 0 else 1))
  }

  function LinkRun(d: Disk, target: Path, linkTarget: string): (bool, seq<Disk>) {
    match MakeDirs(d, Parent(target))
    case None => (true, [])
    case Some(d1) =>
      var cleared := Removed(d1, target);
      match Linked(cleared, target, linkTarget)
      case None => (true, [d1, cleared])
      case Some(done) => (false, [d1, cleared, done])
  }

  function LinkPhase(d: Disk, links: seq<(Path, string)>): Phase
    decreases |links|
  {
    if links == [] then Phase(false, [], 0, 0)
    else
      var (threw, states) := LinkRun(d, links[0].0, links[0].1);
      if threw then Phase(true, states, 0, 0)
      else
        var rest := LinkPhase(Last(d, states), links[1..]);
        Phase(rest.threw, states + rest.states, rest.extracted + 1, 0)
  }

  /** The file phase, and after it, unless it threw, the link phase. */
  function WholeRun(d: Disk, tasks: seq<Task>, links: seq<(Path, string)>, sha: bytes -> bytes): (Phase, Phase) {
    var phase := FilePhase(d, tasks, sha);
    (phase, if phase.threw then Phase(false, [], 0, 0) else LinkPhase(Last(d, phase.states), links))
  }

  /** A name that can be one path segment. */
  function SafeNameSegment(name: string): string {
    var replaced := seq(|name|, i requires 0 <= i < |name| =>
      if name[i] == '/' || name[i] == '\\' || name[i] <= '\U{1f}' || name[i] == '\U{7f}' then '_' else name[i]);
    if replaced == "" then "_" else if replaced[0] == '.' then "_" + replaced[1..] else replaced
  }

  function DumpExtension(format: string): string {
    match format
    case "custom" => "dump"
    case _ => format
  }

  function DatabaseTarget(cwd: Path, outputDir: string, row: DatabaseRow): Path
    requires Plain(cwd)
  {
    Resolve(cwd, [outputDir, "databases", SafeNameSegment(row.name) + "." + SafeNameSegment(DumpExtension(row.format))])
  }

  function DatabaseTask(cwd: Path, outputDir: string, patterns: seq<string>, row: DatabaseRow): Task
    requires Plain(cwd)
  {
    var target := DatabaseTarget(cwd, outputDir, row);
    if patterns != [] && !Glob.MatchesAny("databases/" + row.name, patterns) then Skip
    else if !StartsBelow(target, Resolve(cwd, [outputDir])) then Skip
    else
      Store(target, if row.entry.None? then Unresolved else Streamed(row.entry.value.0, row.entry.value.1), row.hash)
  }

  /** Selected, and not refused as unsafe. */
  predicate Accepted(cwd: Path, outputDir: string, patterns: seq<string>, row: FileRow)
    requires Plain(cwd)
  {
    var target := Resolve(cwd, [outputDir, row.src, row.path]);
    var root := Resolve(cwd, [outputDir]);
    Glob.MatchesAny(row.path, patterns) && (target == root || StartsBelow(target, root))
  }

  function FileTask(cwd: Path, outputDir: string, patterns: seq<string>, row: FileRow): Task
    requires Plain(cwd)
  {
    if !Accepted(cwd, outputDir, patterns, row) || row.lnk.Some? then Skip
    else Store(Resolve(cwd, [outputDir, row.src, row.path]), row.source, row.hash)
  }

  function DatabaseTasks(cwd: Path, outputDir: string, patterns: seq<string>, databases: seq<DatabaseRow>): seq<Task>
    requires Plain(cwd)
  {
    seq(|databases|, i requires 0 <= i < |databases| => DatabaseTask(cwd, outputDir, patterns, databases[i]))
  }

  function FileTasks(cwd: Path, outputDir: string, patterns: seq<string>, files: seq<FileRow>): seq<Task>
    requires Plain(cwd)
  {
    seq(|files|, i requires 0 <= i < |files| => FileTask(cwd, outputDir, patterns, files[i]))
  }

  /** Databases first, then files. */
  function Tasks(cwd: Path, outputDir: string, patterns: seq<string>, databases: seq<DatabaseRow>, files: seq<FileRow>)
    : seq<Task>
    requires Plain(cwd)
  {
    DatabaseTasks(cwd, outputDir, patterns, databases) + FileTasks(cwd, outputDir, patterns, files)
  }

  function Links(cwd: Path, outputDir: string, patterns: seq<string>, files: seq<FileRow>): seq<(Path, string)>
    requires Plain(cwd)
  {
    if files == [] then []
    else
      var row := files[|files| - 1];
      Links(cwd, outputDir, patterns, files[..|files| - 1])
      + (if Accepted(cwd, outputDir, patterns, row) && row.lnk.Some?
         then [(Resolve(cwd, [outputDir, row.src, row.path]), row.lnk.value)] else [])
  }

  /** The fields of a run, at one moment. */
  datatype Moment = Moment(disk: Disk, extracted: nat, mismatches: nat, trail: seq<Disk>)

  /** What is left of a phase, added to what was done between two moments, makes up the whole phase. */
  ghost predicate Matches(from: Moment, here: Moment, whole: Phase, rest: Phase) {
    && whole.threw == rest.threw
    && from.trail + whole.states == here.trail + rest.states
    && from.extracted + whole.extracted == here.extracted + rest.extracted
    && from.mismatches + whole.mismatches == here.mismatches + rest.mismatches
    && Last(from.disk, whole.states) == Last(here.disk, rest.states)
  }

  /** The recovery command. The trail is every state the disk has been in. */
  class Extraction {
    const sha: bytes -> bytes
    var disk: Disk
    var extracted: nat
    var mismatches: nat
    ghost var trail: seq<Disk>

    constructor (sha: bytes -> bytes, disk: Disk)
      ensures this.sha == sha && this.disk == disk && trail == [] && extracted == mismatches == 0
    {
      this.sha, this.disk := sha, disk;
      extracted, mismatches, trail := 0, 0, [];
    }

    ghost predicate Midway(from: Moment, whole: Phase, rest: Phase)
      reads this
    {
      Matches(from, Snapshot(), whole, rest)
    }

    ghost function Snapshot(): Moment
      reads this
    {
      Moment(disk, extracted, mismatches, trail)
    }

    method Becomes(d: Disk)
      modifies `disk, `trail
      ensures disk == d && trail == old(trail) + [d]
    {
      disk, trail := d, trail + [d];
    }

    /** The write stream: opened empty, then one chunk at a time. */
    method Pipe(at: Path, chunks: seq<bytes>) returns (content: bytes)
      modifies `disk, `trail
      ensures content == Concat(chunks)
      ensures disk == old(disk).(files := old(disk).files[at := Concat(chunks)])
      ensures trail == old(trail) + Appending(old(disk), at, chunks)
    {
      hide Concat;
      ghost var d, before, all := disk, trail, Appending(disk, at, chunks);
      content := [];
      NothingConcat<u8>();
      assert chunks[..0] == [];
      Becomes(disk.(files := disk.files[at := content]));
      for i := 0 to |chunks|
        invariant content == Concat(chunks[..i])
        invariant disk == d.(files := d.files[at := content])
        invariant trail == before + all[..i + 1]
      {
        ConcatNext(chunks, i);
        content := content + chunks[i];
        Becomes(disk.(files := disk.files[at := content]));
        assert before + all[..i + 1] + [all[i + 1]] == before + all[..i + 2];
      }
      assert chunks[..|chunks|] == chunks && all[..|chunks| + 1] == all;
    }

    /** Written to a partial file, and renamed only once the stream has ended and the hash is right. */
    method StreamEntryToFile(target: Path, size: nat, delivery: Delivery, expected: Option<bytes>)
      returns (result: StreamResult)
      modifies `disk, `trail
      ensures var (r, states) := StreamRun(old(disk), target, size, delivery, expected, sha);
              result == r && trail == old(trail) + states && disk == Last(old(disk), states)
      ensures result == Written(true) || result == Mismatch || result == Threw
      ensures result.Written? ==>
                expected == None || expected == Some([]) || expected == Some(sha(Concat(delivery.chunks)))
      ensures result.Mismatch? ==>
                expected.Some? && expected.value != [] && sha(Concat(delivery.chunks)) != expected.value
    {
      hide MakeDirs, WritableAt, Removed, Renamed, Suffixed, HashOk;
      DigestSpelled(sha, expected, Concat(delivery.chunks));
      var partial := Suffixed(target);
      var made := MakeDirs(disk, Parent(target));
      if made.None? {
        return Threw;
      }
      Becomes(made.value);
      if size == 0 {
        return Threw;
      }
      var at := WritableAt(disk, partial);
      if at.None? {
        Becomes(Removed(disk, partial));
        return Threw;
      }
      ghost var d1 := disk;
      var content := Pipe(at.value, delivery.chunks);
      ghost var states := [d1] + Appending(d1, at.value, delivery.chunks);
      assert trail == old(trail) + states && states[|states| - 1] == disk;
      assert forall d: Disk :: old(trail) + states + [d] == old(trail) + (states + [d]);
      if delivery.broken {
        Becomes(Removed(disk, partial));
        return Threw;
      }
      if !HashOk(sha, expected, content) {
        Becomes(Removed(disk, partial));
        return Mismatch;
      }
      var renamed := Renamed(disk, partial, target);
      if renamed.None? {
        return Threw;
      }
      Becomes(renamed.value);
      result := Written(true);
    }

    /** A file sliced from a bundle: written whole, even when the hash is wrong. */
    method WriteBundled(target: Path, content: bytes, expected: Option<bytes>) returns (result: StreamResult)
      modifies `disk, `trail
      ensures var (r, states) := BundleRun(old(disk), target, content, expected, sha);
              result == r && trail == old(trail) + states && disk == Last(old(disk), states)
      ensures !result.Threw? ==>
                result == Written(expected == None || expected == Some([]) || expected == Some(sha(content)))
    {
      hide MakeDirs, WritableAt, HashOk;
      DigestSpelled(sha, expected, content);
      var verified := HashOk(sha, expected, content);
      var made := MakeDirs(disk, Parent(target));
      if made.None? {
        return Threw;
      }
      Becomes(made.value);
      var at := WritableAt(disk, target);
      if at.None? {
        return Threw;
      }
      Becomes(disk.(files := disk.files[at.value := content]));
      result := Written(verified);
    }

    method StoreOne(task: Task) returns (result: StreamResult)
      requires task.Store?
      modifies this
      ensures var (r, states) := TaskRun(old(disk), task, sha);
              && result == r && trail == old(trail) + states && disk == Last(old(disk), states)
              && extracted == old(extracted) + (if r.Written? then 1 else 0)
              && mismatches == old(mismatches) + (if r.Threw? || r == Written(true) then 0 else 1)
      ensures !result.Threw? && task.source.Streamed? ==>
                var digest := sha(Concat(task.source.delivery.chunks));
                result == if task.expected == None || task.expected == Some([]) || task.expected == Some(digest)
                          then Written(true) else Mismatch
      ensures !result.Threw? && task.source.Bundled? ==>
                && task.source.content.Some?
                && var digest := sha(task.source.content.value);
                   result == Written(task.expected == None || task.expected == Some([])
                                     || task.expected == Some(digest))
    {
      hide StreamRun, BundleRun;
      match task.source {
        case Unresolved =>
          return Threw;
        case Bundled(content) =>
          if content.None? {
            return Threw;
          }
          result := WriteBundled(task.target, content.value, task.expected);
        case Streamed(size, delivery) =>
          result := StreamEntryToFile(task.target, size, delivery, task.expected);
      }
      if result.Threw? {
        return;
      }
      if result != Written(true) {
        mismatches := mismatches + 1;
      }
      if result.Written? {
        extracted := extracted + 1;
      }
    }

    method CreateLink(target: Path, linkTarget: string) returns (threw: bool)
      modifies this
      ensures var (t, states) := LinkRun(old(disk), target, linkTarget);
              && threw == t && trail == old(trail) + states && disk == Last(old(disk), states)
              && extracted == old(extracted) + (if t then 0 else 1) && mismatches == old(mismatches)
    {
      hide MakeDirs, Removed, Linked;
      var made := MakeDirs(disk, Parent(target));
      if made.None? {
        return true;
      }
      Becomes(made.value);
      Becomes(Removed(disk, target));
      var linked := Linked(disk, target, linkTarget);
      if linked.None? {
        return true;
      }
      Becomes(linked.value);
      extracted := extracted + 1;
      threw := false;
    }

    method ExtractDatabases(cwd: Path, outputDir: string, patterns: seq<string>, databases: seq<DatabaseRow>)
      returns (threw: bool)
      requires Plain(cwd)
      modifies this
      ensures Did(old(Snapshot()), FilePhase(old(disk), DatabaseTasks(cwd, outputDir, patterns, databases), sha), threw)
    {
      hide TaskRun, DatabaseTask, Matches;
      ghost var from, tasks := Snapshot(), DatabaseTasks(cwd, outputDir, patterns, databases);
      ghost var whole := FilePhase(disk, tasks, sha);
      MidwayStarts(whole);
      assert tasks[0..] == tasks;
      for i := 0 to |databases|
        invariant Midway(from, whole, FilePhase(disk, tasks[i..], sha))
      {
        ghost var here := Snapshot();
        assert tasks[i..][1..] == tasks[i + 1..];
        assert tasks[i..][0] == DatabaseTask(cwd, outputDir, patterns, databases[i]);
        var task := DatabaseTask(cwd, outputDir, patterns, databases[i]);
        if task.Skip? {
          continue;
        }
        var result := StoreOne(task);
        MidwayTask(from, here, whole, tasks[i..]);
        if result.Threw? {
          MidwayEnds(from, whole, true);
          return true;
        }
      }
      assert tasks[|databases|..] == [];
      MidwayEnds(from, whole, false);
      threw := false;
    }

    /** Links are set aside on the way past: nothing of this archive is a link while its files are written. */
    method ExtractFiles(cwd: Path, outputDir: string, patterns: seq<string>, files: seq<FileRow>)
      returns (threw: bool, pendingSymlinks: seq<(Path, string)>)
      requires Plain(cwd)
      modifies this
      ensures Did(old(Snapshot()), FilePhase(old(disk), FileTasks(cwd, outputDir, patterns, files), sha), threw)
      ensures !threw ==> pendingSymlinks == Links(cwd, outputDir, patterns, files)
    {
      hide TaskRun, Accepted, Matches;
      ghost var from, tasks := Snapshot(), FileTasks(cwd, outputDir, patterns, files);
      ghost var whole := FilePhase(disk, tasks, sha);
      MidwayStarts(whole);
      assert tasks[0..] == tasks;
      pendingSymlinks := [];
      for i := 0 to |files|
        invariant Midway(from, whole, FilePhase(disk, tasks[i..], sha))
        invariant pendingSymlinks == Links(cwd, outputDir, patterns, files[..i])
      {
        ghost var here := Snapshot();
        assert tasks[i..][1..] == tasks[i + 1..] && tasks[i..][0] == FileTask(cwd, outputDir, patterns, files[i]);
        assert files[..i + 1][..i] == files[..i];
        var row := files[i];
        if !Accepted(cwd, outputDir, patterns, row) {
          continue;
        }
        var target := Resolve(cwd, [outputDir, row.src, row.path]);
        if row.lnk.Some? {
          pendingSymlinks := pendingSymlinks + [(target, row.lnk.value)];
          continue;
        }
        var result := StoreOne(Store(target, row.source, row.hash));
        MidwayTask(from, here, whole, tasks[i..]);
        if result.Threw? {
          MidwayEnds(from, whole, true);
          threw := true;
          return;
        }
      }
      assert files[..|files|] == files && tasks[|files|..] == [];
      MidwayEnds(from, whole, false);
      threw := false;
    }

    method CreateLinks(pendingSymlinks: seq<(Path, string)>) returns (threw: bool)
      modifies this
      ensures Did(old(Snapshot()), LinkPhase(old(disk), pendingSymlinks), threw)
    {
      hide LinkRun, Matches;
      ghost var from, whole := Snapshot(), LinkPhase(disk, pendingSymlinks);
      MidwayStarts(whole);
      assert pendingSymlinks[0..] == pendingSymlinks;
      for i := 0 to |pendingSymlinks|
        invariant Midway(from, whole, LinkPhase(disk, pendingSymlinks[i..]))
      {
        ghost var here := Snapshot();
        assert pendingSymlinks[i..][1..] == pendingSymlinks[i + 1..];
        var failed := CreateLink(pendingSymlinks[i].0, pendingSymlinks[i].1);
        MidwayLink(from, here, whole, pendingSymlinks[i..]);
        if failed {
          MidwayEnds(from, whole, true);
          return true;
        }
      }
      assert pendingSymlinks[|pendingSymlinks|..] == [];
      MidwayEnds(from, whole, false);
      threw := false;
    }

    /** A chain with archives missing is refused untouched; else databases, then files, and then the links. */
    method CommandExtract(cwd: Path, outputDir: string, patterns: seq<string>, missing: seq<bytes>,
                          databases: seq<DatabaseRow>, files: seq<FileRow>)
      returns (threw: bool)
      requires Plain(cwd)
      modifies this
      ensures missing != [] ==> threw && Snapshot() == old(Snapshot())
      ensures missing == [] ==>
              var tasks := Tasks(cwd, outputDir, patterns, databases, files);
              var (phase, linking) := WholeRun(old(disk), tasks, Links(cwd, outputDir, patterns, files), sha);
              && threw == (phase.threw || linking.threw)
              && disk == Last(old(disk), phase.states + linking.states)
              && trail == old(trail) + (phase.states + linking.states)
              && extracted == old(extracted) + phase.extracted + linking.extracted
              && mismatches == old(mismatches) + phase.mismatches + linking.mismatches
    {
      hide FilePhase, LinkPhase, DatabaseTasks, FileTasks, Links, Last;
      if missing != [] {
        return true;
      }
      ghost var first := DatabaseTasks(cwd, outputDir, patterns, databases);
      ghost var second := FileTasks(cwd, outputDir, patterns, files);
      ghost var start := Snapshot();
      FilePhaseInTwo(disk, first, second, sha);
      ghost var phase := FilePhase(disk, first + second, sha);
      threw := ExtractDatabases(cwd, outputDir, patterns, databases);
      ghost var one := FilePhase(start.disk, first, sha);
      if threw {
        NothingMore(one.states);
        return;
      }
      var pendingSymlinks;
      threw, pendingSymlinks := ExtractFiles(cwd, outputDir, patterns, files);
      OneAfterAnother(start, one.states, FilePhase(Last(start.disk, one.states), second, sha).states);
      if threw {
        NothingMore(phase.states);
        return;
      }
      threw := CreateLinks(pendingSymlinks);
      OneAfterAnother(start, phase.states, LinkPhase(Last(start.disk, phase.states), pendingSymlinks).states);
    }

    static lemma OneAfterAnother(from: Moment, a: seq<Disk>, b: seq<Disk>)
      ensures from.trail + a + b == from.trail + (a + b)
      ensures Last(Last(from.disk, a), b) == Last(from.disk, a + b)
    {
    }

    static lemma NothingMore(a: seq<Disk>)
      ensures a + [] == a
    {
    }

    /** The run since `from` did exactly this phase. */
    ghost predicate Did(from: Moment, whole: Phase, threw: bool)
      reads this
    {
      && whole.threw == threw
      && trail == from.trail + whole.states && disk == Last(from.disk, whole.states)
      && extracted == from.extracted + whole.extracted && mismatches == from.mismatches + whole.mismatches
    }

    lemma MidwayStarts(whole: Phase)
      ensures Midway(Snapshot(), whole, whole)
    {
    }

    /** At the end of a phase the run has done exactly that phase. */
    lemma MidwayEnds(from: Moment, whole: Phase, threw: bool)
      requires Midway(from, whole, Phase(threw, [], 0, 0))
      ensures Did(from, whole, threw)
    {
      assert trail + [] == trail;
    }

    /** One more task done: what is left of the phase is what follows it, or nothing if it threw. */
    lemma MidwayTask(from: Moment, here: Moment, whole: Phase, tasks: seq<Task>)
      requires tasks != [] && tasks[0].Store?
      requires Matches(from, here, whole, FilePhase(here.disk, tasks, sha))
      requires var (result, states) := TaskRun(here.disk, tasks[0], sha);
               && trail == here.trail + states && disk == Last(here.disk, states)
               && extracted == here.extracted + (if result.Written? then 1 else 0)
               && mismatches == here.mismatches + (if result.Threw? || result == Written(true) then 0 else 1)
      ensures Midway(from, whole, if TaskRun(here.disk, tasks[0], sha).0.Threw? then Phase(true, [], 0, 0)
                                  else FilePhase(disk, tasks[1..], sha))
    {
      hide TaskRun;
      var (result, states) := TaskRun(here.disk, tasks[0], sha);
      var rest := FilePhase(disk, tasks[1..], sha);
      assert here.trail + (states + rest.states) == here.trail + states + rest.states;
      assert here.trail + states + [] == here.trail + states;
    }

    lemma MidwayLink(from: Moment, here: Moment, whole: Phase, links: seq<(Path, string)>)
      requires links != []
      requires Matches(from, here, whole, LinkPhase(here.disk, links))
      requires var (failed, states) := LinkRun(here.disk, links[0].0, links[0].1);
               && trail == here.trail + states && disk == Last(here.disk, states)
               && extracted == here.extracted + (if failed then 0 else 1) && mismatches == here.mismatches
      ensures Midway(from, whole, if LinkRun(here.disk, links[0].0, links[0].1).0 then Phase(true, [], 0, 0)
                                  else LinkPhase(disk, links[1..]))
    {
      hide LinkRun;
      var (failed, states) := LinkRun(here.disk, links[0].0, links[0].1);
      var rest := LinkPhase(disk, links[1..]);
      assert here.trail + (states + rest.states) == here.trail + states + rest.states;
      assert here.trail + states + [] == here.trail + states;
    }
  }

  lemma {:induction false} FilePhaseInTwo(d: Disk, first: seq<Task>, second: seq<Task>, sha: bytes -> bytes)
    ensures var one := FilePhase(d, first, sha);
            var two := FilePhase(Last(d, one.states), second, sha);
            FilePhase(d, first + second, sha) ==
            if one.threw then one
            else
              Phase(two.threw, one.states + two.states,
                    one.extracted + two.extracted, one.mismatches + two.mismatches)
    decreases |first|
  {
    hide TaskRun;
    if first == [] {
      assert first + second == second;
    } else {
      assert (first + second)[1..] == first[1..] + second;
      if first[0].Skip? {
        FilePhaseInTwo(d, first[1..], second, sha);
      } else {
        var (result, states) := TaskRun(d, first[0], sha);
        FilePhaseInTwo(Last(d, states), first[1..], second, sha);
        var one := FilePhase(Last(d, states), first[1..], sha);
        var two := FilePhase(Last(Last(d, states), one.states), second, sha);
        assert states + (one.states + two.states) == states + one.states + two.states;
      }
    }
  }
}
