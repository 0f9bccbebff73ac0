/** From a chain of archives to files on disk: what extracting a snapshot leaves there. */
module Restore {
  import opened Bytes
  import opened Paths
  import opened Disk
  import opened Extract
  import opened ExtractSafety
  import opened ExtractOutcome
  import opened ExtractRoom
  import opened ExtractRows
  import A = Archive
  import C = Chain
  import EntryKeys
  import Glob

  /**
   * What is left to parameters: how names are decoded, the format and checksum a line records, and how a
   * stream divides what it delivers.
   */
  datatype Reader = Reader(text: bytes -> string, format: bytes -> string, dumpHash: bytes -> Option<bytes>,
                           fileHash: A.FileLine -> Option<bytes>, divided: bytes -> seq<bytes>)
  {
    ghost predicate Lawful() {
      forall content :: Concat(divided(content)) == content
    }
  }

  /** What reaches the disk of an entry: all of it, or a stream that breaks. */
  function DeliveryOf(codec: A.Codec, reader: Reader, target: A.ArchiveFile, entry: A.EntryLine): Delivery {
    match A.DecodeEntry(codec, target, entry)
    case Ok(content) => Delivery(reader.divided(content), false)
    case Err(_) => Delivery([], true)
  }

  /** Files in bundles are cut out of them; everything else is streamed. */
  function SourceOf(codec: A.Codec, reader: Reader, archive: A.ArchiveFile, chain: map<bytes, A.ArchiveFile>,
                    line: A.FileLine): Source
  {
    if line.n.None? then Unresolved
    else
      match C.ResolveEntry(archive, chain, line.n.value, line.a)
      case Err(_) => Unresolved
      case Ok((target, entry)) =>
        if !entry.bundle then Streamed(entry.size, DeliveryOf(codec, reader, target, entry))
        else
          match C.ReadFileFromArchive(codec, archive, chain, line)
          case Ok(content) => Bundled(Some(content))
          case Err(_) => Bundled(None)
  }

  function FileRows(codec: A.Codec, reader: Reader, found: C.Snapshot): seq<FileRow> {
    var archive := found.archive;
    seq(|archive.index.files|, j requires 0 <= j < |archive.index.files| =>
      var line := archive.index.files[j];
      FileRow(reader.text(line.src), reader.text(line.path),
              if line.lnk.Some? then Some(reader.text(line.lnk.value)) else None,
              SourceOf(codec, reader, archive, found.siblings.chain, line), reader.fileHash(line)))
  }

  function DatabaseRows(codec: A.Codec, reader: Reader, found: C.Snapshot): seq<DatabaseRow> {
    var archive := found.archive;
    seq(|archive.index.databases|, j requires 0 <= j < |archive.index.databases| =>
      var (name, n) := archive.index.databases[j];
      DatabaseRow(reader.text(name), reader.format(name),
                  match C.ResolveEntry(archive, found.siblings.chain, n, None)
                  case Ok((target, entry)) => Some((entry.size, DeliveryOf(codec, reader, target, entry)))
                  case Err(_) => None,
                  reader.dumpHash(name)))
  }

  /** The source brings exactly this content. */
  predicate Brings(source: Source, content: bytes) {
    match source
    case Unresolved => false
    case Bundled(cut) => cut == Some(content)
    case Streamed(_, delivery) => !delivery.broken && Concat(delivery.chunks) == content
  }

  // ------------------------------------------------------------ what rows bring

  /** What was found is the newest archive as it was written, and every sibling it needs. */
  ghost predicate FoundRight(s: C.State, found: C.Snapshot) {
    s.lastName in s.folder && found.archive == s.folder[s.lastName] && C.HoldsDeps(s, found.siblings.chain)
  }

  lemma FileRowBrings(codec: A.Codec, reader: Reader, s: C.State, found: C.Snapshot, j: nat)
    requires C.Inv(codec, s) && reader.Lawful() && FoundRight(s, found)
    requires j < |found.archive.index.files| && found.archive.index.files[j].lnk.None?
    ensures var line := found.archive.index.files[j];
            && (line.src, line.path) in s.tree
            && Brings(FileRows(codec, reader, found)[j].source, s.tree[(line.src, line.path)])
  {
    hide C.Inv, C.ResolveEntry, C.HoldsDeps, A.DecodeEntry, EntryKeys.EntryKey, Concat;
    var line := found.archive.index.files[j];
    C.ResolvesToHolder(codec, s, found.siblings.chain, line);
    C.ReadsThroughHolder(codec, s, found.siblings.chain, line);
  }

  /** The archive is what its version built. */
  ghost predicate BuiltBy(codec: A.Codec, s: C.State, v: C.Version) {
    && s.lastName in s.folder && C.ValidBuild(codec, v.build) && A.Carried(v.carriedEntries)
    && A.CreateArchive(codec, v.build, v.carriedFiles, v.carriedEntries) == Ok(s.folder[s.lastName])
  }

  lemma HistoryBuilds(codec: A.Codec, versions: seq<C.Version>, states: seq<C.State>, i: nat)
    requires codec.Lawful() && C.History(codec, versions, states) && i < |states|
    ensures |versions| == |states| && BuiltBy(codec, states[i], versions[i])
  {
    hide A.CreateArchive, A.WrittenOut, C.ValidBuild, C.CarriesForward, C.Inv, C.NextTree, C.StoredTree;
    if i > 0 {
      C.HistoryKeepsInv(codec, versions, states, i - 1);
      assert C.Follows(codec, states[i - 1], versions[i], states[i]);
      C.CarriedAreMarked(codec, states[i - 1], versions[i], states[i]);
    }
  }

  lemma DumpRowBrings(codec: A.Codec, reader: Reader, s: C.State, found: C.Snapshot, v: C.Version, j: nat)
    returns (k: nat)
    requires codec.Lawful() && reader.Lawful() && BuiltBy(codec, s, v) && FoundRight(s, found)
    requires j < |found.archive.index.databases|
    ensures k < |v.build.planned| && v.build.planned[k].origin.Database?
    ensures found.archive.index.databases[j] == (v.build.planned[k].origin.dbName, k + 1)
    ensures DatabaseRows(codec, reader, found)[j].entry.Some?
    ensures var (size, delivery) := DatabaseRows(codec, reader, found)[j].entry.value;
            Brings(Streamed(size, delivery), v.build.planned[k].origin.dump)
  {
    hide A.DecodeEntry, A.NameIsLast, EntryKeys.EntryKey, Concat, A.CreateArchive, C.ValidBuild, A.Packs, C.HoldsDeps;
    C.BuildPacks(codec, v.build);
    A.LinesOfCreated(codec, v.build, v.carriedFiles, v.carriedEntries);
    k := A.DumpOfLine(v.build.planned, 1, j);
    C.NameOfPlanned(codec, v.build, k);
    A.EntryReadsBack(codec, v.build, v.carriedFiles, v.carriedEntries, k);
  }

  // ---------------------------------------------------- one row of a whole run

  lemma EffectsUnfold(root: Path, at: Path, tasks: seq<Task>, sha: bytes -> bytes)
    requires AllBelow(tasks, root) && tasks != []
    ensures AllBelow(tasks[1..], root)
    ensures Effects(tasks, root, at, sha) ==
            (if tasks[0].Store? then [EffectOf(tasks[0], root, at, sha)] else []) + Effects(tasks[1..], root, at, sha)
  {
    hide EffectOf;
  }

  /** The effect of a row among all of them. */
  lemma {:induction false} EffectAt(root: Path, at: Path, tasks: seq<Task>, sha: bytes -> bytes, k: nat)
    returns (e: nat)
    requires AllBelow(tasks, root) && k < |tasks| && tasks[k].Store?
    ensures var effects := Effects(tasks, root, at, sha);
            && e < |effects| && effects[e] == EffectOf(tasks[k], root, at, sha)
            && effects[e + 1..] == Effects(tasks[k + 1..], root, at, sha)
    decreases |tasks|
  {
    hide EffectOf, Effects;
    EffectsUnfold(root, at, tasks, sha);
    var later, effects := Effects(tasks[1..], root, at, sha), Effects(tasks, root, at, sha);
    if k == 0 {
      e := 0;
      assert effects[1..] == later;
    } else {
      var e' := EffectAt(root, at, tasks[1..], sha, k - 1);
      assert tasks[1..][k..] == tasks[k + 1..];
      e := if tasks[0].Skip? then e' else e' + 1;
      assert effects[e + 1..] == later[e' + 1..];
    }
  }

  lemma BroughtEffect(task: Task, root: Path, at: Path, sha: bytes -> bytes, content: bytes)
    requires task.Store? && Inside(task.target, root) && Brings(task.source, content)
    requires task.expected == None || task.expected == Some([]) || task.expected == Some(sha(content))
    ensures var effect := EffectOf(task, root, at, sha);
            effect.spot == at + task.target[|root|..] && effect.content == Some(content)
  {
  }

  /**
   * Once these rows are done, the content of row `k` is in its place if and only if the last later one of
   * them that wrote or swept that place left the same there, or there was none.
   */
  ghost predicate PlacedExactly(d: Disk, root: Path, at: Path, tasks: seq<Task>, sha: bytes -> bytes, k: nat,
                                content: bytes, e: nat)
    requires AllBelow(tasks, root) && k < |tasks| && tasks[k].Store?
  {
    var effects, spot := Effects(tasks, root, at, sha), at + tasks[k].target[|root|..];
    && e < |effects| && effects[e].spot == spot && effects[e].content == Some(content)
    && (Placed(d, root, at, tasks, sha, k, content) <==>
        forall j :: LastAfter(effects, spot, e, j) ==>
                      Writes(effects[j], spot) && effects[j].content == Some(content))
  }

  /** The content of row `k` is in its place. */
  ghost predicate Placed(d: Disk, root: Path, at: Path, tasks: seq<Task>, sha: bytes -> bytes, k: nat, content: bytes)
    requires AllBelow(tasks, root) && k < |tasks| && tasks[k].Store?
  {
    var end, spot := Last(d, FilePhase(d, tasks, sha).states).files, at + tasks[k].target[|root|..];
    spot in end && end[spot] == content
  }

  lemma RowPlaced(d: Disk, root: Path, at: Path, tasks: seq<Task>, sha: bytes -> bytes, k: nat, content: bytes)
    returns (e: nat)
    requires Rooted(d, root, at) && AllBelow(tasks, root) && !FilePhase(d, tasks, sha).threw
    requires k < |tasks| && tasks[k].Store? && Brings(tasks[k].source, content)
    requires HashOk(sha, tasks[k].expected, content)
    ensures PlacedExactly(d, root, at, tasks, sha, k, content, e)
    ensures Apart(tasks, root) ==> Placed(d, root, at, tasks, sha, k, content)
  {
    hide Rooted, FilePhase, Effects, LastAfter, Writes, EffectOf, Brings, HashOk, Apart, Done;
    e := EffectAt(root, at, tasks, sha, k);
    DigestSpelled(sha, tasks[k].expected, content);
    BroughtEffect(tasks[k], root, at, sha, content);
    AllDone(d, root, at, tasks, sha);
    ExtractedFileExact(d, root, at, tasks, sha, e);
    if Apart(tasks, root) {
      ApartStays(root, at, tasks, sha, k, e);
    }
  }

  /** Among rows that keep apart, nothing later touches a row's place. */
  lemma ApartStays(root: Path, at: Path, tasks: seq<Task>, sha: bytes -> bytes, k: nat, e: nat)
    requires AllBelow(tasks, root) && Apart(tasks, root) && k < |tasks| && tasks[k].Store?
    requires var effects := Effects(tasks, root, at, sha);
             && e < |effects| && effects[e] == EffectOf(tasks[k], root, at, sha)
             && effects[e + 1..] == Effects(tasks[k + 1..], root, at, sha)
    ensures var effects := Effects(tasks, root, at, sha);
            forall j :: !LastAfter(effects, effects[e].spot, e, j)
  {
    hide Effects;
    var later, effects, names := tasks[k + 1..], Effects(tasks, root, at, sha), tasks[k].target[|root|..];
    assert forall l :: 0 <= l < |later| ==> later[l] == tasks[k + 1 + l];
    EffectWithin(tasks[k], root, at, sha);
    forall l, others | 0 <= l < |later| && later[l].Store? && Takes(later[l], root, others)
      ensures at + others != at + names
    {
      assert KeepApart(tasks[k + 1 + l], tasks[k], root);
      assert (at + others)[|at|..] == others && (at + names)[|at|..] == names;
    }
    ApartUnaltered(later, root, at, sha, at + names);
    forall j ensures !LastAfter(effects, effects[e].spot, e, j) {
      if e < j < |effects| {
        assert effects[j] == effects[e + 1..][j - e - 1];
      }
    }
  }

  // ------------------------------------------------------------ whole snapshots

  /** One extraction: which snapshot in which folder, onto which disk, to where, and what of it. */
  datatype Scene = Scene(codec: A.Codec, reader: Reader, folder: map<bytes, bytes>, name: bytes, d: Disk, at: Path,
                         cwd: Path, outputDir: string, patterns: seq<string>, sha: bytes -> bytes)
  {
    function Found(): Result<C.Snapshot, A.ReadError> {
      C.OpenSnapshot(codec, folder, name)
    }

    function Databases(): seq<DatabaseRow> {
      if Found().Ok? then DatabaseRows(codec, reader, Found().value) else []
    }

    function Files(): seq<FileRow> {
      if Found().Ok? then FileRows(codec, reader, Found().value) else []
    }

    function Root(): Path
      requires Plain(cwd)
    {
      Resolve(cwd, [outputDir])
    }

    function Rows(): seq<Task>
      requires Plain(cwd)
    {
      Tasks(cwd, outputDir, patterns, Databases(), Files())
    }

    /** The first `n` rows, or all of them. */
    function FirstRows(n: nat): seq<Task>
      requires Plain(cwd)
    {
      if n < |Rows()| then Rows()[..n] else Rows()
    }

    function LinkRows(): seq<(Path, string)>
      requires Plain(cwd)
    {
      Links(cwd, outputDir, patterns, Files())
    }

    /** The archive or a sibling that cannot be opened, or one that is missing, ends it before it writes anything. */
    function Run(): (Phase, Phase)
      requires Plain(cwd)
    {
      if Found().Err? || Found().value.siblings.missing != [] then (Phase(true, [], 0, 0), Phase(false, [], 0, 0))
      else WholeRun(d, Rows(), LinkRows(), sha)
    }

    /**
     * Below the output directory there is no link, none of the first `n` rows that store something names that
     * directory itself, there is room on the disk for them, and none of them streams an empty entry.
     */
    ghost predicate Ready(n: nat) {
      && Plain(cwd) && reader.Lawful() && Rooted(d, Root(), at) && AllBelow(FirstRows(n), Root())
      && HasRoom(d, FirstRows(n), Root(), at) && NoneEmpty(FirstRows(n))
    }
  }

  predicate NoneEmpty(tasks: seq<Task>) {
    forall k :: 0 <= k < |tasks| && tasks[k].Store? && tasks[k].source.Streamed? ==> tasks[k].source.size > 0
  }

  /** The scene is set in the folder of a history's `i`-th state, and every manifest it needs is read right. */
  ghost predicate SetIn(scene: Scene, versions: seq<C.Version>, states: seq<C.State>, i: nat) {
    && scene.codec.Lawful() && C.History(scene.codec, versions, states) && i < |states| == |versions|
    && scene.folder == C.FilesOf(states[i]) && scene.name == states[i].lastName
    && states[i].lastName in states[i].folder && C.AllOpenRight(scene.codec, versions, states[i], i)
  }

  lemma OpensInScene(scene: Scene, versions: seq<C.Version>, states: seq<C.State>, i: nat)
    requires SetIn(scene, versions, states, i)
    ensures scene.codec.Lawful() && C.History(scene.codec, versions, states) && i < |states| == |versions|
    ensures scene.Found().Ok? && scene.Found().value.siblings.missing == []
    ensures FoundRight(states[i], scene.Found().value) && C.Inv(scene.codec, states[i])
    ensures |scene.Databases()| == |scene.Found().value.archive.index.databases|
    ensures |scene.Files()| == |scene.Found().value.archive.index.files|
  {
    hide C.History, C.AllOpenRight, C.Inv, C.OpenSnapshot, C.HoldsDeps, C.FilesOf;
    C.OpensAsWrittenExactly(scene.codec, versions, states, i);
    C.HistoryKeepsInv(scene.codec, versions, states, i);
  }

  /** Database rows come first, then the file rows. */
  lemma RowsInOrder(scene: Scene)
    requires Plain(scene.cwd)
    ensures |scene.Rows()| == |scene.Databases()| + |scene.Files()|
    ensures forall j :: 0 <= j < |scene.Databases()| ==>
                          scene.Rows()[j] ==
                          DatabaseTask(scene.cwd, scene.outputDir, scene.patterns, scene.Databases()[j])
    ensures forall j :: 0 <= j < |scene.Files()| ==>
                          scene.Rows()[|scene.Databases()| + j] ==
                          FileTask(scene.cwd, scene.outputDir, scene.patterns, scene.Files()[j])
  {
    hide DatabaseTask, FileTask, Scene.Databases, Scene.Files;
  }

  /** This is the row of a file line: it stores what the tree has there, and expects that line's checksum. */
  ghost predicate IsFileRow(reader: Reader, row: Task, line: A.FileLine, tree: C.Tree) {
    && row.Store? && line.lnk.None? && (line.src, line.path) in tree
    && Brings(row.source, tree[(line.src, line.path)]) && row.expected == reader.fileHash(line)
  }

  /** This is the row of a database line: it stores its dump, and expects the dump's checksum. */
  ghost predicate IsDumpRow(reader: Reader, row: Task, origin: A.Origin) {
    && row.Store? && origin.Database?
    && Brings(row.source, origin.dump) && row.expected == reader.dumpHash(origin.dbName)
  }

  lemma FileTaskOf(scene: Scene, found: C.Snapshot, s: C.State, j: nat)
    requires Plain(scene.cwd) && scene.reader.Lawful() && C.Inv(scene.codec, s) && FoundRight(s, found)
    requires j < |found.archive.index.files|
    ensures var row := FileTask(scene.cwd, scene.outputDir, scene.patterns,
                                FileRows(scene.codec, scene.reader, found)[j]);
            row.Store? ==> IsFileRow(scene.reader, row, found.archive.index.files[j], s.tree)
  {
    hide C.Inv, FoundRight, SourceOf, Brings, Accepted, Resolve;
    if found.archive.index.files[j].lnk.None? {
      FileRowBrings(scene.codec, scene.reader, s, found, j);
    }
  }

  lemma DumpTaskOf(scene: Scene, found: C.Snapshot, s: C.State, v: C.Version, j: nat) returns (p: nat)
    requires Plain(scene.cwd) && scene.codec.Lawful() && scene.reader.Lawful() && BuiltBy(scene.codec, s, v)
    requires FoundRight(s, found) && j < |found.archive.index.databases|
    ensures p < |v.build.planned| && v.build.planned[p].origin.Database?
    ensures found.archive.index.databases[j] == (v.build.planned[p].origin.dbName, p + 1)
    ensures var row := DatabaseTask(scene.cwd, scene.outputDir, scene.patterns,
                                    DatabaseRows(scene.codec, scene.reader, found)[j]);
            row.Store? ==> IsDumpRow(scene.reader, row, v.build.planned[p].origin)
  {
    hide BuiltBy, FoundRight, DatabaseTarget, Resolve, StartsBelow, C.ResolveEntry, DeliveryOf, Concat;
    p := DumpRowBrings(scene.codec, scene.reader, s, found, v, j);
  }

  /** Every row that stores something brings its content whole. */
  lemma RowsBring(scene: Scene, versions: seq<C.Version>, states: seq<C.State>, i: nat, k: nat) returns (p: nat)
    requires SetIn(scene, versions, states, i) && Plain(scene.cwd) && scene.reader.Lawful()
    requires k < |scene.Rows()| && scene.Rows()[k].Store?
    ensures scene.Found().Ok? && i < |states| == |versions|
    ensures var row, index, m := scene.Rows()[k], scene.Found().value.archive.index, |scene.Databases()|;
            if k < m then
              && k < |index.databases| && p < |versions[i].build.planned|
              && IsDumpRow(scene.reader, row, versions[i].build.planned[p].origin)
              && index.databases[k] == (versions[i].build.planned[p].origin.dbName, p + 1)
            else k - m < |index.files| && IsFileRow(scene.reader, row, index.files[k - m], states[i].tree)
  {
    hide SetIn, C.History, C.Inv, FoundRight, C.OpenSnapshot, BuiltBy, DatabaseRows, FileRows, DatabaseTask, FileTask,
      IsFileRow, IsDumpRow, Tasks;
    p := 0;
    OpensInScene(scene, versions, states, i);
    RowsInOrder(scene);
    var found := scene.Found().value;
    if k < |scene.Databases()| {
      HistoryBuilds(scene.codec, versions, states, i);
      p := DumpTaskOf(scene, found, states[i], versions[i], k);
    } else {
      FileTaskOf(scene, found, states[i], k - |scene.Databases()|);
    }
  }

  lemma BringsWhole(reader: Reader, row: Task, content: bytes)
    requires row.Store? && Brings(row.source, content) && (row.source.Streamed? ==> row.source.size > 0)
    ensures Complete(row.source)
  {
  }

  /** With room for them, an extraction gets through its first `n` rows. */
  lemma GetsThrough(scene: Scene, versions: seq<C.Version>, states: seq<C.State>, i: nat, n: nat)
    requires SetIn(scene, versions, states, i) && scene.Ready(n)
    ensures !FilePhase(scene.d, scene.FirstRows(n), scene.sha).threw
  {
    hide SetIn, HasRoom, Scene.Rows, Scene.Found, Scene.Databases, Scene.Files, AllBelow, Rooted, FilePhase, Complete,
      Brings;
    var rows := scene.FirstRows(n);
    forall k | 0 <= k < |rows| && rows[k].Store? ensures Complete(rows[k].source) {
      assert rows[k] == scene.Rows()[k];
      var p := RowsBring(scene, versions, states, i, k);
      if k < |scene.Databases()| {
        BringsWhole(scene.reader, rows[k], versions[i].build.planned[p].origin.dump);
      } else {
        var line := scene.Found().value.archive.index.files[k - |scene.Databases()|];
        BringsWhole(scene.reader, rows[k], states[i].tree[(line.src, line.path)]);
      }
    }
    RunsThrough(scene.d, scene.Root(), scene.at, rows, scene.sha);
  }

  /**
   * From snapshot to disk. For every sequence of snapshots stored as a chain, extracting any archive of it
   * from nothing but its folder, where every manifest is read right and there is room on the disk: once the
   * first `n` rows are done, each selected file among them is in its place with exactly the content its
   * snapshot has, unless a later one of them changed that place, which rows that keep apart do not.
   */
  lemma FilesRestored(scene: Scene, versions: seq<C.Version>, states: seq<C.State>, snapshots: seq<C.Tree>,
                      i: nat, n: nat, k: nat)
    returns (e: nat)
    requires SetIn(scene, versions, states, i) && C.RecordsAll(versions, snapshots) && |snapshots| == |states|
    requires scene.Ready(n) && |scene.Databases()| <= k < |scene.FirstRows(n)| && scene.FirstRows(n)[k].Store?
    ensures scene.Found().Ok? && k - |scene.Databases()| < |scene.Found().value.archive.index.files|
    ensures var line := scene.Found().value.archive.index.files[k - |scene.Databases()|];
            var rows, root := scene.FirstRows(n), scene.Root();
            && IsFileRow(scene.reader, rows[k], line, snapshots[i])
            && var content := snapshots[i][(line.src, line.path)];
               scene.reader.fileHash(line) in {None, Some([]), Some(scene.sha(content))} ==>
                 && PlacedExactly(scene.d, root, scene.at, rows, scene.sha, k, content, e)
                 && (Apart(rows, root) ==> Placed(scene.d, root, scene.at, rows, scene.sha, k, content))
  {
    hide SetIn, HasRoom, Scene.Rows, Scene.Found, Scene.Databases, Scene.Files, AllBelow, Rooted, FilePhase, Apart,
      PlacedExactly, Placed, HashOk, C.RecordsAll, C.History, Brings;
    e := 0;
    var rows := scene.FirstRows(n);
    assert rows[k] == scene.Rows()[k];
    GetsThrough(scene, versions, states, i, n);
    var p := RowsBring(scene, versions, states, i, k);
    OpensInScene(scene, versions, states, i);
    C.TreesAreSnapshots(scene.codec, versions, states, snapshots, i);
    var line := scene.Found().value.archive.index.files[k - |scene.Databases()|];
    var content := states[i].tree[(line.src, line.path)];
    DigestSpelled(scene.sha, scene.reader.fileHash(line), content);
    if HashOk(scene.sha, scene.reader.fileHash(line), content) {
      e := RowPlaced(scene.d, scene.Root(), scene.at, rows, scene.sha, k, content);
    }
  }

  /** The plan of an archive's version lists this dump at this place. */
  ghost predicate Plans(versions: seq<C.Version>, i: nat, p: nat) {
    i < |versions| && p < |versions[i].build.planned| && versions[i].build.planned[p].origin.Database?
  }

  /** Every dump of the plan is listed under its name and ordinal, and has the row of that line. */
  lemma DumpIsListed(scene: Scene, versions: seq<C.Version>, states: seq<C.State>, i: nat, p: nat) returns (k: nat)
    requires SetIn(scene, versions, states, i) && Plans(versions, i, p)
    ensures scene.Found().Ok? && k < |scene.Databases()| == |scene.Found().value.archive.index.databases|
    ensures scene.Found().value.archive.index.databases[k] == (versions[i].build.planned[p].origin.dbName, p + 1)
    ensures scene.Databases()[k].name == scene.reader.text(versions[i].build.planned[p].origin.dbName)
  {
    hide SetIn, C.OpenSnapshot, C.ResolveEntry, DeliveryOf, A.CreateArchive, C.ValidBuild, C.History, C.HoldsDeps,
      C.Inv, A.Packs;
    OpensInScene(scene, versions, states, i);
    HistoryBuilds(scene.codec, versions, states, i);
    var v := versions[i];
    C.BuildPacks(scene.codec, v.build);
    A.LinesOfCreated(scene.codec, v.build, v.carriedFiles, v.carriedEntries);
    k := A.LineOfDump(v.build.planned, 1, p);
  }

  /** The row of a dump stores something exactly where it is selected and the output directory is not the top. */
  lemma DumpRowExact(scene: Scene, k: nat)
    requires Plain(scene.cwd) && k < |scene.Databases()|
    ensures k < |scene.Rows()|
    ensures var row := scene.Databases()[k];
            && (scene.Rows()[k].Store? <==>
                  && (scene.patterns == [] || Glob.Selects("databases/" + row.name, scene.patterns, false))
                  && scene.Root() != [])
            && (scene.Rows()[k].Store? ==>
                  scene.Rows()[k].target == DatabaseTarget(scene.cwd, scene.outputDir, row))
  {
    hide Scene.Databases, Scene.Files, DatabaseTarget, Glob.Selects, Resolve, DatabaseTask, FileTask;
    RowsInOrder(scene);
    DatabaseRowExact(scene.cwd, scene.outputDir, scene.patterns, scene.Databases()[k]);
  }

  /** The row stores the dump with the checksum recorded for it, and a right checksum puts it in its place. */
  ghost predicate DumpStored(scene: Scene, n: nat, k: nat, origin: A.Origin, e: nat)
    requires Plain(scene.cwd) && AllBelow(scene.FirstRows(n), scene.Root())
    requires k < |scene.FirstRows(n)| && scene.FirstRows(n)[k].Store?
  {
    var rows, root := scene.FirstRows(n), scene.Root();
    && IsDumpRow(scene.reader, rows[k], origin)
    && (scene.reader.dumpHash(origin.dbName) in {None, Some([]), Some(scene.sha(origin.dump))} ==>
          && PlacedExactly(scene.d, root, scene.at, rows, scene.sha, k, origin.dump, e)
          && (Apart(rows, root) ==> Placed(scene.d, root, scene.at, rows, scene.sha, k, origin.dump)))
  }

  /** And every dump of the plan that is selected and among the first rows. */
  lemma DumpsRestored(scene: Scene, versions: seq<C.Version>, states: seq<C.State>, i: nat, n: nat, p: nat)
    returns (k: nat, e: nat)
    requires SetIn(scene, versions, states, i) && scene.Ready(n) && Plans(versions, i, p)
    ensures scene.Found().Ok? && k < |scene.Databases()| == |scene.Found().value.archive.index.databases|
    ensures scene.Found().value.archive.index.databases[k] == (versions[i].build.planned[p].origin.dbName, p + 1)
    ensures k < |scene.FirstRows(n)| && scene.FirstRows(n)[k].Store? ==>
              DumpStored(scene, n, k, versions[i].build.planned[p].origin, e)
  {
    hide SetIn, HasRoom, Scene.Rows, Scene.Found, Scene.Databases, Scene.Files, AllBelow, Rooted, FilePhase, Apart,
      PlacedExactly, Placed, HashOk, Brings;
    e := 0;
    k := DumpIsListed(scene, versions, states, i, p);
    var rows := scene.FirstRows(n);
    if k < |rows| && rows[k].Store? {
      assert rows[k] == scene.Rows()[k];
      GetsThrough(scene, versions, states, i, n);
      var p' := RowsBring(scene, versions, states, i, k);
      assert p' == p;
      var origin := versions[i].build.planned[p].origin;
      DigestSpelled(scene.sha, scene.reader.dumpHash(origin.dbName), origin.dump);
      if HashOk(scene.sha, scene.reader.dumpHash(origin.dbName), origin.dump) {
        e := RowPlaced(scene.d, scene.Root(), scene.at, rows, scene.sha, k, origin.dump);
      }
    }
  }

  /**
   * And so it stays when the links of the snapshot are made, where none of them names the file's place or
   * lies below another, and the way to the output directory holds no link.
   */
  lemma LinksLeaveFiles(scene: Scene, versions: seq<C.Version>, states: seq<C.State>, i: nat, n: nat, k: nat,
                        content: bytes)
    requires SetIn(scene, versions, states, i) && scene.Ready(n) && scene.FirstRows(n) == scene.Rows()
    requires k < |scene.FirstRows(n)| && scene.FirstRows(n)[k].Store?
    requires Placed(scene.d, scene.Root(), scene.at, scene.FirstRows(n), scene.sha, k, content)
    requires scene.at == scene.Root() && Flat(scene.d, scene.LinkRows())
    requires forall l :: 0 <= l < |scene.LinkRows()| ==> scene.LinkRows()[l].0 != scene.FirstRows(n)[k].target
    ensures var (phase, linking) := scene.Run();
            var end, spot := Last(Last(scene.d, phase.states), linking.states).files, scene.FirstRows(n)[k].target;
            !phase.threw && spot in end && end[spot] == content
  {
    hide SetIn, Scene.Found, Scene.Databases, Scene.Files, Scene.LinkRows, Scene.Rows, FilePhase, LinkPhase, Flat,
      Rooted, ClearedBy, Reaches, HasRoom, AllBelow;
    var rows, root, links := scene.FirstRows(n), scene.Root(), scene.LinkRows();
    GetsThrough(scene, versions, states, i, n);
    OpensInScene(scene, versions, states, i);
    FilesStay(scene.d, root, rows, links, scene.sha, k, content);
  }

  lemma FilesStay(d: Disk, root: Path, tasks: seq<Task>, links: seq<(Path, string)>, sha: bytes -> bytes, k: nat,
                  content: bytes)
    requires Rooted(d, root, root) && AllBelow(tasks, root) && HasRoom(d, tasks, root, root) && Flat(d, links)
    requires !FilePhase(d, tasks, sha).threw && k < |tasks| && tasks[k].Store?
    requires Placed(d, root, root, tasks, sha, k, content)
    requires forall l :: 0 <= l < |links| ==> links[l].0 != tasks[k].target
    ensures var (phase, linking) := WholeRun(d, tasks, links, sha);
            var end, spot := Last(Last(d, phase.states), linking.states).files, tasks[k].target;
            !phase.threw && spot in end && end[spot] == content
  {
    hide FilePhase, LinkPhase, Rooted, ClearedBy, Reaches, OutOfTheWay, FileOnTheWay, ClearWay;
    var mid, target := Last(d, FilePhase(d, tasks, sha).states), tasks[k].target;
    assert root + target[|root|..] == target;
    RoomStays(d, root, root, tasks, tasks[k], sha);
    LinkPhaseKeeps(mid, links, target);
    FlatLinksClear(mid, links, target);
    ReachedIsThere(mid, links, target);
  }

  lemma ReachedIsThere(d: Disk, links: seq<(Path, string)>, target: Path)
    requires forall l :: 0 <= l < |links| ==> links[l].0 != target
    ensures !Reaches(d, links, target)
  {
  }

  /** Every file of the snapshot is listed, and has a row that stores it exactly where that is selected and safe. */
  lemma FileIsListed(scene: Scene, versions: seq<C.Version>, states: seq<C.State>, snapshots: seq<C.Tree>, i: nat,
                     key: (bytes, bytes))
    returns (j: nat)
    requires SetIn(scene, versions, states, i) && C.RecordsAll(versions, snapshots) && |snapshots| == |states|
    requires Plain(scene.cwd) && key in snapshots[i]
    ensures scene.Found().Ok? && j < |scene.Files()| == |scene.Found().value.archive.index.files|
    ensures var line, row := scene.Found().value.archive.index.files[j], scene.Files()[j];
            && line.lnk.None? && (line.src, line.path) == key
            && row.src == scene.reader.text(key.0) && row.path == scene.reader.text(key.1)
    ensures |scene.Databases()| + j < |scene.Rows()|
    ensures scene.Rows()[|scene.Databases()| + j].Store? <==>
            Taken(scene.cwd, scene.outputDir, scene.patterns, scene.Files()[j])
    ensures scene.Rows()[|scene.Databases()| + j].Store? ==>
              scene.Rows()[|scene.Databases()| + j].target ==
              Resolve(scene.cwd, [scene.outputDir, scene.Files()[j].src, scene.Files()[j].path])
  {
    hide SetIn, C.OpenSnapshot, SourceOf, C.RecordsAll, C.History, C.Sound, C.HoldsDeps, DatabaseRows, Taken, Accepted,
      Resolve, DatabaseTask, Scene.Rows;
    OpensInScene(scene, versions, states, i);
    C.TreesAreSnapshots(scene.codec, versions, states, snapshots, i);
    ListedAt(scene.codec, states[i], key);
    var files := scene.Found().value.archive.index.files;
    j :| 0 <= j < |files| && files[j].lnk.None? && (files[j].src, files[j].path) == key;
    RowsInOrder(scene);
    FileRowExact(scene.cwd, scene.outputDir, scene.patterns, scene.Files()[j]);
  }

  lemma ListedAt(codec: A.Codec, s: C.State, key: (bytes, bytes))
    requires C.Inv(codec, s) && key in s.tree
    ensures s.lastName in s.folder && C.Lists(s.folder[s.lastName].index.files, key)
  {
    hide C.Sound, C.Lists;
  }

  // ------------------------------------------------------------------- links

  ghost predicate PlansLink(versions: seq<C.Version>, i: nat, l: nat) {
    i < |versions| && l < |versions[i].build.links|
  }

  /** Every link of the plan is listed, with its target's text. */
  lemma LinkIsListed(scene: Scene, versions: seq<C.Version>, states: seq<C.State>, i: nat, l: nat) returns (j: nat)
    requires SetIn(scene, versions, states, i) && PlansLink(versions, i, l)
    ensures scene.Found().Ok? && j < |scene.Files()|
    ensures var link, row := versions[i].build.links[l], scene.Files()[j];
            && row.src == scene.reader.text(link.src) && row.path == scene.reader.text(link.path)
            && row.lnk == Some(scene.reader.text(link.target))
  {
    hide SetIn, C.OpenSnapshot, SourceOf, A.CreateArchive, A.OwnFileLines, C.ValidBuild, C.History, C.HoldsDeps, C.Inv,
      A.Packs, DatabaseRows;
    OpensInScene(scene, versions, states, i);
    HistoryBuilds(scene.codec, versions, states, i);
    var v := versions[i];
    C.BuildPacks(scene.codec, v.build);
    A.LinesOfCreated(scene.codec, v.build, v.carriedFiles, v.carriedEntries);
    j := |A.OwnFileLines(v.build.planned, 1)| + l;
    assert scene.Found().value.archive.index.files[j] == A.LinkLines(v.build.links)[l];
  }

  /** No other link that is taken leads to the same path. */
  ghost predicate OnlyLinkThere(scene: Scene, j: nat)
    requires Plain(scene.cwd) && j < |scene.Files()|
  {
    forall m :: 0 <= m < |scene.Files()| && m != j && scene.Files()[m].lnk.Some?
                && Taken(scene.cwd, scene.outputDir, scene.patterns, scene.Files()[m]) ==>
                  Resolve(scene.cwd, [scene.outputDir, scene.Files()[m].src, scene.Files()[m].path]) !=
                  Resolve(scene.cwd, [scene.outputDir, scene.Files()[j].src, scene.Files()[j].path])
  }

  lemma TakenLinkRow(scene: Scene, j: nat)
    requires Plain(scene.cwd) && j < |scene.Files()| && scene.Files()[j].lnk.Some?
    requires Taken(scene.cwd, scene.outputDir, scene.patterns, scene.Files()[j]) && OnlyLinkThere(scene, j)
    ensures Latest(scene.LinkRows(), Resolve(scene.cwd, [scene.outputDir, scene.Files()[j].src, scene.Files()[j].path]))
            == Some(scene.Files()[j].lnk.value)
  {
    hide Scene.Files, Resolve, Taken, Links, Latest;
    var rows := LinkRowsInOrder(scene.cwd, scene.outputDir, scene.patterns, scene.Files());
    var links := scene.LinkRows();
    assert j in rows;
    var l :| 0 <= l < |rows| && rows[l] == j;
    forall m | l < m < |links| ensures links[m].0 != links[l].0 {
      assert rows[l] < rows[m];
    }
    LatestThere(links, l);
  }

  /** And once a run is through, each link of the plan that is taken, and is alone at its path, is there. */
  lemma LinksRestored(scene: Scene, versions: seq<C.Version>, states: seq<C.State>, i: nat, l: nat) returns (j: nat)
    requires SetIn(scene, versions, states, i) && PlansLink(versions, i, l) && Plain(scene.cwd)
    requires Rooted(scene.d, scene.Root(), scene.at) && AllBelow(scene.Rows(), scene.Root())
    requires Flat(scene.d, scene.LinkRows()) && !scene.Run().0.threw && !scene.Run().1.threw
    ensures j < |scene.Files()|
    ensures var row, (phase, linking) := scene.Files()[j], scene.Run();
            var links := Last(Last(scene.d, phase.states), linking.states).links;
            Taken(scene.cwd, scene.outputDir, scene.patterns, row) && OnlyLinkThere(scene, j) ==>
              var path := Resolve(scene.cwd, [scene.outputDir, row.src, row.path]);
              path in links && links[path] == scene.reader.text(versions[i].build.links[l].target)
  {
    hide SetIn, Scene.Found, Scene.Databases, Scene.Files, Scene.LinkRows, Scene.Rows, FilePhase, LinkPhase, Rooted,
      AllBelow, Taken, OnlyLinkThere, Resolve, Contained, Latest, Flat;
    j := LinkIsListed(scene, versions, states, i, l);
    OpensInScene(scene, versions, states, i);
    var row, states' := scene.Files()[j], FilePhase(scene.d, scene.Rows(), scene.sha).states;
    var mid := Last(scene.d, states');
    FilePhaseContained(scene.d, scene.Root(), scene.at, scene.Rows(), scene.sha);
    SelfContained(scene.d, scene.at);
    FlatElsewhere(scene.d, mid, scene.at, scene.LinkRows());
    if Taken(scene.cwd, scene.outputDir, scene.patterns, row) && OnlyLinkThere(scene, j) {
      TakenLinkRow(scene, j);
      LinksMade(mid, scene.LinkRows(), Resolve(scene.cwd, [scene.outputDir, row.src, row.path]));
    }
  }

  lemma FlatElsewhere(d: Disk, e: Disk, at: Path, links: seq<(Path, string)>)
    requires Flat(d, links) && Contained(d, e, at)
    ensures Flat(e, links)
  {
  }

  // ------------------------------------------------------------- empty entries

  /** A row whose entry has no bytes throws on any disk, so no run gets past it. */
  lemma {:induction false} EmptyEntryEndsRun(d: Disk, tasks: seq<Task>, sha: bytes -> bytes, k: nat)
    requires k < |tasks| && tasks[k].Store? && tasks[k].source.Streamed? && tasks[k].source.size == 0
    ensures FilePhase(d, tasks, sha).threw
    decreases |tasks|
  {
    hide StreamRun, BundleRun;
    if k == 0 {
      EmptyStreamThrows(d, tasks[0].target, tasks[0].source.delivery, tasks[0].expected, sha);
    } else if tasks[0].Skip? {
      EmptyEntryEndsRun(d, tasks[1..], sha, k - 1);
    } else {
      EmptyEntryEndsRun(Last(d, TaskRun(d, tasks[0], sha).1), tasks[1..], sha, k - 1);
    }
  }

  lemma EmptyStreamThrows(d: Disk, target: Path, delivery: Delivery, expected: Option<bytes>, sha: bytes -> bytes)
    ensures StreamRun(d, target, 0, delivery, expected, sha).0.Threw?
  {
  }

  /** The line of a file stored by itself. */
  lemma {:induction false} SingleLine(planned: seq<A.Planned>, ordinal: nat, k: nat) returns (j: nat)
    requires k < |planned| && planned[k].origin.Single?
    ensures j < |A.OwnFileLines(planned, ordinal)|
    ensures var part := planned[k].origin.part;
            A.OwnFileLines(planned, ordinal)[j] ==
            A.FileLine(part.src, part.path, Some(ordinal + k), None, None, None)
  {
    hide A.PartLines;
    if k == 0 {
      j := 0;
    } else {
      var j' := SingleLine(planned[1..], ordinal + 1, k - 1);
      j := |A.OwnFileLines(planned, ordinal)| - |A.OwnFileLines(planned[1..], ordinal + 1)| + j';
    }
  }

  /** An empty file that a clear archive stores as it is has an entry without bytes. */
  lemma EmptyEntry(codec: A.Codec, build: A.Build, files: seq<A.FileLine>, entries: seq<A.EntryLine>, k: nat)
    requires A.Packs(codec, build) && A.Carried(entries) && k < |build.planned| && build.secret == None
    requires build.planned[k].comp == None && build.planned[k].origin.Single?
    requires build.planned[k].origin.part.content == []
    ensures A.CreateArchive(codec, build, files, entries).Ok?
    ensures var own := A.CreateArchive(codec, build, files, entries).value.index.entries;
            && EntryKeys.EntryKey(None, k + 1) in own
            && !own[EntryKeys.EntryKey(None, k + 1)].bundle && own[EntryKeys.EntryKey(None, k + 1)].size == 0
  {
    hide EntryKeys.EntryKey, A.CreateArchive, A.OffsetByMember;
    A.OwnEntryFound(codec, build, files, entries, k);
    assert build.members[k].payload == A.Stored(codec, build.secret, k + 1, build.planned[k]) == [];
  }

  lemma StreamsOwnEntry(codec: A.Codec, reader: Reader, archive: A.ArchiveFile, chain: map<bytes, A.ArchiveFile>,
                        line: A.FileLine)
    requires line.n.Some? && line.a == None && EntryKeys.EntryKey(None, line.n.value) in archive.index.entries
    requires !archive.index.entries[EntryKeys.EntryKey(None, line.n.value)].bundle
    ensures var source := SourceOf(codec, reader, archive, chain, line);
            source.Streamed? && source.size == archive.index.entries[EntryKeys.EntryKey(None, line.n.value)].size
  {
    hide EntryKeys.EntryKey, A.DecodeEntry, DeliveryOf;
  }

  lemma EmptyFileRow(codec: A.Codec, reader: Reader, s: C.State, found: C.Snapshot, v: C.Version, k: nat)
    returns (j: nat)
    requires BuiltBy(codec, s, v) && FoundRight(s, found) && k < |v.build.planned| && v.build.secret == None
    requires v.build.planned[k].comp == None && v.build.planned[k].origin.Single?
    requires v.build.planned[k].origin.part.content == []
    ensures j < |found.archive.index.files|
    ensures var part, line := v.build.planned[k].origin.part, found.archive.index.files[j];
            (line.src, line.path) == (part.src, part.path) && line.lnk.None?
    ensures FileRows(codec, reader, found)[j].source.Streamed? && FileRows(codec, reader, found)[j].source.size == 0
  {
    hide EntryKeys.EntryKey, A.CreateArchive, C.ValidBuild, A.OwnFileLines, A.LinkLines, C.HoldsDeps, SourceOf,
      A.Packs, A.Carried, C.OwnLinesOf, A.EntryMap, A.DepsOf;
    var build, archive := v.build, found.archive;
    C.BuildPacks(codec, build);
    C.IndexOfCreated(codec, build, v.carriedFiles, v.carriedEntries);
    j := SingleLine(build.planned, 1, k);
    assert archive.index.files[j] == A.OwnFileLines(build.planned, 1)[j];
    EmptyEntry(codec, build, v.carriedFiles, v.carriedEntries, k);
    StreamsOwnEntry(codec, reader, archive, found.siblings.chain, archive.index.files[j]);
  }

  /**
   * Selecting such a file ends every extraction of its archive with an error, on any disk: the stream would
   * start past its own end.
   */
  lemma EmptyFileEndsRun(scene: Scene, versions: seq<C.Version>, states: seq<C.State>, i: nat, k: nat)
    returns (j: nat)
    requires SetIn(scene, versions, states, i) && Plain(scene.cwd)
    requires versions[i].build.secret == None && k < |versions[i].build.planned|
    requires versions[i].build.planned[k].comp == None && versions[i].build.planned[k].origin.Single?
    requires versions[i].build.planned[k].origin.part.content == []
    ensures scene.Found().Ok? && j < |scene.Found().value.archive.index.files| == |scene.Files()|
    ensures var part, line := versions[i].build.planned[k].origin.part, scene.Found().value.archive.index.files[j];
            (line.src, line.path) == (part.src, part.path)
    ensures Accepted(scene.cwd, scene.outputDir, scene.patterns, scene.Files()[j]) ==> scene.Run().0.threw
  {
    hide C.History, C.AllOpenRight, C.Inv, C.OpenSnapshot, FoundRight, BuiltBy, FilePhase, Resolve, SourceOf, Accepted,
      Tasks, LinkPhase, Links, DatabaseRows;
    OpensInScene(scene, versions, states, i);
    HistoryBuilds(scene.codec, versions, states, i);
    j := EmptyFileRow(scene.codec, scene.reader, states[i], scene.Found().value, versions[i], k);
    RowsInOrder(scene);
    if Accepted(scene.cwd, scene.outputDir, scene.patterns, scene.Files()[j]) {
      EmptyEntryEndsRun(scene.d, scene.Rows(), scene.sha, |scene.Databases()| + j);
    }
  }
}
