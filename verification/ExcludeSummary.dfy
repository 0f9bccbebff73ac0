/** What the exclude patterns kept out, grouped by the pattern responsible. */
module ExcludeSummary {
  import Prune

  datatype File = File(path: string, size: int)

  datatype Directory = Directory(path: string, pattern: string)

  datatype Bucket = Bucket(files: nat, bytes: int, samples: seq<string>, prunedSamples: seq<string>, prunedCount: nat)

  datatype Row = Row(pattern: string, bucket: Bucket)

  datatype Breakdown = Breakdown(totalFiles: nat, totalBytes: int, prunedDirectories: nat, byPattern: seq<Row>)

  const SAMPLES_PER_PATTERN := 5
  const UNKNOWN := "(unknown pattern)"
  const EMPTY := Bucket(0, 0, [], [], 0)

  type Matches = (string, string) -> bool

  function Active(patterns: seq<string>): seq<string> {
    if patterns == [] then []
    else (if Prune.IsBlank(patterns[0]) then [] else [patterns[0]]) + Active(patterns[1..])
  }

  /** The first pattern of the list that matches. */
  function Attribute(matches: Matches, path: string, active: seq<string>): string {
    if active == [] then UNKNOWN
    else if matches(path, active[0]) then active[0]
    else Attribute(matches, path, active[1..])
  }

  // ------------------------------------------------ what a bucket should hold

  function FilesFor(matches: Matches, active: seq<string>, p: string, excluded: seq<File>): seq<File> {
    if excluded == [] then []
    else
      var last := excluded[|excluded| - 1];
      FilesFor(matches, active, p, excluded[..|excluded| - 1])
      + (if Attribute(matches, last.path, active) == p then [last] else [])
  }

  function PrunedFor(p: string, pruned: seq<Directory>): seq<Directory> {
    if pruned == [] then []
    else
      var last := pruned[|pruned| - 1];
      PrunedFor(p, pruned[..|pruned| - 1]) + (if last.pattern == p then [last] else [])
  }

  function Sum(files: seq<File>): int {
    if files == [] then 0 else Sum(files[..|files| - 1]) + files[|files| - 1].size
  }

  function FirstOf(paths: seq<string>): seq<string> {
    if |paths| <= SAMPLES_PER_PATTERN then paths else paths[..SAMPLES_PER_PATTERN]
  }

  function BucketFor(matches: Matches, active: seq<string>, p: string, excluded: seq<File>,
                     pruned: seq<Directory>): Bucket
  {
    var files, directories := FilesFor(matches, active, p, excluded), PrunedFor(p, pruned);
    Bucket(|files|, Sum(files), FirstOf(seq(|files|, i requires 0 <= i < |files| => files[i].path)),
           FirstOf(seq(|directories|, i requires 0 <= i < |directories| => directories[i].path)), |directories|)
  }

  /** The patterns responsible, in the order they first turn up. */
  function Keys(matches: Matches, active: seq<string>, excluded: seq<File>, pruned: seq<Directory>): seq<string> {
    if pruned != [] then Add(Keys(matches, active, excluded, pruned[..|pruned| - 1]), pruned[|pruned| - 1].pattern)
    else if excluded != [] then
      Add(Keys(matches, active, excluded[..|excluded| - 1], []),
          Attribute(matches, excluded[|excluded| - 1].path, active))
    else []
  }

  function Add(keys: seq<string>, p: string): seq<string> {
    if p in keys then keys else keys + [p]
  }

  function Rows(keys: seq<string>, table: map<string, Bucket>): seq<Row>
    requires forall p :: p in keys ==> p in table
  {
    seq(|keys|, i requires 0 <= i < |keys| => Row(keys[i], table[keys[i]]))
  }

  // ------------------------------------------------------------- stable order

  /** More files first; with as many files, more pruned directories first. */
  predicate Ahead(a: Row, b: Row) {
    a.bucket.files > b.bucket.files
    || (a.bucket.files == b.bucket.files && a.bucket.prunedCount > b.bucket.prunedCount)
  }

  function Insert(row: Row, rows: seq<Row>): seq<Row> {
    if rows == [] || !Ahead(rows[0], row) then [row] + rows else [rows[0]] + Insert(row, rows[1..])
  }

  /** Sorting as the platform does it: rows that compare equal keep their order. */
  function Sorted(rows: seq<Row>): seq<Row> {
    if rows == [] then [] else Insert(rows[0], Sorted(rows[1..]))
  }

  function WithFile(bucket: Bucket, file: File): Bucket {
    bucket.(files := bucket.files + 1, bytes := bucket.bytes + file.size,
    samples := if |bucket.samples| < SAMPLES_PER_PATTERN then bucket.samples + [file.path] else bucket.samples)
  }

  function WithDirectory(bucket: Bucket, d: Directory): Bucket {
    bucket.(prunedCount := bucket.prunedCount + 1,
    prunedSamples := if |bucket.prunedSamples| < SAMPLES_PER_PATTERN then bucket.prunedSamples + [d.path]
                     else bucket.prunedSamples)
  }

  /** The map of buckets, with its keys in insertion order. */
  class Buckets {
    var keys: seq<string>
    var table: map<string, Bucket>

    ghost predicate Valid()
      reads this
    {
      forall p :: p in keys <==> p in table
    }

    constructor ()
      ensures Valid() && keys == [] && table == map[]
    {
      keys, table := [], map[];
    }

    method BucketOf(p: string) returns (bucket: Bucket)
      requires Valid()
      modifies this
      ensures Valid() && keys == Add(old(keys), p)
      ensures bucket == (if p in old(table) then old(table)[p] else EMPTY) && table == old(table)[p := bucket]
    {
      if p !in table {
        keys, table := keys + [p], table[p := EMPTY];
      }
      bucket := table[p];
    }

    method CountFile(p: string, file: File)
      requires Valid()
      modifies this
      ensures Valid() && keys == Add(old(keys), p)
      ensures table == old(table)[p := WithFile(if p in old(table) then old(table)[p] else EMPTY, file)]
    {
      var bucket := BucketOf(p);
      table := table[p := WithFile(bucket, file)];
    }

    method CountDirectory(directory: Directory)
      requires Valid()
      modifies this
      ensures Valid() && keys == Add(old(keys), directory.pattern)
      ensures var p := directory.pattern;
              table == old(table)[p := WithDirectory(if p in old(table) then old(table)[p] else EMPTY, directory)]
    {
      var bucket := BucketOf(directory.pattern);
      table := table[directory.pattern := WithDirectory(bucket, directory)];
    }
  }

  /** The table holds, for each key so far, just what belongs to it. */
  ghost predicate Counted(matches: Matches, active: seq<string>, excluded: seq<File>, pruned: seq<Directory>,
                          keys: seq<string>, table: map<string, Bucket>) {
    && keys == Keys(matches, active, excluded, pruned)
    && (forall p :: p in keys <==> p in table)
    && (forall p :: p in table ==> table[p] == BucketFor(matches, active, p, excluded, pruned))
  }

  method SummariseExcluded(matches: Matches, excluded: seq<File>, patterns: seq<string>, pruned: seq<Directory>)
    returns (b: Breakdown)
    ensures b == Summary(matches, excluded, patterns, pruned)
  {
    hide Sorted, Keys, Counted, WithFile, WithDirectory;
    var active := Active(patterns);
    var buckets := new Buckets();
    var totalBytes := 0;
    NothingCounted(matches, active);
    for i := 0 to |excluded|
      invariant buckets.Valid() && totalBytes == Sum(excluded[..i])
      invariant Counted(matches, active, excluded[..i], [], buckets.keys, buckets.table)
    {
      var file := excluded[i];
      assert excluded[..i + 1] == excluded[..i] + [file];
      assert excluded[..i + 1][..i] == excluded[..i];
      totalBytes := totalBytes + file.size;
      OneMoreFile(matches, active, excluded[..i], file, buckets.keys, buckets.table);
      buckets.CountFile(Attribute(matches, file.path, active), file);
    }
    assert excluded[..|excluded|] == excluded;
    for j := 0 to |pruned|
      invariant buckets.Valid() && Counted(matches, active, excluded, pruned[..j], buckets.keys, buckets.table)
    {
      assert pruned[..j + 1] == pruned[..j] + [pruned[j]];
      OneMoreDirectory(matches, active, excluded, pruned[..j], pruned[j], buckets.keys, buckets.table);
      buckets.CountDirectory(pruned[j]);
    }
    assert pruned[..|pruned|] == pruned;
    CountedRows(matches, active, excluded, pruned, buckets.keys, buckets.table);
    b := Breakdown(|excluded|, totalBytes, |pruned|, Sorted(Rows(buckets.keys, buckets.table)));
  }

  lemma CountedRows(matches: Matches, active: seq<string>, excluded: seq<File>, pruned: seq<Directory>,
                    keys: seq<string>, table: map<string, Bucket>)
    requires Counted(matches, active, excluded, pruned, keys, table)
    ensures (forall p :: p in keys ==> p in table) && Rows(keys, table) == Unsorted(matches, active, excluded, pruned)
  {
    hide Keys, BucketFor;
  }

  ghost function Summary(matches: Matches, excluded: seq<File>, patterns: seq<string>, pruned: seq<Directory>)
    : Breakdown
  {
    Breakdown(|excluded|, Sum(excluded), |pruned|, Sorted(Unsorted(matches, Active(patterns), excluded, pruned)))
  }

  ghost function Unsorted(matches: Matches, active: seq<string>, excluded: seq<File>, pruned: seq<Directory>)
    : seq<Row>
  {
    var keys := Keys(matches, active, excluded, pruned);
    seq(|keys|, i requires 0 <= i < |keys| => Row(keys[i], BucketFor(matches, active, keys[i], excluded, pruned)))
  }

  // ------------------------------------------------------------ one more item

  lemma NothingCounted(matches: Matches, active: seq<string>)
    ensures Counted(matches, active, [], [], [], map[])
  {
  }

  lemma OneMoreFile(matches: Matches, active: seq<string>, excluded: seq<File>, file: File,
                    keys: seq<string>, table: map<string, Bucket>)
    requires Counted(matches, active, excluded, [], keys, table)
    ensures var p := Attribute(matches, file.path, active);
            var bucket := if p in table then table[p] else EMPTY;
            Counted(matches, active, excluded + [file], [], Add(keys, p), table[p := WithFile(bucket, file)])
  {
    hide BucketFor, Attribute;
    var p, more := Attribute(matches, file.path, active), excluded + [file];
    assert more[..|more| - 1] == excluded;
    if p !in table {
      AbsentMeansEmpty(matches, active, excluded, [], p);
    }
    forall q ensures BucketFor(matches, active, q, more, [])
                  == if q == p then WithFile(BucketFor(matches, active, q, excluded, []), file)
                     else BucketFor(matches, active, q, excluded, [])
    {
      FileJoinsBucket(matches, active, excluded, file, q);
    }
  }

  lemma FileJoinsBucket(matches: Matches, active: seq<string>, excluded: seq<File>, file: File, q: string)
    ensures BucketFor(matches, active, q, excluded + [file], [])
         == if q == Attribute(matches, file.path, active)
            then WithFile(BucketFor(matches, active, q, excluded, []), file)
            else BucketFor(matches, active, q, excluded, [])
  {
    var more := excluded + [file];
    assert more[..|more| - 1] == excluded;
    if q == Attribute(matches, file.path, active) {
      var files := FilesFor(matches, active, q, excluded);
      assert (files + [file])[..|files|] == files;
    } else {
      assert FilesFor(matches, active, q, excluded) + [] == FilesFor(matches, active, q, excluded);
    }
  }

  lemma OneMoreDirectory(matches: Matches, active: seq<string>, excluded: seq<File>, pruned: seq<Directory>,
                         d: Directory, keys: seq<string>, table: map<string, Bucket>)
    requires Counted(matches, active, excluded, pruned, keys, table)
    ensures var bucket := if d.pattern in table then table[d.pattern] else EMPTY;
            Counted(matches, active, excluded, pruned + [d], Add(keys, d.pattern),
                    table[d.pattern := WithDirectory(bucket, d)])
  {
    hide BucketFor, Attribute;
    var more := pruned + [d];
    assert more[..|more| - 1] == pruned;
    if d.pattern !in table {
      AbsentMeansEmpty(matches, active, excluded, pruned, d.pattern);
    }
    forall q ensures BucketFor(matches, active, q, excluded, more)
                  == if q == d.pattern then WithDirectory(BucketFor(matches, active, q, excluded, pruned), d)
                     else BucketFor(matches, active, q, excluded, pruned)
    {
      DirectoryJoinsBucket(matches, active, excluded, pruned, d, q);
    }
  }

  lemma DirectoryJoinsBucket(matches: Matches, active: seq<string>, excluded: seq<File>, pruned: seq<Directory>,
                             d: Directory, q: string)
    ensures BucketFor(matches, active, q, excluded, pruned + [d])
         == if q == d.pattern then WithDirectory(BucketFor(matches, active, q, excluded, pruned), d)
            else BucketFor(matches, active, q, excluded, pruned)
  {
    var more := pruned + [d];
    assert more[..|more| - 1] == pruned;
    if q != d.pattern {
      assert PrunedFor(q, pruned) + [] == PrunedFor(q, pruned);
    }
  }

  lemma {:induction false} AbsentMeansEmpty(matches: Matches, active: seq<string>, excluded: seq<File>,
                                            pruned: seq<Directory>, p: string)
    requires p !in Keys(matches, active, excluded, pruned)
    ensures FilesFor(matches, active, p, excluded) == [] && PrunedFor(p, pruned) == []
    ensures BucketFor(matches, active, p, excluded, pruned) == EMPTY
    decreases |excluded| + |pruned|
  {
    hide Attribute;
    if pruned != [] {
      AbsentMeansEmpty(matches, active, excluded, pruned[..|pruned| - 1], p);
    } else if excluded != [] {
      AbsentMeansEmpty(matches, active, excluded[..|excluded| - 1], [], p);
    }
  }

  // -------------------------------------------------------------- conservation

  function Total(rows: seq<Row>, g: Row -> int): int {
    if rows == [] then 0 else g(rows[0]) + Total(rows[1..], g)
  }

  predicate Distinct(keys: seq<string>) {
    forall i, j :: 0 <= i < j < |keys| ==> keys[i] != keys[j]
  }

  lemma {:induction false} KeysSound(matches: Matches, active: seq<string>, excluded: seq<File>, pruned: seq<Directory>)
    ensures Distinct(Keys(matches, active, excluded, pruned))
    ensures forall f :: f in excluded ==> Attribute(matches, f.path, active) in Keys(matches, active, excluded, pruned)
    ensures forall d :: d in pruned ==> d.pattern in Keys(matches, active, excluded, pruned)
    decreases |excluded| + |pruned|
  {
    if pruned != [] {
      KeysSound(matches, active, excluded, pruned[..|pruned| - 1]);
      assert pruned == pruned[..|pruned| - 1] + [pruned[|pruned| - 1]];
    } else if excluded != [] {
      KeysSound(matches, active, excluded[..|excluded| - 1], []);
      assert excluded == excluded[..|excluded| - 1] + [excluded[|excluded| - 1]];
    }
  }

  function Over(keys: seq<string>, g: string -> int): int {
    if keys == [] then 0 else g(keys[0]) + Over(keys[1..], g)
  }

  /** Changing what one key contributes changes the sum by as much, once. */
  lemma {:induction false} OneKeyMore(keys: seq<string>, g: string -> int, h: string -> int, p: string, more: int)
    requires Distinct(keys) && forall q :: q in keys ==> h(q) == g(q) + if q == p then more else 0
    ensures Over(keys, h) == Over(keys, g) + if p in keys then more else 0
    decreases |keys|
  {
    if keys != [] {
      assert keys == [keys[0]] + keys[1..];
      assert forall q :: q in keys[1..] ==> q in keys;
      OneKeyMore(keys[1..], g, h, p, more);
    }
  }

  lemma {:induction false} NothingOver(keys: seq<string>, g: string -> int)
    requires forall q :: q in keys ==> g(q) == 0
    ensures Over(keys, g) == 0
    decreases |keys|
  {
    if keys != [] {
      assert forall q :: q in keys[1..] ==> q in keys;
      NothingOver(keys[1..], g);
    }
  }

  lemma {:induction false} FilesAddUp(matches: Matches, active: seq<string>, excluded: seq<File>, keys: seq<string>,
                                      count: string -> int, bytes: string -> int)
    requires Distinct(keys) && forall f :: f in excluded ==> Attribute(matches, f.path, active) in keys
    requires forall p :: count(p) == |FilesFor(matches, active, p, excluded)|
    requires forall p :: bytes(p) == Sum(FilesFor(matches, active, p, excluded))
    ensures Over(keys, count) == |excluded| && Over(keys, bytes) == Sum(excluded)
    decreases |excluded|
  {
    hide Attribute, Distinct, Over;
    if excluded == [] {
      NothingOver(keys, count);
      NothingOver(keys, bytes);
    } else {
      hide FilesFor;
      var fewer, last := excluded[..|excluded| - 1], excluded[|excluded| - 1];
      var p := Attribute(matches, last.path, active);
      var countFewer := q => |FilesFor(matches, active, q, fewer)|;
      var bytesFewer := q => Sum(FilesFor(matches, active, q, fewer));
      assert last in excluded && forall f :: f in fewer ==> f in excluded;
      FilesAddUp(matches, active, fewer, keys, countFewer, bytesFewer);
      forall q ensures count(q) == countFewer(q) + (if q == p then 1 else 0)
               ensures bytes(q) == bytesFewer(q) + (if q == p then last.size else 0)
      {
        LastFileCounts(matches, active, q, excluded);
      }
      OneKeyMore(keys, countFewer, count, p, 1);
      OneKeyMore(keys, bytesFewer, bytes, p, last.size);
    }
  }

  lemma LastFileCounts(matches: Matches, active: seq<string>, q: string, excluded: seq<File>)
    requires excluded != []
    ensures var fewer, last := excluded[..|excluded| - 1], excluded[|excluded| - 1];
            var mine := Attribute(matches, last.path, active) == q;
            var before, after := FilesFor(matches, active, q, fewer), FilesFor(matches, active, q, excluded);
            && |after| == |before| + (if mine then 1 else 0)
            && Sum(after) == Sum(before) + (if mine then last.size else 0)
  {
    var before := FilesFor(matches, active, q, excluded[..|excluded| - 1]);
    assert (before + [excluded[|excluded| - 1]])[..|before|] == before && before + [] == before;
  }

  lemma {:induction false} PrunedAddUp(pruned: seq<Directory>, keys: seq<string>, count: string -> int)
    requires Distinct(keys) && forall d :: d in pruned ==> d.pattern in keys
    requires forall p :: count(p) == |PrunedFor(p, pruned)|
    ensures Over(keys, count) == |pruned|
    decreases |pruned|
  {
    if pruned == [] {
      NothingOver(keys, count);
    } else {
      var fewer, last := pruned[..|pruned| - 1], pruned[|pruned| - 1];
      var countFewer := q => |PrunedFor(q, fewer)|;
      assert last in pruned && forall d :: d in fewer ==> d in pruned;
      PrunedAddUp(fewer, keys, countFewer);
      OneKeyMore(keys, countFewer, count, last.pattern, 1);
    }
  }

  lemma {:induction false} InsertTotal(row: Row, rows: seq<Row>, g: Row -> int)
    ensures Total(Insert(row, rows), g) == g(row) + Total(rows, g)
    decreases |rows|
  {
    if rows == [] || !Ahead(rows[0], row) {
      assert ([row] + rows)[1..] == rows;
    } else {
      InsertTotal(row, rows[1..], g);
      assert ([rows[0]] + Insert(row, rows[1..]))[1..] == Insert(row, rows[1..]);
    }
  }

  lemma {:induction false} SortKeepsTotal(rows: seq<Row>, g: Row -> int)
    ensures Total(Sorted(rows), g) == Total(rows, g)
    decreases |rows|
  {
    if rows != [] {
      SortKeepsTotal(rows[1..], g);
      InsertTotal(rows[0], Sorted(rows[1..]), g);
    }
  }

  lemma {:induction false} TotalOverKeys(keys: seq<string>, rows: seq<Row>, g: Row -> int, h: string -> int)
    requires |rows| == |keys| && forall i :: 0 <= i < |keys| ==> g(rows[i]) == h(keys[i])
    ensures Total(rows, g) == Over(keys, h)
    decreases |keys|
  {
    if keys != [] {
      TotalOverKeys(keys[1..], rows[1..], g, h);
    }
  }

  function FilesOf(row: Row): int { row.bucket.files }
  function BytesOf(row: Row): int { row.bucket.bytes }
  function PrunedOf(row: Row): int { row.bucket.prunedCount }

  /** The figures per pattern add up to the totals: no file, byte or directory is lost or counted twice. */
  lemma SummaryConserves(matches: Matches, excluded: seq<File>, patterns: seq<string>, pruned: seq<Directory>)
    ensures var b := Summary(matches, excluded, patterns, pruned);
            && Total(b.byPattern, FilesOf) == b.totalFiles == |excluded|
            && Total(b.byPattern, BytesOf) == b.totalBytes == Sum(excluded)
            && Total(b.byPattern, PrunedOf) == b.prunedDirectories == |pruned|
  {
    hide Keys, Sorted, FilesFor, PrunedFor;
    var active := Active(patterns);
    var keys, rows := Keys(matches, active, excluded, pruned), Unsorted(matches, active, excluded, pruned);
    var files, bytes := p => |FilesFor(matches, active, p, excluded)|, p => Sum(FilesFor(matches, active, p, excluded));
    var directories := p => |PrunedFor(p, pruned)|;
    KeysSound(matches, active, excluded, pruned);
    FilesAddUp(matches, active, excluded, keys, files, bytes);
    PrunedAddUp(pruned, keys, directories);
    SortKeepsTotal(rows, FilesOf);
    SortKeepsTotal(rows, BytesOf);
    SortKeepsTotal(rows, PrunedOf);
    TotalOverKeys(keys, rows, FilesOf, files);
    TotalOverKeys(keys, rows, BytesOf, bytes);
    TotalOverKeys(keys, rows, PrunedOf, directories);
  }

  // ---------------------------------------------------- order, and attribution

  predicate InOrder(rows: seq<Row>) {
    forall i, j :: 0 <= i < j < |rows| ==> !Ahead(rows[j], rows[i])
  }

  function Level(rows: seq<Row>, files: nat, prunedCount: nat): seq<Row> {
    if rows == [] then []
    else
      (if rows[0].bucket.files == files && rows[0].bucket.prunedCount == prunedCount then [rows[0]] else [])
      + Level(rows[1..], files, prunedCount)
  }

  lemma {:induction false} InsertInOrder(row: Row, rows: seq<Row>)
    requires InOrder(rows)
    ensures InOrder(Insert(row, rows)) && multiset(Insert(row, rows)) == multiset(rows) + multiset{row}
    decreases |rows|
  {
    if rows != [] && Ahead(rows[0], row) {
      assert rows == [rows[0]] + rows[1..];
      InsertInOrder(row, rows[1..]);
      var rest := Insert(row, rows[1..]);
      forall r | r in rest ensures !Ahead(r, rows[0]) {
        assert r in multiset(rest);
        assert r == row || r in rows[1..];
      }
    }
  }

  lemma {:induction false} InsertKeepsLevels(row: Row, rows: seq<Row>, files: nat, prunedCount: nat)
    requires InOrder(rows)
    ensures Level(Insert(row, rows), files, prunedCount) == Level([row] + rows, files, prunedCount)
    decreases |rows|
  {
    assert ([row] + rows)[1..] == rows;
    if rows != [] && Ahead(rows[0], row) {
      InsertKeepsLevels(row, rows[1..], files, prunedCount);
      assert ([row] + rows[1..])[1..] == rows[1..];
      assert ([rows[0]] + Insert(row, rows[1..]))[1..] == Insert(row, rows[1..]);
    }
  }

  /**
   * Most files first, and of those with as many files, most pruned directories first; ties stay in order, and
   * no row is added or lost.
   */
  lemma SortedIsStable(rows: seq<Row>)
    ensures var sorted := Sorted(rows);
            forall i, j :: 0 <= i < j < |sorted| ==>
              var a, b := sorted[i].bucket, sorted[j].bucket;
              a.files > b.files || (a.files == b.files && a.prunedCount >= b.prunedCount)
    ensures multiset(Sorted(rows)) == multiset(rows)
    ensures forall files, prunedCount :: Level(Sorted(rows), files, prunedCount) == Level(rows, files, prunedCount)
  {
    hide Sorted, Level;
    SortedStably(rows);
  }

  lemma {:induction false} SortedStably(rows: seq<Row>)
    ensures InOrder(Sorted(rows)) && multiset(Sorted(rows)) == multiset(rows)
    ensures forall files, prunedCount :: Level(Sorted(rows), files, prunedCount) == Level(rows, files, prunedCount)
    decreases |rows|
  {
    if rows != [] {
      SortedStably(rows[1..]);
      assert rows == [rows[0]] + rows[1..];
      InsertInOrder(rows[0], Sorted(rows[1..]));
      forall files, prunedCount ensures Level(Sorted(rows), files, prunedCount) == Level(rows, files, prunedCount) {
        InsertKeepsLevels(rows[0], Sorted(rows[1..]), files, prunedCount);
        assert ([rows[0]] + Sorted(rows[1..]))[1..] == Sorted(rows[1..]);
      }
    }
  }

  /** The pattern is one the summary looks at, and matches. */
  predicate Takes(matches: Matches, path: string, pattern: string) {
    !Prune.IsBlank(pattern) && matches(path, pattern)
  }

  /** Each file counts under the first pattern of the list, blank ones aside, that matches it; else as unknown. */
  lemma {:induction false} FirstMatchWins(matches: Matches, patterns: seq<string>, path: string, k: nat)
    requires k <= |patterns| && forall i :: 0 <= i < k ==> !Takes(matches, path, patterns[i])
    requires k < |patterns| ==> Takes(matches, path, patterns[k])
    ensures Attribute(matches, path, Active(patterns)) == if k < |patterns| then patterns[k] else "(unknown pattern)"
    decreases k
  {
    if k > 0 {
      FirstMatchWins(matches, patterns[1..], path, k - 1);
      var later := Active(patterns[1..]);
      assert !Takes(matches, path, patterns[0]) && [] + later == later && ([patterns[0]] + later)[1..] == later;
    }
  }

  lemma {:induction false} SumInTwo(a: seq<File>, b: seq<File>)
    ensures Sum(a + b) == Sum(a) + Sum(b)
    decreases |b|
  {
    if b == [] {
      assert a + b == a;
    } else {
      assert (a + b)[..|a + b| - 1] == a + b[..|b| - 1];
      SumInTwo(a, b[..|b| - 1]);
    }
  }

  lemma {:induction false} FilesInTwo(matches: Matches, active: seq<string>, p: string, a: seq<File>, b: seq<File>)
    ensures FilesFor(matches, active, p, a + b) == FilesFor(matches, active, p, a) + FilesFor(matches, active, p, b)
    decreases |b|
  {
    if b == [] {
      assert a + b == a;
    } else {
      assert (a + b)[..|a + b| - 1] == a + b[..|b| - 1];
      FilesInTwo(matches, active, p, a, b[..|b| - 1]);
    }
  }

  /** A bucket counts every file attributed to its pattern once, with its size, and no other file. */
  lemma BucketAddsUp(matches: Matches, active: seq<string>, p: string, a: seq<File>, b: seq<File>, f: File,
                     pruned: seq<Directory>)
    ensures var bucket := BucketFor(matches, active, p, a + [f] + b, pruned);
            var without := BucketFor(matches, active, p, a + b, pruned);
            && bucket.files == without.files + (if Attribute(matches, f.path, active) == p then 1 else 0)
            && bucket.bytes == without.bytes + (if Attribute(matches, f.path, active) == p then f.size else 0)
    ensures BucketFor(matches, active, p, [], pruned).files == BucketFor(matches, active, p, [], pruned).bytes == 0
  {
    hide Attribute;
    FilesInTwo(matches, active, p, a + [f], b);
    FilesInTwo(matches, active, p, a, [f]);
    FilesInTwo(matches, active, p, a, b);
    var one, two := FilesFor(matches, active, p, a), FilesFor(matches, active, p, b);
    var own := FilesFor(matches, active, p, [f]);
    assert [f][..0] == [] && own == if Attribute(matches, f.path, active) == p then [f] else [];
    SumInTwo(one + own, two);
    SumInTwo(one, own);
    SumInTwo(one, two);
    assert Sum([f]) == f.size && Sum([]) == 0;
  }

  lemma {:induction false} PrunedExact(p: string, pruned: seq<Directory>)
    ensures forall d :: d in PrunedFor(p, pruned) <==> d in pruned && d.pattern == p
    decreases |pruned|
  {
    if pruned != [] {
      var fewer := pruned[..|pruned| - 1];
      PrunedExact(p, fewer);
      assert pruned == fewer + [pruned[|pruned| - 1]];
    }
  }

  /**
   * The bucket of a pattern holds exactly the files attributed to it, in order; its examples are the
   * first five of them or all, and the number announced as not shown makes up the difference.
   */
  lemma BucketHolds(matches: Matches, active: seq<string>, p: string, excluded: seq<File>, pruned: seq<Directory>)
    ensures var bucket := BucketFor(matches, active, p, excluded, pruned);
            var files, directories := FilesFor(matches, active, p, excluded), PrunedFor(p, pruned);
            && (forall f :: f in files <==> f in excluded && Attribute(matches, f.path, active) == p)
            && (forall d :: d in directories <==> d in pruned && d.pattern == p)
            && bucket.files == |files| && bucket.prunedCount == |directories|
            && |bucket.samples| == (if bucket.files < 5 then bucket.files else 5)
            && (forall i :: 0 <= i < |bucket.samples| ==> bucket.samples[i] == files[i].path)
            && |bucket.prunedSamples| == (if bucket.prunedCount < 5 then bucket.prunedCount else 5)
            && (forall i :: 0 <= i < |bucket.prunedSamples| ==> bucket.prunedSamples[i] == directories[i].path)
  {
    hide Attribute;
    FilesExact(matches, active, p, excluded);
    PrunedExact(p, pruned);
  }

  lemma {:induction false} FilesExact(matches: Matches, active: seq<string>, p: string, excluded: seq<File>)
    ensures forall f :: f in FilesFor(matches, active, p, excluded) <==>
                        f in excluded && Attribute(matches, f.path, active) == p
    decreases |excluded|
  {
    if excluded != [] {
      var fewer := excluded[..|excluded| - 1];
      FilesExact(matches, active, p, fewer);
      assert excluded == fewer + [excluded[|excluded| - 1]];
    }
  }

  // ------------------------------------------------------- the order of rows

  /** Who is responsible, item by item: for each excluded file, and then for each pruned directory. */
  function Responsible(matches: Matches, active: seq<string>, excluded: seq<File>, pruned: seq<Directory>)
    : seq<string>
  {
    seq(|excluded|, i requires 0 <= i < |excluded| => Attribute(matches, excluded[i].path, active))
    + seq(|pruned|, i requires 0 <= i < |pruned| => pruned[i].pattern)
  }

  /** Each pattern in a list once, where it first turns up. */
  ghost predicate FirstSeenOrder(keys: seq<string>, names: seq<string>) {
    && (forall p :: p in keys <==> p in names)
    && (forall i, j :: 0 <= i < j < |keys| ==> SeenBefore(keys[i], keys[j], names))
  }

  /** The first name has turned up at some point where the second has not yet. */
  predicate SeenBefore(p: string, q: string, names: seq<string>) {
    exists x :: 0 <= x < |names| && names[x] == p && q !in names[..x + 1]
  }

  lemma AddInOrder(keys: seq<string>, names: seq<string>, p: string)
    requires FirstSeenOrder(keys, names)
    ensures FirstSeenOrder(Add(keys, p), names + [p])
  {
    var more, next := names + [p], Add(keys, p);
    forall i, j | 0 <= i < j < |next| ensures SeenBefore(next[i], next[j], more) {
      if j < |keys| {
        assert SeenBefore(keys[i], keys[j], names);
        var x :| 0 <= x < |names| && names[x] == keys[i] && keys[j] !in names[..x + 1];
        assert more[..x + 1] == names[..x + 1] && more[x] == names[x];
      } else {
        assert keys[i] in names;
        var x :| 0 <= x < |names| && names[x] == keys[i];
        assert more[..x + 1] == names[..x + 1] && more[x] == names[x];
        assert forall q :: q in names[..x + 1] ==> q in names;
      }
    }
  }

  /** Before sorting, the rows stand in the order in which their patterns first turn up, each pattern once. */
  lemma {:induction false} KeysInOrder(matches: Matches, active: seq<string>, excluded: seq<File>,
                                       pruned: seq<Directory>)
    ensures FirstSeenOrder(Keys(matches, active, excluded, pruned), Responsible(matches, active, excluded, pruned))
    decreases |excluded| + |pruned|
  {
    hide FirstSeenOrder, Add, Attribute;
    var names := Responsible(matches, active, excluded, pruned);
    if pruned != [] {
      var fewer, last := pruned[..|pruned| - 1], pruned[|pruned| - 1];
      KeysInOrder(matches, active, excluded, fewer);
      AddInOrder(Keys(matches, active, excluded, fewer), Responsible(matches, active, excluded, fewer), last.pattern);
      assert names == Responsible(matches, active, excluded, fewer) + [last.pattern];
    } else if excluded != [] {
      var fewer, last := excluded[..|excluded| - 1], excluded[|excluded| - 1];
      KeysInOrder(matches, active, fewer, []);
      var p := Attribute(matches, last.path, active);
      AddInOrder(Keys(matches, active, fewer, []), Responsible(matches, active, fewer, []), p);
      assert names == Responsible(matches, active, fewer, []) + [p];
    } else {
      NoneSeen();
    }
  }

  lemma NoneSeen()
    ensures FirstSeenOrder([], [])
  {
  }
}
