/** One archive: what the writer stores, what the index says about it, and how an entry is read back. */
module Archive {
  import opened Bytes
  import opened TarNumeric
  import opened TarWalk
  import opened TarWriter
  import opened EntryKeys
  import opened PaxNames

  datatype Compression = Gzip | Brotli

  datatype Part = Part(src: bytes, path: bytes, content: bytes)

  /** What one physical entry holds: a dump, one file, or a bundle of small files. */
  datatype Origin = Database(dbName: bytes, dump: bytes) | Single(part: Part) | Bundle(parts: seq<Part>)

  datatype Planned = Planned(member: bytes, comp: Option<Compression>, origin: Origin)

  datatype Link = Link(src: bytes, path: bytes, target: bytes)

  datatype EntryLine = EntryLine(
    n: nat, a: Option<bytes>, off: nat, size: nat, isSealed: bool, comp: Option<Compression>, bundle: bool)

  /** A file or a symbolic link. A link has a target and no ordinal; a bundled file has a byte range. */
  datatype FileLine = FileLine(
    src: bytes, path: bytes, n: Option<nat>, a: Option<bytes>, slice: Option<(nat, nat)>, lnk: Option<bytes>)

  datatype Index = Index(
    entries: map<bytes, EntryLine>, databases: seq<(bytes, nat)>, files: seq<FileLine>, deps: seq<bytes>)

  datatype ArchiveFile = ArchiveFile(file: bytes, secret: Option<bytes>, index: Index)

  /**
   * Ciphers, compressors and the two serialised members, kept as parameters. A secret is one archive's data
   * key and nonce prefix. Reading a manifest gives the secret it leads to with the key at hand, if any, or
   * nothing where it is no version-2 manifest or the key is missing.
   */
  datatype Codec = Codec(
    compress: (Compression, bytes) -> bytes,
    decompress: (Compression, bytes) -> Option<bytes>,
    seal: (bytes, nat, bytes) -> bytes,
    open: (bytes, nat, bytes) -> Option<bytes>,
    readManifest: bytes -> Option<Option<bytes>>,
    writeIndex: (Option<bytes>, Index) -> bytes,
    readIndex: (Option<bytes>, bytes) -> Option<Index>)
  {
    ghost predicate Lawful() {
      && (forall kind, plain :: decompress(kind, compress(kind, plain)) == Some(plain))
      && (forall secret, ordinal, plain :: open(secret, ordinal, seal(secret, ordinal, plain)) == Some(plain))
      && (forall secret, index :: readIndex(secret, writeIndex(secret, index)) == Some(index))
    }
  }

  datatype ReadError =
    | MissingArchive
    | MissingEntry
    | NoManifest
    | NoKey
    | Authentication
    | Corrupt
    | Inconsistent
    | NoOrdinal

  // ----------------------------------------------------------------- writing

  /** Everything the writer is given: the plan, and the TAR records it comes out as. */
  datatype Build = Build(
    secret: Option<bytes>,
    planned: seq<Planned>,
    links: seq<Link>,
    manifest: Item,
    members: seq<Item>,
    linkMembers: seq<Item>,
    indexRecord: bytes)
  {
    function Items(): seq<Item> {
      [manifest] + members + linkMembers
    }
  }

  function Contents(parts: seq<Part>): seq<bytes> {
    seq(|parts|, i requires 0 <= i < |parts| => parts[i].content)
  }

  function Plain(origin: Origin): bytes {
    match origin
    case Database(_, dump) => dump
    case Single(part) => part.content
    case Bundle(parts) => Concat(Contents(parts))
  }

  /** Compress, then seal. */
  function Stored(codec: Codec, secret: Option<bytes>, ordinal: nat, planned: Planned): bytes {
    var plain := Plain(planned.origin);
    var packed := if planned.comp.Some? then codec.compress(planned.comp.value, plain) else plain;
    if secret.Some? then codec.seal(secret.value, ordinal, packed) else packed
  }

  /** An entry with nothing but a name gets a pax header with nothing but its path, and the right length. */
  predicate PathOnly(naming: Naming) {
    naming.Pax? ==> naming.before == naming.rest == [] && SaysItsLength(naming.digits, naming.path)
  }

  /** The TAR records carry the planned names and the stored bytes, in plan order. */
  ghost predicate Packs(codec: Codec, build: Build) {
    && AllValid(build.Items())
    && |build.members| == |build.planned|
    && forall i :: 0 <= i < |build.planned| ==>
         && build.members[i].naming.FullName() == build.planned[i].member && PathOnly(build.members[i].naming)
         && build.members[i].payload == Stored(codec, build.secret, i + 1, build.planned[i])
  }

  /** Offsets by member name. A name that occurs twice keeps the later offset. */
  function OffsetByMember(members: seq<Member>): map<bytes, nat> {
    if members == [] then map[]
    else
      var last := members[|members| - 1];
      OffsetByMember(members[..|members| - 1])[last.name := last.offset]
  }

  function PartLines(parts: seq<Part>, ordinal: nat, offset: nat): (lines: seq<FileLine>)
    ensures |lines| == |parts|
  {
    if parts == [] then []
    else
      var p := parts[0];
      [FileLine(p.src, p.path, Some(ordinal), None, Some((offset, |p.content|)), None)]
      + PartLines(parts[1..], ordinal, offset + |p.content|)
  }

  function OwnFileLines(planned: seq<Planned>, ordinal: nat): seq<FileLine> {
    if planned == [] then []
    else
      (match planned[0].origin
       case Database(_, _) => []
       case Single(p) => [FileLine(p.src, p.path, Some(ordinal), None, None, None)]
       case Bundle(parts) => PartLines(parts, ordinal, 0))
      + OwnFileLines(planned[1..], ordinal + 1)
  }

  /** The files a plan stores, in the order their lines are written. */
  function PlannedParts(planned: seq<Planned>): seq<Part> {
    if planned == [] then []
    else
      (match planned[0].origin
       case Database(_, _) => []
       case Single(p) => [p]
       case Bundle(parts) => parts)
      + PlannedParts(planned[1..])
  }

  function LinkLines(links: seq<Link>): seq<FileLine> {
    seq(|links|, i requires 0 <= i < |links| =>
      FileLine(links[i].src, links[i].path, None, None, None, Some(links[i].target)))
  }

  function DatabaseLines(planned: seq<Planned>, ordinal: nat): seq<(bytes, nat)> {
    if planned == [] then []
    else
      (if planned[0].origin.Database? then [(planned[0].origin.dbName, ordinal)] else [])
      + DatabaseLines(planned[1..], ordinal + 1)
  }

  function EntryLineFor(planned: Planned, ordinal: nat, off: nat, size: nat, isSealed: bool): EntryLine {
    EntryLine(ordinal, None, off, size, isSealed, planned.comp, planned.origin.Bundle?)
  }

  function OwnEntryLines(build: Build, offsets: map<bytes, nat>): (lines: seq<EntryLine>)
    requires |build.members| == |build.planned|
    requires forall i :: 0 <= i < |build.planned| ==> build.planned[i].member in offsets
    ensures |lines| == |build.planned|
  {
    seq(|build.planned|, i requires 0 <= i < |build.planned| =>
      EntryLineFor(build.planned[i], i + 1, offsets[build.planned[i].member], |build.members[i].payload|,
                   build.secret.Some?))
  }

  /** Entry lines by key; a repeated key keeps the later line. */
  function EntryMap(lines: seq<EntryLine>): map<bytes, EntryLine> {
    if lines == [] then map[]
    else
      var last := lines[|lines| - 1];
      EntryMap(lines[..|lines| - 1])[EntryKey(last.a, last.n) := last]
  }

  /** The archives named by file lines, each once. */
  function DepsOf(files: seq<FileLine>): (deps: seq<bytes>)
    ensures forall i :: 0 <= i < |files| && files[i].a.Some? && files[i].a.value != [] ==> files[i].a.value in deps
    ensures forall d :: d in deps ==> exists i :: 0 <= i < |files| && files[i].a == Some(d)
  {
    if files == [] then []
    else
      var before := DepsOf(files[..|files| - 1]);
      var a := files[|files| - 1].a;
      if a.Some? && a.value != [] && a.value !in before then before + [a.value] else before
  }

  /** Carried lines come after the archive's own; offsets come from the writer's own walk of the file just written. */
  function CreateArchive(codec: Codec, build: Build, files: seq<FileLine>, entries: seq<EntryLine>)
    : Result<ArchiveFile, ReadError>
    requires AllValid(build.Items()) && |build.members| == |build.planned|
  {
    var written := WriteAll(build.Items());
    var walked := Walk(Length, written, Start());
    if !walked.Members? then Err(Inconsistent)
    else
      var offsets := OffsetByMember(walked.members);
      if exists i :: 0 <= i < |build.planned| && build.planned[i].member !in offsets then Err(Inconsistent)
      else
        var allFiles := OwnFileLines(build.planned, 1) + LinkLines(build.links) + files;
        var index := Index(EntryMap(OwnEntryLines(build, offsets) + entries), DatabaseLines(build.planned, 1),
                           allFiles, DepsOf(allFiles));
        Ok(ArchiveFile(written + build.indexRecord, build.secret, index))
  }

  // --------------------------------------------------- what the index lists

  /** Every database line names a dump of the plan, and the ordinal it is stored under. */
  lemma {:induction false} DumpOfLine(planned: seq<Planned>, ordinal: nat, j: nat) returns (k: nat)
    requires j < |DatabaseLines(planned, ordinal)|
    ensures k < |planned| && planned[k].origin.Database?
    ensures DatabaseLines(planned, ordinal)[j] == (planned[k].origin.dbName, ordinal + k)
  {
    var here := planned[0].origin.Database?;
    if here && j == 0 {
      k := 0;
    } else {
      var k' := DumpOfLine(planned[1..], ordinal + 1, if here then j - 1 else j);
      k := k' + 1;
    }
  }

  /** And the way back: every dump of the plan has its line. */
  lemma {:induction false} LineOfDump(planned: seq<Planned>, ordinal: nat, k: nat) returns (j: nat)
    requires k < |planned| && planned[k].origin.Database?
    ensures j < |DatabaseLines(planned, ordinal)|
    ensures DatabaseLines(planned, ordinal)[j] == (planned[k].origin.dbName, ordinal + k)
  {
    if k == 0 {
      j := 0;
    } else {
      var j' := LineOfDump(planned[1..], ordinal + 1, k - 1);
      j := if planned[0].origin.Database? then j' + 1 else j';
    }
  }

  lemma {:induction false} DatabaseLinesAscend(planned: seq<Planned>, ordinal: nat, i: nat, j: nat)
    requires i < j < |DatabaseLines(planned, ordinal)|
    ensures DatabaseLines(planned, ordinal)[i].1 < DatabaseLines(planned, ordinal)[j].1
  {
    var later := DatabaseLines(planned[1..], ordinal + 1);
    if !planned[0].origin.Database? {
      DatabaseLinesAscend(planned[1..], ordinal + 1, i, j);
    } else if i > 0 {
      DatabaseLinesAscend(planned[1..], ordinal + 1, i - 1, j - 1);
    } else {
      var k := DumpOfLine(planned[1..], ordinal + 1, j - 1);
    }
  }

  lemma LinesOfCreated(codec: Codec, build: Build, files: seq<FileLine>, entries: seq<EntryLine>)
    requires AllValid(build.Items()) && |build.members| == |build.planned|
    requires CreateArchive(codec, build, files, entries).Ok?
    ensures var index := CreateArchive(codec, build, files, entries).value.index;
            && index.databases == DatabaseLines(build.planned, 1)
            && index.files == OwnFileLines(build.planned, 1) + LinkLines(build.links) + files
  {
    hide OwnFileLines, LinkLines, DatabaseLines, OffsetByMember, OwnEntryLines, EntryMap, WriteAll;
  }

  /**
   * The index lists every dump of the plan under its name and ordinal, in plan order and nothing else, and
   * after the files of the plan every link, and then every carried line.
   */
  lemma IndexListsPlan(codec: Codec, build: Build, files: seq<FileLine>, entries: seq<EntryLine>)
    returns (lineOf: seq<nat>)
    requires AllValid(build.Items()) && |build.members| == |build.planned|
    requires CreateArchive(codec, build, files, entries).Ok?
    ensures |lineOf| == |build.planned|
    ensures var databases := CreateArchive(codec, build, files, entries).value.index.databases;
            && (forall k :: 0 <= k < |build.planned| && build.planned[k].origin.Database? ==>
                  lineOf[k] < |databases| && databases[lineOf[k]] == (build.planned[k].origin.dbName, k + 1))
            && (forall i, j :: 0 <= i < j < |databases| ==> databases[i].1 < databases[j].1)
            && (forall j :: 0 <= j < |databases| ==>
                  && 1 <= databases[j].1 <= |build.planned|
                  && build.planned[databases[j].1 - 1].origin.Database?)
    ensures var lines := CreateArchive(codec, build, files, entries).value.index.files;
            var own := |lines| - |files| - |build.links|;
            && own >= 0 && lines[own + |build.links|..] == files
            && forall l {:trigger build.links[l]} :: 0 <= l < |build.links| ==>
                 lines[own + l] ==
                 FileLine(build.links[l].src, build.links[l].path, None, None, None, Some(build.links[l].target))
  {
    hide CreateArchive, OwnFileLines, DatabaseLines, AllValid;
    LinesOfCreated(codec, build, files, entries);
    var databases := DatabaseLines(build.planned, 1);
    lineOf := LinesOfDumps(build.planned);
    forall i, j | 0 <= i < j < |databases| ensures databases[i].1 < databases[j].1 {
      DatabaseLinesAscend(build.planned, 1, i, j);
    }
    forall j | 0 <= j < |databases|
      ensures 1 <= databases[j].1 <= |build.planned| && build.planned[databases[j].1 - 1].origin.Database?
    {
      var k := DumpOfLine(build.planned, 1, j);
    }
  }

  lemma LinesOfDumps(planned: seq<Planned>) returns (lineOf: seq<nat>)
    ensures |lineOf| == |planned|
    ensures forall k :: 0 <= k < |planned| && planned[k].origin.Database? ==>
              && lineOf[k] < |DatabaseLines(planned, 1)|
              && DatabaseLines(planned, 1)[lineOf[k]] == (planned[k].origin.dbName, k + 1)
  {
    hide DatabaseLines;
    lineOf := [];
    while |lineOf| < |planned|
      invariant |lineOf| <= |planned|
      invariant forall k :: 0 <= k < |lineOf| && planned[k].origin.Database? ==>
                  && lineOf[k] < |DatabaseLines(planned, 1)|
                  && DatabaseLines(planned, 1)[lineOf[k]] == (planned[k].origin.dbName, k + 1)
    {
      var j := 0;
      if planned[|lineOf|].origin.Database? {
        j := LineOfDump(planned, 1, |lineOf|);
      }
      lineOf := lineOf + [j];
    }
  }

  // ----------------------------------------------------------------- reading

  /** Reads a range in bounded chunks; the file system may deliver less than asked for. */
  method ReadAt(file: bytes, offset: nat, size: nat) returns (buffer: bytes)
    ensures buffer == PayloadAt(file, offset, size)
  {
    buffer := Zeros(size);
    var read := 0;
    while read < size
      invariant read <= size == |buffer|
      invariant buffer[..read] == PayloadAt(file, offset, size)[..read]
      invariant buffer[read..] == Zeros(size - read)
    {
      var want := if size - read < 0x400_0000 then size - read else 0x400_0000;
      var left := if offset + read < |file| then |file| - (offset + read) else 0;
      var got :| 0 <= got <= want && got <= left && (left > 0 ==> got > 0);
      if got <= 0 {
        break;
      }
      buffer := buffer[..read] + file[offset + read..offset + read + got] + buffer[read + got..];
      read := read + got;
    }
    assert buffer == buffer[..read] + buffer[read..];
  }

  /** subarray(from, from + length): clipped to what is there. */
  function Subarray(payload: bytes, from: nat, length: nat): bytes {
    if from >= |payload| then []
    else if from + length <= |payload| then payload[from..from + length] else payload[from..]
  }

  /** The bytes of one entry, opened with the keys of the archive that holds them. */
  function DecodeEntry(codec: Codec, target: ArchiveFile, entry: EntryLine): Result<bytes, ReadError> {
    var raw := PayloadAt(target.file, entry.off, entry.size);
    if entry.isSealed && target.secret.None? then Err(NoKey)
    else
      var packed := if entry.isSealed then codec.open(target.secret.value, entry.n, raw) else Some(raw);
      if packed.None? then Err(Authentication)
      else if entry.comp.None? then Ok(packed.value)
      else
        var plain := codec.decompress(entry.comp.value, packed.value);
        if plain.None? then Err(Corrupt) else Ok(plain.value)
  }

  function CutOut(payload: bytes, slice: Option<(nat, nat)>): bytes {
    if slice.None? then payload else Subarray(payload, slice.value.0, slice.value.1)
  }

  /** A file read from the archive that physically holds it. */
  function ReadOwn(codec: Codec, holder: ArchiveFile, n: nat, slice: Option<(nat, nat)>): Result<bytes, ReadError> {
    if EntryKey(None, n) !in holder.index.entries then Err(MissingEntry)
    else
      match DecodeEntry(codec, holder, holder.index.entries[EntryKey(None, n)])
      case Ok(payload) => Ok(CutOut(payload, slice))
      case Err(error) => Err(error)
  }

  // ----------------------------------------------------- offsets found by name

  /** No later record is read by the name that record `i` is read by. */
  predicate NameIsLast(rule: PaxRule, items: seq<Item>, i: nat)
    requires AllValid(items) && i < |items|
  {
    forall j :: i < j < |items| ==> ReadName(rule, items[j]) != ReadName(rule, items[i])
  }

  lemma {:induction false} OffsetOfLast(members: seq<Member>, i: nat)
    requires i < |members|
    requires forall j :: i < j < |members| ==> members[j].name != members[i].name
    ensures members[i].name in OffsetByMember(members) && OffsetByMember(members)[members[i].name] == members[i].offset
  {
    if i < |members| - 1 {
      OffsetOfLast(members[..|members| - 1], i);
    }
  }

  lemma {:induction false} OffsetOfRepeated(members: seq<Member>, i: nat, j: nat)
    requires i < j < |members| && members[j].name == members[i].name
    requires forall k, l :: 0 <= k < l < |members| ==> members[k].offset < members[l].offset
    ensures members[i].name in OffsetByMember(members) && OffsetByMember(members)[members[i].name] > members[i].offset
  {
    var front := members[..|members| - 1];
    var last := members[|members| - 1];
    if last.name != members[i].name {
      OffsetOfRepeated(front, i, j);
    }
  }

  lemma {:induction false} LocationNames(rule: PaxRule, items: seq<Item>, position: nat, i: nat)
    requires AllValid(items) && i < |items|
    ensures Locations(rule, items, position)[i].name == ReadName(rule, items[i])
  {
    hide Extra, Main, ReadName;
    if i > 0 {
      LocationNames(rule, items[1..], position + |WriteItem(items[0])|, i - 1);
    }
  }

  /**
   * Looking offsets up by member name is right for exactly the records whose name no later record
   * repeats. Every other entry gets the offset of someone else's bytes.
   */
  lemma OffsetExact(rule: PaxRule, items: seq<Item>, i: nat)
    requires AllValid(items) && i < |items|
    ensures var members := Locations(rule, items, 0);
            var offsets := OffsetByMember(members);
            && members[i].name in offsets
            && (offsets[members[i].name] == members[i].offset <==> NameIsLast(rule, items, i))
  {
    hide OffsetByMember, Locations, ReadName;
    var members := Locations(rule, items, 0);
    forall k | 0 <= k < |items| ensures members[k].name == ReadName(rule, items[k]) {
      LocationNames(rule, items, 0, k);
    }
    if NameIsLast(rule, items, i) {
      OffsetOfLast(members, i);
    } else {
      var j :| i < j < |items| && ReadName(rule, items[j]) == ReadName(rule, items[i]);
      forall k, l | 0 <= k < l < |members| ensures members[k].offset < members[l].offset {
        LocationsAscend(rule, items, 0, k, l);
      }
      OffsetOfRepeated(members, i, j);
    }
  }

  /** The writer's walk reads every member by its planned name. */
  lemma PlannedNameRead(codec: Codec, build: Build, i: nat)
    requires Packs(codec, build) && i < |build.planned|
    ensures i + 1 < |build.Items()| && build.Items()[i + 1] == build.members[i]
    ensures ReadName(Length, build.Items()[i + 1]) == build.planned[i].member
  {
    hide Stored, ReadName;
    assert build.Items()[i + 1] == build.members[i];
    LengthSurvivesExactly(build.members[i]);
  }

  const GZ: bytes := [46, 103, 122] // ".gz"

  /** What a member is called: opaque when encrypted, otherwise its path and the compression suffix. */
  function MemberName(path: bytes, comp: Option<Compression>, ordinal: nat, encrypted: bool): bytes {
    if encrypted then OpaqueName(ordinal)
    else path + (match comp case None => [] case Some(Gzip) => GZ case Some(Brotli) => [46, 98, 114])
  }

  /**
   * The family that breaks an unencrypted archive: a file compressed on the way in, and a file
   * already called like it plus ".gz" and therefore stored as it is, get the same member name.
   */
  lemma RotatedLogCollides(path: bytes, n: nat, m: nat)
    ensures MemberName(path, Some(Gzip), n, false) == MemberName(path + [46, 103, 122], None, m, false)
    ensures n != m ==> MemberName(path, Some(Gzip), n, true) != MemberName(path + [46, 103, 122], None, m, true)
  {
    assert path + GZ + [] == path + GZ;
    if n != m {
      OpaqueNamesDistinct(n, m);
    }
  }

  // ------------------------------------------------------- entries read back

  lemma {:induction false} EntryMapHas(lines: seq<EntryLine>, i: nat)
    requires i < |lines|
    requires forall j :: i < j < |lines| ==> EntryKey(lines[j].a, lines[j].n) == EntryKey(lines[i].a, lines[i].n) ==>
                                             lines[j] == lines[i]
    ensures EntryKey(lines[i].a, lines[i].n) in EntryMap(lines)
    ensures EntryMap(lines)[EntryKey(lines[i].a, lines[i].n)] == lines[i]
  {
    hide EntryKey;
    if i < |lines| - 1 {
      EntryMapHas(lines[..|lines| - 1], i);
    }
  }

  /** Carried entry lines name another archive, so they never replace an archive's own. */
  predicate Carried(entries: seq<EntryLine>) {
    forall i :: 0 <= i < |entries| ==> entries[i].a.Some? && entries[i].a.value != []
  }

  lemma WalkFindsBuild(codec: Codec, build: Build)
    requires Packs(codec, build)
    ensures Walk(Length, WriteAll(build.Items()), Start()) == Members(Locations(Length, build.Items(), 0))
    ensures forall i :: 0 <= i < |build.planned| ==>
              build.planned[i].member in OffsetByMember(Locations(Length, build.Items(), 0))
  {
    hide Walk, Locations, OffsetByMember, Stored, WriteAll;
    var items := build.Items();
    WalkUndoesWriter(Length, items, []);
    assert WriteAll(items) + [] == WriteAll(items);
    forall i | 0 <= i < |build.planned| ensures build.planned[i].member in OffsetByMember(Locations(Length, items, 0)) {
      PlannedNameRead(codec, build, i);
      OffsetExact(Length, items, i + 1);
      LocationNames(Length, items, 0, i + 1);
    }
  }

  lemma OwnEntryFound(codec: Codec, build: Build, files: seq<FileLine>, entries: seq<EntryLine>, i: nat)
    requires Packs(codec, build) && Carried(entries) && i < |build.planned|
    ensures CreateArchive(codec, build, files, entries).Ok?
    ensures var archive := CreateArchive(codec, build, files, entries).value;
            var offsets := OffsetByMember(Locations(Length, build.Items(), 0));
            && build.planned[i].member in offsets
            && EntryKey(None, i + 1) in archive.index.entries
            && archive.index.entries[EntryKey(None, i + 1)] ==
               EntryLineFor(build.planned[i], i + 1, offsets[build.planned[i].member], |build.members[i].payload|,
                            build.secret.Some?)
  {
    hide Walk, Locations, OffsetByMember, EntryKey, Stored, WriteAll, EntryMap;
    WalkFindsBuild(codec, build);
    var offsets := OffsetByMember(Locations(Length, build.Items(), 0));
    var own := OwnEntryLines(build, offsets);
    var lines := own + entries;
    forall j | i < j < |lines|
      ensures EntryKey(lines[j].a, lines[j].n) != EntryKey(lines[i].a, lines[i].n)
    {
      EntryKeyExact(lines[j].a, lines[j].n, lines[i].a, lines[i].n);
      if j >= |own| {
        assert lines[j] == entries[j - |own|];
      }
    }
    EntryMapHas(lines, i);
  }

  /** Decoding undoes storing once the entry points at the stored bytes. */
  lemma DecodeUndoesStore(codec: Codec, target: ArchiveFile, planned: Planned, ordinal: nat, off: nat)
    requires codec.Lawful()
    requires var stored := Stored(codec, target.secret, ordinal, planned);
             off + |stored| <= |target.file| && target.file[off..off + |stored|] == stored
    ensures DecodeEntry(codec, target,
                        EntryLineFor(planned, ordinal, off, |Stored(codec, target.secret, ordinal, planned)|,
                                     target.secret.Some?)) == Ok(Plain(planned.origin))
  {
    hide Plain;
  }

  /** Every entry whose member name is not repeated later reads back as what went in. */
  lemma EntryReadsBack(codec: Codec, build: Build, files: seq<FileLine>, entries: seq<EntryLine>, i: nat)
    requires codec.Lawful() && Packs(codec, build) && Carried(entries) && i < |build.planned|
    requires NameIsLast(Length, build.Items(), i + 1)
    ensures CreateArchive(codec, build, files, entries).Ok?
    ensures ReadOwn(codec, CreateArchive(codec, build, files, entries).value, i + 1, None)
         == Ok(Plain(build.planned[i].origin))
  {
    hide Walk, Locations, OffsetByMember, EntryKey, WriteAll, EntryMap, DecodeEntry;
    OwnEntryFound(codec, build, files, entries, i);
    var archive := CreateArchive(codec, build, files, entries).value;
    var items := build.Items();
    PlannedNameRead(codec, build, i);
    OffsetExact(Length, items, i + 1);
    LocationNames(Length, items, 0, i + 1);
    assert archive.file[0..0 + |WriteAll(items)|] == WriteAll(items);
    LocationsPointAtPayloads(Length, archive.file, 0, items, i + 1);
    DecodeUndoesStore(codec, archive, build.planned[i], i + 1, Locations(Length, items, 0)[i + 1].offset);
  }

  // ------------------------------------------------------- shared member names

  /** Where two plan entries share a member name, the earlier one's index line points at the later one's bytes. */
  lemma SharedNameSharesOffset(codec: Codec, build: Build, files: seq<FileLine>, entries: seq<EntryLine>,
                               i: nat, j: nat)
    requires Packs(codec, build) && Carried(entries) && i < j < |build.planned|
    requires build.planned[i].member == build.planned[j].member && NameIsLast(Length, build.Items(), j + 1)
    ensures CreateArchive(codec, build, files, entries).Ok?
    ensures var index := CreateArchive(codec, build, files, entries).value.index;
            var members := Locations(Length, build.Items(), 0);
            && EntryKey(None, i + 1) in index.entries && EntryKey(None, j + 1) in index.entries
            && index.entries[EntryKey(None, j + 1)].off == members[j + 1].offset
            && index.entries[EntryKey(None, i + 1)].off == members[j + 1].offset > members[i + 1].offset
    ensures var file := CreateArchive(codec, build, files, entries).value.file;
            var at := Locations(Length, build.Items(), 0)[j + 1].offset;
            && at + |build.members[j].payload| <= |file|
            && file[at..at + |build.members[j].payload|] == build.members[j].payload
  {
    hide Walk, Locations, OffsetByMember, EntryKey, WriteAll, EntryMap, CreateArchive, ReadName, NameIsLast, Stored;
    OwnEntryFound(codec, build, files, entries, i);
    OwnEntryFound(codec, build, files, entries, j);
    var items := build.Items();
    PlannedNameRead(codec, build, i);
    PlannedNameRead(codec, build, j);
    OffsetExact(Length, items, j + 1);
    LocationNames(Length, items, 0, j + 1);
    LocationsAscend(Length, items, 0, i + 1, j + 1);
    PayloadInArchive(codec, build, files, entries, j + 1);
  }

  lemma PayloadInArchive(codec: Codec, build: Build, files: seq<FileLine>, entries: seq<EntryLine>, k: nat)
    requires Packs(codec, build) && CreateArchive(codec, build, files, entries).Ok? && k < |build.Items()|
    ensures var file, found := CreateArchive(codec, build, files, entries).value.file,
                               Locations(Length, build.Items(), 0)[k];
            && 0 <= found.size == |build.Items()[k].payload| && found.offset + found.size <= |file|
            && file[found.offset..found.offset + found.size] == build.Items()[k].payload
  {
    hide Locations, WriteAll, CreateArchive, ReadName, Stored;
    CreatedFile(codec, build, files, entries);
    var file, items := CreateArchive(codec, build, files, entries).value.file, build.Items();
    assert file[0..0 + |WriteAll(items)|] == WriteAll(items);
    LocationsPointAtPayloads(Length, file, 0, items, k);
  }

  const MANIFEST_MEMBER: bytes := [109, 97, 110, 105, 102, 101, 115, 116, 46, 106, 115, 111, 110]
  const INDEX_MEMBER: bytes := [105, 110, 100, 101, 120]

  function PlainItem(name: bytes, payload: bytes): Item {
    Item(Short(name), Zeros(BLOCK), 48, payload)
  }

  /** A clear archive of two files: `path`, compressed on the way in, and `path` with ".gz", stored as it is. */
  function RotatedLogBuild(codec: Codec, src: bytes, path: bytes, text: bytes, rotated: bytes): Build {
    var member := path + GZ;
    var planned := [Planned(member, Some(Gzip), Single(Part(src, path, text))),
                    Planned(member, None, Single(Part(src, member, rotated)))];
    Build(None, planned, [], PlainItem(MANIFEST_MEMBER, []),
          [PlainItem(member, codec.compress(Gzip, text)), PlainItem(member, rotated)], [], [])
  }

  /**
   * In that archive the entry of the first file starts at the bytes of the second, so what reading it
   * decompresses is a stretch of as many bytes from there, and never where its own bytes are.
   */
  lemma RotatedLogMisread(codec: Codec, src: bytes, path: bytes, text: bytes, rotated: bytes, build: Build)
    requires build == RotatedLogBuild(codec, src, path, text, rotated) && |path| <= 97 && NUL !in path
    requires |codec.compress(Gzip, text)| <= MAX_SAFE_INTEGER && |rotated| <= MAX_SAFE_INTEGER
    ensures Packs(codec, build) && |build.Items()| == 3 && CreateArchive(codec, build, [], []).Ok?
    ensures var archive, members := CreateArchive(codec, build, [], []).value, Locations(Length, build.Items(), 0);
            && EntryKey(None, 1) in archive.index.entries
            && archive.index.entries[EntryKey(None, 1)].off == members[2].offset > members[1].offset
            && members[2].offset + |rotated| <= |archive.file|
            && archive.file[members[2].offset..members[2].offset + |rotated|] == rotated
  {
    hide *;
    RotatedLogPacks(codec, src, path, text, rotated);
    SharedNameSharesOffset(codec, build, [], [], 0, 1);
  }

  lemma RotatedLogPacks(codec: Codec, src: bytes, path: bytes, text: bytes, rotated: bytes)
    requires |path| <= 97 && NUL !in path
    requires |codec.compress(Gzip, text)| <= MAX_SAFE_INTEGER && |rotated| <= MAX_SAFE_INTEGER
    ensures var build := RotatedLogBuild(codec, src, path, text, rotated);
            && Packs(codec, build) && AllValid(build.Items()) && |build.Items()| == 3 && Carried([])
            && NameIsLast(Length, build.Items(), 2)
            && |build.planned| == |build.members| == 2 && build.planned[0].member == build.planned[1].member
            && build.members[1].payload == rotated
  {
    hide PlainItem;
    var build := RotatedLogBuild(codec, src, path, text, rotated);
    var member := path + GZ;
    PlainItemValid(member, codec.compress(Gzip, text));
    PlainItemValid(member, rotated);
    PlainItemValid(MANIFEST_MEMBER, []);
    assert build.Items() == [build.manifest, build.members[0], build.members[1]];
  }

  lemma PlainItemValid(name: bytes, payload: bytes)
    requires |name| <= 100 && NUL !in name && |payload| <= MAX_SAFE_INTEGER
    ensures var item := PlainItem(name, payload);
            item.Valid() && item.naming == Short(name) && item.payload == payload
  {
  }

  lemma CreatedFile(codec: Codec, build: Build, files: seq<FileLine>, entries: seq<EntryLine>)
    requires Packs(codec, build) && CreateArchive(codec, build, files, entries).Ok?
    ensures CreateArchive(codec, build, files, entries).value.file == WriteAll(build.Items()) + build.indexRecord
  {
    hide Walk, WriteAll, OffsetByMember, EntryMap, OwnEntryLines, DepsOf;
  }

  lemma AlwaysCreated(codec: Codec, build: Build, files: seq<FileLine>, entries: seq<EntryLine>)
    requires Packs(codec, build)
    ensures CreateArchive(codec, build, files, entries).Ok?
  {
    hide Walk, WriteAll, Locations, OffsetByMember, EntryMap, OwnEntryLines, DepsOf;
    WalkFindsBuild(codec, build);
  }

  // ------------------------------------------------------- opening an archive

  /** Members by name, as the reader keeps them; a repeated name keeps the later member. */
  function ByName(members: seq<Member>): map<bytes, Member> {
    if members == [] then map[]
    else
      var last := members[|members| - 1];
      ByName(members[..|members| - 1])[last.name := last]
  }

  lemma {:induction false} ByNameAndOffset(members: seq<Member>, name: bytes)
    ensures name in ByName(members) <==> name in OffsetByMember(members)
    ensures name in ByName(members) ==>
              ByName(members)[name] in members && ByName(members)[name].offset == OffsetByMember(members)[name]
  {
    if members != [] {
      ByNameAndOffset(members[..|members| - 1], name);
    }
  }

  /** A member is found under its name exactly when no later one is read by that name. */
  lemma MemberFoundExact(rule: PaxRule, items: seq<Item>, i: nat)
    requires AllValid(items) && i < |items|
    ensures var members, name := Locations(rule, items, 0), ReadName(rule, items[i]);
            && name in ByName(members)
            && (ByName(members)[name] == members[i] <==> NameIsLast(rule, items, i))
  {
    hide OffsetByMember, ByName, Locations, ReadName, NameIsLast;
    var members, name := Locations(rule, items, 0), ReadName(rule, items[i]);
    OffsetExact(rule, items, i);
    LocationNames(rule, items, 0, i);
    ByNameAndOffset(members, name);
    var found := ByName(members)[name];
    var k :| 0 <= k < |members| && members[k] == found;
    if k < i {
      LocationsAscend(rule, items, 0, k, i);
    } else if i < k {
      LocationsAscend(rule, items, 0, i, k);
    }
  }

  /** The bytes the recovery script takes for the manifest and for the index of a file. */
  function OpenArchive(file: bytes): Result<(bytes, bytes), ReadError> {
    var walked := Walk(Pattern, file, Start());
    if !walked.Members? then Err(Inconsistent)
    else
      var byName := ByName(walked.members);
      if MANIFEST_MEMBER !in byName || INDEX_MEMBER !in byName then Err(MissingEntry)
      else
        var manifest, index := byName[MANIFEST_MEMBER], byName[INDEX_MEMBER];
        if manifest.size < 0 || index.size < 0 then Err(Inconsistent)
        else Ok((PayloadAt(file, manifest.offset, manifest.size), PayloadAt(file, index.offset, index.size)))
  }

  /** The whole of openArchive: the members found, read as manifest and index. */
  function Opened(codec: Codec, file: bytes): Result<ArchiveFile, ReadError> {
    match OpenArchive(file)
    case Err(error) => Err(error)
    case Ok((manifest, index)) =>
      var secret := codec.readManifest(manifest);
      if secret.None? then Err(NoManifest)
      else
        var parsed := codec.readIndex(secret.value, index);
        if parsed.None? then Err(Corrupt) else Ok(ArchiveFile(file, secret.value, parsed.value))
  }

  /** The whole file, as the last pass leaves it: the index member and two zero blocks come after the rest. */
  ghost predicate Finished(build: Build, index: Item) {
    && AllValid(build.Items() + [index]) && index.Valid()
    && build.manifest.naming == Short(MANIFEST_MEMBER) && index.naming == Short(INDEX_MEMBER)
    && build.indexRecord == WriteItem(index) + Zeros(2 * BLOCK)
  }

  /** Where the members of a finished archive are, as the recovery script names them. */
  lemma FinishedWalk(codec: Codec, build: Build, index: Item, files: seq<FileLine>, entries: seq<EntryLine>)
    requires Packs(codec, build) && Finished(build, index) && CreateArchive(codec, build, files, entries).Ok?
    ensures var file, items := CreateArchive(codec, build, files, entries).value.file, build.Items() + [index];
            && file == WriteAll(items) + Zeros(2 * BLOCK)
            && Walk(Pattern, file, Start()) == Members(Locations(Pattern, items, 0))
  {
    hide Walk, Locations, WriteAll, CreateArchive, WriteItem;
    var file, items := CreateArchive(codec, build, files, entries).value.file, build.Items() + [index];
    CreatedFile(codec, build, files, entries);
    WriteInTwo(build.Items(), [index]);
    WriteOne(index);
    assert file == WriteAll(items) + Zeros(2 * BLOCK);
    WalkUndoesWriter(Pattern, items, Zeros(2 * BLOCK));
  }

  /** If its own name is found as member `k`, that member's payload is what is read for it. */
  lemma PayloadOfFound(items: seq<Item>, tail: bytes, k: nat)
    requires AllValid(items) && k < |items| && NameIsLast(Pattern, items, k)
    ensures var members, name := Locations(Pattern, items, 0), ReadName(Pattern, items[k]);
            && name in ByName(members)
            && var found := ByName(members)[name];
               found.size >= 0 && PayloadAt(WriteAll(items) + tail, found.offset, found.size) == items[k].payload
  {
    hide Locations, ByName, WriteAll, NameIsLast, ReadName, PayloadAt;
    MemberFoundExact(Pattern, items, k);
    PayloadOfLocation(items, tail, k);
  }

  lemma PayloadOfLocation(items: seq<Item>, tail: bytes, k: nat)
    requires AllValid(items) && k < |items|
    ensures var found := Locations(Pattern, items, 0)[k];
            found.size >= 0 && PayloadAt(WriteAll(items) + tail, found.offset, found.size) == items[k].payload
  {
    hide Locations, WriteAll, ReadName;
    var file := WriteAll(items) + tail;
    assert file[0..0 + |WriteAll(items)|] == WriteAll(items);
    LocationsPointAtPayloads(Pattern, file, 0, items, k);
  }

  lemma IndexIsLast(build: Build, index: Item)
    requires Finished(build, index)
    ensures var items := build.Items() + [index];
            && ReadName(Pattern, items[0]) == MANIFEST_MEMBER && ReadName(Pattern, index) == INDEX_MEMBER
            && items[|items| - 1] == index && items[0] == build.manifest && NameIsLast(Pattern, items, |items| - 1)
  {
    hide ReadName, WriteItem;
    assert AllValid(build.Items() + [index]) && build.Items()[0] == (build.Items() + [index])[0] == build.manifest;
    ShortRead(Pattern, build.manifest);
    ShortRead(Pattern, index);
  }

  lemma ShortRead(rule: PaxRule, item: Item)
    requires item.Valid() && item.naming.Short?
    ensures ReadName(rule, item) == item.naming.name
  {
    CStringWhole(item.naming.name);
  }

  /**
   * The recovery script finds the index of every finished archive, whatever its members are called, and
   * its manifest if and only if no later member is read as manifest.json.
   */
  lemma OpenFindsItsOwn(codec: Codec, build: Build, index: Item, files: seq<FileLine>, entries: seq<EntryLine>)
    requires Packs(codec, build) && Finished(build, index) && CreateArchive(codec, build, files, entries).Ok?
    ensures var file, items := CreateArchive(codec, build, files, entries).value.file, build.Items() + [index];
            var members := Locations(Pattern, items, 0);
            && Walk(Pattern, file, Start()) == Members(members)
            && OpenArchive(file).Ok? && OpenArchive(file).value.1 == index.payload
            && MANIFEST_MEMBER in ByName(members)
            && (ByName(members)[MANIFEST_MEMBER] == members[0] <==>
                forall j :: 0 < j < |items| ==> ReadName(Pattern, items[j]) != MANIFEST_MEMBER)
            && (ByName(members)[MANIFEST_MEMBER] == members[0] ==> OpenArchive(file).value.0 == build.manifest.payload)
    ensures ReadName(Pattern, build.manifest) == [109, 97, 110, 105, 102, 101, 115, 116, 46, 106, 115, 111, 110]
    ensures ReadName(Pattern, index) == [105, 110, 100, 101, 120]
  {
    hide Walk, Locations, ByName, WriteAll, CreateArchive, WriteItem, Packs, ReadName, PayloadAt;
    var items := build.Items() + [index];
    FinishedWalk(codec, build, index, files, entries);
    IndexIsLast(build, index);
    PayloadOfFound(items, Zeros(2 * BLOCK), |items| - 1);
    MemberFoundExact(Pattern, items, 0);
    FoundSize(items);
    if NameIsLast(Pattern, items, 0) {
      PayloadOfFound(items, Zeros(2 * BLOCK), 0);
    }
  }

  /** The member whose payload is read for the manifest: the last one read by its name. */
  function TakenForManifest(items: seq<Item>): (j: nat)
    requires AllValid(items) && items != []
    ensures j < |items|
  {
    var last := |items| - 1;
    if last == 0 || ReadName(Pattern, items[last]) == MANIFEST_MEMBER then last
    else TakenForManifest(items[..last])
  }

  lemma {:induction false} TakenIsLast(items: seq<Item>)
    requires AllValid(items) && items != [] && ReadName(Pattern, items[0]) == MANIFEST_MEMBER
    ensures var j := TakenForManifest(items);
            && ReadName(Pattern, items[j]) == MANIFEST_MEMBER && NameIsLast(Pattern, items, j)
            && (j == 0 <==> forall k :: 0 < k < |items| ==> ReadName(Pattern, items[k]) != MANIFEST_MEMBER)
  {
    hide ReadName;
    var last := |items| - 1;
    if !(last == 0 || ReadName(Pattern, items[last]) == MANIFEST_MEMBER) {
      TakenIsLast(items[..last]);
      assert forall k :: 0 <= k < last ==> items[..last][k] == items[k];
    }
  }

  /** Its manifest leads to the secret it was written with, and its index is that of this archive. */
  ghost predicate WrittenOut(codec: Codec, build: Build, index: Item, archive: ArchiveFile) {
    && Finished(build, index)
    && codec.readManifest(build.manifest.payload) == Some(build.secret)
    && codec.readIndex(build.secret, index.payload) == Some(archive.index)
  }

  /** What the recovery script reads for the manifest leads to this archive's own secret. */
  ghost predicate OpensRight(codec: Codec, build: Build, index: Item)
    requires Finished(build, index)
  {
    var items := build.Items() + [index];
    codec.readManifest(items[TakenForManifest(items)].payload) == Some(build.secret)
  }

  lemma ManifestFirst(build: Build, index: Item)
    requires Finished(build, index)
    ensures AllValid(build.Items() + [index]) && ReadName(Pattern, (build.Items() + [index])[0]) == MANIFEST_MEMBER
  {
    hide ReadName, WriteItem;
    IndexIsLast(build, index);
  }

  /**
   * For the manifest, opening a finished archive reads the payload of the last member read as
   * manifest.json; it opens to the archive that was written if and only if that leads to the right secret,
   * as it does where no later member is read so.
   */
  lemma OpensExactly(codec: Codec, build: Build, index: Item, files: seq<FileLine>, entries: seq<EntryLine>)
    requires Packs(codec, build) && CreateArchive(codec, build, files, entries).Ok?
    requires WrittenOut(codec, build, index, CreateArchive(codec, build, files, entries).value)
    ensures var archive, items := CreateArchive(codec, build, files, entries).value, build.Items() + [index];
            && OpenArchive(archive.file) == Ok((items[TakenForManifest(items)].payload, index.payload))
            && (Opened(codec, archive.file) == Ok(archive) <==> OpensRight(codec, build, index))
            && ((forall j :: 0 < j < |items| ==> ReadName(Pattern, items[j]) != MANIFEST_MEMBER) ==>
                  OpensRight(codec, build, index))
  {
    hide Walk, Locations, ByName, WriteAll, CreateArchive, WriteItem, Packs, ReadName, PayloadAt, NameIsLast;
    var items := build.Items() + [index];
    ManifestFirst(build, index);
    TakenIsLast(items);
    var j := TakenForManifest(items);
    FinishedWalk(codec, build, index, files, entries);
    IndexIsLast(build, index);
    PayloadOfFound(items, Zeros(2 * BLOCK), |items| - 1);
    PayloadOfFound(items, Zeros(2 * BLOCK), j);
    SecretOfCreated(codec, build, files, entries);
  }

  lemma SecretOfCreated(codec: Codec, build: Build, files: seq<FileLine>, entries: seq<EntryLine>)
    requires Packs(codec, build) && CreateArchive(codec, build, files, entries).Ok?
    ensures CreateArchive(codec, build, files, entries).value.secret == build.secret
  {
    hide Walk, WriteAll, OffsetByMember, EntryMap, OwnEntryLines, DepsOf;
  }

  // ------------------------------------------------------------ closing one

  function IndexItem(codec: Codec, secret: Option<bytes>, index: Index): Item {
    PlainItem(INDEX_MEMBER, codec.writeIndex(secret, index))
  }

  /** The archive again, with its index as the last member. */
  function Closed(codec: Codec, build: Build, index: Index): Build
    requires IndexFits(codec, build.secret, index)
  {
    PlainItemValid(INDEX_MEMBER, codec.writeIndex(build.secret, index));
    build.(indexRecord := WriteItem(IndexItem(codec, build.secret, index)) + Zeros(2 * BLOCK))
  }

  predicate IndexFits(codec: Codec, secret: Option<bytes>, index: Index) {
    |codec.writeIndex(secret, index)| <= MAX_SAFE_INTEGER
  }

  /** Any archive can be closed so: the index only says what the earlier passes wrote. */
  lemma ClosedIsWrittenOut(codec: Codec, build: Build, files: seq<FileLine>, entries: seq<EntryLine>)
    requires codec.Lawful() && Packs(codec, build) && build.manifest.naming == Short(MANIFEST_MEMBER)
    requires codec.readManifest(build.manifest.payload) == Some(build.secret)
    requires CreateArchive(codec, build, files, entries).Ok?
    requires IndexFits(codec, build.secret, CreateArchive(codec, build, files, entries).value.index)
    ensures var index := CreateArchive(codec, build, files, entries).value.index;
            var closed := Closed(codec, build, index);
            && Packs(codec, closed) && CreateArchive(codec, closed, files, entries).Ok?
            && WrittenOut(codec, closed, IndexItem(codec, build.secret, index),
                          CreateArchive(codec, closed, files, entries).value)
  {
    hide WriteAll, WriteItem, PlainItem, CreateArchive, Packs;
    PacksMeans(codec, build);
    var index := CreateArchive(codec, build, files, entries).value.index;
    var closed, item := Closed(codec, build, index), IndexItem(codec, build.secret, index);
    PlainItemValid(INDEX_MEMBER, codec.writeIndex(build.secret, index));
    RecordAside(codec, build, closed.indexRecord, files, entries);
    assert AllValid(closed.Items() + [item]) by {
      assert closed.Items() == build.Items();
    }
  }

  lemma PacksMeans(codec: Codec, build: Build)
    requires Packs(codec, build)
    ensures AllValid(build.Items()) && |build.members| == |build.planned|
  {
  }

  /** What the index says has nothing to do with the record it is then written in. */
  lemma RecordAside(codec: Codec, build: Build, record: bytes, files: seq<FileLine>, entries: seq<EntryLine>)
    requires Packs(codec, build) && CreateArchive(codec, build, files, entries).Ok?
    ensures var other := build.(indexRecord := record);
            && other.Items() == build.Items() && Packs(codec, other)
            && CreateArchive(codec, other, files, entries).Ok?
            && CreateArchive(codec, other, files, entries).value.index ==
               CreateArchive(codec, build, files, entries).value.index
  {
    hide Walk, WriteAll, OffsetByMember, EntryMap, DepsOf;
  }

  lemma FoundSize(items: seq<Item>)
    requires AllValid(items)
    ensures var members := Locations(Pattern, items, 0);
            forall name :: name in ByName(members) ==> ByName(members)[name].size >= 0
  {
    hide Locations, ByName;
    var members := Locations(Pattern, items, 0);
    forall name | name in ByName(members) ensures ByName(members)[name].size >= 0 {
      ByNameAndOffset(members, name);
      var k :| 0 <= k < |members| && members[k] == ByName(members)[name];
      LocationSize(items, k);
    }
  }

  lemma LocationSize(items: seq<Item>, k: nat)
    requires AllValid(items) && k < |items|
    ensures Locations(Pattern, items, 0)[k].size >= 0
  {
    hide Locations, WriteAll, ReadName;
    assert WriteAll(items)[0..0 + |WriteAll(items)|] == WriteAll(items);
    LocationsPointAtPayloads(Pattern, WriteAll(items), 0, items, k);
  }

  lemma WriteOne(item: Item)
    requires item.Valid()
    ensures WriteAll([item]) == WriteItem(item)
  {
    hide WriteItem;
    assert [item][1..] == [];
  }

  lemma {:induction false} WriteInTwo(first: seq<Item>, second: seq<Item>)
    requires AllValid(first) && AllValid(second)
    ensures AllValid(first + second) && WriteAll(first + second) == WriteAll(first) + WriteAll(second)
    decreases |first|
  {
    hide WriteItem;
    if first == [] {
      assert first + second == second;
    } else {
      assert (first + second)[1..] == first[1..] + second;
      WriteInTwo(first[1..], second);
    }
  }

  /**
   * Planned names start with "databases/", "sources/" or "d/". Where every one of them survives reading by
   * pattern, none is read as the manifest's, so opening finds the manifest.
   */
  lemma SurvivingNamesAreNoManifest(build: Build, index: Item)
    requires Finished(build, index)
    requires forall item :: item in build.members + build.linkMembers ==>
               item.Valid() && Survives(Pattern, item)
               && item.naming.FullName() != [] && item.naming.FullName()[0] in {100, 115}
    ensures forall j :: 0 < j < |build.Items() + [index]| ==>
                          ReadName(Pattern, (build.Items() + [index])[j]) != MANIFEST_MEMBER
  {
    hide ReadName;
    var items := build.Items() + [index];
    IndexIsLast(build, index);
    forall j | 0 < j < |items| ensures ReadName(Pattern, items[j]) != MANIFEST_MEMBER {
      if j < |items| - 1 {
        assert items[j] == (build.members + build.linkMembers)[j - 1];
        assert items[j] in build.members + build.linkMembers;
      }
    }
  }

  /** A pax name that spells out a path record for the manifest after a carriage return is read as the manifest's. */
  lemma ReadAsManifest(item: Item, head: bytes, digits: bytes)
    requires item.Valid() && item.naming.Pax? && item.naming.before == [] && LF !in head
    requires digits != [] && forall i :: 0 <= i < |digits| ==> IsDigit(digits[i])
    requires item.naming.path == head + ([CR] + (digits + (PATH_KEY + MANIFEST_MEMBER)))
    ensures ReadName(Pattern, item) == MANIFEST_MEMBER
  {
    hide PaxPath, PathRecord;
    var n := item.naming;
    ManifestNameIsOneLine();
    CarriageReturnRenames(n.digits, head, digits, MANIFEST_MEMBER, n.rest);
    assert PaxPayload([], n.digits, n.path, n.rest) == PathRecord(n.digits, n.path, n.rest);
  }

  lemma ManifestNameIsOneLine()
    ensures NoLineEnd(MANIFEST_MEMBER)
  {
    forall i | 0 <= i <= |MANIFEST_MEMBER| ensures !StartsLineEnd(MANIFEST_MEMBER[i..]) {
      assert i < |MANIFEST_MEMBER| ==> MANIFEST_MEMBER[i..][0] == MANIFEST_MEMBER[i];
    }
  }

  const ACCENTED: bytes := [115, 111, 117, 114, 99, 101, 115, 47, 115, 47, 0xc3, 0xa9] // "sources/s/" and U+E9

  /** A clear archive with one file, called that name, a carriage return and "1 path=manifest.json". */
  function HijackedBuild(manifest: bytes, text: bytes, index: Item): Build
    requires index.Valid()
  {
    var path := ACCENTED + ([CR] + ([49] + (PATH_KEY + MANIFEST_MEMBER)));
    Build(None, [Planned(path, None, Single(Part([115], path[10..], text)))], [], PlainItem(MANIFEST_MEMBER, manifest),
          [Item(Pax([], [52, 50], path, [], []), Zeros(BLOCK), 48, text)], [], WriteItem(index) + Zeros(2 * BLOCK))
  }

  /**
   * The recovery script opens it with the file's content for its manifest: where that is no version-2
   * manifest it does not open at all, although the writer's own walk finds everything in it.
   */
  lemma ManifestHijacked(codec: Codec, manifest: bytes, text: bytes, index: Item)
    requires |manifest| <= MAX_SAFE_INTEGER && |text| <= MAX_SAFE_INTEGER
    requires index.Valid() && index.naming == Short(INDEX_MEMBER)
    ensures var build := HijackedBuild(manifest, text, index);
            && Packs(codec, build) && Finished(build, index) && CreateArchive(codec, build, [], []).Ok?
            && var file := CreateArchive(codec, build, [], []).value.file;
            && OpenArchive(file) == Ok((text, index.payload))
            && (codec.readManifest(text) == None ==> Opened(codec, file) == Err(NoManifest))
            && (OpensRight(codec, build, index) <==> codec.readManifest(text) == Some(None))
  {
    hide Walk, Locations, ByName, WriteAll, CreateArchive, WriteItem, Packs, ReadName, PayloadAt, HijackedBuild,
      NameIsLast;
    var build := HijackedBuild(manifest, text, index);
    var items := build.Items() + [index];
    HijackedPacks(codec, manifest, text, index);
    AlwaysCreated(codec, build, [], []);
    FinishedWalk(codec, build, index, [], []);
    IndexIsLast(build, index);
    PayloadOfFound(items, Zeros(2 * BLOCK), 2);
    PayloadOfFound(items, Zeros(2 * BLOCK), 1);
    SecondTaken(items);
  }

  lemma SecondTaken(items: seq<Item>)
    requires AllValid(items) && |items| == 3 && ReadName(Pattern, items[0]) == MANIFEST_MEMBER
    requires ReadName(Pattern, items[1]) == MANIFEST_MEMBER && ReadName(Pattern, items[2]) != MANIFEST_MEMBER
    ensures TakenForManifest(items) == 1
  {
    hide *;
    TakenIsLast(items);
    var j := TakenForManifest(items);
    assert j == 0 || j == 1 || j == 2;
  }

  lemma HijackedPacks(codec: Codec, manifest: bytes, text: bytes, index: Item)
    requires |manifest| <= MAX_SAFE_INTEGER && |text| <= MAX_SAFE_INTEGER
    requires index.Valid() && index.naming == Short(INDEX_MEMBER)
    ensures var build := HijackedBuild(manifest, text, index);
            var items := build.Items() + [index];
            && Packs(codec, build) && Finished(build, index) && |items| == 3 && items[1].payload == text
            && build.secret == None
            && ReadName(Pattern, items[1]) == MANIFEST_MEMBER && NameIsLast(Pattern, items, 1)
  {
    hide WriteItem, ReadName, PlainItem, PathRecord;
    var build := HijackedBuild(manifest, text, index);
    var items, item := build.Items() + [index], build.members[0];
    PlainItemValid(MANIFEST_MEMBER, manifest);
    HijackingRecord(item.naming.path);
    ReadAsManifest(item, ACCENTED, [49]);
    assert items == [build.manifest, item, index];
    IndexIsLast(build, index);
  }

  lemma HijackingRecord(path: bytes)
    requires path == ACCENTED + ([CR] + ([49] + (PATH_KEY + MANIFEST_MEMBER)))
    ensures |PaxPayload([], [52, 50], path, [])| == 42 && SaysItsLength([52, 50], path)
  {
    assert Decimal(42) == [52, 50];
    DecimalReadsBack(42);
  }
}
