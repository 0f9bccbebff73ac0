/** A TAR writer in every naming style, and the proof that the walk undoes it. */
module TarWriter {
  import opened Bytes
  import opened TarNumeric
  import opened EntryKeys
  import opened PaxNames
  import opened TarWalk

  /** Where a member's name goes. A stub is whatever the name field shows of a name kept elsewhere. */
  datatype Naming =
    | Short(name: bytes)
    | Divided(prefix: bytes, base: bytes)
    | Pax(before: bytes, digits: bytes, path: bytes, rest: bytes, stub: bytes)
    | GnuLong(longName: bytes, nuls: nat, stub: bytes)
  {
    function FullName(): bytes {
      match this
      case Short(name) => name
      case Divided(prefix, base) => prefix + [SLASH] + base
      case Pax(_, _, path, _, _) => path
      case GnuLong(longName, _, _) => longName
    }

    predicate Valid() {
      match this
      case Short(name) => |name| <= 100 && NUL !in name
      case Divided(prefix, base) => 0 < |prefix| <= 155 && |base| <= 100 && NUL !in prefix && NUL !in base
      case Pax(before, digits, path, rest, stub) =>
        && (before == [] || before[|before| - 1] == LF)
        && digits != [] && (forall i :: 0 <= i < |digits| ==> IsDigit(digits[i]))
        && |stub| <= 100 && |PaxPayload(before, digits, path, rest)| <= MAX_SAFE_INTEGER
      case GnuLong(longName, nuls, stub) =>
        && (longName == [] || longName[|longName| - 1] != NUL)
        && |longName| + nuls <= MAX_SAFE_INTEGER && |stub| <= 100
    }
  }

  /** One member. The frame supplies every header byte the walk does not read. */
  datatype Item = Item(naming: Naming, frame: bytes, flag: u8, payload: bytes) {
    predicate Valid() {
      && naming.Valid() && |frame| == BLOCK && flag !in {120, 88, 76} && |payload| <= MAX_SAFE_INTEGER
    }
  }

  function Field(text: bytes, width: nat): (field: bytes)
    requires |text| <= width
    ensures |field| == width
  {
    text + Zeros(width - |text|)
  }

  function Header(frame: bytes, name: bytes, prefix: bytes, size: nat, flag: u8): (header: bytes)
    requires |frame| == BLOCK && |name| <= 100 && |prefix| <= 155
    ensures |header| == BLOCK
    ensures header[..100] == Field(name, 100) && header[124..136] == SizeField(size)
    ensures header[156] == flag && header[345..500] == Field(prefix, 155)
  {
    Field(name, 100) + frame[100..124] + SizeField(size) + frame[136..156] + [flag] + frame[157..345]
    + Field(prefix, 155) + frame[500..]
  }

  /** A header block, the payload, and zeros up to the next block. */
  function Record(header: bytes, payload: bytes): (record: bytes)
    requires |header| == BLOCK
    ensures |record| == BLOCK + Padded(|payload|)
    ensures record[..BLOCK] == header && record[BLOCK..BLOCK + |payload|] == payload
  {
    header + payload + Zeros(Padded(|payload|) - |payload|)
  }

  function Extra(item: Item): bytes
    requires item.Valid()
  {
    match item.naming
    case Pax(before, digits, path, rest, _) =>
      var payload := PaxPayload(before, digits, path, rest);
      Record(Header(item.frame, [], [], |payload|, 120), payload)
    case GnuLong(longName, nuls, _) =>
      var payload := longName + Zeros(nuls);
      Record(Header(item.frame, [], [], |payload|, 76), payload)
    case _ => []
  }

  /** What the ordinary header shows in its name and prefix fields. */
  function MainFields(item: Item): (fields: (bytes, bytes))
    requires item.Valid()
    ensures |fields.0| <= 100 && |fields.1| <= 155
  {
    match item.naming
    case Short(name) => (name, [])
    case Divided(prefix, base) => (base, prefix)
    case Pax(_, _, _, _, stub) => (stub, [])
    case GnuLong(_, _, stub) => (stub, [])
  }

  function Main(item: Item): bytes
    requires item.Valid()
  {
    var (name, prefix) := MainFields(item);
    Record(Header(item.frame, name, prefix, |item.payload|, item.flag), item.payload)
  }

  function WriteItem(item: Item): bytes
    requires item.Valid()
  {
    Extra(item) + Main(item)
  }

  ghost predicate AllValid(items: seq<Item>) {
    forall i :: 0 <= i < |items| ==> items[i].Valid()
  }

  function WriteAll(items: seq<Item>): bytes
    requires AllValid(items)
  {
    if items == [] then [] else WriteItem(items[0]) + WriteAll(items[1..])
  }

  /** The name an extension header announces for this member, if it has one. */
  function Pending(rule: PaxRule, naming: Naming): Option<bytes> {
    match naming
    case Pax(before, digits, path, rest, _) => AnnouncedPath(rule, PaxPayload(before, digits, path, rest))
    case GnuLong(longName, _, _) => Some(longName)
    case _ => None
  }

  function Joined(name: bytes, prefix: bytes): bytes {
    if prefix == [] then name else prefix + [SLASH] + name
  }

  /** What a reader calls this member: the announced name, or else what its own header shows. */
  function ReadName(rule: PaxRule, item: Item): bytes
    requires item.Valid()
  {
    var pending := Pending(rule, item.naming);
    if pending.Some? then pending.value
    else Joined(CString(MainFields(item).0), CString(MainFields(item).1))
  }

  /** What a reader finds when the members are written from `position` on. */
  function Locations(rule: PaxRule, items: seq<Item>, position: nat): (members: seq<Member>)
    requires AllValid(items)
    ensures |members| == |items|
  {
    if items == [] then []
    else
      var payloadAt := position + |Extra(items[0])| + BLOCK;
      [Member(ReadName(rule, items[0]), payloadAt, |items[0].payload|)]
      + Locations(rule, items[1..], position + |WriteItem(items[0])|)
  }

  /** Holds where an archive may end: too little left for a header, or a zero block. */
  predicate EndsAt(file: bytes, position: nat) {
    position + BLOCK > |file| || AllZero(file[position..position + BLOCK])
  }

  // ---------------------------------------------------------------- gnu long names

  lemma {:induction false} StripAddedNuls(name: bytes, nuls: nat)
    requires name == [] || name[|name| - 1] != NUL
    ensures StripNuls(name + Zeros(nuls)) == name
  {
    if nuls == 0 {
      assert name + Zeros(0) == name;
    } else {
      assert (name + Zeros(nuls))[..|name| + nuls - 1] == name + Zeros(nuls - 1);
      StripAddedNuls(name, nuls - 1);
    }
  }

  // ------------------------------------------------------------ single turns

  lemma {:induction false} FieldShows(text: bytes, nuls: nat)
    ensures CString(text + Zeros(nuls)) == CString(text)
    decreases |text|
  {
    var field := text + Zeros(nuls);
    if text == [] {
      assert field == Zeros(nuls);
    } else {
      assert field[1..] == text[1..] + Zeros(nuls);
      FieldShows(text[1..], nuls);
    }
  }

  lemma FieldReadsBack(text: bytes, width: nat)
    requires |text| <= width
    ensures CString(Field(text, width)) == CString(text)
  {
    FieldShows(text, width - |text|);
  }

  lemma SizeReadsBack(size: nat)
    requires size <= MAX_SAFE_INTEGER
    ensures NumericField(SizeField(size)) == Ok(size) && SizeField(size)[0] != 0
  {
    Pow256At11();
    SizeRoundTrip(size);
  }

  /** What the walk makes of a header this writer produced. */
  lemma HeaderReadsBack(rule: PaxRule, file: bytes, position: nat, frame: bytes, name: bytes, prefix: bytes,
                        size: nat, flag: u8)
    requires |frame| == BLOCK && |name| <= 100 && |prefix| <= 155 && size <= MAX_SAFE_INTEGER
    requires position + BLOCK <= |file|
    requires file[position..position + BLOCK] == Header(frame, name, prefix, size, flag)
    ensures IsExtension(flag) ==>
              HeaderAt(rule, file, position) ==
              Extension(size, ExtensionName(rule, flag, PayloadAt(file, position + BLOCK, size)))
    ensures !IsExtension(flag) ==>
              HeaderAt(rule, file, position) == Ordinary(size, Joined(CString(name), CString(prefix)))
  {
    hide NumericField, ExtensionName, SizeField, Field, CString;
    SizeReadsBack(size);
    var block := file[position..position + BLOCK];
    assert block[124] == block[124..136][0];
    FieldReadsBack(name, 100);
    FieldReadsBack(prefix, 155);
  }

  lemma RecordInFile(file: bytes, position: nat, header: bytes, payload: bytes)
    requires |header| == BLOCK && position + |Record(header, payload)| <= |file|
    requires file[position..position + |Record(header, payload)|] == Record(header, payload)
    ensures file[position..position + BLOCK] == header
    ensures PayloadAt(file, position + BLOCK, |payload|) == payload
  {
    var record := Record(header, payload);
    PartOfPart(file, position, record, 0, BLOCK);
    PartOfPart(file, position, record, BLOCK, BLOCK + |payload|);
  }

  lemma ExtensionTurn(rule: PaxRule, file: bytes, position: nat, frame: bytes, payload: bytes, flag: u8,
                      members: seq<Member>)
    requires |frame| == BLOCK && |payload| <= MAX_SAFE_INTEGER && IsExtension(flag)
    requires var record := Record(Header(frame, [], [], |payload|, flag), payload);
             position + |record| <= |file| && file[position..position + |record|] == record
    ensures Walk(rule, file, WalkState(position, None, members))
         == Walk(rule, file,
                 WalkState(position + BLOCK + Padded(|payload|), ExtensionName(rule, flag, payload), members))
  {
    hide HeaderAt, ExtensionName, Header, Record, Walk, Padded, PayloadAt, SizeField, Field;
    var header := Header(frame, [], [], |payload|, flag);
    RecordInFile(file, position, header, payload);
    HeaderReadsBack(rule, file, position, frame, [], [], |payload|, flag);
    WalkPastExtension(rule, file, position, members, |payload|, ExtensionName(rule, flag, payload));
  }

  lemma ExtraTurn(rule: PaxRule, file: bytes, position: nat, item: Item, members: seq<Member>)
    requires item.Valid() && position + |Extra(item)| <= |file|
    requires file[position..position + |Extra(item)|] == Extra(item)
    ensures Walk(rule, file, WalkState(position, None, members))
         == Walk(rule, file, WalkState(position + |Extra(item)|, Pending(rule, item.naming), members))
  {
    hide Walk, AnnouncedPath;
    match item.naming {
      case Pax(_, _, _, _, _) => PaxTurn(rule, file, position, item, members);
      case GnuLong(_, _, _) => LongNameTurn(rule, file, position, item, members);
      case _ =>
    }
  }

  lemma PaxTurn(rule: PaxRule, file: bytes, position: nat, item: Item, members: seq<Member>)
    requires item.Valid() && item.naming.Pax? && position + |Extra(item)| <= |file|
    requires file[position..position + |Extra(item)|] == Extra(item)
    ensures Walk(rule, file, WalkState(position, None, members))
         == Walk(rule, file, WalkState(position + |Extra(item)|, Pending(rule, item.naming), members))
  {
    hide *;
    PaxExtra(rule, item);
    var n := item.naming;
    ExtensionTurn(rule, file, position, item.frame, PaxPayload(n.before, n.digits, n.path, n.rest), 120, members);
  }

  lemma PaxExtra(rule: PaxRule, item: Item)
    requires item.Valid() && item.naming.Pax?
    ensures var n := item.naming;
            var payload := PaxPayload(n.before, n.digits, n.path, n.rest);
            && |item.frame| == BLOCK && IsExtension(120) && |payload| <= MAX_SAFE_INTEGER
            && Extra(item) == Record(Header(item.frame, [], [], |payload|, 120), payload)
            && ExtensionName(rule, 120, payload) == Pending(rule, n)
  {
    hide Record, Header, AnnouncedPath, PaxPayload;
  }

  lemma LongNameTurn(rule: PaxRule, file: bytes, position: nat, item: Item, members: seq<Member>)
    requires item.Valid() && item.naming.GnuLong? && position + |Extra(item)| <= |file|
    requires file[position..position + |Extra(item)|] == Extra(item)
    ensures Walk(rule, file, WalkState(position, None, members))
         == Walk(rule, file, WalkState(position + |Extra(item)|, Pending(rule, item.naming), members))
  {
    hide *;
    LongNameExtra(rule, item);
    var n := item.naming;
    ExtensionTurn(rule, file, position, item.frame, n.longName + Zeros(n.nuls), 76, members);
  }

  lemma LongNameExtra(rule: PaxRule, item: Item)
    requires item.Valid() && item.naming.GnuLong?
    ensures var payload := item.naming.longName + Zeros(item.naming.nuls);
            && |item.frame| == BLOCK && IsExtension(76) && |payload| <= MAX_SAFE_INTEGER
            && Extra(item) == Record(Header(item.frame, [], [], |payload|, 76), payload)
            && ExtensionName(rule, 76, payload) == Pending(rule, item.naming)
  {
    hide Record, Header, StripNuls;
    StripAddedNuls(item.naming.longName, item.naming.nuls);
  }

  lemma OrdinaryTurn(rule: PaxRule, file: bytes, position: nat, frame: bytes, name: bytes, prefix: bytes,
                     payload: bytes, flag: u8, pending: Option<bytes>, members: seq<Member>)
    requires |frame| == BLOCK && |payload| <= MAX_SAFE_INTEGER && !IsExtension(flag)
    requires |name| <= 100 && |prefix| <= 155
    requires var record := Record(Header(frame, name, prefix, |payload|, flag), payload);
             position + |record| <= |file| && file[position..position + |record|] == record
    ensures var read := Joined(CString(name), CString(prefix));
            var found := Member(if pending.Some? then pending.value else read, position + BLOCK, |payload|);
            Walk(rule, file, WalkState(position, pending, members)) ==
            Walk(rule, file, WalkState(position + BLOCK + Padded(|payload|), None, members + [found]))
  {
    hide HeaderAt, Header, Record, Walk, Field, SizeField, Padded, PayloadAt, IsExtension, CString;
    RecordInFile(file, position, Header(frame, name, prefix, |payload|, flag), payload);
    HeaderReadsBack(rule, file, position, frame, name, prefix, |payload|, flag);
    WalkPastOrdinary(rule, file, position, pending, members, |payload|, HeaderAt(rule, file, position).name);
  }

  lemma WalkPastExtension(rule: PaxRule, file: bytes, position: nat, members: seq<Member>, size: nat,
                          name: Option<bytes>)
    requires position + BLOCK <= |file| && HeaderAt(rule, file, position) == Extension(size, name)
    ensures Walk(rule, file, WalkState(position, None, members))
         == Walk(rule, file, WalkState(position + BLOCK + Padded(size), name, members))
  {
    hide HeaderAt, Walk;
    WalkOnce(rule, file, WalkState(position, None, members));
  }

  lemma WalkPastOrdinary(rule: PaxRule, file: bytes, position: nat, pending: Option<bytes>, members: seq<Member>,
                         size: nat, name: bytes)
    requires position + BLOCK <= |file| && HeaderAt(rule, file, position) == Ordinary(size, name)
    ensures var found := Member(if pending.Some? then pending.value else name, position + BLOCK, size);
            Walk(rule, file, WalkState(position, pending, members)) ==
            Walk(rule, file, WalkState(position + BLOCK + Padded(size), None, members + [found]))
  {
    hide HeaderAt, Walk;
    WalkOnce(rule, file, WalkState(position, pending, members));
  }

  lemma WalkOnce(rule: PaxRule, file: bytes, st: WalkState)
    requires Step(rule, file, st).Next? && Step(rule, file, st).state.position > st.position
    ensures Walk(rule, file, st) == Walk(rule, file, Step(rule, file, st).state)
  {
    hide Step;
  }

  lemma FieldsName(rule: PaxRule, item: Item)
    requires item.Valid()
    ensures |item.frame| == BLOCK && |item.payload| <= MAX_SAFE_INTEGER && !IsExtension(item.flag)
    ensures var (name, prefix) := MainFields(item);
            var pending := Pending(rule, item.naming);
            && Main(item) == Record(Header(item.frame, name, prefix, |item.payload|, item.flag), item.payload)
            && ReadName(rule, item) ==
               (if pending.Some? then pending.value else Joined(CString(name), CString(prefix)))
  {
    hide Record, Header;
  }

  lemma MainTurn(rule: PaxRule, file: bytes, position: nat, item: Item, members: seq<Member>)
    requires item.Valid() && position + |Main(item)| <= |file|
    requires file[position..position + |Main(item)|] == Main(item)
    ensures Walk(rule, file, WalkState(position, Pending(rule, item.naming), members))
         == Walk(rule, file, WalkState(position + |Main(item)|, None,
                                       members + [Member(ReadName(rule, item), position + BLOCK, |item.payload|)]))
  {
    hide *;
    var pending := Pending(rule, item.naming);
    var (name, prefix) := MainFields(item);
    FieldsName(rule, item);
    OrdinaryTurn(rule, file, position, item.frame, name, prefix, item.payload, item.flag, pending, members);
  }

  /** Where the parts of the first item lie, and that the others follow. */
  lemma FirstItemInFile(file: bytes, position: nat, items: seq<Item>)
    requires items != [] && AllValid(items) && position + |WriteAll(items)| <= |file|
    requires file[position..position + |WriteAll(items)|] == WriteAll(items)
    ensures AllValid(items[1..]) && |WriteItem(items[0])| == |Extra(items[0])| + |Main(items[0])|
    ensures |WriteAll(items)| == |WriteItem(items[0])| + |WriteAll(items[1..])|
    ensures var e, w := |Extra(items[0])|, |WriteItem(items[0])|;
            && file[position..position + e] == Extra(items[0])
            && file[position + e..position + w] == Main(items[0])
            && file[position + w..position + |WriteAll(items)|] == WriteAll(items[1..])
  {
    hide *;
    ItemsUnfold(items);
    ThreeParts(file, position, Extra(items[0]), Main(items[0]), WriteAll(items[1..]));
  }

  lemma ItemsUnfold(items: seq<Item>)
    requires items != [] && AllValid(items)
    ensures items[0].Valid() && AllValid(items[1..])
    ensures WriteItem(items[0]) == Extra(items[0]) + Main(items[0])
    ensures WriteAll(items) == (Extra(items[0]) + Main(items[0])) + WriteAll(items[1..])
  {
    hide Extra, Main;
  }

  lemma ThreeParts(file: bytes, position: nat, a: bytes, b: bytes, c: bytes)
    requires position + |a + b + c| <= |file| && file[position..position + |a + b + c|] == (a + b) + c
    ensures var e, w := |a|, |a| + |b|;
            && file[position..position + e] == a && file[position + e..position + w] == b
            && file[position + w..position + w + |c|] == c
  {
    var all := (a + b) + c;
    PartOfPart(file, position, all, 0, |a|);
    PartOfPart(file, position, all, |a|, |a| + |b|);
    PartOfPart(file, position, all, |a| + |b|, |all|);
  }

  lemma {:induction false} WalkUndoesFrom(rule: PaxRule, file: bytes, position: nat, items: seq<Item>,
                                          members: seq<Member>)
    requires AllValid(items) && position + |WriteAll(items)| <= |file|
    requires file[position..position + |WriteAll(items)|] == WriteAll(items)
    requires EndsAt(file, position + |WriteAll(items)|)
    ensures Walk(rule, file, WalkState(position, None, members)) == Members(members + Locations(rule, items, position))
    decreases |items|
  {
    hide Walk, Extra, Main, EndsAt, WriteItem, ReadName, Pending, AnnouncedPath;
    if items == [] {
      EndTurn(rule, file, position, members);
      assert members + Locations(rule, items, position) == members;
    } else {
      var item := items[0];
      var e, w := |Extra(item)|, |WriteItem(item)|;
      FirstItemInFile(file, position, items);
      ExtraTurn(rule, file, position, item, members);
      MainTurn(rule, file, position + e, item, members);
      var found := Member(ReadName(rule, item), position + e + BLOCK, |item.payload|);
      WalkUndoesFrom(rule, file, position + w, items[1..], members + [found]);
      var later := Locations(rule, items[1..], position + w);
      assert members + [found] + later == members + Locations(rule, items, position);
    }
  }

  lemma EndTurn(rule: PaxRule, file: bytes, position: nat, members: seq<Member>)
    requires EndsAt(file, position)
    ensures Walk(rule, file, WalkState(position, None, members)) == Members(members)
  {
  }

  /**
   * The walk undoes the writer: for every list of members in any mix of naming styles, with any
   * payloads and any other header bytes, it finds each in order with its size, its payload offset
   * and the name its own headers give it, and a long name reaches its own member only.
   */
  lemma WalkUndoesWriter(rule: PaxRule, items: seq<Item>, tail: bytes)
    requires AllValid(items)
    requires |tail| < BLOCK || AllZero(tail[..BLOCK])
    ensures Walk(rule, WriteAll(items) + tail, Start()) == Members(Locations(rule, items, 0))
  {
    hide Walk, WriteAll, Locations;
    var file := WriteAll(items) + tail;
    assert file[0..0 + |WriteAll(items)|] == WriteAll(items);
    if |tail| >= BLOCK {
      assert file[|WriteAll(items)|..|WriteAll(items)| + BLOCK] == tail[..BLOCK];
    }
    WalkUndoesFrom(rule, file, 0, items, []);
    assert [] + Locations(rule, items, 0) == Locations(rule, items, 0);
  }

  // -------------------------------------------------------- names that survive

  /** Read under this rule, the member is called what its writer called it. */
  predicate Survives(rule: PaxRule, item: Item)
    requires item.Valid()
  {
    ReadName(rule, item) == item.naming.FullName()
  }

  /** The locations with the names the writer meant. */
  function Intended(items: seq<Item>, position: nat): (members: seq<Member>)
    requires AllValid(items)
    ensures |members| == |items|
  {
    if items == [] then []
    else
      var payloadAt := position + |Extra(items[0])| + BLOCK;
      [Member(items[0].naming.FullName(), payloadAt, |items[0].payload|)]
      + Intended(items[1..], position + |WriteItem(items[0])|)
  }

  lemma {:induction false} IntendedExactly(rule: PaxRule, items: seq<Item>, position: nat)
    requires AllValid(items)
    ensures Locations(rule, items, position) == Intended(items, position) <==>
            forall i :: 0 <= i < |items| ==> Survives(rule, items[i])
    decreases |items|
  {
    hide Extra, Main, WriteItem, ReadName;
    if items != [] {
      var later := position + |WriteItem(items[0])|;
      IntendedExactly(rule, items[1..], later);
      var found, meant := Locations(rule, items, position), Intended(items, position);
      assert found[1..] == Locations(rule, items[1..], later) && meant[1..] == Intended(items[1..], later);
      assert found == [found[0]] + found[1..] && meant == [meant[0]] + meant[1..];
      assert forall i :: 0 < i < |items| ==> items[i] == items[1..][i - 1];
      assert forall i :: 0 <= i < |items[1..]| ==> items[1..][i] == items[i + 1];
    }
  }

  /** The walk gives back the writer's names, sizes and offsets if and only if every name survives. */
  lemma NamesComeBackExactly(rule: PaxRule, items: seq<Item>, tail: bytes)
    requires AllValid(items) && (|tail| < BLOCK || AllZero(tail[..BLOCK]))
    ensures Walk(rule, WriteAll(items) + tail, Start()) == Members(Intended(items, 0)) <==>
            forall i :: 0 <= i < |items| ==> Survives(rule, items[i])
  {
    hide *;
    WalkUndoesWriter(rule, items, tail);
    IntendedExactly(rule, items, 0);
  }

  /** By pattern a name survives exactly unless it is in a pax header and holds a line end. */
  lemma PatternSurvivesExactly(item: Item)
    requires item.Valid()
    requires item.naming.Pax? ==> PaxPath(item.naming.before) == None && NoLineEnd(item.naming.stub)
    ensures Survives(Pattern, item) <==> (item.naming.Pax? ==> NoLineEnd(item.naming.path))
  {
    hide PaxPath, NoLineEnd, PaxPayload;
    match item.naming {
      case Pax(before, digits, path, rest, stub) =>
        var payload := PaxPayload(before, digits, path, rest);
        PaxPathExact(before, digits, path, rest);
        PathHasNoLineEnd(payload);
        PrefixHasNone(stub, |CString(stub)|);
      case Short(name) => CStringWhole(name);
      case Divided(prefix, base) =>
        CStringWhole(prefix);
        CStringWhole(base);
      case GnuLong(_, _, _) =>
    }
  }

  /** So does every name without a line end, whatever the header shows besides. */
  lemma OneLineSurvives(item: Item)
    requires item.Valid() && NoLineEnd(item.naming.FullName())
    requires item.naming.Pax? ==> PaxPath(item.naming.before) == None
    ensures Survives(Pattern, item)
  {
    hide PaxPath, NoLineEnd, PaxPayload;
    match item.naming {
      case Pax(before, digits, path, rest, _) => PaxPathExact(before, digits, path, rest);
      case Short(name) => CStringWhole(name);
      case Divided(prefix, base) =>
        CStringWhole(prefix);
        CStringWhole(base);
      case GnuLong(_, _, _) =>
    }
  }

  lemma CStringWhole(text: bytes)
    requires NUL !in text
    ensures CString(text) == text
  {
    CStringStops(text, []);
    assert text + [] == text;
  }

  /** The record says how long it is. */
  predicate SaysItsLength(digits: bytes, path: bytes) {
    DecimalValue(digits) == |PathRecord(digits, path, [])|
  }

  /** By length a name survives exactly unless another record follows it and it takes several bytes a character. */
  lemma LengthSurvivesExactly(item: Item)
    requires item.Valid()
    requires item.naming.Pax? ==>
               item.naming.before == [] && SaysItsLength(item.naming.digits, item.naming.path)
    ensures Survives(Length, item) <==>
            (item.naming.Pax? ==> item.naming.rest == [] || SingleBytes(item.naming.path))
  {
    hide ParsePaxPath, DecimalValue, PathRecord;
    match item.naming {
      case Pax(before, digits, path, rest, stub) =>
        assert PaxPayload(before, digits, path, rest) == PathRecord(digits, path, rest);
        LengthReadExact(digits, path, rest);
        LengthReads(digits, path, rest);
      case Short(name) => CStringWhole(name);
      case Divided(prefix, base) =>
        CStringWhole(prefix);
        CStringWhole(base);
      case GnuLong(_, _, _) =>
    }
  }

  /** Every location names its member and points at exactly its payload. */
  lemma {:induction false} LocationsPointAtPayloads(rule: PaxRule, file: bytes, position: nat, items: seq<Item>, i: nat)
    requires AllValid(items) && i < |items| && position + |WriteAll(items)| <= |file|
    requires file[position..position + |WriteAll(items)|] == WriteAll(items)
    ensures var found := Locations(rule, items, position)[i];
            && found.name == ReadName(rule, items[i])
            && found.size == |items[i].payload|
            && position < found.offset && found.offset + found.size <= |file|
            && file[found.offset..found.offset + found.size] == items[i].payload
    decreases |items|
  {
    hide Extra, Main, WriteItem, ReadName;
    var item := items[0];
    var e, w := |Extra(item)|, |WriteItem(item)|;
    FirstItemInFile(file, position, items);
    if i == 0 {
      MainHoldsPayload(item);
      PartOfPart(file, position + e, Main(item), BLOCK, BLOCK + |item.payload|);
    } else {
      LocationsPointAtPayloads(rule, file, position + w, items[1..], i - 1);
    }
  }

  lemma MainHoldsPayload(item: Item)
    requires item.Valid()
    ensures |Main(item)| == BLOCK + Padded(|item.payload|)
    ensures Main(item)[BLOCK..BLOCK + |item.payload|] == item.payload
  {
    hide Record, Header;
  }

  /** No two members share an offset: each one has a header of its own. */
  lemma {:induction false} LocationsAscend(rule: PaxRule, items: seq<Item>, position: nat, i: nat, j: nat)
    requires AllValid(items) && i < j < |items|
    ensures position < Locations(rule, items, position)[i].offset < Locations(rule, items, position)[j].offset
    decreases |items|
  {
    hide Extra, Main, ReadName;
    var next := position + |WriteItem(items[0])|;
    if i > 0 {
      LocationsAscend(rule, items[1..], next, i - 1, j - 1);
    } else {
      AfterStart(rule, items[1..], next, j - 1);
      MainHoldsPayload(items[0]);
    }
  }

  lemma {:induction false} AfterStart(rule: PaxRule, items: seq<Item>, position: nat, i: nat)
    requires AllValid(items) && i < |items|
    ensures position + BLOCK <= Locations(rule, items, position)[i].offset
  {
    hide Extra, Main, ReadName;
    if i > 0 {
      AfterStart(rule, items[1..], position + |WriteItem(items[0])|, i - 1);
    }
  }
}
