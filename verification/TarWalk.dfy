/** The header walk: it finds every member of a TAR without reading ordinary payloads. */
module TarWalk {
  import opened Bytes
  import opened TarNumeric
  import opened PaxNames

  const BLOCK := 512

  datatype Member = Member(name: bytes, offset: nat, size: int)

  datatype WalkState = WalkState(position: int, paxName: Option<bytes>, members: seq<Member>)

  /** One turn of the loop: it ends, throws, or moves on. */
  datatype Turn = Stop | Raise(error: TarError) | Next(state: WalkState)

  /**
   * The whole loop. NoProgress is the one thing added: it marks the first header whose size
   * moves the walk to or before its own position, where the source goes on without a check.
   */
  datatype Outcome =
    | Members(members: seq<Member>)
    | Threw(error: TarError)
    | NoProgress(position: int, members: seq<Member>)

  function Start(): WalkState {
    WalkState(0, None, [])
  }

  /** The size rounded towards plus infinity to a multiple of a block. */
  function Padded(size: int): (padded: int)
    ensures padded % BLOCK == 0 && size <= padded < size + BLOCK
  {
    -((-size) / BLOCK) * BLOCK
  }

  predicate AllZero(block: bytes) {
    forall i :: 0 <= i < |block| ==> block[i] == 0
  }

  predicate IsExtension(flag: u8) {
    flag == 120 || flag == 88 || flag == 76 // x, X, L
  }

  /** A buffer of `size` bytes filled from the file, zero where the file has ended. */
  function PayloadAt(file: bytes, offset: nat, size: nat): (payload: bytes)
    ensures |payload| == size
  {
    if offset + size <= |file| then file[offset..offset + size]
    else if offset <= |file| then file[offset..] + Zeros(offset + size - |file|)
    else Zeros(size)
  }

  function StripNuls(text: bytes): bytes {
    if text != [] && text[|text| - 1] == NUL then StripNuls(text[..|text| - 1]) else text
  }

  function ExtensionName(rule: PaxRule, flag: u8, payload: bytes): Option<bytes> {
    if flag == 76 then Some(StripNuls(payload)) else AnnouncedPath(rule, payload)
  }

  function HeaderName(block: bytes): bytes
    requires |block| == BLOCK
  {
    var prefix := CString(block[345..500]);
    if prefix != [] then prefix + [SLASH] + CString(block[..100]) else CString(block[..100])
  }

  /** What one header block says, with the name an extension header announces already decoded. */
  datatype Header =
    | EndMark
    | Unreadable(error: TarError)
    | Extension(length: nat, announced: Option<bytes>)
    | Ordinary(size: int, name: bytes)

  function HeaderAt(rule: PaxRule, file: bytes, position: nat): Header
    requires position + BLOCK <= |file|
  {
    var block := file[position..position + BLOCK];
    if AllZero(block) then EndMark
    else
      match NumericField(block[124..136])
      case Err(error) => Unreadable(error)
      case Ok(size) =>
        if !IsExtension(block[156]) then Ordinary(size, HeaderName(block))
        else if size < 0 then Unreadable(NegativeLength)
        else Extension(size, ExtensionName(rule, block[156], PayloadAt(file, position + BLOCK, size)))
  }

  /** A pending long name goes to the first ordinary member after it, and to no other. */
  function Step(rule: PaxRule, file: bytes, st: WalkState): Turn {
    if st.position + BLOCK > |file| then Stop
    else if st.position < 0 then Raise(NegativePosition)
    else
      var dataOffset := st.position + BLOCK;
      match HeaderAt(rule, file, st.position)
      case EndMark => Stop
      case Unreadable(error) => Raise(error)
      case Extension(size, name) => Next(WalkState(dataOffset + Padded(size), name, st.members))
      case Ordinary(size, name) =>
        var member := Member(if st.paxName.Some? then st.paxName.value else name, dataOffset, size);
        Next(WalkState(dataOffset + Padded(size), None, st.members + [member]))
  }

  function Walk(rule: PaxRule, file: bytes, st: WalkState): Outcome
    decreases if |file| >= st.position then |file| - st.position else 0
  {
    match Step(rule, file, st)
    case Stop => Members(st.members)
    case Raise(error) => Threw(error)
    case Next(next) =>
      if next.position <= st.position then NoProgress(st.position, next.members) else Walk(rule, file, next)
  }

  method WalkMembers(file: bytes) returns (outcome: Outcome)
    ensures outcome == Walk(Pattern, file, Start())
  {
    hide NumericField, ExtensionName, HeaderName, PayloadAt, AllZero, IsExtension;
    var members: seq<Member> := [];
    var position := 0;
    var paxName: Option<bytes> := None;
    while position + BLOCK <= |file|
      invariant 0 <= position
      invariant Walk(Pattern, file, WalkState(position, paxName, members)) == Walk(Pattern, file, Start())
      decreases |file| - position
    {
      var block := file[position..position + BLOCK];
      if AllZero(block) {
        break;
      }
      var size := ReadNumeric(block, 124, 12);
      if size.Err? {
        return Threw(size.error);
      }
      var typeFlag := block[156];
      var dataOffset := position + BLOCK;
      var next := dataOffset + Padded(size.value);
      if IsExtension(typeFlag) {
        if size.value < 0 {
          return Threw(NegativeLength);
        }
        var payload := PayloadAt(file, dataOffset, size.value);
        paxName := ExtensionName(Pattern, typeFlag, payload);
        position := next;
      } else {
        var name := if paxName.Some? then paxName.value else HeaderName(block);
        paxName := None;
        members := members + [Member(name, dataOffset, size.value)];
        if next <= position {
          return NoProgress(position, members);
        }
        position := next;
      }
    }
    outcome := Members(members);
  }

  // ---------------------------------------------------------------- progress

  /** The state after `n` unchecked turns, or how the loop ended before. */
  function Run(rule: PaxRule, file: bytes, st: WalkState, n: nat): Turn {
    if n == 0 then Next(st)
    else
      match Run(rule, file, st, n - 1)
      case Next(last) => Step(rule, file, last)
      case ended => ended
  }

  lemma {:induction false} RunFirst(rule: PaxRule, file: bytes, st: WalkState, n: nat)
    requires Step(rule, file, st).Next?
    ensures Run(rule, file, st, n + 1) == Run(rule, file, Step(rule, file, st).state, n)
  {
    hide Step;
    if n > 0 {
      RunFirst(rule, file, st, n - 1);
    } else {
      assert Run(rule, file, st, 0) == Next(st);
    }
  }

  /** How many turns are left at `position` when each one advances by a block or more. */
  function TurnsLeft(file: bytes, position: int): nat
    decreases if |file| >= position then |file| - position else 0
  {
    if position + BLOCK > |file| then 1 else 1 + TurnsLeft(file, position + BLOCK)
  }

  lemma {:induction false} TurnsLeftShrinks(file: bytes, position: int, later: int)
    requires position + BLOCK <= later && position + BLOCK <= |file|
    ensures TurnsLeft(file, later) + 1 <= TurnsLeft(file, position)
    decreases later - position
  {
    if later < position + 2 * BLOCK {
      TurnsLeftMonotone(file, position + BLOCK, later);
    } else if later - BLOCK + BLOCK <= |file| {
      TurnsLeftShrinks(file, position, later - BLOCK);
    } else {
      assert TurnsLeft(file, later) == 1;
    }
  }

  lemma {:induction false} TurnsLeftMonotone(file: bytes, position: int, later: int)
    requires position <= later
    ensures TurnsLeft(file, later) <= TurnsLeft(file, position)
    decreases |file| - position
  {
    if later + BLOCK <= |file| {
      TurnsLeftMonotone(file, position + BLOCK, later + BLOCK);
    }
  }

  /**
   * A turn stays put or goes back exactly when it met an ordinary header of size -512 or less;
   * every other turn moves a whole number of blocks, at least one.
   */
  lemma ProgressExact(rule: PaxRule, file: bytes, st: WalkState)
    requires Step(rule, file, st).Next?
    ensures var next := Step(rule, file, st).state.position;
            var header := HeaderAt(rule, file, st.position);
            && (next <= st.position <==> header.Ordinary? && header.size <= -512)
            && (next > st.position ==> next >= st.position + 512)
            && (next - st.position) % 512 == 0
  {
    hide HeaderAt;
  }

  /**
   * What a header is taken for, by its flag: x and X announce a path in their payload, L announces it as the
   * payload itself, every other flag is a member's own.
   */
  lemma HeaderKindExact(rule: PaxRule, file: bytes, position: nat)
    requires position + 512 <= |file| && !AllZero(file[position..position + 512])
    requires NumericField(file[position + 124..position + 136]).Ok?
    ensures var size, flag, header := NumericField(file[position + 124..position + 136]).value, file[position + 156],
                                      HeaderAt(rule, file, position);
            if flag !in {120, 88, 76} then header.Ordinary? && header.size == size
            else if size < 0 then header == Unreadable(NegativeLength)
            else
              header == Extension(size, var payload := PayloadAt(file, position + 512, size);
                                        if flag == 76 then Some(StripNuls(payload)) else AnnouncedPath(rule, payload))
  {
    hide NumericField, HeaderName, StripNuls, PayloadAt, AllZero;
    PartOfPart(file, position, file[position..position + 512], 124, 136);
  }

  /** Unless it stops progressing, the loop ends after at most one turn per block of the file. */
  lemma {:induction false} Terminates(rule: PaxRule, file: bytes, st: WalkState)
    requires 0 <= st.position && !Walk(rule, file, st).NoProgress?
    ensures !Run(rule, file, st, TurnsLeft(file, st.position)).Next?
    ensures exists n :: 0 < n <= TurnsLeft(file, st.position) && Run(rule, file, st, n) ==
              (match Walk(rule, file, st) case Threw(error) => Raise(error) case _ => Stop)
    decreases |file| - st.position
  {
    hide Step, TurnsLeft;
    TurnsLeftPositive(rule, file, st);
    assert Run(rule, file, st, 0) == Next(st);
    assert Run(rule, file, st, 1) == Step(rule, file, st);
    if Step(rule, file, st).Next? {
      var next := Step(rule, file, st).state;
      ProgressExact(rule, file, st);
      Terminates(rule, file, next);
      TurnsLeftShrinks(file, st.position, next.position);
      var n :| 0 < n <= TurnsLeft(file, next.position) && Run(rule, file, next, n) ==
        (match Walk(rule, file, next) case Threw(error) => Raise(error) case _ => Stop);
      RunFirst(rule, file, st, n);
      EndedStays(rule, file, st, n + 1, TurnsLeft(file, st.position));
    } else {
      EndedStays(rule, file, st, 1, TurnsLeft(file, st.position));
    }
  }

  lemma TurnsLeftPositive(rule: PaxRule, file: bytes, st: WalkState)
    ensures TurnsLeft(file, st.position) > 0
    ensures Step(rule, file, st).Next? ==> st.position + BLOCK <= |file|
  {
    hide HeaderAt;
  }

  lemma {:induction false} EndedStays(rule: PaxRule, file: bytes, st: WalkState, n: nat, later: nat)
    requires n <= later && !Run(rule, file, st, n).Next?
    ensures Run(rule, file, st, later) == Run(rule, file, st, n)
  {
    hide Step;
    if n < later {
      EndedStays(rule, file, st, n, later - 1);
    }
  }

  /**
   * Why sizes have to be non-negative: an ordinary header whose size lies in (-1024, -512]
   * points back at itself, so the loop adds a member on every turn and never ends.
   */
  lemma {:induction false} SelfReferenceNeverEnds(rule: PaxRule, file: bytes, st: WalkState, n: nat)
    requires 0 <= st.position && st.position + BLOCK <= |file| && HeaderAt(rule, file, st.position).Ordinary?
    requires -1024 < HeaderAt(rule, file, st.position).size <= -512
    ensures Run(rule, file, st, n).Next?
    ensures Run(rule, file, st, n).state.position == st.position
    ensures |Run(rule, file, st, n).state.members| == |st.members| + n
  {
    hide HeaderAt;
    if n > 0 {
      SelfReferenceNeverEnds(rule, file, st, n - 1);
    }
  }

  /** Where the unchecked loop looks next; it depends on the position alone. */
  function NextPosition(rule: PaxRule, file: bytes, position: int): Option<int> {
    if position + BLOCK > |file| || position < 0 then None
    else
      match HeaderAt(rule, file, position)
      case Extension(size, _) => Some(position + BLOCK + Padded(size))
      case Ordinary(size, _) => Some(position + BLOCK + Padded(size))
      case _ => None
  }

  /** The position after `n` unchecked turns, if there are that many. */
  function Orbit(rule: PaxRule, file: bytes, position: int, n: nat): Option<int> {
    if n == 0 then Some(position)
    else
      match Orbit(rule, file, position, n - 1)
      case None => None
      case Some(last) => NextPosition(rule, file, last)
  }

  lemma {:induction false} RunFollowsOrbit(rule: PaxRule, file: bytes, st: WalkState, n: nat)
    ensures Run(rule, file, st, n).Next? <==> Orbit(rule, file, st.position, n).Some?
    ensures Run(rule, file, st, n).Next? ==>
              Orbit(rule, file, st.position, n) == Some(Run(rule, file, st, n).state.position)
  {
    hide HeaderAt;
    if n > 0 {
      RunFollowsOrbit(rule, file, st, n - 1);
    }
  }

  ghost predicate NeverEnds(rule: PaxRule, file: bytes, st: WalkState) {
    forall n: nat :: Run(rule, file, st, n).Next?
  }

  /** Two of the first turns look at the same position. */
  ghost predicate Recurs(rule: PaxRule, file: bytes, position: int) {
    exists i: nat, j: nat :: i < j <= |file| && Orbit(rule, file, position, i).Some?
                             && Orbit(rule, file, position, i) == Orbit(rule, file, position, j)
  }

  lemma {:induction false} OrbitRepeats(rule: PaxRule, file: bytes, position: int, i: nat, j: nat, n: nat)
    requires i < j && Orbit(rule, file, position, i).Some?
    requires Orbit(rule, file, position, i) == Orbit(rule, file, position, j)
    ensures Orbit(rule, file, position, n).Some?
    ensures n >= j ==> Orbit(rule, file, position, n) == Orbit(rule, file, position, n - (j - i))
    decreases n
  {
    hide NextPosition;
    if n > j {
      OrbitRepeats(rule, file, position, i, j, n - 1);
      OrbitRepeats(rule, file, position, i, j, n - (j - i));
    } else {
      OrbitBefore(rule, file, position, n, j);
    }
  }

  lemma {:induction false} OrbitBefore(rule: PaxRule, file: bytes, position: int, n: nat, later: nat)
    requires n <= later && Orbit(rule, file, position, later).Some?
    ensures Orbit(rule, file, position, n).Some?
    decreases later
  {
    hide NextPosition;
    if n < later {
      OrbitBefore(rule, file, position, n, later - 1);
    }
  }

  /** More numbers below a bound than the bound: two of them are equal. */
  lemma {:induction false} Pigeonhole(numbers: seq<int>, bound: nat) returns (i: nat, j: nat)
    requires |numbers| > bound && forall k :: 0 <= k < |numbers| ==> 0 <= numbers[k] < bound
    ensures i < j < |numbers| && numbers[i] == numbers[j]
    decreases bound
  {
    var last := |numbers| - 1;
    if k :| 0 <= k < last && numbers[k] == numbers[last] {
      i, j := k, last;
    } else {
      var top, fewer := bound - 1, numbers[..last];
      var moved := seq(last, k requires 0 <= k < last => if fewer[k] == top then numbers[last] else fewer[k]);
      i, j := Pigeonhole(moved, top);
    }
  }

  /** The unchecked loop never ends if and only if it looks at some position twice. */
  lemma NeverEndsExactly(rule: PaxRule, file: bytes, st: WalkState)
    ensures NeverEnds(rule, file, st) <==> Recurs(rule, file, st.position)
  {
    hide Run, Orbit;
    var position := st.position;
    if Recurs(rule, file, position) {
      var i: nat, j: nat :| i < j <= |file| && Orbit(rule, file, position, i).Some?
                            && Orbit(rule, file, position, i) == Orbit(rule, file, position, j);
      forall n: nat ensures Run(rule, file, st, n).Next? {
        OrbitRepeats(rule, file, position, i, j, n);
        RunFollowsOrbit(rule, file, st, n);
      }
    }
    if NeverEnds(rule, file, st) {
      forall n: nat ensures Orbit(rule, file, position, n).Some? && 0 <= Orbit(rule, file, position, n).value < |file| {
        assert Run(rule, file, st, n).Next? && Run(rule, file, st, n + 1).Next?;
        RunFollowsOrbit(rule, file, st, n);
        RunFollowsOrbit(rule, file, st, n + 1);
        OrbitGoesOn(rule, file, position, n);
      }
      var i, j := Pigeonhole(seq(|file| + 1, n requires 0 <= n => Orbit(rule, file, position, n).value), |file|);
      assert Orbit(rule, file, position, i).Some? && Orbit(rule, file, position, i) == Orbit(rule, file, position, j);
    }
  }

  lemma OrbitGoesOn(rule: PaxRule, file: bytes, position: int, n: nat)
    requires Orbit(rule, file, position, n + 1).Some?
    ensures Orbit(rule, file, position, n).Some? && 0 <= Orbit(rule, file, position, n).value < |file|
  {
  }

  /** And then the checked walk has met a header that does not advance. */
  lemma NeverEndingIsReported(rule: PaxRule, file: bytes)
    requires NeverEnds(rule, file, Start())
    ensures Walk(rule, file, Start()).NoProgress?
  {
    if !Walk(rule, file, Start()).NoProgress? {
      Terminates(rule, file, Start());
    }
  }

  // ------------------------------------------------------------------ layout

  /** Members in file order: block-aligned, and each padded payload ends before the next header. */
  predicate LaidOut(members: seq<Member>, from: int) {
    members == [] ||
    (var m := members[0];
     && m.offset % BLOCK == 0
     && m.offset >= from + BLOCK
     && m.size > -BLOCK
     && LaidOut(members[1..], m.offset + Padded(m.size)))
  }

  lemma {:induction false} WalkLaysOut(rule: PaxRule, file: bytes, st: WalkState)
    requires 0 <= st.position && st.position % BLOCK == 0 && Walk(rule, file, st).Members?
    ensures st.members <= Walk(rule, file, st).members
    ensures LaidOut(Walk(rule, file, st).members[|st.members|..], st.position)
    decreases |file| - st.position
  {
    hide HeaderAt;
    if Step(rule, file, st).Next? {
      var next := Step(rule, file, st).state;
      WalkLaysOut(rule, file, next);
      var all := Walk(rule, file, st).members;
      var k := |st.members|;
      if |next.members| > k {
        assert all[k] == next.members[k];
        assert all[k..][1..] == all[k + 1..];
      } else {
        LaidOutLater(all[k..], next.position, st.position);
      }
    }
  }

  lemma LaidOutLater(members: seq<Member>, from: int, earlier: int)
    requires LaidOut(members, from) && earlier <= from
    ensures LaidOut(members, earlier)
  {
  }

  /** For every file the walk accepts: no two members overlap, not even in padding and headers. */
  lemma {:induction false} MembersDisjoint(members: seq<Member>, from: int, i: nat, j: nat)
    requires LaidOut(members, from) && i < j < |members|
    ensures members[i].offset + Padded(members[i].size) + 512 <= members[j].offset
    ensures members[i].offset + members[i].size + 512 <= members[j].offset
    ensures members[i].offset % 512 == 0 && members[i].offset < members[j].offset
    decreases j
  {
    var m := members[0];
    if i > 0 {
      MembersDisjoint(members[1..], m.offset + Padded(m.size), i - 1, j - 1);
    } else if j > 1 {
      MembersDisjoint(members[1..], m.offset + Padded(m.size), 0, j - 1);
    }
  }

  // -------------------------------------------------------- payloads ignored

  /** The bytes the walk looks at from `st` on: headers and extension payloads, and what ends it. */
  predicate AgreeOutside(file: bytes, other: bytes, members: seq<Member>, from: nat)
    requires |file| == |other|
  {
    forall p :: from <= p < |file| && !InPayload(members, p) ==> file[p] == other[p]
  }

  predicate InPayload(members: seq<Member>, p: int) {
    exists i :: 0 <= i < |members| && members[i].offset <= p < members[i].offset + Padded(members[i].size)
  }

  lemma {:induction false} LaidOutBounds(members: seq<Member>, from: int, i: nat)
    requires LaidOut(members, from) && i < |members|
    ensures members[i].offset >= from + BLOCK
  {
    if i > 0 {
      LaidOutBounds(members[1..], members[0].offset + Padded(members[0].size), i - 1);
    }
  }

  /** A header depends on its own block and, for an extension, on the payload announced there. */
  lemma HeaderDepends(rule: PaxRule, file: bytes, other: bytes, position: nat)
    requires |file| == |other| && position + BLOCK <= |file|
    requires forall p :: position <= p < position + BLOCK ==> file[p] == other[p]
    requires HeaderAt(rule, file, position).Extension? ==>
               var length := HeaderAt(rule, file, position).length;
               forall p :: position + BLOCK <= p < position + BLOCK + length && p < |file| ==> file[p] == other[p]
    ensures HeaderAt(rule, other, position) == HeaderAt(rule, file, position)
  {
    hide NumericField, ExtensionName, HeaderName;
    assert file[position..position + BLOCK] == other[position..position + BLOCK];
    match HeaderAt(rule, file, position) {
      case Extension(size, _) =>
        assert PayloadAt(file, position + BLOCK, size) == PayloadAt(other, position + BLOCK, size);
      case _ =>
    }
  }

  /** Rewriting ordinary payload bytes never changes what the walk finds. */
  lemma {:induction false} PayloadsIgnored(rule: PaxRule, file: bytes, other: bytes, st: WalkState)
    requires |file| == |other| && 0 <= st.position && st.position % BLOCK == 0
    requires Walk(rule, file, st).Members?
    requires st.members <= Walk(rule, file, st).members
    requires AgreeOutside(file, other, Walk(rule, file, st).members[|st.members|..], st.position)
    ensures Walk(rule, other, st) == Walk(rule, file, st)
    decreases |file| - st.position
  {
    hide HeaderAt, Step, LaidOut;
    SameStep(rule, file, other, st);
    if Step(rule, file, st).Next? {
      StepInside(rule, file, st);
      ProgressExact(rule, file, st);
      AgreeAfter(rule, file, other, st);
      PayloadsIgnored(rule, file, other, Step(rule, file, st).state);
    }
  }

  lemma StepInside(rule: PaxRule, file: bytes, st: WalkState)
    requires Step(rule, file, st).Next?
    ensures st.position + BLOCK <= |file|
  {
    hide HeaderAt;
  }

  lemma SameStep(rule: PaxRule, file: bytes, other: bytes, st: WalkState)
    requires |file| == |other| && 0 <= st.position && st.position % BLOCK == 0
    requires Walk(rule, file, st).Members?
    requires st.members <= Walk(rule, file, st).members
    requires AgreeOutside(file, other, Walk(rule, file, st).members[|st.members|..], st.position)
    ensures Step(rule, other, st) == Step(rule, file, st)
  {
    hide HeaderAt, Walk;
    if st.position + BLOCK <= |file| {
      var ahead := Walk(rule, file, st).members[|st.members|..];
      WalkLaysOut(rule, file, st);
      forall p | st.position <= p < st.position + BLOCK ensures file[p] == other[p] {
        NotAhead(ahead, st.position, p);
      }
      if Step(rule, file, st).Next? {
        AgreeAfter(rule, file, other, st);
      }
      HeaderDepends(rule, file, other, st.position);
    }
  }

  lemma AgreeAfter(rule: PaxRule, file: bytes, other: bytes, st: WalkState)
    requires |file| == |other| && 0 <= st.position && st.position % BLOCK == 0
    requires Walk(rule, file, st).Members? && Step(rule, file, st).Next?
    requires st.members <= Walk(rule, file, st).members
    requires AgreeOutside(file, other, Walk(rule, file, st).members[|st.members|..], st.position)
    ensures var next := Step(rule, file, st).state;
            && next.members <= Walk(rule, file, st).members
            && AgreeOutside(file, other, Walk(rule, file, st).members[|next.members|..], next.position)
    ensures HeaderAt(rule, file, st.position).Extension? ==>
              var length := HeaderAt(rule, file, st.position).length;
              forall p :: st.position + BLOCK <= p < st.position + BLOCK + length && p < |file| ==>
                            file[p] == other[p]
  {
    hide HeaderAt;
    var next := Step(rule, file, st).state;
    var all := Walk(rule, file, st).members;
    var ahead := all[|st.members|..];
    ProgressExact(rule, file, st);
    WalkLaysOut(rule, file, next);
    if |next.members| > |st.members| {
      assert ahead[0] == next.members[|st.members|];
      assert all[|next.members|..] == ahead[1..];
      forall p | next.position <= p < |file| && !InPayload(ahead[1..], p) ensures file[p] == other[p] {
        OnlyTail(ahead, p);
      }
    } else {
      forall p | st.position + BLOCK <= p < |file| && p < next.position ensures file[p] == other[p] {
        NotAhead(ahead, next.position, p);
      }
    }
  }

  lemma NotAhead(members: seq<Member>, from: int, p: int)
    requires LaidOut(members, from) && p < from + BLOCK
    ensures !InPayload(members, p)
  {
    forall i | 0 <= i < |members| ensures p < members[i].offset {
      LaidOutBounds(members, from, i);
    }
  }

  lemma OnlyTail(members: seq<Member>, p: int)
    requires members != [] && p >= members[0].offset + Padded(members[0].size)
    requires !InPayload(members[1..], p)
    ensures !InPayload(members, p)
  {
    forall i | 0 <= i < |members| ensures !(members[i].offset <= p < members[i].offset + Padded(members[i].size)) {
      if i > 0 {
        assert members[i] == members[1..][i - 1];
      }
    }
  }
}
