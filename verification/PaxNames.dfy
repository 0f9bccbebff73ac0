/** The two ways a pax header's path is read: by a pattern in the recovery script, by record lengths in the writer. */
module PaxNames {
  import opened Bytes
  import opened TarNumeric
  import opened EntryKeys

  const PATH_KEY: bytes := [32, 112, 97, 116, 104, 61] // " path="

  /** The path record and the records after it. */
  function PathRecord(digits: bytes, path: bytes, rest: bytes): bytes {
    digits + (PATH_KEY + (path + ([LF] + rest)))
  }

  /** A pax record list: other records, the path record, and more. */
  function PaxPayload(before: bytes, digits: bytes, path: bytes, rest: bytes): bytes {
    before + PathRecord(digits, path, rest)
  }

  // -------------------------------------------------------------- by pattern

  predicate IsDigit(b: u8) {
    48 <= b <= 57
  }

  /** A line feed, a carriage return, or U+2028 or U+2029 in UTF-8: what the dot of a pattern stops at. */
  predicate StartsLineEnd(text: bytes) {
    text != [] && (text[0] == LF || text[0] == CR ||
    (|text| > 2 && text[0] == 0xe2 && text[1] == 0x80 && (text[2] == 0xa8 || text[2] == 0xa9)))
  }

  predicate NoLineEnd(text: bytes) {
    forall i :: 0 <= i <= |text| ==> !StartsLineEnd(text[i..])
  }

  function DigitRun(text: bytes): (n: nat)
    ensures n <= |text| && forall i :: 0 <= i < n ==> IsDigit(text[i])
  {
    if text == [] || !IsDigit(text[0]) then 0 else 1 + DigitRun(text[1..])
  }

  function LineRun(text: bytes): (n: nat)
    ensures n <= |text| && (n < |text| ==> StartsLineEnd(text[n..]))
    ensures forall i :: 0 <= i < n ==> !StartsLineEnd(text[i..])
  {
    if text == [] || StartsLineEnd(text) then 0
    else
      assert forall i :: 0 < i <= |text| ==> text[1..][i - 1..] == text[i..];
      1 + LineRun(text[1..])
  }

  /** What comes before the first line end holds none itself, not even split across the cut. */
  lemma LineRunHoldsNone(text: bytes)
    ensures NoLineEnd(text[..LineRun(text)])
  {
    var line := text[..LineRun(text)];
    forall i | 0 <= i <= |line| ensures !StartsLineEnd(line[i..]) {
      if i < |line| {
        assert !StartsLineEnd(text[i..]);
        assert line[i..] <= text[i..];
      }
    }
  }

  /** The pattern digits, " path=", anything but a line end, newline, tried at the start of `text`. */
  function PaxPathHere(text: bytes): (path: Option<bytes>)
    ensures path.Some? ==> NoLineEnd(path.value)
  {
    var d := DigitRun(text);
    if d == 0 || !(PATH_KEY <= text[d..]) then None
    else
      var rest := text[d + |PATH_KEY|..];
      var n := LineRun(rest);
      LineRunHoldsNone(rest);
      if n < |rest| && rest[n] == LF then Some(rest[..n]) else None
  }

  /** The leftmost match of that pattern. */
  function PaxPath(text: bytes): (path: Option<bytes>)
    ensures path.Some? ==> NoLineEnd(path.value)
  {
    if PaxPathHere(text).Some? then PaxPathHere(text)
    else if text == [] then None
    else PaxPath(text[1..])
  }

  lemma {:induction false} DigitRunStops(digits: bytes, rest: bytes)
    requires forall i :: 0 <= i < |digits| ==> IsDigit(digits[i])
    requires rest != [] && !IsDigit(rest[0])
    ensures DigitRun(digits + rest) == |digits|
  {
    if digits == [] {
      assert digits + rest == rest;
    } else {
      assert (digits + rest)[1..] == digits[1..] + rest;
      DigitRunStops(digits[1..], rest);
    }
  }

  lemma {:induction false} LineRunStops(line: bytes, rest: bytes)
    requires NoLineEnd(line) && rest != [] && (rest[0] == LF || rest[0] == CR)
    ensures LineRun(line + rest) == |line|
    decreases |line|
  {
    if line == [] {
      assert line + rest == rest;
    } else {
      var all := line + rest;
      assert !StartsLineEnd(line) by {
        assert line[0..] == line;
      }
      assert all[1..] == line[1..] + rest;
      forall i | 0 <= i <= |line[1..]| ensures !StartsLineEnd(line[1..][i..]) {
        assert line[1..][i..] == line[i + 1..];
      }
      LineRunStops(line[1..], rest);
    }
  }

  /** A match lies on one line, so what follows a line feed or a carriage return has no part in it. */
  lemma HereEndsWithLine(text: bytes, tail: bytes)
    requires LF in text || CR in text
    ensures PaxPathHere(text + tail) == PaxPathHere(text)
  {
    hide StartsLineEnd, NoLineEnd, LineRun, DigitRun;
    var all, d := text + tail, DigitRun(text);
    DigitRunGoesOn(text, tail);
    EndStaysBehind(text, d);
    var rest := text[d..];
    assert all[d..] == rest + tail;
    KeyGoesOn(rest, tail);
    if d > 0 && PATH_KEY <= rest {
      var value := rest[|PATH_KEY|..];
      assert text[d + |PATH_KEY|..] == value && all[d + |PATH_KEY|..] == value + tail;
      EndStaysBehind(rest, |PATH_KEY|);
      LineRunGoesOn(value, tail);
      assert (value + tail)[..LineRun(value)] == value[..LineRun(value)];
    }
  }

  lemma EndStaysBehind(text: bytes, n: nat)
    requires n <= |text| && (LF in text || CR in text)
    requires forall i :: 0 <= i < n ==> text[i] != LF && text[i] != CR
    ensures LF in text[n..] || CR in text[n..]
  {
    var i :| 0 <= i < |text| && (text[i] == LF || text[i] == CR);
    assert text[n..][i - n] == text[i];
  }

  lemma {:induction false} DigitRunGoesOn(text: bytes, tail: bytes)
    requires LF in text || CR in text
    ensures DigitRun(text + tail) == DigitRun(text) < |text|
    decreases |text|
  {
    assert (text + tail)[1..] == text[1..] + tail;
    if IsDigit(text[0]) {
      EndStaysBehind(text, 1);
      DigitRunGoesOn(text[1..], tail);
    }
  }

  lemma KeyGoesOn(rest: bytes, tail: bytes)
    requires LF in rest || CR in rest
    ensures PATH_KEY <= rest + tail <==> PATH_KEY <= rest
  {
    var i :| 0 <= i < |rest| && (rest[i] == LF || rest[i] == CR);
    assert (rest + tail)[i] == rest[i];
    if PATH_KEY <= rest + tail {
      assert forall k :: 0 <= k < |PATH_KEY| ==> (rest + tail)[k] == PATH_KEY[k];
      assert i >= |PATH_KEY|;
    }
  }

  lemma {:induction false} LineRunGoesOn(text: bytes, tail: bytes)
    requires LF in text || CR in text
    ensures LineRun(text + tail) == LineRun(text) < |text|
    decreases |text|
  {
    assert (text + tail)[1..] == text[1..] + tail;
    if !StartsLineEnd(text) {
      EndStaysBehind(text, 1);
      LineRunGoesOn(text[1..], tail);
    }
  }

  /** Whole lines without a match in them are passed over. */
  lemma {:induction false} LinesPassedOver(text: bytes, tail: bytes)
    requires text == [] || text[|text| - 1] == LF || text[|text| - 1] == CR
    requires PaxPath(text) == None
    ensures PaxPath(text + tail) == PaxPath(tail)
    decreases |text|
  {
    hide PaxPathHere;
    if text == [] {
      assert text + tail == tail;
    } else {
      assert (text + tail)[1..] == text[1..] + tail;
      HereEndsWithLine(text, tail);
      LinesPassedOver(text[1..], tail);
    }
  }

  lemma {:induction false} NothingWithoutNewline(text: bytes)
    requires LF !in text
    ensures PaxPath(text) == None
    decreases |text|
  {
    if text != [] {
      NothingWithoutNewline(text[1..]);
    }
  }

  /**
   * The path record is read back exactly when the path holds no line end: a newline cuts the path short,
   * and a carriage return, U+2028 or U+2029 loses it.
   */
  lemma PaxPathExact(before: bytes, digits: bytes, path: bytes, rest: bytes)
    requires (before == [] || before[|before| - 1] == LF) && PaxPath(before) == None
    requires digits != [] && forall i :: 0 <= i < |digits| ==> IsDigit(digits[i])
    ensures PaxPayload(before, digits, path, rest) ==
            before + (digits + ([32, 112, 97, 116, 104, 61] + (path + ([10] + rest))))
    ensures PaxPath(PaxPayload(before, digits, path, rest)) == Some(path) <==> OneLine(path)
    ensures NoLineEnd(path) <==> OneLine(path)
  {
    NoLineEndExact(path);
    hide PaxPath, NoLineEnd, OneLine;
    var record := PathRecord(digits, path, rest);
    LinesPassedOver(before, record);
    if NoLineEnd(path) {
      RecordRead(digits, path, rest);
    } else {
      PathHasNoLineEnd(record);
    }
  }

  /** Byte by byte: no line feed, no carriage return, and no U+2028 or U+2029. */
  predicate OneLine(text: bytes) {
    forall i :: 0 <= i < |text| ==>
      && text[i] != 10 && text[i] != 13
      && !(i + 2 < |text| && text[i] == 0xe2 && text[i + 1] == 0x80 && text[i + 2] in {0xa8, 0xa9})
  }

  lemma NoLineEndExact(text: bytes)
    ensures NoLineEnd(text) <==> OneLine(text)
  {
    if NoLineEnd(text) {
      forall i | 0 <= i < |text|
        ensures text[i] != 10 && text[i] != 13
        ensures !(i + 2 < |text| && text[i] == 0xe2 && text[i + 1] == 0x80 && text[i + 2] in {0xa8, 0xa9})
      {
        assert !StartsLineEnd(text[i..]);
      }
    }
    if OneLine(text) {
      forall i | 0 <= i <= |text| ensures !StartsLineEnd(text[i..]) {
        assert i < |text| ==> text[i] != 10 && text[i] != 13;
      }
    }
  }

  lemma PrefixHasNone(text: bytes, n: nat)
    requires NoLineEnd(text) && n <= |text|
    ensures NoLineEnd(text[..n])
  {
    forall i | 0 <= i <= n ensures !StartsLineEnd(text[..n][i..]) {
      assert !StartsLineEnd(text[i..]) && text[..n][i..] <= text[i..];
    }
  }

  lemma PathHasNoLineEnd(text: bytes)
    ensures PaxPath(text).Some? ==> NoLineEnd(PaxPath(text).value)
  {
  }

  lemma RecordRead(digits: bytes, path: bytes, rest: bytes)
    requires digits != [] && (forall i :: 0 <= i < |digits| ==> IsDigit(digits[i])) && NoLineEnd(path)
    ensures PaxPath(PathRecord(digits, path, rest)) == Some(path)
  {
    hide NoLineEnd, DigitRun, LineRun, StartsLineEnd;
    var text := PathRecord(digits, path, rest);
    var tail := PATH_KEY + (path + ([LF] + rest));
    DigitRunStops(digits, tail);
    assert text[|digits|..] == tail;
    assert text[|digits| + |PATH_KEY|..] == path + ([LF] + rest);
    LineRunStops(path, [LF] + rest);
    assert (path + ([LF] + rest))[..|path|] == path;
    assert PaxPathHere(text) == Some(path);
  }

  /**
   * A carriage return can even make one name read as another: what follows it is searched on, and a
   * path record spelled out there is the one found.
   */
  lemma CarriageReturnRenames(digits: bytes, head: bytes, digits': bytes, path: bytes, rest: bytes)
    requires forall i :: 0 <= i < |digits| ==> IsDigit(digits[i])
    requires digits' != [] && (forall i :: 0 <= i < |digits'| ==> IsDigit(digits'[i]))
    requires LF !in head && NoLineEnd(path)
    ensures PaxPath(PathRecord(digits, head + ([CR] + (digits' + (PATH_KEY + path))), rest)) == Some(path)
  {
    hide PaxPath, NoLineEnd;
    var before := digits + (PATH_KEY + (head + [CR]));
    var name := head + ([CR] + (digits' + (PATH_KEY + path)));
    assert PathRecord(digits, name, rest) == before + PathRecord(digits', path, rest);
    NothingWithoutNewline(before);
    LinesPassedOver(before, PathRecord(digits', path, rest));
    RecordRead(digits', path, rest);
  }

  // --------------------------------------------------------------- by length

  function IndexOf(text: bytes, b: u8): (i: nat)
    ensures i <= |text| && b !in text[..i] && (i < |text| ==> text[i] == b)
  {
    if text == [] || text[0] == b then 0 else 1 + IndexOf(text[1..], b)
  }

  /** The number a text starts with, zero if it starts with none. */
  function LeadingNumber(text: bytes): int {
    var trimmed := TrimLeft(text);
    var signed := trimmed != [] && (trimmed[0] == 43 || trimmed[0] == 45);
    var digits := if signed then trimmed[1..] else trimmed;
    var magnitude := DecimalValue(digits[..DigitRun(digits)]);
    if signed && trimmed[0] == 45 then -magnitude else magnitude
  }

  /** How many bytes a character takes that starts with this one, and how many UTF-16 units. */
  function CharacterOf(lead: u8): (size: (nat, nat)) {
    if lead >= 0xf0 then (4, 2) else if lead >= 0xe0 then (3, 1) else if lead >= 0xc0 then (2, 1) else (1, 1)
  }

  /**
   * How many bytes the first `units` UTF-16 units of a text take. A cut between the two units of one
   * character is put after its first byte.
   */
  function Cut(text: bytes, units: nat): (end: nat)
    ensures end <= |text| && (units > 0 && text != [] ==> end > 0)
    decreases |text|
  {
    if text == [] || units == 0 then 0
    else
      var (size, weight) := CharacterOf(text[0]);
      if |text| < size then |text|
      else if units < weight then 1
      else size + Cut(text[size..], units - weight)
  }

  function DropNewline(text: bytes): bytes {
    if text != [] && text[|text| - 1] == LF then text[..|text| - 1] else text
  }

  /**
   * Record after record, each as long as it says it is, up to the first whose key is path. The lengths
   * count bytes, but are applied to decoded text.
   */
  function ParsePaxPath(text: bytes): Option<bytes>
    decreases |text|
  {
    var space := IndexOf(text, SPACE);
    if space == |text| then None
    else
      var length := LeadingNumber(text[..space]);
      if length <= 0 then None
      else
        var end := Cut(text, length);
        var record := if end <= space then [] else text[space + 1..end];
        if PATH_KEY[1..] <= record then Some(DropNewline(record[|PATH_KEY| - 1..]))
        else ParsePaxPath(text[end..])
  }

  lemma IndexIs(before: bytes, b: u8, after: bytes)
    requires b !in before
    ensures IndexOf(before + [b] + after, b) == |before|
  {
    var text := before + [b] + after;
    assert text[|before|] == b && text[..|before|] == before;
  }

  lemma {:induction false} DigitRunAll(digits: bytes)
    requires forall i :: 0 <= i < |digits| ==> IsDigit(digits[i])
    ensures DigitRun(digits) == |digits|
  {
    if digits != [] {
      DigitRunAll(digits[1..]);
    }
  }

  lemma DigitsLead(digits: bytes)
    requires digits != [] && forall i :: 0 <= i < |digits| ==> IsDigit(digits[i])
    ensures LeadingNumber(digits) == DecimalValue(digits) && SPACE !in digits
  {
    hide DecimalValue;
    DigitRunAll(digits);
    assert digits[..|digits|] == digits;
  }

  /** No byte of this text starts a character of several bytes. */
  predicate SingleBytes(text: bytes) {
    forall i :: 0 <= i < |text| ==> text[i] < 0xc0
  }

  lemma {:induction false} CutAtLeast(text: bytes, units: nat)
    ensures Cut(text, units) >= if units < |text| then units else |text|
    decreases |text|
  {
    if text != [] && units > 0 {
      var (size, weight) := CharacterOf(text[0]);
      if size <= |text| && weight <= units {
        CutAtLeast(text[size..], units - weight);
      }
    }
  }

  lemma SingleFirst(text: bytes)
    requires text != []
    ensures SingleBytes(text) <==> text[0] < 0xc0 && SingleBytes(text[1..])
  {
    assert forall i :: 0 < i < |text| ==> text[i] == text[1..][i - 1];
  }

  /** As many units as bytes: that goes too far as soon as a character of several bytes is on the way. */
  lemma {:induction false} CutExact(text: bytes, n: nat)
    requires n <= |text| && (n > 0 ==> text[n - 1] == LF)
    ensures Cut(text, n) >= n
    ensures Cut(text, n) == n <==> n == |text| || SingleBytes(text[..n])
    decreases n
  {
    CutAtLeast(text, n);
    if 0 < n < |text| {
      if text[0] < 0xc0 {
        CutExact(text[1..], n - 1);
        SingleFirst(text[..n]);
        assert text[..n][1..] == text[1..][..n - 1];
      } else {
        var (size, weight) := CharacterOf(text[0]);
        assert text[..n][0] == text[0];
        if size <= |text| {
          CutAtLeast(text[size..], n - weight);
        }
      }
    }
  }

  /** What the length-based reader makes of a path record that says its own length. */
  lemma LengthReads(digits: bytes, path: bytes, rest: bytes)
    requires digits != [] && forall i :: 0 <= i < |digits| ==> IsDigit(digits[i])
    requires DecimalValue(digits) == |PathRecord(digits, path, [])|
    ensures var text, n := PathRecord(digits, path, rest), |PathRecord(digits, path, [])|;
            && n <= Cut(text, n) <= |text|
            && ParsePaxPath(text) == Some(DropNewline(path + [LF] + rest[..Cut(text, n) - n]))
  {
    hide DecimalValue, Cut, LeadingNumber, IndexOf, DropNewline;
    var text, n := PathRecord(digits, path, rest), |PathRecord(digits, path, [])|;
    var tail := PATH_KEY[1..] + (path + ([LF] + rest));
    DigitsLead(digits);
    assert text == digits + [SPACE] + tail;
    IndexIs(digits, SPACE, tail);
    assert text[..|digits|] == digits;
    CutAtLeast(text, n);
    var end := Cut(text, n);
    var record := text[|digits| + 1..end];
    assert record == PATH_KEY[1..] + (path + [LF] + rest[..end - n]);
    assert record[|PATH_KEY| - 1..] == path + [LF] + rest[..end - n];
  }

  /**
   * Read by its length a path comes back whatever characters it holds, line ends included, if it stands
   * in the last record; before another record, if and only if no character of it takes several bytes.
   */
  lemma LengthReadExact(digits: bytes, path: bytes, rest: bytes)
    requires digits != [] && forall i :: 0 <= i < |digits| ==> IsDigit(digits[i])
    requires DecimalValue(digits) == |PathRecord(digits, path, [])|
    ensures ParsePaxPath(PathRecord(digits, path, rest)) == Some(path) <==> rest == [] || SingleBytes(path)
  {
    hide DecimalValue, Cut, ParsePaxPath;
    var text, n := PathRecord(digits, path, rest), |PathRecord(digits, path, [])|;
    LengthReads(digits, path, rest);
    var end := Cut(text, n);
    CutExact(text, n);
    assert text[..n] == digits + PATH_KEY + path + [LF];
    var value := path + [LF] + rest[..end - n];
    if end == n {
      assert value == path + [LF];
      assert value[..|value| - 1] == path;
    }
    if SingleBytes(text[..n]) {
      assert forall i :: 0 <= i < |path| ==> text[..n][|digits| + |PATH_KEY| + i] == path[i];
    }
    if SingleBytes(path) {
      assert SingleBytes(text[..n]);
    }
  }

  /** Where the reader goes on after a record that is not the path's. */
  lemma RecordPassed(text: bytes, space: nat, length: nat)
    requires space == IndexOf(text, SPACE) < |text| && length == LeadingNumber(text[..space]) > 0
    requires space < Cut(text, length) && !(PATH_KEY[1..] <= text[space + 1..Cut(text, length)])
    ensures ParsePaxPath(text) == ParsePaxPath(text[Cut(text, length)..])
  {
    hide Cut, LeadingNumber, IndexOf, DropNewline;
  }

  /** A record before the path that says its own length is skipped, if every byte of it is a character of its own. */
  lemma RecordSkipped(digits: bytes, body: bytes, tail: bytes)
    requires digits != [] && forall i :: 0 <= i < |digits| ==> IsDigit(digits[i])
    requires DecimalValue(digits) == |digits| + 1 + |body|
    requires body != [] && body[|body| - 1] == LF && SingleBytes(body) && !(PATH_KEY[1..] <= body)
    ensures ParsePaxPath(digits + [SPACE] + (body + tail)) == ParsePaxPath(tail)
  {
    hide DecimalValue, Cut, ParsePaxPath, LeadingNumber, IndexOf;
    var text, n := digits + [SPACE] + (body + tail), |digits| + 1 + |body|;
    assert text[..n] == digits + [SPACE] + body && SingleBytes(text[..n]);
    CutExact(text, n);
    DigitsLead(digits);
    IndexIs(digits, SPACE, body + tail);
    assert text[..|digits|] == digits && text[|digits| + 1..n] == body && text[n..] == tail;
    RecordPassed(text, |digits|, n);
  }

  // ------------------------------------------------------------- either way

  datatype PaxRule = Pattern | Length

  function AnnouncedPath(rule: PaxRule, payload: bytes): Option<bytes> {
    match rule
    case Pattern => PaxPath(payload)
    case Length => ParsePaxPath(payload)
  }
}
