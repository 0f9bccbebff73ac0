/** Numeric TAR header fields: octal text, and GNU base-256 for what octal cannot hold. */
module TarNumeric {
  import opened Bytes

  /** 2^53 - 1. */
  const MAX_SAFE_INTEGER := 0x1F_FFFF_FFFF_FFFF

  /** What makes the walk throw: an unsafe header number, a negative buffer length or file position. */
  datatype TarError = UnsafeNumber | NegativeLength | NegativePosition

  /** The field up to its first NUL. */
  function CString(raw: bytes): (text: bytes)
    ensures |text| <= |raw| && text == raw[..|text|] && NUL !in text
    ensures |text| < |raw| ==> raw[|text|] == NUL
  {
    if raw == [] || raw[0] == NUL then [] else [raw[0]] + CString(raw[1..])
  }

  lemma {:induction false} CStringStops(text: bytes, rest: bytes)
    requires NUL !in text && (rest == [] || rest[0] == NUL)
    ensures CString(text + rest) == text
  {
    if text == [] {
      assert text + rest == rest;
    } else {
      assert (text + rest)[1..] == text[1..] + rest;
      CStringStops(text[1..], rest);
    }
  }

  /** How much of `text` is one white space character at its start; some take two or three bytes of UTF-8. */
  function SpaceAt(text: bytes): (width: nat)
    ensures width <= |text|
  {
    if text == [] then 0
    else if 9 <= text[0] <= 13 || text[0] == SPACE then 1
    else if |text| > 1 && text[..2] == [0xc2, 0xa0] then 2
    else if |text| > 2 && IsWideSpace(text[0], text[1], text[2]) then 3
    else 0
  }

  /** U+1680, U+2000 to U+200A, U+2028, U+2029, U+202F, U+205F, U+3000 and U+FEFF. */
  predicate IsWideSpace(a: u8, b: u8, c: u8) {
    || (a == 0xe2 && b == 0x80 && (0x80 <= c <= 0x8a || c == 0xa8 || c == 0xa9 || c == 0xaf))
    || (a, b, c) in {(0xe1, 0x9a, 0x80), (0xe2, 0x81, 0x9f), (0xe3, 0x80, 0x80), (0xef, 0xbb, 0xbf)}
  }

  function TrimLeft(text: bytes): bytes {
    if SpaceAt(text) > 0 then TrimLeft(text[SpaceAt(text)..]) else text
  }

  /** The last `width` bytes are one white space character. */
  predicate EndsInSpace(text: bytes, width: nat) {
    0 < width <= |text| && SpaceAt(text[|text| - width..]) == width
  }

  function TrimRight(text: bytes): bytes {
    if EndsInSpace(text, 1) then TrimRight(text[..|text| - 1])
    else if EndsInSpace(text, 2) then TrimRight(text[..|text| - 2])
    else if EndsInSpace(text, 3) then TrimRight(text[..|text| - 3])
    else text
  }

  predicate IsOctal(b: u8) {
    48 <= b <= 55
  }

  /** How many octal digits `text` starts with. */
  function OctalRun(text: bytes): (n: nat)
    ensures n <= |text| && forall i :: 0 <= i < n ==> IsOctal(text[i])
    ensures n < |text| ==> !IsOctal(text[n])
  {
    if text == [] || !IsOctal(text[0]) then 0 else 1 + OctalRun(text[1..])
  }

  function DigitValues(text: bytes): (values: seq<int>)
    ensures |values| == |text|
  {
    seq(|text|, i requires 0 <= i < |text| => text[i] as int - 48)
  }

  /** The text read as base 8, with an optional sign; text without a leading octal digit reads as 0. */
  function OctalText(text: bytes): int {
    var signed := text != [] && (text[0] == 43 || text[0] == 45);
    var unsigned := if signed then text[1..] else text;
    var magnitude := Positional(8, DigitValues(unsigned[..OctalRun(unsigned)]));
    if signed && text[0] == 45 then -magnitude else magnitude
  }

  /** `seed` shifted up by the bytes that follow it. */
  function Accumulate(seed: int, field: bytes): int {
    if field == [] then seed
    else Accumulate(seed, field[..|field| - 1]) * 256 + field[|field| - 1]
  }

  lemma {:induction false} AccumulateIsPositional(seed: int, field: bytes)
    ensures Accumulate(seed, field) == seed * Pow(256, |field|) + Positional(256, field)
  {
    if field != [] {
      var high := field[..|field| - 1];
      AccumulateIsPositional(seed, high);
      var p := Pow(256, |high|);
      assert Pow(256, |field|) == 256 * p;
      assert (seed * p) * 256 == seed * (256 * p);
    }
  }

  lemma NothingAccumulated(seed: int, field: bytes)
    requires field != []
    ensures Accumulate(seed, field[1..1]) == seed
  {
  }

  lemma AccumulateNext(seed: int, field: bytes, n: nat)
    requires 0 < n < |field|
    ensures Accumulate(seed, field[1..n + 1]) == Accumulate(seed, field[1..n]) * 256 + field[n]
  {
    assert field[1..n + 1][..n - 1] == field[1..n];
  }

  /** The value of a whole header field. */
  function NumericField(field: bytes): Result<int, TarError>
    requires field != []
  {
    if field[0] >= 128 then
      var value := Accumulate(if field[0] == 255 then -1 else field[0] - 128, field[1..]);
      if -MAX_SAFE_INTEGER <= value <= MAX_SAFE_INTEGER then Ok(value) else Err(UnsafeNumber)
    else
      Ok(OctalText(TrimRight(TrimLeft(CString(field)))))
  }

  method ReadNumeric(block: bytes, start: nat, length: nat) returns (r: Result<int, TarError>)
    requires 0 < length && start + length <= |block|
    ensures r == NumericField(block[start..start + length])
  {
    hide Accumulate, OctalText, TrimLeft, TrimRight, CString;
    ghost var field := block[start..start + length];
    var first := block[start];
    if first >= 128 {
      var value := if first == 255 then -1 else first - 128;
      ghost var seed := value;
      var i := start + 1;
      NothingAccumulated(seed, field);
      while i < start + length
        invariant start + 1 <= i <= start + length
        invariant value == Accumulate(seed, field[1..i - start])
      {
        AccumulateNext(seed, field, i - start);
        value := value * 256 + block[i];
        i := i + 1;
      }
      assert field[1..] == field[1..length];
      if !(-MAX_SAFE_INTEGER <= value <= MAX_SAFE_INTEGER) {
        return Err(UnsafeNumber);
      }
      return Ok(value);
    }
    r := Ok(OctalText(TrimRight(TrimLeft(CString(block[start..start + length])))));
  }

  /** Eleven zero-padded octal digits and a terminator: a space or a NUL. */
  function EncodeOctal(n: nat, terminator: u8): (field: bytes)
    ensures |field| == 12
  {
    var digits := Digits(8, n, 11);
    seq(11, i requires 0 <= i < 11 => (digits[i] + 48) as u8) + [terminator]
  }

  /** GNU base-256: the marker byte, then eleven bytes big-endian. */
  function EncodeBase256(n: nat): (field: bytes)
    ensures |field| == 12
  {
    var digits := Digits(256, n, 11);
    [128] + seq(11, i requires 0 <= i < 11 => digits[i] as u8)
  }

  /** The size field a writer emits: octal where it fits, base-256 beyond. */
  function SizeField(n: nat): (field: bytes)
    ensures |field| == 12
  {
    if n < Pow(8, 11) then EncodeOctal(n, SPACE) else EncodeBase256(n)
  }

  lemma {:induction false} TrimmedDigits(digits: bytes, tail: bytes)
    requires digits != [] && (forall i :: 0 <= i < |digits| ==> IsOctal(digits[i]))
    requires tail == [] || tail == [SPACE]
    ensures TrimRight(TrimLeft(digits + tail)) == digits
  {
    assert TrimLeft(digits + tail) == digits + tail;
    DigitsStay(digits);
    if tail == [SPACE] {
      var text := digits + tail;
      assert text[|text| - 1..] == [SPACE] && text[..|text| - 1] == digits;
    } else {
      assert digits + tail == digits;
    }
  }

  lemma DigitsStay(digits: bytes)
    requires digits != [] && (forall i :: 0 <= i < |digits| ==> IsOctal(digits[i]))
    ensures TrimRight(digits) == digits
  {
    hide EndsInSpace;
    EndsInDigit(digits, 1);
    EndsInDigit(digits, 2);
    EndsInDigit(digits, 3);
  }

  lemma EndsInDigit(digits: bytes, width: nat)
    requires forall i :: 0 <= i < |digits| ==> IsOctal(digits[i])
    ensures !EndsInSpace(digits, width)
  {
    if 0 < width <= |digits| {
      assert digits[|digits| - width..][0] == digits[|digits| - width];
    }
  }

  lemma {:induction false} OctalRunAll(digits: bytes)
    requires forall i :: 0 <= i < |digits| ==> IsOctal(digits[i])
    ensures OctalRun(digits) == |digits|
  {
    if digits != [] {
      OctalRunAll(digits[1..]);
    }
  }

  /** The octal form reads back exactly, with either terminator, for every size below 8^11. */
  lemma OctalRoundTrip(n: nat, terminator: u8)
    requires n < Pow(8, 11) && (terminator == SPACE || terminator == NUL)
    ensures NumericField(EncodeOctal(n, terminator)) == Ok(n)
  {
    hide Digits, Positional, CString, TrimLeft, TrimRight, OctalRun, Pow;
    var field := EncodeOctal(n, terminator);
    var digits := field[..11];
    var tail: bytes := if terminator == SPACE then [SPACE] else [];
    assert field == (digits + tail) + (if terminator == SPACE then [] else [NUL]);
    CStringStops(digits + tail, if terminator == SPACE then [] else [NUL]);
    TrimmedDigits(digits, tail);
    OctalRunAll(digits);
    assert DigitValues(digits[..11]) == Digits(8, n, 11);
    PositionalOfDigits(8, n, 11);
  }

  /** Octal digits are read from the front: one more digit is eight times what stood before it, and that digit. */
  lemma OctalDigitsExact(digits: bytes, next: u8)
    requires forall i :: 0 <= i < |digits| ==> 48 <= digits[i] <= 55
    requires 48 <= next <= 55
    ensures digits == [] ==> NumericField(digits + [next]) == Ok(next - 48)
    ensures digits != [] ==> NumericField(digits).Ok?
                             && NumericField(digits + [next]) == Ok(8 * NumericField(digits).value + (next - 48))
  {
    hide Positional, NumericField;
    var more := digits + [next];
    DigitsAlone(more);
    PositionalNext(DigitValues(digits), next - 48);
    assert DigitValues(more) == DigitValues(digits) + [next - 48];
    if digits == [] {
      assert DigitValues(digits) == [];
    } else {
      DigitsAlone(digits);
    }
  }

  lemma PositionalNext(digits: seq<int>, next: int)
    ensures Positional(8, digits + [next]) == 8 * Positional(8, digits) + next
    ensures Positional(8, []) == 0
  {
    assert (digits + [next])[..|digits|] == digits;
  }

  lemma DigitsAlone(digits: bytes)
    requires digits != [] && forall i :: 0 <= i < |digits| ==> IsOctal(digits[i])
    ensures NumericField(digits) == Ok(Positional(8, DigitValues(digits)))
  {
    hide Positional, CString, TrimLeft, TrimRight, OctalRun;
    assert digits + [] == digits;
    CStringStops(digits, []);
    TrimmedDigits(digits, []);
    OctalRunAll(digits);
  }

  /** A base-256 field denotes its two's complement value, and only values that are safe integers are read. */
  lemma Base256Exact(field: bytes)
    requires field != [] && field[0] >= 128
    ensures var top := if field[0] == 255 then -1 else field[0] - 128;
            var value := top * Pow(256, |field| - 1) + Positional(256, field[1..]);
            NumericField(field) ==
            if -9007199254740991 <= value <= 9007199254740991 then Ok(value) else Err(UnsafeNumber)
  {
    hide Positional, Pow, Accumulate, OctalText, TrimLeft, TrimRight, CString;
    AccumulateIsPositional(if field[0] == 255 then -1 else field[0] - 128, field[1..]);
  }

  lemma Pow256At11()
    ensures Pow(256, 11) > MAX_SAFE_INTEGER
  {
    assert Pow(256, 7) == 256 * 256 * 256 * 256 * 256 * 256 * 256;
    assert Pow(256, 11) == 256 * (256 * (256 * (256 * Pow(256, 7))));
  }

  /**
   * Reading inverts writing for every size up to 2^53 - 1, and throws for exactly the sizes
   * beyond it that the field can still hold.
   */
  lemma SizeRoundTrip(n: nat)
    requires n < Pow(256, 11)
    ensures NumericField(SizeField(n)) == if n <= 9007199254740991 then Ok(n) else Err(UnsafeNumber)
  {
    if n < Pow(8, 11) {
      assert Pow(8, 11) < MAX_SAFE_INTEGER;
      OctalRoundTrip(n, SPACE);
    } else {
      Base256Exact(EncodeBase256(n));
      assert EncodeBase256(n)[1..] == Digits(256, n, 11);
      PositionalOfDigits(256, n, 11);
    }
  }

  /** A size no writer emits: the all-ones marker followed by 0xfe00 reads as minus one block. */
  lemma NegativeSizeField()
    ensures NumericField([255, 255, 255, 255, 255, 255, 255, 255, 255, 255, 254, 0]) == Ok(-512)
  {
    var rest: bytes := [255, 255, 255, 255, 255, 255, 255, 255, 255, 254, 0];
    assert rest[..10] == [255, 255, 255, 255, 255, 255, 255, 255, 255, 254];
    assert rest[..10][..9] == [255, 255, 255, 255, 255, 255, 255, 255, 255];
    OnesKeepMinusOne(rest[..10][..9]);
    var field: bytes := [255] + rest;
    assert field[1..] == rest;
  }

  lemma {:induction false} OnesKeepMinusOne(field: bytes)
    requires forall i :: 0 <= i < |field| ==> field[i] == 255
    ensures Accumulate(-1, field) == -1
  {
    if field != [] {
      OnesKeepMinusOne(field[..|field| - 1]);
    }
  }

  /** A field of nothing but 0xff reads as -1, however wide it is. */
  lemma MinusOneStays(field: bytes)
    requires field != [] && forall i :: 0 <= i < |field| ==> field[i] == 255
    ensures NumericField(field) == Ok(-1)
  {
    OnesKeepMinusOne(field[1..]);
  }
}
