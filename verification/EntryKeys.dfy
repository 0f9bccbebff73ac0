/** The strings that address entries and files across a chain, and why they cannot collide. */
module EntryKeys {
  import opened Bytes

  const ZERO: u8 := 48

  function Decimal(n: nat): (text: bytes)
    ensures text != [] && forall i :: 0 <= i < |text| ==> 48 <= text[i] <= 57
  {
    if n < 10 then [(48 + n) as u8] else Decimal(n / 10) + [(48 + n % 10) as u8]
  }

  function DecimalValue(text: bytes): int {
    Positional(10, seq(|text|, i requires 0 <= i < |text| => text[i] as int - 48))
  }

  lemma DecimalValueStep(text: bytes, digit: u8)
    ensures DecimalValue(text + [digit]) == DecimalValue(text) * 10 + (digit - 48)
  {
    var all := text + [digit];
    var digits := seq(|all|, i requires 0 <= i < |all| => all[i] as int - 48);
    assert digits[..|all| - 1] == seq(|text|, i requires 0 <= i < |text| => text[i] as int - 48);
  }

  lemma {:induction false} DecimalReadsBack(n: nat)
    ensures DecimalValue(Decimal(n)) == n
  {
    if n < 10 {
      DecimalValueStep([], (48 + n) as u8);
      assert [] + [(48 + n) as u8] == Decimal(n);
    } else {
      DecimalReadsBack(n / 10);
      DecimalValueStep(Decimal(n / 10), (48 + n % 10) as u8);
    }
  }

  /** The archive part of a key: an absent archive is written as nothing. */
  function OrOwn(archive: Option<bytes>): bytes {
    if archive.Some? then archive.value else []
  }

  function EntryKey(archive: Option<bytes>, ordinal: nat): bytes {
    OrOwn(archive) + ([HASH] + Decimal(ordinal))
  }

  function LastHash(key: bytes): (at: nat)
    requires HASH in key
    ensures at < |key| && key[at] == HASH && HASH !in key[at + 1..]
  {
    if key[|key| - 1] == HASH then |key| - 1 else LastHash(key[..|key| - 1])
  }

  /** A key taken apart at its last '#', the way carrying forward reads it. */
  function SplitKey(key: bytes): (bytes, int)
    requires HASH in key
  {
    (key[..LastHash(key)], DecimalValue(key[LastHash(key) + 1..]))
  }

  lemma SplitKeyInverts(archive: Option<bytes>, ordinal: nat)
    ensures HASH in EntryKey(archive, ordinal)
    ensures SplitKey(EntryKey(archive, ordinal)) == (OrOwn(archive), ordinal)
  {
    hide LastHash, Decimal, DecimalValue, OrOwn;
    var name, digits := OrOwn(archive), Decimal(ordinal);
    var key := EntryKey(archive, ordinal);
    assert key[|name|] == HASH;
    LastHashFound(name, digits);
    assert key[..|name|] == name && key[|name| + 1..] == digits;
    DecimalReadsBack(ordinal);
  }

  lemma {:induction false} LastHashFound(name: bytes, digits: bytes)
    requires HASH !in digits
    ensures HASH in name + ([HASH] + digits)
    ensures LastHash(name + ([HASH] + digits)) == |name|
  {
    var key := name + ([HASH] + digits);
    assert key[|name|] == HASH;
    if digits != [] {
      assert key[|key| - 1] == digits[|digits| - 1];
      assert key[..|key| - 1] == name + ([HASH] + digits[..|digits| - 1]);
      LastHashFound(name, digits[..|digits| - 1]);
    }
  }

  /** A key is the pair (archive, ordinal) and nothing less, whatever characters the name holds. */
  lemma EntryKeyExact(a: Option<bytes>, n: nat, b: Option<bytes>, m: nat)
    ensures EntryKey(a, n) == EntryKey(b, m) <==> OrOwn(a) == OrOwn(b) && n == m
  {
    SplitKeyInverts(a, n);
    SplitKeyInverts(b, m);
  }

  function FileKey(src: bytes, path: bytes): bytes {
    src + ([NUL] + path)
  }

  /** What the keys look like: the archive, '#', and the ordinal in decimal; the source, a NUL, and the path. */
  lemma KeysSpelled(archive: bytes, ordinal: nat, path: bytes)
    ensures EntryKey(Some(archive), ordinal) == archive + ([35] + Decimal(ordinal))
    ensures EntryKey(None, ordinal) == [] + ([35] + Decimal(ordinal))
    ensures DecimalValue(Decimal(ordinal)) == ordinal
    ensures Decimal(ordinal)[0] == 48 <==> ordinal == 0
    ensures FileKey(archive, path) == archive + ([0] + path)
  {
    hide DecimalValue;
    DecimalReadsBack(ordinal);
    LeadingDigit(ordinal);
  }

  lemma {:induction false} LeadingDigit(n: nat)
    ensures Decimal(n)[0] == 48 <==> n == 0
  {
    if n >= 10 {
      LeadingDigit(n / 10);
    }
  }

  /** File keys are unambiguous because a source id holds no NUL. */
  lemma {:induction false} FileKeyExact(src: bytes, path: bytes, src': bytes, path': bytes)
    requires NUL !in src && NUL !in src'
    ensures FileKey(src, path) == FileKey(src', path') <==> src == src' && path == path'
  {
    var key, key' := FileKey(src, path), FileKey(src', path');
    if src != [] && src' != [] {
      assert key[1..] == FileKey(src[1..], path) && key'[1..] == FileKey(src'[1..], path');
      assert key == [src[0]] + key[1..] && key' == [src'[0]] + key'[1..];
      FileKeyExact(src[1..], path, src'[1..], path');
      assert src == [src[0]] + src[1..] && src' == [src'[0]] + src'[1..];
    } else if src == [] && src' == [] {
      assert key[1..] == path && key'[1..] == path';
    } else {
      assert key[0] != key'[0];
    }
  }

  /** The member name in an encrypted archive: "d/" and the ordinal padded to six digits. */
  function OpaqueName(ordinal: nat): bytes {
    var digits := Decimal(ordinal);
    [100, SLASH] + (if |digits| < 6 then ZeroDigits(6 - |digits|) + digits else digits)
  }

  function ZeroDigits(n: nat): bytes {
    seq(n, _ => ZERO)
  }

  lemma {:induction false} LeadingZeros(n: nat, digits: bytes)
    ensures DecimalValue(ZeroDigits(n) + digits) == DecimalValue(digits)
    decreases |digits|, n
  {
    var all := ZeroDigits(n) + digits;
    if digits != [] {
      var last := digits[|digits| - 1];
      assert all == (ZeroDigits(n) + digits[..|digits| - 1]) + [last];
      assert digits == digits[..|digits| - 1] + [last];
      LeadingZeros(n, digits[..|digits| - 1]);
      DecimalValueStep(ZeroDigits(n) + digits[..|digits| - 1], last);
      DecimalValueStep(digits[..|digits| - 1], last);
    } else if n > 0 {
      assert all == (ZeroDigits(n - 1) + []) + [ZERO];
      LeadingZeros(n - 1, []);
      DecimalValueStep(ZeroDigits(n - 1) + [], ZERO);
    } else {
      assert all == digits;
    }
  }

  /** Opaque member names stay distinct, also past the six digits they are padded to. */
  lemma OpaqueNamesDistinct(n: nat, m: nat)
    requires n != m
    ensures OpaqueName(n) != OpaqueName(m)
  {
    OpaqueNameValue(n);
    OpaqueNameValue(m);
  }

  /** "d/" and the ordinal in at least six decimal digits. */
  lemma OpaqueNameValue(n: nat)
    ensures |OpaqueName(n)| >= 8 && OpaqueName(n)[..2] == [100, 47]
    ensures forall i :: 2 <= i < |OpaqueName(n)| ==> 48 <= OpaqueName(n)[i] <= 57
    ensures DecimalValue(OpaqueName(n)[2..]) == n
  {
    var digits := Decimal(n);
    DecimalReadsBack(n);
    if |digits| < 6 {
      LeadingZeros(6 - |digits|, digits);
      assert OpaqueName(n)[2..] == ZeroDigits(6 - |digits|) + digits;
    } else {
      assert OpaqueName(n)[2..] == digits;
    }
  }
}
