/** Bytes, option and result types, and the few sequence functions every module shares. */
module Bytes {
  type u8 = x: int | 0 <= x < 256
  type bytes = seq<u8>

  datatype Option<+T> = None | Some(value: T)
  datatype Result<+T, +E> = Ok(value: T) | Err(error: E)

  const NUL: u8 := 0
  const LF: u8 := 10
  const CR: u8 := 13
  const SPACE: u8 := 32
  const HASH: u8 := 35
  const SLASH: u8 := 47

  function Zeros(n: nat): (z: bytes)
    ensures |z| == n && forall i :: 0 <= i < n ==> z[i] == 0
  {
    seq(n, _ => 0)
  }

  /** The bytes of a list of chunks, in order. */
  function Concat<T>(chunks: seq<seq<T>>): seq<T> {
    if chunks == [] then [] else chunks[0] + Concat(chunks[1..])
  }

  lemma {:induction false} ConcatAppend<T>(a: seq<seq<T>>, b: seq<seq<T>>)
    ensures Concat(a + b) == Concat(a) + Concat(b)
  {
    if a == [] {
      assert a + b == b;
    } else {
      assert (a + b)[1..] == a[1..] + b;
      ConcatAppend(a[1..], b);
    }
  }

  lemma ConcatNext<T>(chunks: seq<seq<T>>, i: nat)
    requires i < |chunks|
    ensures Concat(chunks[..i + 1]) == Concat(chunks[..i]) + chunks[i]
  {
    ConcatAppend(chunks[..i], [chunks[i]]);
    assert chunks[..i + 1] == chunks[..i] + [chunks[i]];
    assert [chunks[i]][1..] == [];
  }

  lemma NothingConcat<T>()
    ensures Concat<T>([]) == []
  {
  }

  /** A part of a part, read straight from the whole. */
  lemma PartOfPart<T>(whole: seq<T>, at: nat, part: seq<T>, lo: nat, hi: nat)
    requires at + |part| <= |whole| && whole[at..at + |part|] == part && lo <= hi <= |part|
    ensures whole[at + lo..at + hi] == part[lo..hi]
  {
    forall i | lo <= i < hi ensures whole[at + i] == part[i] {
      assert whole[at..at + |part|][i] == whole[at + i];
    }
  }

  function Pow(base: int, exponent: nat): int {
    if exponent == 0 then 1 else base * Pow(base, exponent - 1)
  }

  /** The number a digit string denotes, most significant digit first. */
  function Positional(base: int, digits: seq<int>): int {
    if digits == [] then 0
    else Positional(base, digits[..|digits| - 1]) * base + digits[|digits| - 1]
  }

  /** The radixes in use: octal, decimal, base-256. */
  predicate IsRadix(base: int) {
    base == 8 || base == 10 || base == 256
  }

  /** Quotient and remainder for a constant radix, which keeps the arithmetic linear. */
  function Split(n: nat, base: int): (parts: (nat, nat))
    requires IsRadix(base)
    ensures n == parts.0 * base + parts.1 && parts.1 < base
    ensures parts.0 <= n && (n > 0 ==> parts.0 < n)
  {
    if base == 8 then (n / 8, n % 8) else if base == 10 then (n / 10, n % 10) else (n / 256, n % 256)
  }

  /** The low `width` digits of `n`, most significant first. */
  function Digits(base: int, n: nat, width: nat): (digits: seq<int>)
    requires IsRadix(base)
    ensures |digits| == width && forall i :: 0 <= i < width ==> 0 <= digits[i] < base
  {
    if width == 0 then [] else Digits(base, Split(n, base).0, width - 1) + [Split(n, base).1]
  }

  lemma {:induction false} PositionalOfDigits(base: int, n: nat, width: nat)
    requires IsRadix(base) && n < Pow(base, width)
    ensures Positional(base, Digits(base, n, width)) == n
  {
    if width > 0 {
      var q := Split(n, base).0;
      assert q < Pow(base, width - 1);
      PositionalOfDigits(base, q, width - 1);
      assert Digits(base, n, width)[..width - 1] == Digits(base, q, width - 1);
    }
  }
}
