/** Ordering version strings of different shapes and lengths. */
module Versions {
  import opened Bytes
  import opened EntryKeys

  const DOT: u8 := 46

  predicate IsDigit(b: u8) {
    48 <= b <= 57
  }

  // ------------------------------------------- the version number in a string

  function FirstDigit(text: bytes): (at: nat)
    ensures at <= |text| && (at < |text| ==> IsDigit(text[at]))
    ensures forall i :: 0 <= i < at ==> !IsDigit(text[i])
  {
    if text == [] || IsDigit(text[0]) then 0 else 1 + FirstDigit(text[1..])
  }

  function DigitRun(text: bytes): (n: nat)
    ensures n <= |text| && (n < |text| ==> !IsDigit(text[n]))
    ensures forall i :: 0 <= i < n ==> IsDigit(text[i])
  {
    if text == [] || !IsDigit(text[0]) then 0 else 1 + DigitRun(text[1..])
  }

  /** Digits, then as many groups of a dot and digits as follow. */
  function Numbers(text: bytes): (numbers: seq<int>)
    requires text != [] && IsDigit(text[0])
    ensures numbers != []
    decreases |text|
  {
    var n := DigitRun(text);
    [DecimalValue(text[..n])]
    + if Continues(text[n..]) then Numbers(text[n + 1..]) else []
  }

  predicate Continues(rest: bytes) {
    |rest| > 1 && rest[0] == DOT && IsDigit(rest[1])
  }

  function Version(text: bytes): (numbers: seq<int>)
    ensures numbers != []
  {
    var at := FirstDigit(text);
    if at == |text| then [0] else Numbers(text[at..])
  }

  function Render(numbers: seq<nat>): bytes
    requires numbers != []
  {
    Decimal(numbers[0]) + if |numbers| == 1 then [] else [DOT] + Render(numbers[1..])
  }

  lemma {:induction false} RunOf(digits: bytes, rest: bytes)
    requires forall i :: 0 <= i < |digits| ==> IsDigit(digits[i])
    requires rest == [] || !IsDigit(rest[0])
    ensures DigitRun(digits + rest) == |digits|
    decreases |digits|
  {
    if digits != [] {
      assert (digits + rest)[1..] == digits[1..] + rest;
      RunOf(digits[1..], rest);
    } else {
      assert digits + rest == rest;
    }
  }

  lemma NumbersFrom(digits: bytes, rest: bytes)
    requires digits != [] && forall i :: 0 <= i < |digits| ==> IsDigit(digits[i])
    requires rest == [] || !IsDigit(rest[0])
    ensures (digits + rest)[0] == digits[0]
    ensures Numbers(digits + rest) == [DecimalValue(digits)] + if Continues(rest) then Numbers(rest[1..]) else []
  {
    hide DecimalValue;
    var text := digits + rest;
    RunOf(digits, rest);
    assert text[..|digits|] == digits && text[|digits|..] == rest;
    if Continues(rest) {
      assert text[|digits| + 1..] == rest[1..];
    }
  }

  lemma {:induction false} NumbersOfRendered(numbers: seq<nat>, suffix: bytes)
    requires numbers != [] && (suffix == [] || !IsDigit(suffix[0])) && !Continues(suffix)
    ensures var text := Render(numbers) + suffix;
            text != [] && IsDigit(text[0]) && Numbers(text) == numbers
    decreases |numbers|
  {
    hide Decimal, DecimalValue, Numbers;
    var digits := Decimal(numbers[0]);
    DecimalReadsBack(numbers[0]);
    if |numbers| == 1 {
      assert Render(numbers) == digits;
      NumbersFrom(digits, suffix);
    } else {
      var tail := Render(numbers[1..]) + suffix;
      NumbersOfRendered(numbers[1..], suffix);
      var rest := [DOT] + tail;
      assert Render(numbers) + suffix == digits + rest;
      assert rest[1..] == tail && Continues(rest);
      NumbersFrom(digits, rest);
    }
  }

  /** The first dotted number is found whatever stands around it. */
  lemma {:induction false} VersionFound(prefix: bytes, numbers: seq<nat>, suffix: bytes)
    requires forall i :: 0 <= i < |prefix| ==> !IsDigit(prefix[i])
    requires numbers != [] && (suffix == [] || !IsDigit(suffix[0])) && !Continues(suffix)
    ensures Version(prefix + (Render(numbers) + suffix)) == numbers
  {
    var rendered := Render(numbers) + suffix;
    var text := prefix + rendered;
    NumbersOfRendered(numbers, suffix);
    assert text[|prefix|] == rendered[0];
    assert FirstDigit(text) == |prefix|;
    assert text[|prefix|..] == rendered;
  }

  // -------------------------------------------------------------- the ordering

  function At(numbers: seq<int>, i: nat): int {
    if i < |numbers| then numbers[i] else 0
  }

  function From(numbers: seq<int>, i: nat): seq<int> {
    if i < |numbers| then numbers[i..] else []
  }

  /** Number by number; where one runs out it goes on with zeros. */
  function Compare(p: seq<int>, q: seq<int>): int
    decreases |p| + |q|
  {
    if p == [] && q == [] then 0
    else if At(p, 0) > At(q, 0) then 1
    else if At(p, 0) < At(q, 0) then -1
    else Compare(From(p, 1), From(q, 1))
  }

  predicate IsMissing(v: Option<bytes>) {
    v == None || v == Some([])
  }

  function CompareSpec(v1: Option<bytes>, v2: Option<bytes>): int {
    if IsMissing(v1) || IsMissing(v2) then 0 else Compare(Version(v1.value), Version(v2.value))
  }

  method CompareVersions(v1: Option<bytes>, v2: Option<bytes>) returns (sign: int)
    ensures sign == CompareSpec(v1, v2)
  {
    if IsMissing(v1) || IsMissing(v2) {
      return 0;
    }
    var p, q := Version(v1.value), Version(v2.value);
    var maxLength := if |p| > |q| then |p| else |q|;
    for i := 0 to maxLength
      invariant Compare(From(p, i), From(q, i)) == Compare(p, q)
    {
      var a, b := At(p, i), At(q, i);
      assert From(From(p, i), 1) == From(p, i + 1) && From(From(q, i), 1) == From(q, i + 1);
      if a > b {
        return 1;
      }
      if a < b {
        return -1;
      }
    }
    return 0;
  }

  /** Where the first difference is, if there is one. */
  ghost predicate DiffersAt(p: seq<int>, q: seq<int>, k: nat) {
    At(p, k) != At(q, k) && forall i: nat :: i < k ==> At(p, i) == At(q, i)
  }

  ghost predicate Alike(p: seq<int>, q: seq<int>) {
    forall i: nat :: At(p, i) == At(q, i)
  }

  /** The comparison is decided by the first place where the zero-padded numbers differ. */
  lemma {:induction false} FirstDifferenceDecides(p: seq<int>, q: seq<int>)
    ensures Compare(p, q) == 0 <==> Alike(p, q)
    ensures forall k: nat :: DiffersAt(p, q, k) ==> Compare(p, q) == if At(p, k) > At(q, k) then 1 else -1
    ensures Alike(p, q) || exists k: nat :: DiffersAt(p, q, k)
    ensures Compare(p, q) in {-1, 0, 1}
    decreases |p| + |q|
  {
    if p == [] && q == [] {
    } else if At(p, 0) != At(q, 0) {
      assert DiffersAt(p, q, 0);
    } else {
      var pr, qr := From(p, 1), From(q, 1);
      FirstDifferenceDecides(pr, qr);
      OneFurther(p, q);
      if Alike(pr, qr) {
        assert Alike(p, q);
      } else {
        var k: nat :| DiffersAt(pr, qr, k);
        assert DiffersAt(p, q, k + 1);
        assert !Alike(p, q);
      }
      forall k: nat | DiffersAt(p, q, k) ensures Compare(p, q) == if At(p, k) > At(q, k) then 1 else -1 {
        assert DiffersAt(pr, qr, k - 1);
      }
    }
  }

  /** Where two start alike, they differ where what follows differs, one place further. */
  lemma OneFurther(p: seq<int>, q: seq<int>)
    requires At(p, 0) == At(q, 0)
    ensures Alike(p, q) <==> Alike(From(p, 1), From(q, 1))
    ensures forall k: nat :: DiffersAt(From(p, 1), From(q, 1), k) <==> DiffersAt(p, q, k + 1)
    ensures forall k: nat :: k > 0 ==> At(From(p, 1), k - 1) == At(p, k) && At(From(q, 1), k - 1) == At(q, k)
    ensures forall k: nat :: DiffersAt(p, q, k) ==> k > 0 && DiffersAt(From(p, 1), From(q, 1), k - 1)
  {
    var pr, qr := From(p, 1), From(q, 1);
    assert forall i: nat :: At(p, i + 1) == At(pr, i) && At(q, i + 1) == At(qr, i);
    hide At;
    if Alike(pr, qr) {
      forall i: nat ensures At(p, i) == At(q, i) {
        if i > 0 {
          assert At(pr, i - 1) == At(qr, i - 1);
        }
      }
    }
    if Alike(p, q) {
      forall i: nat ensures At(pr, i) == At(qr, i) {
        assert At(p, i + 1) == At(q, i + 1);
      }
    }
    forall k: nat ensures DiffersAt(pr, qr, k) <==> DiffersAt(p, q, k + 1) {
      assert At(p, k + 1) == At(pr, k) && At(q, k + 1) == At(qr, k);
      if DiffersAt(pr, qr, k) {
        forall i: nat | i < k + 1 ensures At(p, i) == At(q, i) {
          if i > 0 {
            assert At(pr, i - 1) == At(qr, i - 1);
          }
        }
      }
      if DiffersAt(p, q, k + 1) {
        forall i: nat | i < k ensures At(pr, i) == At(qr, i) {
          assert At(p, i + 1) == At(q, i + 1);
        }
      }
    }
  }

  lemma CompareAntisymmetric(p: seq<int>, q: seq<int>)
    ensures Compare(p, q) == -Compare(q, p)
  {
    FirstDifferenceDecides(p, q);
    FirstDifferenceDecides(q, p);
    if !Alike(p, q) {
      var k: nat :| DiffersAt(p, q, k);
      assert DiffersAt(q, p, k);
    }
  }

  lemma CompareTransitive(p: seq<int>, q: seq<int>, r: seq<int>)
    requires Compare(p, q) <= 0 && Compare(q, r) <= 0
    ensures Compare(p, r) <= 0
    ensures Compare(p, r) == 0 ==> Compare(p, q) == 0 && Compare(q, r) == 0
  {
    FirstDifferenceDecides(p, q);
    FirstDifferenceDecides(q, r);
    FirstDifferenceDecides(p, r);
    if Alike(p, q) && Alike(q, r) {
      assert Alike(p, r);
    } else if Alike(p, q) {
      var k: nat :| DiffersAt(q, r, k);
      assert DiffersAt(p, r, k);
    } else {
      var j: nat :| DiffersAt(p, q, j);
      if Alike(q, r) {
        assert DiffersAt(p, r, j);
      } else {
        var k: nat :| DiffersAt(q, r, k);
        assert DiffersAt(p, r, if j < k then j else k);
      }
    }
  }

  /** On strings that are there, a total preorder ... */
  lemma VersionsArePreordered(a: bytes, b: bytes, c: bytes)
    requires a != [] && b != [] && c != []
    ensures CompareSpec(Some(a), Some(b)) == -CompareSpec(Some(b), Some(a))
    ensures CompareSpec(Some(a), Some(b)) <= 0 && CompareSpec(Some(b), Some(c)) <= 0 ==>
              CompareSpec(Some(a), Some(c)) <= 0
  {
    CompareAntisymmetric(Version(a), Version(b));
    if CompareSpec(Some(a), Some(b)) <= 0 && CompareSpec(Some(b), Some(c)) <= 0 {
      CompareTransitive(Version(a), Version(b), Version(c));
    }
  }

  /** ... that does not see trailing zeros ... */
  lemma TrailingZerosUnseen(numbers: seq<nat>, zeros: nat, prefix: bytes, suffix: bytes)
    requires forall i :: 0 <= i < |prefix| ==> !IsDigit(prefix[i])
    requires numbers != [] && (suffix == [] || !IsDigit(suffix[0])) && !Continues(suffix)
    ensures var longer := numbers + seq(zeros, _ => 0);
            CompareSpec(Some(prefix + (Render(longer) + suffix)), Some(Render(numbers))) == 0
  {
    hide Version, Render, Compare;
    var longer := numbers + seq(zeros, _ => 0);
    VersionFound(prefix, longer, suffix);
    VersionOfBare(numbers);
    FirstDifferenceDecides(longer, numbers);
    assert Alike(longer, numbers);
    RenderedIsThere(numbers);
    RenderedIsThere(longer);
  }

  lemma VersionOfBare(numbers: seq<nat>)
    requires numbers != []
    ensures Version(Render(numbers)) == numbers
  {
    hide Version, Render;
    VersionFound([], numbers, []);
    assert [] + (Render(numbers) + []) == Render(numbers);
  }

  lemma RenderedIsThere(numbers: seq<nat>)
    requires numbers != []
    ensures Render(numbers) != []
  {
  }

  /** ... but a missing version equals everything: exactly there, comparing is not transitive. */
  lemma TransitiveThroughExactly(v2: Option<bytes>)
    ensures (forall v1, v3 :: CompareSpec(v1, v2) <= 0 && CompareSpec(v2, v3) <= 0 ==> CompareSpec(v1, v3) <= 0)
       <==> !IsMissing(v2)
  {
    hide CompareSpec;
    if IsMissing(v2) {
      var two, one := Some([50]), Some([49]);
      MissingIsLevel(two, v2);
      MissingIsLevel(one, v2);
      TwoAfterOne();
      assert CompareSpec(two, v2) <= 0 && CompareSpec(v2, one) <= 0;
    } else {
      forall v1, v3 | CompareSpec(v1, v2) <= 0 && CompareSpec(v2, v3) <= 0 ensures CompareSpec(v1, v3) <= 0 {
        if IsMissing(v1) {
          MissingIsLevel(v3, v1);
        } else if IsMissing(v3) {
          MissingIsLevel(v1, v3);
        } else {
          VersionsArePreordered(v1.value, v2.value, v3.value);
        }
      }
    }
  }

  lemma MissingIsLevel(v: Option<bytes>, missing: Option<bytes>)
    requires IsMissing(missing)
    ensures CompareSpec(v, missing) == 0 && CompareSpec(missing, v) == 0
  {
  }

  lemma TwoAfterOne()
    ensures CompareSpec(Some([50]), Some([49])) == 1
  {
    hide Version;
    OneDigit(2);
    OneDigit(1);
  }

  lemma OneDigit(n: nat)
    requires n < 10
    ensures Version([(48 + n) as u8]) == [n]
  {
    hide Version;
    VersionOfBare([n]);
    assert Decimal(n) == [(48 + n) as u8];
    assert Render([n]) == Decimal(n) + [] == Decimal(n);
  }
}
