/** Identifiers, option and result types, and the rounding rule shared by every
    derived percentage in the service. */
module Basics {
  /** Stands for a UUID: only equality and freshness matter. */
  type Id = nat

  datatype Option<+T> = None | Some(value: T)

  datatype Result<+T, +E> = Ok(value: T) | Err(error: E)

  /** The stored hash of a token: equal only for equal tokens. */
  datatype Hash = Hash(token: Id)

  function Elements<T(==)>(s: seq<T>): set<T> {
    set x | x in s
  }

  ghost predicate Distinct<T>(s: seq<T>) {
    forall i, j :: 0 <= i < j < |s| ==> s[i] != s[j]
  }

  function Max(a: int, b: int): (m: int)
    ensures m >= a && m >= b && (m == a || m == b)
  {
    if a < b then b else a
  }

  function Min(a: int, b: int): (m: int)
    ensures m <= a && m <= b && (m == a || m == b)
  {
    if a < b then a else b
  }

  /** Python's `round` of the quotient p / q: nearest integer, exact halves to the
      even neighbour (roundTiesToEven, IEEE 754-2019 section 4.3.1). */
  function RoundDiv(p: nat, q: nat): (r: nat)
    requires q > 0
  {
    var floor, rest := p / q, p % q;
    if 2 * rest < q then floor
    else if 2 * rest > q then floor + 1
    else if floor % 2 == 0 then floor
    else floor + 1
  }

  /** r is within half a unit of p / q, and even when exactly half a unit away. */
  ghost predicate IsRoundingOf(r: nat, p: nat, q: nat) {
    var twiceError := 2 * (r * q) - 2 * p;
    && 0 <= twiceError + q && twiceError <= q
    && (twiceError == q || twiceError + q == 0 ==> r % 2 == 0)
  }

  lemma MulSplit(a: int, b: int, q: int)
    ensures a * q == b * q + (a - b) * q
  {
  }

  lemma MulLe(a: int, b: int, q: nat)
    requires a <= b
    ensures a * q <= b * q
  {
  }

  /** `RoundDiv` is the one integer that is nearest with ties to even. */
  lemma RoundDivIsNearestEven(p: nat, q: nat, r: nat)
    requires q > 0
    ensures IsRoundingOf(r, p, q) <==> r == RoundDiv(p, q)
  {
    var floor, rest := p / q, p % q;
    var d := r - floor;
    MulSplit(r, floor, q);
    assert 2 * (r * q) - 2 * p == 2 * (d * q) - 2 * rest;
    if d < 0 {
      MulLe(d, -1, q);
    } else if d > 1 {
      MulLe(2, d, q);
    }
  }

  /** round(100 * part / whole). */
  function Percent(part: nat, whole: nat): (r: nat)
    requires whole > 0
  {
    RoundDiv(100 * part, whole)
  }

  lemma PercentIsRounded(part: nat, whole: nat)
    requires whole > 0
    ensures IsRoundingOf(Percent(part, whole), 100 * part, whole)
  {
    RoundDivIsNearestEven(100 * part, whole, Percent(part, whole));
  }

  /** A rounded percentage reads 100 exactly when the missing share is at most one
      half per cent; the tie 99.5 goes to the even neighbour, 100. */
  lemma PercentIsFullIff(part: nat, whole: nat)
    requires 0 < whole && part <= whole
    ensures Percent(part, whole) == 100 <==> 200 * (whole - part) <= whole
  {
    RoundDivIsNearestEven(100 * part, whole, 100);
  }

  /** Rounding is monotone in the numerator. */
  lemma RoundDivMonotone(p: nat, p': nat, q: nat)
    requires q > 0 && p <= p'
    ensures RoundDiv(p, q) <= RoundDiv(p', q)
  {
    var r, r' := RoundDiv(p, q), RoundDiv(p', q);
    RoundDivIsNearestEven(p, q, r);
    RoundDivIsNearestEven(p', q, r');
    if r > r' + 1 {
      MulSplit(r, r', q);
      MulLe(2, r - r', q);
    } else if r == r' + 1 {
      MulSplit(r, r', q);
    }
  }

  /** More done never reads as less, and nothing reads above 100. */
  lemma PercentMonotone(part: nat, more: nat, whole: nat)
    requires 0 < whole && part <= more <= whole
    ensures Percent(part, whole) <= Percent(more, whole) <= 100
  {
    RoundDivMonotone(100 * part, 100 * more, whole);
    RoundDivMonotone(100 * more, 100 * whole, whole);
    RoundDivIsNearestEven(100 * whole, whole, 100);
  }

  /** A subset is no larger, and equal only when it is as large. */
  lemma SubsetSize<T>(a: set<T>, b: set<T>)
    requires a <= b
    ensures |a| <= |b|
    ensures |a| == |b| ==> a == b
  {
    assert b == a + (b - a);
    assert |b| == |a| + |b - a|;
  }

  /** A sequence without repetition has as many elements as positions. */
  lemma {:induction false} DistinctSize<T>(s: seq<T>)
    requires Distinct(s)
    ensures |Elements(s)| == |s|
  {
    if s != [] {
      var init, last := s[..|s| - 1], s[|s| - 1];
      DistinctSize(init);
      assert s == init + [last];
      assert Elements(s) == Elements(init) + {last};
    } else {
      assert Elements(s) == {};
    }
  }

  /** Two maps that agree except at one key. */
  lemma OneKeyDiffers<K, V>(before: map<K, V>, after: map<K, V>, key: K)
    requires after.Keys == before.Keys + {key}
    requires forall k :: k in after && k != key ==> after[k] == before[k]
    ensures after == before[key := after[key]]
  {
    var updated := before[key := after[key]];
    assert after.Keys == updated.Keys;
    forall k | k in after
      ensures after[k] == updated[k]
    {
    }
  }
}
