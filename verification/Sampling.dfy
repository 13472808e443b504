/**
 The points of a long series that the dashboard draws.

 Of a series of length `n` the dashboard keeps every offset that is a multiple of `n / 200`, and the last one.
 Up to 399 points the stride is 1 and everything is kept; from 400 points on there are at most 301.

 The multiples of a stride are found one offset at a time, so that most of the arithmetic here
 is about one step of quotient and remainder by a divisor that is not a constant.
 */
module Sampling {
  function Stride(n: nat): (s: nat)
    ensures 1 <= s
  {
    if n / 200 < 1 then 1 else n / 200
  }

  predicate Kept(i: nat, n: nat) {
    i % Stride(n) == 0 || i + 1 == n
  }

  /** The offsets below `end` kept of a series of length `n`. */
  function Offsets(n: nat, end: nat): seq<nat> {
    if end == 0 then [] else Offsets(n, end - 1) + if Kept(end - 1, n) then [end - 1] else []
  }

  function Sampled<T>(series: seq<T>, end: nat): (r: seq<T>)
    requires end <= |series|
  {
    if end == 0 then [] else Sampled(series, end - 1) + if Kept(end - 1, |series|) then [series[end - 1]] else []
  }

  lemma {:induction false} SampledAt<T>(series: seq<T>, end: nat)
    requires end <= |series|
    ensures var s, o := Sampled(series, end), Offsets(|series|, end);
      |s| == |o| && forall k :: 0 <= k < |s| ==> o[k] < end && s[k] == series[o[k]]
  {
    if end > 0 {
      SampledAt(series, end - 1);
    }
  }

  // ---------------------------------------------------------------------------------------------------
  // Gaps
  // ---------------------------------------------------------------------------------------------------

  lemma {:induction false} Quotient(s: nat, x: nat, q: nat, r: nat)
    requires r < s && x == s * q + r
    ensures x / s == q
  {
    var p, t := x / s, x % s;
    assert x == s * p + t;
    if p > q {
      Apart(s, p, q);
    } else if q > p {
      Apart(s, q, p);
    }
  }

  lemma {:induction false} Apart(s: nat, a: nat, b: nat)
    requires a > b
    ensures s * a >= s * b + s
    decreases a
  {
    assert s * a == s * (a - 1) + s;
    if a > b + 1 {
      Apart(s, a - 1, b);
    }
  }

  lemma {:induction false} NextRemainder(i: nat, s: nat)
    requires 0 < s
    ensures (i + 1) % s == if i % s + 1 == s then 0 else i % s + 1
    ensures (i + 1) / s == if i % s + 1 == s then i / s + 1 else i / s
  {
    var q, r := i / s, i % s;
    assert i == s * q + r;
    if r + 1 == s {
      assert s * (q + 1) == s * q + s;
      Quotient(s, i + 1, q + 1, 0);
    } else {
      Quotient(s, i + 1, q, r + 1);
    }
  }

  /** The last multiple of the stride below `end`. */
  function LastMultiple(n: nat, end: nat): int {
    end - 1 - (end - 1) % Stride(n)
  }

  /** Kept offsets ascend in steps of at most the stride, the first is 0, and the last is recent. */
  ghost predicate Even(o: seq<nat>, n: nat, end: nat) {
    && o != [] && o[0] == 0
    && (forall k :: 0 <= k < |o| - 1 ==> o[k] < o[k + 1] <= o[k] + Stride(n))
    && o[|o| - 1] == if end < n then LastMultiple(n, end) else n - 1
  }

  lemma {:induction false} MultipleStep(n: nat, end: nat)
    requires 2 <= end
    ensures LastMultiple(n, end) == if (end - 1) % Stride(n) == 0 then end - 1 else LastMultiple(n, end - 1)
    ensures LastMultiple(n, end - 1) < end - 1 <= LastMultiple(n, end - 1) + Stride(n)
  {
    NextRemainder(end - 2, Stride(n));
  }

  lemma {:induction false} OffsetsAreEven(n: nat, end: nat)
    requires 1 <= end <= n
    ensures Even(Offsets(n, end), n, end)
  {
    if end == 1 {
      assert 0 % Stride(n) == 0;
      assert Offsets(n, 0) == [] && Offsets(n, 1) == [0];
    } else {
      OffsetsAreEven(n, end - 1);
      MultipleStep(n, end);
      EvenGrows(Offsets(n, end - 1), n, end);
    }
  }

  lemma {:induction false} EvenGrows(o: seq<nat>, n: nat, end: nat)
    requires 2 <= end <= n && Even(o, n, end - 1)
    requires LastMultiple(n, end) == if (end - 1) % Stride(n) == 0 then end - 1 else LastMultiple(n, end - 1)
    requires LastMultiple(n, end - 1) < end - 1 <= LastMultiple(n, end - 1) + Stride(n)
    ensures Even(o + if Kept(end - 1, n) then [end - 1] else [], n, end)
  {
    if Kept(end - 1, n) {
      assert (o + [end - 1])[|o|] == end - 1;
    } else {
      assert o + [] == o;
    }
  }

  // ---------------------------------------------------------------------------------------------------
  // Number
  // ---------------------------------------------------------------------------------------------------

  /** How many offsets below `end` the stride alone keeps: one for every stride begun. */
  lemma {:induction false} OffsetsCount(n: nat, end: nat)
    requires 1 <= end <= n
    ensures var c := |Offsets(n, end)| - 1; c == (end - 1) / Stride(n) || (end == n && c == (end - 1) / Stride(n) + 1)
  {
    var s := Stride(n);
    if end == 1 {
      assert 0 % s == 0 && 0 / s == 0;
      assert Offsets(n, 0) == [] && Offsets(n, 1) == [0];
    } else {
      OffsetsCount(n, end - 1);
      NextRemainder(end - 2, s);
    }
  }

  lemma {:induction false} AtMost(n: nat, s: nat)
    requires 2 <= s && n <= 200 * s + 199 && 1 <= n
    ensures (n - 1) / s <= 299
  {
  }

  /**
   Whatever its length, a series that is not empty keeps at most 399 points: the first and the last among them,
   in order, and no two neighbours further apart than the stride.
   */
  lemma {:induction false} SamplingIsEven<T>(series: seq<T>)
    requires series != []
    ensures var n := |series|;
      var o, s := Offsets(n, n), Sampled(series, n);
      && |s| == |o| <= 399 && Even(o, n, n)
      && forall k :: 0 <= k < |s| ==> o[k] < n && s[k] == series[o[k]]
  {
    var n := |series|;
    SampledAt(series, n);
    OffsetsAreEven(n, n);
    OffsetsCount(n, n);
    if Stride(n) >= 2 {
      AtMost(n, Stride(n));
    } else {
      AllKept(n, n);
    }
  }

  lemma {:induction false} AllKept(n: nat, end: nat)
    requires Stride(n) == 1
    ensures |Offsets(n, end)| == end
  {
    if end > 0 {
      AllKept(n, end - 1);
      assert (end - 1) % 1 == 0;
    }
  }

  // ---------------------------------------------------------------------------------------------------
  // Which
  // ---------------------------------------------------------------------------------------------------

  /** The number of whole two hundreds, but at least one. */
  predicate IsStride(n: nat, s: nat) {
    1 <= s && n < 200 * s + 200 && (s == 1 || 200 * s <= n)
  }

  lemma {:induction false} StrideExactly(n: nat, s: nat)
    ensures IsStride(n, s) <==> s == Stride(n)
  {
  }

  lemma {:induction false} OffsetsAre(n: nat, end: nat, i: nat)
    ensures i in Offsets(n, end) <==> i < end && (i % Stride(n) == 0 || i + 1 == n)
  {
    if end > 0 {
      OffsetsAre(n, end - 1, i);
    }
  }

  predicate IsAt(o: seq<nat>, k: nat, i: nat) {
    k < |o| && o[k] == i
  }

  /** Of the points of a series exactly the multiples of the stride are kept, and the last; in order, each once. */
  lemma {:induction false} KeptExactly<T>(series: seq<T>, s: nat, i: nat)
    requires IsStride(|series|, s) && i < |series|
    ensures
      var n, kept := |series|, Sampled(series, |series|);
      i % s == 0 || i == n - 1 <==> exists k :: 0 <= k < |kept| && IsAt(Offsets(n, n), k, i) && kept[k] == series[i]
  {
    var n, o, kept := |series|, Offsets(|series|, |series|), Sampled(series, |series|);
    StrideExactly(n, s);
    OffsetsAre(n, n, i);
    SampledAt(series, n);
    if i in o {
      var k :| 0 <= k < |o| && o[k] == i;
      assert IsAt(o, k, i) && kept[k] == series[i];
    }
  }
}
