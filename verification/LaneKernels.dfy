/** Four-lane kernels with a scalar tail, against the plain forms they stand for. */
module LaneKernels {

  const WORD: int := 0x1_0000_0000_0000_0000
  const ONES: bv64 := 0xFFFF_FFFF_FFFF_FFFF

  // ── Filters ────────────────────────────────────────────────────────────────

  /** The number of indices in `lo..hi` that satisfy a predicate. */
  function CountIn(p: nat -> bool, lo: nat, hi: nat): nat {
    if hi <= lo then 0 else CountIn(p, lo, hi - 1) + if p(hi - 1) then 1 else 0
  }

  lemma CountNone(p: nat -> bool, lo: nat)
    ensures CountIn(p, lo, lo) == 0
  {}

  lemma CountOne(p: nat -> bool, lo: nat, hi: nat)
    requires lo <= hi
    ensures CountIn(p, lo, hi + 1) == CountIn(p, lo, hi) + if p(hi) then 1 else 0
  {}

  lemma {:induction false} CountSplits(p: nat -> bool, lo: nat, mid: nat, hi: nat)
    requires lo <= mid <= hi
    ensures CountIn(p, lo, hi) == CountIn(p, lo, mid) + CountIn(p, mid, hi)
  {
    if mid < hi {
      CountSplits(p, lo, mid, hi - 1);
    }
  }

  lemma {:induction false} CountIsSetSize(p: nat -> bool, hi: nat)
    ensures CountIn(p, 0, hi) == |set i: nat | i < hi && p(i)|
  {
    if hi == 0 {
      assert (set i: nat | i < hi && p(i)) == {};
    } else {
      CountIsSetSize(p, hi - 1);
      assert (set i: nat | i < hi && p(i)) == (set i: nat | i < hi - 1 && p(i)) + if p(hi - 1) then {hi - 1} else {};
    }
  }

  /** A comparison mask: all ones where it holds. */
  function Mask(b: bool): (m: bv64)
    ensures ((m >> 63) == 1 <==> b) && (m != 0 <==> b)
  {
    if b then ONES else 0
  }

  lemma MaskNot(a: bool)
    ensures !Mask(a) == Mask(!a)
  {}

  lemma MaskAnd(a: bool, b: bool)
    ensures Mask(a) & Mask(b) == Mask(a && b)
  {}

  function Signs(m0: bv64, m1: bv64, m2: bv64, m3: bv64): nat {
    (if m0 >> 63 == 1 then 1 else 0) + (if m1 >> 63 == 1 then 1 else 0) + (if m2 >> 63 == 1 then 1 else 0) + (if m3 >> 63 == 1 then 1 else 0)
  }

  lemma SignsOf(b0: bool, b1: bool, b2: bool, b3: bool)
    ensures Signs(Mask(b0), Mask(b1), Mask(b2), Mask(b3)) ==
            (if b0 then 1 else 0) + (if b1 then 1 else 0) + (if b2 then 1 else 0) + (if b3 then 1 else 0)
  {}

  function NonZeros(m0: bv64, m1: bv64, m2: bv64, m3: bv64): nat {
    (if m0 != 0 then 1 else 0) + (if m1 != 0 then 1 else 0) + (if m2 != 0 then 1 else 0) + (if m3 != 0 then 1 else 0)
  }

  lemma FourMore(p: nat -> bool, lo: nat, hi: nat)
    requires lo <= hi
    ensures CountIn(p, lo, hi + 4) == CountIn(p, lo, hi) + (if p(hi) then 1 else 0) + (if p(hi + 1) then 1 else 0)
                                      + (if p(hi + 2) then 1 else 0) + (if p(hi + 3) then 1 else 0)
  {
    assert CountIn(p, lo, hi + 1) == CountIn(p, lo, hi) + if p(hi) then 1 else 0;
    assert CountIn(p, lo, hi + 2) == CountIn(p, lo, hi + 1) + if p(hi + 1) then 1 else 0;
    assert CountIn(p, lo, hi + 3) == CountIn(p, lo, hi + 2) + if p(hi + 2) then 1 else 0;
  }

  /** The scalar predicate: the window at index `i` of both slices contains the instant. */
  function InForce(from: seq<int>, to: seq<int>, ts: int): nat -> bool {
    (i: nat) => i < |from| && i < |to| && from[i] <= ts < to[i]
  }

  function Shorter(n: nat, m: nat): nat {
    if n < m then n else m
  }

  /** One lane: not `from > ts`, and `to > ts`. */
  function Lane(from: int, to: int, ts: int): (m: bv64)
    ensures m == Mask(from <= ts < to)
  {
    MaskNot(from > ts);
    MaskAnd(!(from > ts), to > ts);
    !Mask(from > ts) & Mask(to > ts)
  }

  /**
   How far the filter looks: both slices' common part, except that a `to` slice with fewer whole
   chunks loses its own tail.
   */
  function Covered(n: nat, m: nat): nat {
    if n / 4 > m / 4 then m / 4 * 4 else Shorter(n, m)
  }

  function One(b: bool): nat {
    if b then 1 else 0
  }

  /** One vector step: the set sign bits of four lanes. */
  function FourWindows(from: seq<int>, to: seq<int>, ts: int): (n: nat)
    requires |from| == |to| == 4
    ensures n == One(from[0] <= ts < to[0]) + One(from[1] <= ts < to[1]) + One(from[2] <= ts < to[2]) + One(from[3] <= ts < to[3])
  {
    SignsOf(from[0] <= ts < to[0], from[1] <= ts < to[1], from[2] <= ts < to[2], from[3] <= ts < to[3]);
    Signs(Lane(from[0], to[0], ts), Lane(from[1], to[1], ts), Lane(from[2], to[2], ts), Lane(from[3], to[3], ts))
  }

  /** The four-lane loop over whole chunks of both slices. */
  method CountChunks(from: seq<int>, to: seq<int>, ts: int, chunks: nat) returns (count: nat)
    requires 4 * chunks <= |from| && 4 * chunks <= |to|
    ensures count == CountIn(InForce(from, to, ts), 0, 4 * chunks)
  {
    hide CountIn, FourWindows;
    ghost var p := InForce(from, to, ts);
    CountNone(p, 0);
    count := 0;
    for k := 0 to chunks
      invariant count == CountIn(p, 0, 4 * k)
    {
      var i := 4 * k;
      FourMore(p, 0, i);
      count := count + FourWindows(from[i..i + 4], to[i..i + 4], ts);
    }
  }

  /** The scalar loop over a tail. */
  method CountTail(from: seq<int>, to: seq<int>, ts: int, lo: nat, hi: nat) returns (count: nat)
    requires lo <= hi <= |from| && hi <= |to|
    ensures count == CountIn(InForce(from, to, ts), lo, hi)
  {
    hide CountIn;
    ghost var p := InForce(from, to, ts);
    CountNone(p, lo);
    count := 0;
    for i := lo to hi
      invariant count == CountIn(p, lo, i)
    {
      CountOne(p, lo, i);
      if from[i] <= ts && ts < to[i] {
        count := count + 1;
      }
    }
  }

  /** `valid_time_filter_simd`. */
  method ValidTimeFilter(from: seq<int>, to: seq<int>, ts: int) returns (count: nat)
    ensures count == CountIn(InForce(from, to, ts), 0, Covered(|from|, |to|))
  {
    hide CountIn, InForce;
    var chunks := Shorter(|from| / 4, |to| / 4);
    count := CountChunks(from, to, ts, chunks);
    var rem, end := |from| / 4 * 4, Shorter(|from|, |to|);
    if rem < end {
      var rest := CountTail(from, to, ts, rem, end);
      count := count + rest;
      CountSplits(InForce(from, to, ts), 0, rem, end);
    }
  }

  /** For slices of the promised equal length the filter counts exactly the windows that contain the instant. */
  lemma EqualLengthsAreCovered(from: seq<int>, to: seq<int>, ts: int)
    requires |from| == |to|
    ensures CountIn(InForce(from, to, ts), 0, Covered(|from|, |to|)) == |set i: nat | i < |from| && from[i] <= ts < to[i]|
  {
    var p := InForce(from, to, ts);
    CountIsSetSize(p, |from|);
    assert (set i: nat | i < |from| && p(i)) == (set i: nat | i < |from| && from[i] <= ts < to[i]);
  }

  /** The filter is right about the slices' common part, whatever they hold. */
  ghost predicate ExactFor(n: nat, m: nat) {
    forall from: seq<int>, to: seq<int>, ts: int :: |from| == n && |to| == m ==>
      CountIn(InForce(from, to, ts), 0, Covered(n, m)) == CountIn(InForce(from, to, ts), 0, Shorter(n, m))
  }

  /** That is so exactly when `to` has as many whole chunks as `from`, or no tail of its own. */
  lemma FilterIsExact(n: nat, m: nat)
    ensures ExactFor(n, m) <==> n / 4 <= m / 4 || m % 4 == 0
  {
    if !(n / 4 <= m / 4 || m % 4 == 0) {
      var from, to := seq(n, _ => 0), seq(m, _ => 1);
      AllInForce(from, to, Covered(n, m));
      AllInForce(from, to, Shorter(n, m));
    }
  }

  lemma {:induction false} AllInForce(from: seq<int>, to: seq<int>, hi: nat)
    requires hi <= |from| && hi <= |to| && (forall i :: 0 <= i < hi ==> from[i] == 0 && to[i] == 1)
    ensures CountIn(InForce(from, to, 0), 0, hi) == hi
  {
    if hi > 0 {
      AllInForce(from, to, hi - 1);
    }
  }

  function Early(counts: seq<int>, threshold: int): nat -> bool {
    (i: nat) => i < |counts| && counts[i] <= threshold
  }

  /** One lane: not `count > threshold`. */
  function Due(count: int, threshold: int): (m: bv64)
    ensures m == Mask(count <= threshold)
  {
    MaskNot(count > threshold);
    !Mask(count > threshold)
  }

  /** One vector step: the lanes left nonzero. */
  function FourCounts(counts: seq<int>, threshold: int): (n: nat)
    requires |counts| == 4
    ensures n == One(counts[0] <= threshold) + One(counts[1] <= threshold) + One(counts[2] <= threshold) + One(counts[3] <= threshold)
  {
    NonZeros(Due(counts[0], threshold), Due(counts[1], threshold), Due(counts[2], threshold), Due(counts[3], threshold))
  }

  /** `as_of_filter_simd`: the facts at or before the threshold. */
  method AsOfFilter(counts: seq<int>, threshold: int) returns (count: nat)
    ensures count == |set i: nat | i < |counts| && counts[i] <= threshold|
  {
    hide CountIn, FourCounts;
    ghost var p := Early(counts, threshold);
    CountNone(p, 0);
    count := 0;
    for k := 0 to |counts| / 4
      invariant count == CountIn(p, 0, 4 * k)
    {
      var i := 4 * k;
      FourMore(p, 0, i);
      count := count + FourCounts(counts[i..i + 4], threshold);
    }
    var rem := |counts| / 4 * 4;
    for i := rem to |counts|
      invariant count == CountIn(p, 0, i)
    {
      CountOne(p, 0, i);
      if counts[i] <= threshold {
        count := count + 1;
      }
    }
    CountIsSetSize(p, |counts|);
    assert (set i: nat | i < |counts| && p(i)) == (set i: nat | i < |counts| && counts[i] <= threshold);
  }

  // ── Wrapping sum ───────────────────────────────────────────────────────────

  /** Two's complement: the 64-bit signed integer congruent to `x`. */
  function Wrap(x: int): (r: int)
    ensures -0x8000_0000_0000_0000 <= r < 0x8000_0000_0000_0000 && (x - r) % WORD == 0
  {
    (x + 0x8000_0000_0000_0000) % WORD - 0x8000_0000_0000_0000
  }

  /** Left to right, wrapping at every step. */
  function WrappingSum(s: seq<int>): int {
    if s == [] then 0 else Wrap(WrappingSum(s[..|s| - 1]) + s[|s| - 1])
  }

  function ExactSum(s: seq<int>): int {
    if s == [] then 0 else ExactSum(s[..|s| - 1]) + s[|s| - 1]
  }

  lemma WrapAbsorbs(a: int, b: int)
    ensures Wrap(Wrap(a) + b) == Wrap(a + b)
  {}

  /** Wrapping once at the end is wrapping at every step. */
  lemma {:induction false} WrappingIsModular(s: seq<int>)
    ensures WrappingSum(s) == Wrap(ExactSum(s))
  {
    if s != [] {
      WrappingIsModular(s[..|s| - 1]);
      WrapAbsorbs(ExactSum(s[..|s| - 1]), s[|s| - 1]);
    }
  }

  lemma WrapJoins(a: int, b: int)
    ensures Wrap(Wrap(a) + Wrap(b)) == Wrap(a + b)
  {
    WrapAbsorbs(a, Wrap(b));
    WrapAbsorbs(b, a);
  }

  lemma ExactFour(s: seq<int>, n: nat)
    requires n + 4 <= |s|
    ensures ExactSum(s[..n + 4]) == ExactSum(s[..n]) + s[n] + s[n + 1] + s[n + 2] + s[n + 3]
  {
    ExactOne(s, n);
    ExactOne(s, n + 1);
    ExactOne(s, n + 2);
    ExactOne(s, n + 3);
  }

  lemma ExactOne(s: seq<int>, n: nat)
    requires n < |s|
    ensures ExactSum(s[..n + 1]) == ExactSum(s[..n]) + s[n]
  {
    assert s[..n + 1][..n] == s[..n];
  }

  /** `sum_simd_i64`: four wrapping lanes and a tail give the left-to-right wrapping sum. */
  method LaneSum(values: seq<int>) returns (sum: int)
    ensures sum == WrappingSum(values)
  {
    hide Wrap, ExactSum, WrappingSum;
    var a0, a1, a2, a3 := 0, 0, 0, 0;
    ghost var e0, e1, e2, e3 := 0, 0, 0, 0;
    WrapZero();
    for k := 0 to |values| / 4
      invariant a0 == Wrap(e0) && a1 == Wrap(e1) && a2 == Wrap(e2) && a3 == Wrap(e3)
      invariant e0 + e1 + e2 + e3 == ExactSum(values[..4 * k])
    {
      var i := 4 * k;
      WrapAbsorbs(e0, values[i]);
      WrapAbsorbs(e1, values[i + 1]);
      WrapAbsorbs(e2, values[i + 2]);
      WrapAbsorbs(e3, values[i + 3]);
      ExactFour(values, i);
      a0, a1, a2, a3 := Wrap(a0 + values[i]), Wrap(a1 + values[i + 1]), Wrap(a2 + values[i + 2]), Wrap(a3 + values[i + 3]);
      e0, e1, e2, e3 := e0 + values[i], e1 + values[i + 1], e2 + values[i + 2], e3 + values[i + 3];
    }
    sum := Wrap(Wrap(Wrap(Wrap(0 + a0) + a1) + a2) + a3);
    LanesJoin(e0, e1, e2, e3);
    var rem := |values| / 4 * 4;
    for i := rem to |values|
      invariant sum == Wrap(ExactSum(values[..i]))
    {
      WrapAbsorbs(ExactSum(values[..i]), values[i]);
      ExactOne(values, i);
      sum := Wrap(sum + values[i]);
    }
    assert values[..|values|] == values;
    WrappingIsModular(values);
  }

  lemma WrapZero()
    ensures Wrap(0) == 0 && ExactSum([]) == 0
  {}

  lemma LanesJoin(e0: int, e1: int, e2: int, e3: int)
    ensures Wrap(Wrap(Wrap(Wrap(0 + Wrap(e0)) + Wrap(e1)) + Wrap(e2)) + Wrap(e3)) == Wrap(e0 + e1 + e2 + e3)
  {
    hide Wrap;
    WrapAbsorbs(e0, 0);
    WrapJoins(e0, e1);
    WrapJoins(e0 + e1, e2);
    WrapJoins(e0 + e1 + e2, e3);
  }
}
