/**
 The `count` and `sum` accumulators that both query routes feed, and which of their results
 depend on the order in which rows arrive.
 */
module Aggregates {
  import opened Bytes
  import opened Ledger

  const I64_MIN: int := -0x8000_0000_0000_0000
  const I64_MAX: int := 0x7FFF_FFFF_FFFF_FFFF

  /** One row handed to an aggregate: a visible window of an entity, by value. */
  datatype Hit = Hit(entity: nat, value: Value)

  datatype Func = Count | Sum
  datatype Var = EntityVar | ValueVar
  datatype Spec = Spec(func: Func, arg: Var)

  /** `joined`: the pattern uses one variable for both the entity and the value. */
  datatype Aggregate = Aggregate(specs: seq<Spec>, joined: bool, floats: Floats)

  /** Floating-point addition over canonical bits. */
  datatype Floats = Floats(zero: nat, add: (nat, nat) -> nat, ofInt: int -> nat)

  datatype Accumulator = Counted(count: int) | Summed(integer: int, floating: nat, sawFloat: bool)

  datatype Sink = Sink(sawBinding: bool, accumulators: seq<Accumulator>)

  function Clamp(x: int): int {
    if x > I64_MAX then I64_MAX else if x < I64_MIN then I64_MIN else x
  }

  // ── Feeding rows ───────────────────────────────────────────────────────────

  function Start(spec: Spec, fl: Floats): Accumulator {
    if spec.func.Count? then Counted(0) else Summed(0, fl.zero, false)
  }

  function EmptySink(q: Aggregate): (s: Sink)
    ensures |s.accumulators| == |q.specs|
  {
    Sink(false, seq(|q.specs|, i requires 0 <= i < |q.specs| => Start(q.specs[i], q.floats)))
  }

  function Argument(spec: Spec, h: Hit): Value {
    if spec.arg.EntityVar? then Ref(h.entity) else h.value
  }

  predicate Summable(v: Value) {
    v.Null? || v.Integer? || v.Float?
  }

  function Push(a: Accumulator, v: Value, fl: Floats): Accumulator {
    if v.Null? then a
    else match a
      case Counted(n) => Counted(Clamp(n + 1))
      case Summed(i, x, saw) =>
        if v.Integer? then Summed(Clamp(i + v.number), fl.add(x, fl.ofInt(v.number)), saw)
        else if v.Float? then Summed(i, fl.add(x, v.bits), true)
        else a
  }

  predicate Binds(q: Aggregate, h: Hit) {
    q.joined ==> h.value == Ref(h.entity)
  }

  /** Some sum is asked to add a value it cannot. */
  predicate Spoils(q: Aggregate, h: Hit) {
    Binds(q, h) && exists i :: 0 <= i < |q.specs| && q.specs[i].func.Sum? && !Summable(Argument(q.specs[i], h))
  }

  function Feed(q: Aggregate, s: Sink, h: Hit): (r: Result<Sink>)
    requires |s.accumulators| == |q.specs|
    ensures r.Ok? ==> |r.value.accumulators| == |q.specs|
  {
    if !Binds(q, h) then Ok(s)
    else if Spoils(q, h) then Err("sum: expected Integer, Float, or Null")
    else Ok(Sink(true, seq(|q.specs|, i requires 0 <= i < |q.specs| => Push(s.accumulators[i], Argument(q.specs[i], h), q.floats))))
  }

  function FeedAll(q: Aggregate, s: Sink, hits: seq<Hit>): (r: Result<Sink>)
    requires |s.accumulators| == |q.specs|
    ensures r.Ok? ==> |r.value.accumulators| == |q.specs|
  {
    if hits == [] then Ok(s)
    else
      var front := FeedAll(q, s, hits[..|hits| - 1]);
      if front.Err? then front else Feed(q, front.value, hits[|hits| - 1])
  }

  lemma {:induction false} FeedAllSplits(q: Aggregate, s: Sink, a: seq<Hit>, b: seq<Hit>)
    requires |s.accumulators| == |q.specs|
    ensures FeedAll(q, s, a + b) == var front := FeedAll(q, s, a); if front.Err? then front else FeedAll(q, front.value, b)
  {
    if b == [] {
      assert a + b == a;
    } else {
      var n := |b| - 1;
      assert (a + b)[..|a + b| - 1] == a + b[..n];
      FeedAllSplits(q, s, a, b[..n]);
    }
  }

  function ValueOf(a: Accumulator): Value {
    match a
    case Counted(n) => Integer(n)
    case Summed(i, x, saw) => if saw then Float(x) else Integer(i)
  }

  /** The result rows: none for an empty sum, zeros for empty counts. */
  function Finish(q: Aggregate, s: Sink): seq<seq<Value>>
    requires |s.accumulators| == |q.specs|
  {
    if s.sawBinding then [seq(|q.specs|, i requires 0 <= i < |q.specs| => ValueOf(s.accumulators[i]))]
    else if forall i :: 0 <= i < |q.specs| ==> q.specs[i].func.Count? then [seq(|q.specs|, _ => Integer(0))]
    else []
  }

  // ── Totals do not depend on order ──────────────────────────────────────────

  function Total<T>(weight: T -> int, s: seq<T>): int {
    if s == [] then 0 else Total(weight, s[..|s| - 1]) + weight(s[|s| - 1])
  }

  lemma {:induction false} TotalSplits<T>(weight: T -> int, a: seq<T>, b: seq<T>)
    ensures Total(weight, a + b) == Total(weight, a) + Total(weight, b)
  {
    if b == [] {
      assert a + b == a;
    } else {
      assert (a + b)[..|a + b| - 1] == a + b[..|b| - 1];
      TotalSplits(weight, a, b[..|b| - 1]);
    }
  }

  /** Taking one element out of a sequence takes it out of the multiset. */
  lemma WithoutOne<T>(s: seq<T>, j: nat)
    requires j < |s|
    ensures multiset(s[..j] + s[j + 1..]) == multiset(s) - multiset{s[j]}
  {
    assert s == s[..j] + ([s[j]] + s[j + 1..]);
    assert multiset(s) == multiset(s[..j]) + multiset{s[j]} + multiset(s[j + 1..]);
  }

  lemma TotalAround<T>(weight: T -> int, s: seq<T>, j: nat)
    requires j < |s|
    ensures Total(weight, s) == Total(weight, s[..j] + s[j + 1..]) + weight(s[j])
  {
    hide Total;
    var front, x, back := s[..j], s[j], s[j + 1..];
    assert s == front + ([x] + back);
    TotalSplits(weight, front, [x] + back);
    TotalSplits(weight, [x], back);
    TotalSplits(weight, front, back);
    TotalOfOne(weight, x);
  }

  lemma TotalOfOne<T>(weight: T -> int, x: T)
    ensures Total(weight, [x]) == weight(x)
  {
    assert [x][..0] == [];
  }

  lemma {:induction false} TotalIgnoresOrder<T>(weight: T -> int, a: seq<T>, b: seq<T>)
    requires multiset(a) == multiset(b)
    ensures Total(weight, a) == Total(weight, b)
  {
    if a == [] {
      assert |multiset(b)| == 0;
    } else {
      var n := |a| - 1;
      var x, rest := a[n], a[..n];
      assert x in multiset(a);
      var j :| 0 <= j < |b| && b[j] == x;
      hide Total;
      var front, back := b[..j], b[j + 1..];
      WithoutOne(a, n);
      WithoutOne(b, j);
      TotalIgnoresOrder(weight, rest, front + back);
      TotalAround(weight, b, j);
      TotalAround(weight, a, n);
      assert a[..n] + a[n + 1..] == rest;
    }
  }

  // ── Saturating sums ────────────────────────────────────────────────────────

  function SaturatingSum(start: int, s: seq<int>): int {
    if s == [] then start else Clamp(SaturatingSum(start, s[..|s| - 1]) + s[|s| - 1])
  }

  function Gain(x: int): int { if x > 0 then x else 0 }
  function Loss(x: int): int { if x < 0 then x else 0 }

  /** The positive and the negative part both fit 64 bits, or one of them is missing. */
  predicate Calm(gains: int, losses: int) {
    gains == 0 || losses == 0 || (gains <= I64_MAX && losses >= I64_MIN)
  }

  lemma {:induction false} SignsBound(s: seq<int>)
    ensures Total(Gain, s) >= 0 >= Total(Loss, s)
  {
    if s != [] {
      SignsBound(s[..|s| - 1]);
    }
  }

  lemma {:induction false} CalmSum(s: seq<int>)
    requires Calm(Total(Gain, s), Total(Loss, s))
    ensures SaturatingSum(0, s) == Clamp(Total(Gain, s) + Total(Loss, s))
  {
    if s != [] {
      SignsBound(s[..|s| - 1]);
      CalmSum(s[..|s| - 1]);
    }
  }

  function Gains(s: seq<int>): seq<int> {
    if s == [] then []
    else if s[|s| - 1] > 0 then Gains(s[..|s| - 1]) + [s[|s| - 1]]
    else Gains(s[..|s| - 1])
  }

  function Others(s: seq<int>): seq<int> {
    if s == [] then []
    else if s[|s| - 1] > 0 then Others(s[..|s| - 1])
    else Others(s[..|s| - 1]) + [s[|s| - 1]]
  }

  lemma {:induction false} PartsAreWhole(s: seq<int>)
    ensures multiset(Gains(s)) + multiset(Others(s)) == multiset(s)
  {
    if s != [] {
      var front, x := s[..|s| - 1], s[|s| - 1];
      PartsAreWhole(front);
      assert s == front + [x];
    }
  }

  lemma PartsArePermutation(s: seq<int>)
    ensures multiset(Gains(s) + Others(s)) == multiset(s) == multiset(Others(s) + Gains(s))
  {
    hide Gains, Others;
    PartsAreWhole(s);
  }

  lemma {:induction false} SumSplits(start: int, a: seq<int>, b: seq<int>)
    ensures SaturatingSum(start, a + b) == SaturatingSum(SaturatingSum(start, a), b)
  {
    if b == [] {
      assert a + b == a;
    } else {
      assert (a + b)[..|a + b| - 1] == a + b[..|b| - 1];
      SumSplits(start, a, b[..|b| - 1]);
    }
  }

  lemma SumOneMore(start: int, s: seq<int>, x: int)
    ensures SaturatingSum(start, s + [x]) == Clamp(SaturatingSum(start, s) + x)
  {
    assert (s + [x])[..|s|] == s;
  }

  /** Clamping steps that all go one way is clamping once. */
  lemma ClampOneWay(start: int, total: int, x: int)
    requires I64_MIN <= start <= I64_MAX && ((total >= 0 && x >= 0) || (total <= 0 && x <= 0))
    ensures Clamp(Clamp(start + total) + x) == Clamp(start + (total + x))
  {}

  lemma LastOfTotal(weight: int -> int, s: seq<int>)
    requires s != []
    ensures Total(weight, s) == Total(weight, s[..|s| - 1]) + weight(s[|s| - 1])
  {}

  lemma LastOfParts(s: seq<int>)
    requires s != []
    ensures var front, x := s[..|s| - 1], s[|s| - 1];
            && Gains(s) == (if x > 0 then Gains(front) + [x] else Gains(front))
            && Others(s) == (if x > 0 then Others(front) else Others(front) + [x])
  {}

  lemma NothingSaturates(start: int)
    ensures Gains([]) == Others([]) == [] && SaturatingSum(start, []) == start && Total(Gain, []) == Total(Loss, []) == 0
  {}

  lemma {:induction false} GainsSaturate(start: int, s: seq<int>)
    requires I64_MIN <= start <= I64_MAX
    ensures SaturatingSum(start, Gains(s)) == Clamp(start + Total(Gain, s))
  {
    hide SaturatingSum, Total, Gains;
    if s == [] {
      NothingSaturates(start);
    } else {
      var front, x := s[..|s| - 1], s[|s| - 1];
      GainsSaturate(start, front);
      SignsBound(front);
      LastOfTotal(Gain, s);
      LastOfParts(s);
      SumOneMore(start, Gains(front), x);
      ClampOneWay(start, Total(Gain, front), Gain(x));
    }
  }

  lemma {:induction false} OthersSaturate(start: int, s: seq<int>)
    requires I64_MIN <= start <= I64_MAX
    ensures SaturatingSum(start, Others(s)) == Clamp(start + Total(Loss, s))
  {
    hide SaturatingSum, Total, Others;
    if s == [] {
      NothingSaturates(start);
    } else {
      var front, x := s[..|s| - 1], s[|s| - 1];
      OthersSaturate(start, front);
      SignsBound(front);
      LastOfTotal(Loss, s);
      LastOfParts(s);
      SumOneMore(start, Others(front), x);
      ClampOneWay(start, Total(Loss, front), Loss(x));
    }
  }

  ghost predicate OrderFree(s: seq<int>) {
    forall t :: multiset(t) == multiset(s) ==> SaturatingSum(0, t) == SaturatingSum(0, s)
  }

  /** A 64-bit saturating sum is the same in every order exactly when it is calm. */
  lemma SumIsOrderFree(s: seq<int>)
    ensures OrderFree(s) <==> Calm(Total(Gain, s), Total(Loss, s))
  {
    hide SaturatingSum, Total, Gains, Others;
    var gains, losses := Total(Gain, s), Total(Loss, s);
    SignsBound(s);
    if Calm(gains, losses) {
      CalmSum(s);
      forall t | multiset(t) == multiset(s)
        ensures SaturatingSum(0, t) == SaturatingSum(0, s)
      {
        TotalIgnoresOrder(Gain, t, s);
        TotalIgnoresOrder(Loss, t, s);
        CalmSum(t);
      }
    } else {
      PartsArePermutation(s);
      TwoOrders(s);
    }
  }

  /** Gains first and losses first disagree when the sum is not calm. */
  lemma TwoOrders(s: seq<int>)
    requires !Calm(Total(Gain, s), Total(Loss, s))
    ensures SaturatingSum(0, Gains(s) + Others(s)) != SaturatingSum(0, Others(s) + Gains(s))
  {
    hide SaturatingSum, Total, Gains, Others;
    var gains, losses := Total(Gain, s), Total(Loss, s);
    SignsBound(s);
    SumSplits(0, Gains(s), Others(s));
    SumSplits(0, Others(s), Gains(s));
    GainsSaturate(0, s);
    OthersSaturate(Clamp(gains), s);
    OthersSaturate(0, s);
    GainsSaturate(Clamp(losses), s);
  }

  // ── What a fed sink holds ──────────────────────────────────────────────────

  function Spoil(q: Aggregate): Hit -> int { h => if Spoils(q, h) then 1 else 0 }
  function Bound(q: Aggregate): Hit -> int { h => if Binds(q, h) then 1 else 0 }

  function Present(q: Aggregate, spec: Spec): Hit -> int {
    h => if Binds(q, h) && !Argument(spec, h).Null? then 1 else 0
  }

  function Floating(q: Aggregate, spec: Spec): Hit -> int {
    h => if Binds(q, h) && Argument(spec, h).Float? then 1 else 0
  }

  function Number(q: Aggregate, spec: Spec, h: Hit): int {
    if Binds(q, h) && Argument(spec, h).Integer? then Argument(spec, h).number else 0
  }

  function Rise(q: Aggregate, spec: Spec): Hit -> int { h => Gain(Number(q, spec, h)) }
  function Fall(q: Aggregate, spec: Spec): Hit -> int { h => Loss(Number(q, spec, h)) }

  function Numbers(q: Aggregate, spec: Spec, hits: seq<Hit>): seq<int> {
    seq(|hits|, i requires 0 <= i < |hits| => Number(q, spec, hits[i]))
  }

  /** Feeding fails exactly when some row spoils a sum. */
  lemma {:induction false} FeedFails(q: Aggregate, hits: seq<Hit>)
    ensures Total(Spoil(q), hits) >= 0
    ensures FeedAll(q, EmptySink(q), hits).Err? <==> Total(Spoil(q), hits) > 0
  {
    if hits != [] {
      FeedFails(q, hits[..|hits| - 1]);
    }
  }

  lemma {:induction false} SpoilIsMember(q: Aggregate, hits: seq<Hit>)
    ensures Total(Spoil(q), hits) > 0 <==> exists i :: 0 <= i < |hits| && Spoils(q, hits[i])
    ensures Total(Spoil(q), hits) >= 0
  {
    if hits != [] {
      SpoilIsMember(q, hits[..|hits| - 1]);
      assert Spoil(q)(hits[|hits| - 1]) == if Spoils(q, hits[|hits| - 1]) then 1 else 0;
      assert forall i :: 0 <= i < |hits| - 1 ==> hits[i] == hits[..|hits| - 1][i];
    }
  }

  lemma {:induction false} SawBindings(q: Aggregate, hits: seq<Hit>)
    ensures Total(Bound(q), hits) >= 0
    ensures var r := FeedAll(q, EmptySink(q), hits); r.Ok? ==> (r.value.sawBinding <==> Total(Bound(q), hits) > 0)
  {
    if hits != [] {
      SawBindings(q, hits[..|hits| - 1]);
    }
  }

  lemma {:induction false} CountHolds(q: Aggregate, hits: seq<Hit>, i: nat)
    requires i < |q.specs| && q.specs[i].func.Count?
    ensures Total(Present(q, q.specs[i]), hits) >= 0
    ensures var r := FeedAll(q, EmptySink(q), hits); r.Ok? ==> r.value.accumulators[i] == Counted(Clamp(Total(Present(q, q.specs[i]), hits)))
  {
    if hits != [] {
      CountHolds(q, hits[..|hits| - 1], i);
    }
  }

  lemma {:induction false} SumHolds(q: Aggregate, hits: seq<Hit>, i: nat)
    requires i < |q.specs| && q.specs[i].func.Sum?
    ensures Total(Floating(q, q.specs[i]), hits) >= 0
    ensures var r := FeedAll(q, EmptySink(q), hits);
            r.Ok? ==> var a := r.value.accumulators[i];
                      && a.Summed?
                      && (a.sawFloat <==> Total(Floating(q, q.specs[i]), hits) > 0)
                      && a.integer == SaturatingSum(0, Numbers(q, q.specs[i], hits))
  {
    if hits != [] {
      var front := hits[..|hits| - 1];
      SumHolds(q, front, i);
      StaysBounded(0, Numbers(q, q.specs[i], front));
      assert Numbers(q, q.specs[i], hits)[..|hits| - 1] == Numbers(q, q.specs[i], front);
    }
  }

  lemma {:induction false} StaysBounded(start: int, s: seq<int>)
    requires I64_MIN <= start <= I64_MAX
    ensures I64_MIN <= SaturatingSum(start, s) <= I64_MAX
  {}

  lemma {:induction false} NumbersTotal(q: Aggregate, spec: Spec, hits: seq<Hit>)
    ensures Total(Gain, Numbers(q, spec, hits)) == Total(Rise(q, spec), hits)
    ensures Total(Loss, Numbers(q, spec, hits)) == Total(Fall(q, spec), hits)
  {
    if hits != [] {
      NumbersTotal(q, spec, hits[..|hits| - 1]);
      assert Numbers(q, spec, hits)[..|hits| - 1] == Numbers(q, spec, hits[..|hits| - 1]);
    }
  }

  /** Every sum adds integers only, and calmly. */
  predicate Steady(q: Aggregate, hits: seq<Hit>) {
    forall i :: 0 <= i < |q.specs| && q.specs[i].func.Sum? ==>
      && Total(Floating(q, q.specs[i]), hits) == 0
      && Calm(Total(Rise(q, q.specs[i]), hits), Total(Fall(q, q.specs[i]), hits))
  }

  lemma SameSum(q: Aggregate, a: seq<Hit>, b: seq<Hit>, i: nat)
    requires multiset(a) == multiset(b) && Steady(q, b)
    requires i < |q.specs| && q.specs[i].func.Sum?
    ensures SaturatingSum(0, Numbers(q, q.specs[i], a)) == SaturatingSum(0, Numbers(q, q.specs[i], b))
    ensures Total(Floating(q, q.specs[i]), a) == Total(Floating(q, q.specs[i]), b) == 0
  {
    hide Total, Numbers, SaturatingSum, Calm, Floating, Rise, Fall;
    var spec := q.specs[i];
    TotalIgnoresOrder(Floating(q, spec), a, b);
    TotalIgnoresOrder(Rise(q, spec), a, b);
    TotalIgnoresOrder(Fall(q, spec), a, b);
    NumbersTotal(q, spec, a);
    NumbersTotal(q, spec, b);
    CalmSum(Numbers(q, spec, a));
    CalmSum(Numbers(q, spec, b));
  }

  /** Errors, emptiness and counts never depend on row order; sums do not when they are steady. */
  lemma ResultsIgnoreOrder(q: Aggregate, a: seq<Hit>, b: seq<Hit>)
    requires multiset(a) == multiset(b)
    ensures var ra, rb := FeedAll(q, EmptySink(q), a), FeedAll(q, EmptySink(q), b);
            && (ra.Ok? <==> rb.Ok?)
            && (ra.Ok? ==>
                  && ra.value.sawBinding == rb.value.sawBinding
                  && (forall i :: 0 <= i < |q.specs| && q.specs[i].func.Count? ==> ra.value.accumulators[i] == rb.value.accumulators[i])
                  && (Steady(q, b) ==> Finish(q, ra.value) == Finish(q, rb.value)))
  {
    hide FeedAll, Steady;
    var ra, rb := FeedAll(q, EmptySink(q), a), FeedAll(q, EmptySink(q), b);
    FeedFails(q, a);
    FeedFails(q, b);
    TotalIgnoresOrder(Spoil(q), a, b);
    if ra.Ok? {
      SawBindings(q, a);
      SawBindings(q, b);
      TotalIgnoresOrder(Bound(q), a, b);
      forall i | 0 <= i < |q.specs|
        ensures q.specs[i].func.Count? ==> ra.value.accumulators[i] == rb.value.accumulators[i]
        ensures Steady(q, b) ==> ValueOf(ra.value.accumulators[i]) == ValueOf(rb.value.accumulators[i])
      {
        if q.specs[i].func.Count? {
          CountHolds(q, a, i);
          CountHolds(q, b, i);
          TotalIgnoresOrder(Present(q, q.specs[i]), a, b);
        } else if Steady(q, b) {
          SumHolds(q, a, i);
          SumHolds(q, b, i);
          SameSum(q, a, b, i);
        }
      }
      if Steady(q, b) && ra.value.sawBinding {
        assert Finish(q, ra.value)[0] == Finish(q, rb.value)[0];
      }
    }
  }
}
