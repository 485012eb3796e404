/** Inputs on which the projection route and the ledger part: a saturating sum, hidden rows, and a corrupt image. */
module RouteLimits {
  import opened Bytes
  import opened Ledger
  import opened Diff
  import opened DiffScan
  import opened Sequences
  import opened Aggregates
  import opened Projection
  import opened Route
  import opened Groups
  import opened Cursors

  /** Without retractions, a window is in force when some fact asserts it. */
  lemma NetOfAssertions(log: seq<Fact>, w: Window)
    requires forall f :: f in log ==> f.asserted && f.txCount > 0
    ensures Net(log, w) <==> exists f :: f in log && KeyOf(f) == w
  {
    if f :| f in log && KeyOf(f) == w {
      assert Upholds(log, f, w);
    }
  }

  const ATTRIBUTE: string := ":n/v"

  function Held(e: nat, n: int, txCount: nat): Fact {
    Fact(Triple(e, ATTRIBUTE, Integer(n)), txCount, txCount, 0, 10, true)
  }

  function One(e: nat, n: int): EntityGroup {
    EntityGroup(e, [Interval(Integer(n), 0, 10)])
  }

  function Plain(at: seq<(nat, int)>): (g: seq<EntityGroup>)
    ensures |g| == |at| && forall i :: 0 <= i < |g| ==> g[i] == One(at[i].0, at[i].1)
  {
    seq(|at|, i requires 0 <= i < |at| => One(at[i].0, at[i].1))
  }

  ghost predicate Paired(pairs: seq<(nat, int)>, e: nat, i: Interval) {
    exists k :: 0 <= k < |pairs| && pairs[k].0 == e && i == Interval(Integer(pairs[k].1), 0, 10)
  }

  ghost predicate Rising(pairs: seq<(nat, int)>) {
    forall i, j :: 0 <= i < j < |pairs| ==> pairs[i].0 < pairs[j].0
  }

  ghost predicate NetAt(log: seq<Fact>, n: nat, e: nat, i: Interval) {
    Net(AsOf(log, n), Window(Triple(e, ATTRIBUTE, i.value), i.from, i.to))
  }

  /** At transaction `n` exactly the listed pairs are in force. */
  ghost predicate Holds(log: seq<Fact>, n: nat, pairs: seq<(nat, int)>) {
    Rising(pairs) && forall e: nat, i: Interval :: NetAt(log, n, e, i) <==> Paired(pairs, e, i)
  }

  lemma PairedWindows(pairs: seq<(nat, int)>, e: nat, i: Interval)
    requires Rising(pairs)
    ensures i in WindowsIn(Plain(pairs), e) <==> Paired(pairs, e, i)
    ensures |WindowsIn(Plain(pairs), e)| <= 1
    ensures WindowsFor(Plain(pairs), e).Some? <==> exists k :: 0 <= k < |pairs| && pairs[k].0 == e
  {
    var groups := Plain(pairs);
    if k :| 0 <= k < |pairs| && pairs[k].0 == e {
      LookupAt(groups, k);
      assert WindowsIn(groups, e) == [Interval(Integer(pairs[k].1), 0, 10)];
    } else {
      LookupMissing(groups, e);
    }
  }

  lemma HoldsLists(log: seq<Fact>, n: nat, pairs: seq<(nat, int)>, floor: int, e: nat)
    requires Holds(log, n, pairs) && floor < 10
    ensures ListsPast(AsOf(log, n), e, ATTRIBUTE, floor, WindowsIn(Plain(pairs), e))
  {
    hide AsOf, Net, WindowsIn, Rising;
    var windows := WindowsIn(Plain(pairs), e);
    forall i: Interval
      ensures i in windows <==> i.to > floor && Net(AsOf(log, n), Window(Triple(e, ATTRIBUTE, i.value), i.from, i.to))
    {
      assert NetAt(log, n, e, i) <==> Paired(pairs, e, i);
      PairedWindows(pairs, e, i);
    }
    PairedWindows(pairs, e, Interval(Null, 0, 0));
  }

  lemma PlainIsFaithful(log: seq<Fact>, subject: Subject, pairs: seq<(nat, int)>)
    requires Holds(log, subject.identity.txCount, pairs) && subject.floor < 10 && subject.attribute == ATTRIBUTE
    ensures Faithful(log, subject, Plain(pairs))
  {
    hide ListsPast, Holds;
    forall e: nat
      ensures ListsPast(AsOf(log, subject.identity.txCount), e, subject.attribute, subject.floor, WindowsIn(Plain(pairs), e))
    {
      HoldsLists(log, subject.identity.txCount, pairs, subject.floor, e);
    }
    assert InOrder(Plain(pairs)) by { PlainInOrder(log, subject.identity.txCount, pairs); }
  }

  lemma PlainIsServed(log: seq<Fact>, n: nat, pairs: seq<(nat, int)>)
    requires Holds(log, n, pairs)
    ensures Served(log, n, ATTRIBUTE, 0, Plain(pairs))
  {
    hide Lists, Rising, WindowsIn, NetAt, Paired;
    PlainInOrder(log, n, pairs);
    forall e: nat
      ensures ListsAll(AsOf(log, n), e, ATTRIBUTE, WindowsIn(Plain(pairs), e))
    {
      PlainListsAll(log, n, pairs, e);
    }
  }

  lemma PlainListsAll(log: seq<Fact>, n: nat, pairs: seq<(nat, int)>, e: nat)
    requires Holds(log, n, pairs)
    ensures ListsAll(AsOf(log, n), e, ATTRIBUTE, WindowsIn(Plain(pairs), e))
  {
    hide AsOf, Net, WindowsIn, Rising;
    var windows := WindowsIn(Plain(pairs), e);
    forall i: Interval
      ensures i in windows <==> Net(AsOf(log, n), Window(Triple(e, ATTRIBUTE, i.value), i.from, i.to))
    {
      assert NetAt(log, n, e, i) <==> Paired(pairs, e, i);
      PairedWindows(pairs, e, i);
    }
    PairedWindows(pairs, e, Interval(Null, 0, 0));
  }

  lemma PlainInOrder(log: seq<Fact>, n: nat, pairs: seq<(nat, int)>)
    requires Holds(log, n, pairs)
    ensures InOrder(Plain(pairs))
  {}

  /** `MAX`, `1` and `-1`, where `1` was written after the image. */
  const STORED: seq<Fact> := [Held(1, I64_MAX, 1), Held(3, -1, 1), Held(2, 1, 2)]
  const SUBJECT: Subject := Subject(Identity(0, 0, 1), ATTRIBUTE, 0)
  const BASE: seq<(nat, int)> := [(1, I64_MAX), (3, -1)]
  const TAIL: seq<(nat, int)> := [(2, 1)]
  const WHOLE: seq<(nat, int)> := [(1, I64_MAX), (2, 1), (3, -1)]

  lemma StoredAt1()
    ensures Holds(STORED, 1, BASE)
  {
    hide Net;
    var t := AsOf(STORED, 1);
    assert STORED[0] in t && STORED[1] in t;
    assert forall f :: f in t ==> f == STORED[0] || f == STORED[1];
    forall e: nat, i: Interval
      ensures NetAt(STORED, 1, e, i) <==> Paired(BASE, e, i)
    {
      var w := Window(Triple(e, ATTRIBUTE, i.value), i.from, i.to);
      NetOfAssertions(t, w);
      assert Paired(BASE, e, i) <==> w == KeyOf(STORED[0]) || w == KeyOf(STORED[1]) by {
        assert w == KeyOf(STORED[0]) <==> BASE[0].0 == e && i == Interval(Integer(BASE[0].1), 0, 10);
        assert w == KeyOf(STORED[1]) <==> BASE[1].0 == e && i == Interval(Integer(BASE[1].1), 0, 10);
      }
    }
  }

  lemma StoredAt2()
    ensures Holds(STORED, 2, WHOLE)
  {
    hide Net;
    var t := AsOf(STORED, 2);
    assert STORED[0] in t && STORED[1] in t && STORED[2] in t;
    assert forall f :: f in t ==> f == STORED[0] || f == STORED[1] || f == STORED[2];
    forall e: nat, i: Interval
      ensures NetAt(STORED, 2, e, i) <==> Paired(WHOLE, e, i)
    {
      var w := Window(Triple(e, ATTRIBUTE, i.value), i.from, i.to);
      NetOfAssertions(t, w);
      assert Paired(WHOLE, e, i) <==> w == KeyOf(STORED[0]) || w == KeyOf(STORED[1]) || w == KeyOf(STORED[2]) by {
        assert w == KeyOf(STORED[0]) <==> WHOLE[0].0 == e && i == Interval(Integer(WHOLE[0].1), 0, 10);
        assert w == KeyOf(STORED[2]) <==> WHOLE[1].0 == e && i == Interval(Integer(WHOLE[1].1), 0, 10);
        assert w == KeyOf(STORED[1]) <==> WHOLE[2].0 == e && i == Interval(Integer(WHOLE[2].1), 0, 10);
      }
    }
  }

  lemma TouchedIs2(e: nat)
    requires Touched(STORED, ATTRIBUTE, 1, 2, e)
    ensures e == 2
  {
    var f :| f in STORED && f.triple.entity == e && f.triple.attribute == ATTRIBUTE && 1 < f.txCount <= 2;
    assert f == STORED[0] || f == STORED[1] || f == STORED[2];
  }

  lemma TailLookup(e: nat)
    ensures WindowsFor(Plain(TAIL), e) == if e == 2 then Some(WindowsIn(Plain(WHOLE), 2)) else None
  {
    LookupAt(Plain(WHOLE), 1);
    if e == 2 {
      LookupAt(Plain(TAIL), 0);
      assert Plain(WHOLE)[1] == One(2, 1) == Plain(TAIL)[0];
    } else {
      LookupMissing(Plain(TAIL), e);
    }
  }

  lemma TailIsCurrent()
    ensures Current(STORED, Overlay(SUBJECT, 2, Plain(TAIL)))
  {
    hide ListsPast, AsOf, Touched, WindowsFor, WindowsIn, Holds, Plain;
    StoredAt2();
    HoldsLists(STORED, 2, WHOLE, 0, 2);
    assert |Plain(TAIL)| == 1;
    forall e: nat
      ensures WindowsFor(Plain(TAIL), e) == if e == 2 then Some(WindowsIn(Plain(WHOLE), 2)) else None
    {
      TailLookup(e);
    }
    forall e: nat | Touched(STORED, ATTRIBUTE, 1, 2, e)
      ensures e == 2
    {
      TouchedIs2(e);
    }
  }

  function PairHits(pairs: seq<(nat, int)>): seq<Hit> {
    seq(|pairs|, i requires 0 <= i < |pairs| => Hit(pairs[i].0, Integer(pairs[i].1)))
  }

  lemma {:induction false} PlainHits(pairs: seq<(nat, int)>, at: int)
    ensures HitsOf(Plain(pairs), at) == if 0 <= at < 10 then PairHits(pairs) else []
  {
    if pairs != [] {
      PlainHits(pairs[1..], at);
      assert Plain(pairs)[1..] == Plain(pairs[1..]);
      var w := Plain(pairs)[0].windows;
      assert w[1..] == [] && HitsAt(pairs[0].0, w[1..], at) == [];
      assert HitsAt(pairs[0].0, w, at) == if 0 <= at < 10 then [Hit(pairs[0].0, Integer(pairs[0].1))] else [];
      assert PairHits(pairs) == [Hit(pairs[0].0, Integer(pairs[0].1))] + PairHits(pairs[1..]);
    }
  }

  function SumOf(floats: Floats): Aggregate {
    Aggregate([Spec(Sum, ValueVar)], false, floats)
  }

  lemma {:induction false} PairsFeed(floats: Floats, pairs: seq<(nat, int)>)
    ensures var fed := FeedAll(SumOf(floats), EmptySink(SumOf(floats)), PairHits(pairs));
            && fed.Ok?
            && (fed.value.sawBinding <==> pairs != [])
            && fed.value.accumulators[0].Summed? && !fed.value.accumulators[0].sawFloat
            && fed.value.accumulators[0].integer == SaturatingSum(0, seq(|pairs|, i requires 0 <= i < |pairs| => pairs[i].1))
  {
    if pairs != [] {
      var n := |pairs| - 1;
      PairsFeed(floats, pairs[..n]);
      assert PairHits(pairs)[..n] == PairHits(pairs[..n]);
      assert seq(|pairs|, i requires 0 <= i < |pairs| => pairs[i].1)[..n] == seq(n, i requires 0 <= i < n => pairs[..n][i].1);
      assert !Spoils(SumOf(floats), PairHits(pairs)[n]);
    }
  }

  lemma PairsAnswer(floats: Floats, pairs: seq<(nat, int)>, numbers: seq<int>, max: nat)
    requires pairs != [] && |pairs| <= max && numbers == seq(|pairs|, i requires 0 <= i < |pairs| => pairs[i].1)
    ensures LedgerAnswer(SumOf(floats), PairHits(pairs), max) == Ok([[Integer(SaturatingSum(0, numbers))]])
  {
    hide FeedAll;
    PairsFeed(floats, pairs);
    var q := SumOf(floats);
    var fed := FeedAll(q, EmptySink(q), PairHits(pairs));
    assert Finish(q, fed.value)[0] == [Integer(SaturatingSum(0, numbers))];
  }

  /** With the late `1` fed last the sum ends at `MAX`; in entity order it saturates early and ends one below. */
  lemma RoutedSumCanDiffer(floats: Floats)
    ensures var o := Overlay(SUBJECT, 2, Plain(TAIL));
            var c := Candidate(SUBJECT, Plain(BASE), true, [Progress(HitsOf(Plain(BASE), 5), 2, true)]);
            && Fits(STORED, c, o, Plain(WHOLE), 5)
            && Attempt(SumOf(floats), c, o.replacements, 1, 5, 100) == Answered([[Integer(I64_MAX)]])
            && LedgerAnswer(SumOf(floats), HitsOf(Plain(WHOLE), 5), 100) == Ok([[Integer(I64_MAX - 1)]])
  {
    hide FeedAll, HitsOf, Faithful, Current, Holds, Kept, Finish, Play;
    var o := Overlay(SUBJECT, 2, Plain(TAIL));
    var c := Candidate(SUBJECT, Plain(BASE), true, [Progress(HitsOf(Plain(BASE), 5), 2, true)]);
    var q := SumOf(floats);
    SumCaseFits();
    RoutedOrder();
    PlainHits(WHOLE, 5);
    PairsAnswer(floats, WHOLE, [I64_MAX, 1, -1], 100);
    PairsAnswer(floats, BASE + TAIL, [I64_MAX, -1, 1], 100);
    OrdersSum();
    RoutedRun(q, c, o);
  }

  lemma SumCaseFits()
    ensures Fits(STORED, Candidate(SUBJECT, Plain(BASE), true, [Progress(HitsOf(Plain(BASE), 5), 2, true)]),
                 Overlay(SUBJECT, 2, Plain(TAIL)), Plain(WHOLE), 5)
  {
    hide Holds, Faithful, Current, HitsOf, Served;
    StoredAt1();
    StoredAt2();
    TailIsCurrent();
    PlainIsFaithful(STORED, SUBJECT, BASE);
    PlainIsServed(STORED, 2, WHOLE);
    PlainHits(BASE, 5);
    var hits := HitsOf(Plain(BASE), 5);
    assert hits + [] == hits;
  }

  lemma OrdersSum()
    ensures SaturatingSum(0, [I64_MAX, 1, -1]) == I64_MAX - 1
    ensures SaturatingSum(0, [I64_MAX, -1, 1]) == I64_MAX
  {
    assert [I64_MAX, 1, -1][..2] == [I64_MAX, 1] && [I64_MAX, -1, 1][..2] == [I64_MAX, -1];
    assert [I64_MAX, 1][..1] == [I64_MAX] == [I64_MAX, -1][..1];
    assert [I64_MAX][..0] == [];
    assert SaturatingSum(0, [I64_MAX]) == I64_MAX;
    assert SaturatingSum(0, [I64_MAX, 1]) == I64_MAX && SaturatingSum(0, [I64_MAX, -1]) == I64_MAX - 1;
  }

  lemma RoutedOrder()
    ensures Kept(HitsOf(Plain(BASE), 5), Plain(TAIL)) + HitsOf(Plain(TAIL), 5) == PairHits(BASE + TAIL)
  {
    PlainHits(BASE, 5);
    PlainHits(TAIL, 5);
    TailLookup(1);
    TailLookup(3);
    var hits := PairHits(BASE);
    assert hits[..2] == hits && hits[..1][..0] == [];
    assert Kept(hits[..1], Plain(TAIL)) == [hits[0]];
    assert Kept(hits, Plain(TAIL)) == [hits[0], hits[1]];
  }

  /** A complete one-step scan and its overlay feed the routed rows. */
  lemma RoutedRun(q: Aggregate, c: Candidate, o: Overlay)
    requires c.opens && c.steps == [Progress(HitsOf(c.image, 5), 2, true)] && RowCount(o.replacements) <= 1
    requires FeedAll(q, EmptySink(q), RoutedRows(c, o.replacements, 5)).Ok?
    ensures Attempt(q, c, o.replacements, 1, 5, 100) == Answered(Finish(q, FeedAll(q, EmptySink(q), RoutedRows(c, o.replacements, 5)).value))
  {
    hide FeedAll, HitsOf, Kept, Finish;
    FeedAllSplits(q, EmptySink(q), Kept(HitsOf(c.image, 5), o.replacements), HitsOf(o.replacements, 5));
  }

  lemma AtImage(steps: seq<ScanStep>, at: int)
    requires 0 <= at && Checked(Candidate(SUBJECT, Plain(BASE), true, steps), at)
    ensures Fits(STORED, Candidate(SUBJECT, Plain(BASE), true, steps), EmptyOverlay(SUBJECT), Plain(BASE), at)
  {
    hide Holds, Faithful, Current, HitsOf, Checked, Served;
    StoredAt1();
    EmptyIsCurrent(STORED, SUBJECT);
    PlainIsFaithful(STORED, SUBJECT, BASE);
    PlainIsServed(STORED, 1, BASE);
  }

  /** Rows that do not show at the instant count against the route's limit but not against the ledger's. */
  lemma HiddenRowsRefuseTheRoute(floats: Floats)
    ensures var c := Candidate(SUBJECT, Plain(BASE), true, [Progress([], 2, true)]);
            && Fits(STORED, c, EmptyOverlay(SUBJECT), Plain(BASE), 12)
            && Attempt(SumOf(floats), c, [], 0, 12, 1) == Refused(WORK)
            && LedgerAnswer(SumOf(floats), HitsOf(Plain(BASE), 12), 1) == Ok([])
  {
    hide Fits;
    PlainHits(BASE, 12);
    AtImage([Progress([], 2, true)], 12);
    assert !SumOf(floats).specs[0].func.Count?;
  }

  /** A corrupt image can fail a query that the ledger answers. */
  lemma CorruptImageCanFailTheQuery(floats: Floats)
    ensures var c := Candidate(SUBJECT, Plain(BASE), true, [Corrupt([Hit(7, Text("x"))])]);
            && Fits(STORED, c, EmptyOverlay(SUBJECT), Plain(BASE), 5)
            && Attempt(SumOf(floats), c, [], 0, 5, 100).Refused?
            && LedgerAnswer(SumOf(floats), HitsOf(Plain(BASE), 5), 100).Ok?
  {
    hide Fits, Spoils, FeedAll, Kept;
    var q, h := SumOf(floats), Hit(7, Text("x"));
    var c := Candidate(SUBJECT, Plain(BASE), true, [Corrupt([h])]);
    AtImage(c.steps, 5);
    PlainHits(BASE, 5);
    PairsAnswer(floats, BASE, [I64_MAX, -1], 100);
    TextSpoils(floats, h);
    BrokenCandidateIsSkipped(q, c, [], 0, 5, 100);
    KeptWithout(Visited(c.steps));
    assert Visited(c.steps) == [h];
    assert Spoils(q, Kept(Visited(c.steps), [])[0]);
  }

  lemma TextSpoils(floats: Floats, h: Hit)
    requires h.value.Text?
    ensures Spoils(SumOf(floats), h)
  {
    assert SumOf(floats).specs[0].func.Sum?;
  }
}
