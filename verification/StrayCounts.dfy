/** A log on which the routed count and the ledger's count differ, because another attribute strays into the range. */
module StrayCounts {
  import opened Bytes
  import opened Ledger
  import opened Orders
  import opened Diff
  import opened Sequences
  import opened Groups
  import opened Cursors
  import opened Aggregates
  import opened Projection
  import opened Route

  function Stored(e: nat, attribute: string, n: int, txCount: nat): Fact {
    Fact(Triple(e, attribute, Integer(n)), txCount, txCount, 0, 10, true)
  }

  /** One entity with two values of the attribute, the second written later, and one of the straying attribute. */
  function Log(e: nat, a: string, b: string): seq<Fact> {
    [Stored(e, a, 1, 1), Stored(e, a, 3, 2), Stored(e, b, 2, 1)]
  }

  function Now(e: nat, a: string, b: string): Index {
    Index(Log(e, a, b), [], [])
  }

  function Then(e: nat, a: string, b: string): Index {
    Index([Stored(e, a, 1, 1), Stored(e, b, 2, 1)], [], [])
  }

  function SubjectOf(a: string): Subject {
    Subject(Identity(0, 0, 1), a, 0)
  }

  predicate Setting(e: nat, a: string, b: string) {
    e <= ENTITY_MAX && a != "" && Stray(a, b)
  }

  lemma IndexesHold(e: nat, a: string, b: string)
    requires Setting(e, a, b)
    ensures Indexes(Now(e, a, b), Log(e, a, b)) && Indexes(Then(e, a, b), AsOf(Log(e, a, b), 1))
  {
    hide AsOf, KeyOrdered, Stray;
    AsOf1(e, a, b);
    KeysInOrder(e, a, b);
    assert Held(Now(e, a, b)) == Log(e, a, b);
    assert Held(Then(e, a, b)) == [Stored(e, a, 1, 1), Stored(e, b, 2, 1)];
  }

  lemma KeysInOrder(e: nat, a: string, b: string)
    requires Stray(a, b)
    ensures KeyOrdered(Log(e, a, b)) && KeyOrdered([Stored(e, a, 1, 1), Stored(e, b, 2, 1)]) && KeyOrdered([])
  {
    hide Stray, Before;
    StrayComesAfter(a, b);
  }

  lemma AsOf1(e: nat, a: string, b: string)
    ensures AsOf(Log(e, a, b), 1) == [Stored(e, a, 1, 1), Stored(e, b, 2, 1)]
    ensures AsOf([Stored(e, a, 1, 1), Stored(e, b, 2, 1)], 1) == [Stored(e, a, 1, 1), Stored(e, b, 2, 1)]
    ensures AsOf(Log(e, a, b), 2) == Log(e, a, b)
  {
    var x, y, z := Stored(e, a, 1, 1), Stored(e, a, 3, 2), Stored(e, b, 2, 1);
    assert Log(e, a, b)[1..] == [y, z] && [y, z][1..] == [z] && [z][1..] == [] && [x, z][1..] == [z];
    assert AsOf([z], 1) == [z] + [] && AsOf([z], 2) == [z] + [];
    assert AsOf([y, z], 1) == [] + [z] && AsOf([y, z], 2) == [y] + [z];
    assert AsOf([x, z], 1) == [x] + [z];
    assert AsOf(Log(e, a, b), 1) == [x] + [z] && AsOf(Log(e, a, b), 2) == [x] + [y, z];
  }

  lemma EntriesAre(e: nat, a: string, b: string)
    requires Setting(e, a, b)
    ensures Entries(Now(e, a, b), 2, a, 0) == Log(e, a, b)
    ensures Entries(Then(e, a, b), 1, a, 0) == [Stored(e, a, 1, 1), Stored(e, b, 2, 1)]
  {
    hide InRange, AsOf;
    RangeHoldsItself(a);
    RangeAll(Log(e, a, b), a, FromEntity(0));
    RangeAll([Stored(e, a, 1, 1), Stored(e, b, 2, 1)], a, FromEntity(0));
    RangeAll([], a, FromEntity(0));
    AsOf1(e, a, b);
  }

  lemma {:induction false} OneRun(entries: seq<Fact>, e: nat)
    requires entries != [] && forall i :: 0 <= i < |entries| ==> entries[i].triple.entity == e
    ensures RunsOf(entries) == [entries]
  {
    var n := |entries| - 1;
    assert entries == entries[..n] + [entries[n]];
    if n > 0 {
      OneRun(entries[..n], e);
      assert [entries[..n]][..0] == [];
    } else {
      assert entries[..n] == [];
    }
  }

  lemma OneGroup(entries: seq<Fact>, e: nat)
    requires entries != [] && entries[0].triple.entity == e && Flush(entries) != []
    ensures GroupsFrom([entries]) == [EntityGroup(e, Flush(entries))]
  {
    hide Flush;
    assert [entries][..0] == [];
    assert GroupsFrom([]) == [];
  }

  // ── Counting ───────────────────────────────────────────────────────────────

  lemma {:induction false} AllShow(e: nat, windows: seq<Interval>, at: int)
    requires forall i :: 0 <= i < |windows| ==> At(windows[i], at)
    ensures |HitsAt(e, windows, at)| == |windows|
    ensures forall h :: h in HitsAt(e, windows, at) ==> h.entity == e
  {
    if windows != [] {
      AllShow(e, windows[1..], at);
    }
  }

  lemma OneGroupHits(e: nat, windows: seq<Interval>, at: int)
    requires forall i :: 0 <= i < |windows| ==> At(windows[i], at)
    ensures |HitsOf([EntityGroup(e, windows)], at)| == |windows|
    ensures forall h :: h in HitsOf([EntityGroup(e, windows)], at) ==> h.entity == e
  {
    AllShow(e, windows, at);
    var g := [EntityGroup(e, windows)];
    assert g[1..] == [] && HitsOf([], at) == [];
    assert HitsOf(g, at) == HitsAt(e, windows, at) + [];
  }

  /** Assertions alone: every window is in force. */
  lemma AssertedFlush(run: seq<Fact>, i: Interval)
    requires forall k :: 0 <= k < |run| ==> run[k].asserted && run[k].txCount > 0
    ensures i in Flush(run) <==> exists k :: 0 <= k < |run| && IntervalOf(run[k]) == i
  {
    hide Flush;
    FlushLists(run, i);
    if k :| 0 <= k < |run| && IntervalOf(run[k]) == i {
      assert UpholdsInterval(run, run[k], i);
    }
  }

  lemma {:induction false} DistinctSize(windows: seq<Interval>, members: set<Interval>)
    requires Distinct(windows) && forall i :: i in windows <==> i in members
    ensures |windows| == |members|
  {
    if windows == [] {
      assert members == {};
    } else {
      var n := |windows| - 1;
      var last, front := windows[n], windows[..n];
      assert windows == front + [last] && last !in front;
      DistinctSize(front, members - {last});
    }
  }

  function Shown(n: int): Interval {
    Interval(Integer(n), 0, 10)
  }

  lemma FlushSizes(e: nat, a: string, b: string)
    ensures |Flush(Log(e, a, b))| == 3
    ensures forall i :: i in Flush(Log(e, a, b)) ==> At(i, 5)
  {
    hide Flush;
    var run, windows := Log(e, a, b), Flush(Log(e, a, b));
    forall i
      ensures i in windows <==> i in {Shown(1), Shown(3), Shown(2)}
    {
      AssertedFlush(run, i);
      assert IntervalOf(run[0]) == Shown(1) && IntervalOf(run[1]) == Shown(3) && IntervalOf(run[2]) == Shown(2);
    }
    FlushLists(run, Shown(1));
    CanonicalDistinct(windows);
    DistinctSize(windows, {Shown(1), Shown(3), Shown(2)});
    ThreeShown();
  }

  lemma ThreeShown()
    ensures |{Shown(1), Shown(3), Shown(2)}| == 3
  {
    assert Shown(1) != Shown(3) && Shown(1) != Shown(2) && Shown(2) != Shown(3);
  }

  /** The ledger's cursor delivers three rows. */
  lemma LedgerRows(e: nat, a: string, b: string)
    requires Setting(e, a, b)
    ensures |HitsOf(Listing(Now(e, a, b), 2, a, 0), 5)| == 3
  {
    hide Flush, Entries, RunsOf, GroupsFrom, HitsOf, Stray;
    var run := Log(e, a, b);
    EntriesAre(e, a, b);
    OneRun(run, e);
    FlushSizes(e, a, b);
    OneGroup(run, e);
    OneGroupHits(e, Flush(run), 5);
  }

  function Early(e: nat, a: string, b: string): seq<Fact> {
    [Stored(e, a, 1, 1), Stored(e, b, 2, 1)]
  }

  lemma ImageIs(e: nat, a: string, b: string)
    requires Setting(e, a, b)
    ensures Built(Log(e, a, b), SubjectOf(a), Image(e, a, b))
    ensures Image(e, a, b) == [EntityGroup(e, PastFloor(Flush(Early(e, a, b)), 0))]
  {
    hide Flush, Entries, RunsOf, GroupsFrom, Stray, Indexes, AsOf, PastFloor;
    var run := Early(e, a, b);
    IndexesHold(e, a, b);
    EntriesAre(e, a, b);
    OneRun(run, e);
    AssertedFlush(run, Shown(1));
    assert IntervalOf(run[0]) == Shown(1);
    OneGroup(run, e);
  }

  /** The image holds rows of this entity only. */
  lemma ImageRows(e: nat, a: string, b: string, h: Hit)
    requires Setting(e, a, b)
    ensures h in HitsOf(Image(e, a, b), 5) ==> h.entity == e
    ensures |HitsOf(Image(e, a, b), 5)| <= 2
  {
    hide Flush, Stray, Image, Built;
    ImageIs(e, a, b);
    var windows := PastFloor(Flush(Early(e, a, b)), 0);
    var image := [EntityGroup(e, windows)];
    assert image[1..] == [];
    HitsKnowEntity(e, windows, h);
    HitsWithin(e, windows, 5);
    PastFloorShrinks(Flush(Early(e, a, b)), 0);
    FlushSize(Early(e, a, b));
    assert HitsOf(image, 5) == HitsAt(e, windows, 5) + HitsOf([], 5);
  }

  lemma FlushSize(run: seq<Fact>)
    ensures |Flush(run)| <= |run|
  {
    FlushShrinks(run, |run|);
  }

  lemma {:induction false} PastFloorShrinks(windows: seq<Interval>, floor: int)
    ensures |PastFloor(windows, floor)| <= |windows|
  {
    if windows != [] {
      PastFloorShrinks(windows[1..], floor);
    }
  }

  lemma {:induction false} InsertGrows(windows: seq<Interval>, i: Interval)
    ensures |Insert(windows, i)| <= |windows| + 1
  {
    if windows != [] {
      InsertGrows(windows[1..], i);
    }
  }

  lemma {:induction false} FlushShrinks(run: seq<Fact>, k: nat)
    requires k <= |run|
    ensures |FlushUpTo(run, k)| <= k
  {
    hide NetAny;
    if k > 0 {
      FlushShrinks(run, k - 1);
      InsertGrows(FlushUpTo(run, k - 1), IntervalOf(run[k - 1]));
    }
  }

  lemma {:induction false} HitsKnowEntity(e: nat, windows: seq<Interval>, h: Hit)
    ensures h in HitsAt(e, windows, 5) ==> h.entity == e
  {
    if windows != [] {
      HitsKnowEntity(e, windows[1..], h);
    }
  }

  ghost function Image(e: nat, a: string, b: string): seq<EntityGroup> {
    Floored(Listing(Then(e, a, b), 1, a, 0), 0)
  }

  function Tail(e: nat): seq<EntityGroup> {
    [EntityGroup(e, [Shown(1), Shown(3)])]
  }

  lemma TailWindows(e: nat, a: string, b: string)
    requires Setting(e, a, b)
    ensures ListsPast(AsOf(Log(e, a, b), 2), e, a, 0, [Shown(1), Shown(3)])
  {
    hide InRange, AsOf;
    AsOf1(e, a, b);
    var log, windows := Log(e, a, b), [Shown(1), Shown(3)];
    forall i: Interval
      ensures i in windows <==> i.to > 0 && Net(log, Window(Triple(e, a, i.value), i.from, i.to))
    {
      NetThree(e, a, b, i);
    }
  }

  lemma NetThree(e: nat, a: string, b: string, i: Interval)
    requires a != b
    ensures Net(Log(e, a, b), Window(Triple(e, a, i.value), i.from, i.to)) <==> i == Shown(1) || i == Shown(3)
  {
    var log, w := Log(e, a, b), Window(Triple(e, a, i.value), i.from, i.to);
    if i == Shown(1) {
      assert Upholds(log, log[0], w);
    }
    if i == Shown(3) {
      assert Upholds(log, log[1], w);
    }
  }

  lemma TailIsCurrent(e: nat, a: string, b: string)
    requires Setting(e, a, b)
    ensures Current(Log(e, a, b), Overlay(SubjectOf(a), 2, Tail(e)))
  {
    hide ListsPast, AsOf, InRange;
    TailWindows(e, a, b);
    var tail := Tail(e);
    assert tail[1..] == [];
    forall x: nat
      ensures WindowsFor(tail, x) == if x == e then Some([Shown(1), Shown(3)]) else None
    {}
    forall x: nat | Touched(Log(e, a, b), a, 1, 2, x)
      ensures x == e
    {
      var f :| f in Log(e, a, b) && f.triple.entity == x && f.triple.attribute == a && 1 < f.txCount <= 2;
    }
  }

  function CountOf(floats: Floats): Aggregate {
    Aggregate([Spec(Count, EntityVar)], false, floats)
  }

  lemma {:induction false} CountTotal(floats: Floats, hits: seq<Hit>)
    ensures Total(Present(CountOf(floats), Spec(Count, EntityVar)), hits) == |hits|
    ensures Total(Spoil(CountOf(floats)), hits) == 0
    ensures Total(Bound(CountOf(floats)), hits) == |hits|
  {
    if hits != [] {
      CountTotal(floats, hits[..|hits| - 1]);
      assert !Spoils(CountOf(floats), hits[|hits| - 1]);
    }
  }

  lemma CountAnswer(floats: Floats, hits: seq<Hit>)
    requires 0 < |hits| <= 100
    ensures var fed := FeedAll(CountOf(floats), EmptySink(CountOf(floats)), hits);
            fed.Ok? && Finish(CountOf(floats), fed.value) == [[Integer(|hits|)]]
  {
    hide FeedAll, Total;
    var q := CountOf(floats);
    CountTotal(floats, hits);
    FeedFails(q, hits);
    SawBindings(q, hits);
    CountHolds(q, hits, 0);
    var fed := FeedAll(q, EmptySink(q), hits);
    assert Finish(q, fed.value)[0] == [Integer(|hits|)];
  }

  lemma {:induction false} AllReplaced(hits: seq<Hit>, e: nat)
    requires forall h :: h in hits ==> h.entity == e
    ensures Kept(hits, Tail(e)) == []
  {
    if hits != [] {
      var n := |hits| - 1;
      assert hits[n] in hits && forall h :: h in hits[..n] ==> h in hits;
      AllReplaced(hits[..n], e);
    }
  }

  /** An image, a current tail and a log: the route counts two rows of the attribute, the ledger's own cursor three. */
  lemma RoutedCountCanDiffer(e: nat, a: string, b: string, floats: Floats)
    requires Setting(e, a, b)
    ensures var image, o := Image(e, a, b), Overlay(SubjectOf(a), 2, Tail(e));
            var c := Candidate(SubjectOf(a), image, true, [Progress(HitsOf(image, 5), |HitsOf(image, 5)|, true)]);
            && Indexes(Now(e, a, b), Log(e, a, b))
            && Built(Log(e, a, b), SubjectOf(a), image) && Checked(c, 5) && Current(Log(e, a, b), o)
            && Attempt(CountOf(floats), c, o.replacements, 1, 5, 100) == Answered([[Integer(2)]])
            && LedgerAnswer(CountOf(floats), HitsOf(Listing(Now(e, a, b), 2, a, 0), 5), 100) == Ok([[Integer(3)]])
  {
    hide Listing, Built, Current, FeedAll, Finish, HitsOf, Kept, Stray, Indexes, Image, Flush;
    var q, image, tail := CountOf(floats), Image(e, a, b), Tail(e);
    var hits := HitsOf(image, 5);
    var c := Candidate(SubjectOf(a), image, true, [Progress(hits, |hits|, true)]);
    IndexesHold(e, a, b);
    ImageIs(e, a, b);
    ImageRows(e, a, b, Hit(e, Null));
    forall h | h in hits
      ensures h.entity == e
    {
      ImageRows(e, a, b, h);
    }
    AllReplaced(hits, e);
    TailIsCurrent(e, a, b);
    LedgerRows(e, a, b);
    CountAnswer(floats, HitsOf(Listing(Now(e, a, b), 2, a, 0), 5));
    OneGroupHits(e, [Shown(1), Shown(3)], 5);
    CountAnswer(floats, HitsOf(tail, 5));
    assert hits + [] == hits;
    PlayOutcome(q, tail, c.steps, EmptySink(q), 1, 100);
    RowCountTwo(e);
    NothingFed(q);
  }

  lemma RowCountTwo(e: nat)
    ensures RowCount(Tail(e)) == 2
  {
    assert Tail(e)[1..] == [];
  }

  lemma NothingFed(q: Aggregate)
    ensures FeedAll(q, EmptySink(q), []) == Ok(EmptySink(q))
  {}

  // ── When a routed count is exact ───────────────────────────────────────────

  /** A built image with a current overlay of one subject, for an attribute and an instant. */
  ghost predicate Offer(log: seq<Fact>, attribute: string, c: Candidate, o: Overlay, at: int) {
    && c.subject.attribute == attribute && c.subject.identity.txCount <= o.txCount && c.subject.floor <= at
    && Built(log, c.subject, c.image) && Checked(c, at)
    && Current(log, o) && o.subject == c.subject
  }

  /** The ledger's own count at the overlay's transaction. */
  ghost function LedgerCount(index: Index, attribute: string, floats: Floats, n: nat, at: int, max: nat): Result<Answer> {
    LedgerAnswer(CountOf(floats), HitsOf(Listing(index, n, attribute, 0), at), max)
  }

  /** Every routed count over every log of these attributes is the ledger's own count. */
  ghost predicate RouteAlwaysCounts(attributes: set<string>, attribute: string, floats: Floats) {
    forall log: seq<Fact>, index: Index, c: Candidate, o: Overlay, work: nat, at: int, max: nat ::
      && Indexes(index, log) && (forall f :: f in log ==> f.triple.attribute in attributes)
      && Offer(log, attribute, c, o, at) && Attempt(CountOf(floats), c, o.replacements, work, at, max).Answered? ==>
        LedgerCount(index, attribute, floats, o.txCount, at, max) == Ok(Attempt(CountOf(floats), c, o.replacements, work, at, max).answer)
  }

  /** Routed counts over some attributes are the ledger's, if and only if none of them strays into the range. */
  lemma RouteCountsIffNothingStrays(attributes: set<string>, attribute: string, floats: Floats)
    requires attribute != ""
    ensures RouteAlwaysCounts(attributes, attribute, floats) <==> forall other :: other in attributes ==> !Stray(attribute, other)
  {
    hide Indexes, Offer, Attempt, LedgerCount, InRange;
    if other :| other in attributes && Stray(attribute, other) {
      var f := Stored(0, other, 1, 2);
      MissedByTheRoute(attribute, other, floats);
      assert forall g :: g in [f] ==> g.triple.attribute in attributes;
    } else {
      forall log: seq<Fact>, index: Index, c: Candidate, o: Overlay, work: nat, at: int, max: nat
        | && Indexes(index, log) && (forall f :: f in log ==> f.triple.attribute in attributes)
          && Offer(log, attribute, c, o, at) && Attempt(CountOf(floats), c, o.replacements, work, at, max).Answered?
        ensures LedgerCount(index, attribute, floats, o.txCount, at, max) == Ok(Attempt(CountOf(floats), c, o.replacements, work, at, max).answer)
      {
        RouteCounts(log, index, attribute, floats, c, o, work, at, max);
      }
    }
  }

  lemma RouteCounts(log: seq<Fact>, index: Index, attribute: string, floats: Floats, c: Candidate, o: Overlay, work: nat, at: int, max: nat)
    requires attribute != "" && Indexes(index, log) && StrayFree(AsOf(log, o.txCount), attribute) && Offer(log, attribute, c, o, at)
    requires Attempt(CountOf(floats), c, o.replacements, work, at, max).Answered?
    ensures LedgerCount(index, attribute, floats, o.txCount, at, max) == Ok(Attempt(CountOf(floats), c, o.replacements, work, at, max).answer)
  {
    hide Indexes, Attempt, InRange, Built, Checked, Current, Listing, HitsOf, Counts, LedgerAnswer, StrayFree, Served, Faithful, Steady;
    var q, ledger := CountOf(floats), Listing(index, o.txCount, attribute, 0);
    var answer := Attempt(q, c, o.replacements, work, at, max).answer;
    CandidateFits(log, Call(attribute, o.txCount, at, max, (0, 0), (0, 0)), c, o, index);
    AttemptCounts(log, q, c, o, ledger, work, at, max);
    RoutedAnswerIsLedgerAnswer(q, HitsOf(ledger, at), max, RoutedRows(c, o.replacements, at), answer);
    var truth := LedgerAnswer(q, HitsOf(ledger, at), max).value;
    if answer != [] {
      assert q.specs[0].func.Count?;
      assert answer == [answer[0]] && truth == [truth[0]] && answer[0] == [answer[0][0]] && truth[0] == [truth[0][0]];
    }
  }

  function EmptyImage(attribute: string): Candidate {
    Candidate(SubjectOf(attribute), [], true, [Progress([], 0, true)])
  }

  function NoTail(attribute: string): Overlay {
    Overlay(SubjectOf(attribute), 2, [])
  }

  /** A stray fact written after the image: no tail replaces its entity, and the ledger's own cursor counts it. */
  lemma MissedByTheRoute(a: string, b: string, floats: Floats)
    requires a != "" && Stray(a, b)
    ensures var f := Stored(0, b, 1, 2);
            && Indexes(Alone(f), [f]) && Offer([f], a, EmptyImage(a), NoTail(a), 5)
            && Attempt(CountOf(floats), EmptyImage(a), NoTail(a).replacements, 0, 5, 100).Answered?
            && LedgerCount(Alone(f), a, floats, 2, 5, 100) != Ok(Attempt(CountOf(floats), EmptyImage(a), NoTail(a).replacements, 0, 5, 100).answer)
  {
    hide Indexes, InRange, Listing, FeedAll, Finish;
    var q, f := CountOf(floats), Stored(0, b, 1, 2);
    StrayIsServed(f, 2, a, 0);
    NothingBuilt(f, a);
    NothingTouched(f, a);
    OneGroupHits(0, [IntervalOf(f)], 5);
    CountAnswer(floats, HitsOf(Listing(Alone(f), 2, a, 0), 5));
    NothingFed(q);
    NothingCounted(q, floats);
    assert [Progress([], 0, true)][0] == Progress([], 0, true);
    assert Kept([], []) == [] && HitsOf([], 5) == [] && RowCount([]) == 0;
  }

  lemma NothingBuilt(f: Fact, a: string)
    requires f.txCount == 2
    ensures Built([f], SubjectOf(a), []) && Checked(EmptyImage(a), 5)
  {
    var none := Index([], [], []);
    assert [f][1..] == [] && AsOf([f], 1) == [] + [];
    assert Indexes(none, AsOf([f], 1));
    assert Entries(none, 1, a, 0) == [];
    assert Floored(Listing(none, 1, a, 0), 0) == [];
  }

  lemma NothingTouched(f: Fact, a: string)
    requires f.triple.attribute != a
    ensures Current([f], NoTail(a))
  {}

  lemma NothingCounted(q: Aggregate, floats: Floats)
    requires q == CountOf(floats)
    ensures Finish(q, EmptySink(q)) != [[Integer(1)]]
  {
    assert Finish(q, EmptySink(q))[0][0] == Integer(0);
    assert [[Integer(1)]][0][0] == Integer(1);
  }
}
