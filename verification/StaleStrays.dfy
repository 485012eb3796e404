/**
 A stray entry newer than the view is invisible to it, and still moves the resume key. A log on which a walk
 that yields right behind such an entry reads an assertion again without the retraction before it.
 */
module StaleStrays {
  import opened Bytes
  import opened Ledger
  import opened Orders
  import opened Diff
  import opened Sequences
  import opened Groups
  import opened Cursors
  import opened Walks
  import opened DiffScan
  import opened DiffPages
  import opened DiffChain
  import opened DiffLimits

  /** The view pins transaction 2. Entries of entity 0, newer than the view, fill the first step. */
  function Filler(a: string, k: nat): Fact {
    Fact(Triple(0, a, Null), 0, 3, k, FOREVER, true)
  }

  function Fillers(a: string, m: nat): (r: seq<Fact>)
    ensures |r| == m && forall k :: 0 <= k < m ==> r[k] == Filler(a, k)
  {
    seq(m, k requires 0 <= k => Filler(a, k))
  }

  /** Entity 1: asserted, then retracted for good. */
  function Asserted(a: string, t: int): Fact {
    Fact(Triple(1, a, Null), 0, 1, t, t + 1, true)
  }

  function Withdrawn(a: string): Fact {
    Fact(Triple(1, a, Null), 0, 2, RETRACT_ALL_FROM, FOREVER, false)
  }

  /** Entity 2: asserted. */
  function Standing(a: string, t: int): Fact {
    Fact(Triple(2, a, Null), 0, 1, t, t + 1, true)
  }

  /** Entity 1 under the stray attribute, newer than the view, between the retraction and the assertion in key order. */
  function Newer(b: string, t: int): Fact {
    Fact(Triple(1, b, Null), 0, 3, t - 1, t, true)
  }

  function Ours(a: string, t: int): seq<Fact> {
    [Withdrawn(a), Asserted(a, t), Standing(a, t)]
  }

  function Base(a: string, b: string, t: int, m: nat): seq<Fact> {
    Fillers(a, m) + Ours(a, t) + [Newer(b, t)]
  }

  predicate Setting(a: string, b: string, t: int) {
    Stray(a, b) && RETRACT_ALL_FROM < t - 1
  }

  function Scene(a: string, b: string, t: int, m: nat): Index {
    Index(Base(a, b, t, m), [], [])
  }

  // ── The log ────────────────────────────────────────────────────────────────

  lemma InKeyOrder(a: string, b: string, t: int, m: nat)
    requires Setting(a, b, t)
    ensures KeyOrdered(Base(a, b, t, m))
  {
    hide Before, Stray, ValueLess;
    StrayComesAfter(a, b);
    var base := Base(a, b, t, m);
    forall i, j | 0 <= i < j < |base|
      ensures KeyLess(base[i], base[j])
    {
      assert base[m] == Withdrawn(a) && base[m + 1] == Asserted(a, t) && base[m + 2] == Standing(a, t) && base[m + 3] == Newer(b, t);
    }
  }

  lemma SceneHolds(a: string, b: string, t: int, m: nat)
    requires Setting(a, b, t)
    ensures Indexes(Scene(a, b, t, m), Base(a, b, t, m))
  {
    hide Stray, KeyOrdered;
    InKeyOrder(a, b, t, m);
    NoKeys();
    assert Held(Scene(a, b, t, m)) == Base(a, b, t, m);
  }

  lemma NoKeys()
    ensures KeyOrdered([])
  {}

  lemma {:induction false} NoneVisible(entries: seq<Fact>, n: nat)
    requires forall i :: 0 <= i < |entries| ==> entries[i].txCount > n
    ensures AsOf(entries, n) == []
  {
    if entries != [] {
      NoneVisible(entries[1..], n);
    }
  }

  lemma {:induction false} AllVisible(entries: seq<Fact>, n: nat)
    requires forall i :: 0 <= i < |entries| ==> entries[i].txCount <= n
    ensures AsOf(entries, n) == entries
  {
    if entries != [] {
      AllVisible(entries[1..], n);
      assert entries == [entries[0]] + entries[1..];
    }
  }

  /** The view sees the three facts of its own attribute only. */
  lemma Seen(a: string, b: string, t: int, m: nat)
    ensures AsOf(Base(a, b, t, m), 2) == Ours(a, t)
  {
    hide AsOf;
    NoneVisible(Fillers(a, m), 2);
    AllVisible(Ours(a, t), 2);
    NoneVisible([Newer(b, t)], 2);
    hide Fillers, Ours;
    AsOfConcat(Fillers(a, m) + Ours(a, t), [Newer(b, t)], 2);
    AsOfConcat(Fillers(a, m), Ours(a, t), 2);
    assert [] + Ours(a, t) == Ours(a, t) && Ours(a, t) + [] == Ours(a, t);
  }

  lemma NothingStraysInView(a: string, b: string, t: int, m: nat)
    requires Setting(a, b, t)
    ensures StrayFree(AsOf(Base(a, b, t, m), 2), a) && !StrayFree(Base(a, b, t, m), a)
  {
    hide InRange, AsOf;
    Seen(a, b, t, m);
    assert Base(a, b, t, m)[m + 3] == Newer(b, t);
  }

  // ── The walk ───────────────────────────────────────────────────────────────

  lemma {:induction false} RangeConcat(x: seq<Fact>, y: seq<Fact>, attribute: string, start: Start)
    ensures Range(x + y, attribute, start) == Range(x, attribute, start) + Range(y, attribute, start)
  {
    hide InSpan, Range;
    if x == [] {
      NoRange(attribute, start);
      assert x + y == y && [] + Range(y, attribute, start) == Range(y, attribute, start);
    } else {
      RangeConcat(x[1..], y, attribute, start);
      RangeUnfolds(x, attribute, start);
      RangeUnfolds(x + y, attribute, start);
      assert (x + y)[1..] == x[1..] + y && (x + y)[0] == x[0];
      Regroup(if InSpan(x[0], attribute, start) then [x[0]] else [], Range(x[1..], attribute, start), Range(y, attribute, start));
    }
  }

  lemma NoRange(attribute: string, start: Start)
    ensures Range([], attribute, start) == []
  {}

  lemma RangeUnfolds(x: seq<Fact>, attribute: string, start: Start)
    requires x != []
    ensures Range(x, attribute, start) == (if InSpan(x[0], attribute, start) then [x[0]] else []) + Range(x[1..], attribute, start)
  {
    hide InSpan;
  }

  lemma {:induction false} RangeNone(entries: seq<Fact>, attribute: string, start: Start)
    requires forall i :: 0 <= i < |entries| ==> !InSpan(entries[i], attribute, start)
    ensures Range(entries, attribute, start) == []
  {
    hide InSpan;
    if entries != [] {
      RangeNone(entries[1..], attribute, start);
    }
  }

  lemma {:induction false} PortionAlone(a: seq<Fact>, max: nat)
    requires max <= |a|
    ensures Portioned(a, [], max) == Portion(a[..max], max, 0)
  {
    if max > 0 {
      PortionAlone(a[1..], max - 1);
      assert a[..max] == [a[0]] + a[1..][..max - 1];
    }
  }

  lemma {:induction false} PortionShort(a: seq<Fact>, max: nat)
    requires |a| <= max
    ensures Portioned(a, [], max) == Portion(a, |a|, 0)
  {
    if a != [] {
      PortionShort(a[1..], max - 1);
      assert a == [a[0]] + a[1..];
    }
  }

  /** The range of the first step is the whole log. */
  lemma FirstRange(a: string, b: string, t: int, m: nat)
    requires a != "" && Setting(a, b, t)
    ensures Committed(Scene(a, b, t, m), a, FromEntity(0)) == Base(a, b, t, m)
  {
    hide InRange;
    RangeHoldsItself(a);
    RangeAll(Base(a, b, t, m), a, FromEntity(0));
  }

  /** At the stray entry, the fillers and the retraction lie before the resume key. */
  lemma BehindKey(a: string, b: string, t: int, m: nat, i: nat)
    requires Setting(a, b, t) && i <= m
    ensures !InSpan((Fillers(a, m) + [Withdrawn(a)])[i], a, FromKey(Newer(b, t)))
  {
    hide InRange, ValueLess, RestLess;
    var front := Fillers(a, m) + [Withdrawn(a)];
    assert front[i] == if i < m then Filler(a, i) else Withdrawn(a);
  }

  lemma AheadOfKey(a: string, b: string, t: int, i: nat)
    requires a != "" && Setting(a, b, t) && i < 3
    ensures InSpan([Asserted(a, t), Standing(a, t), Newer(b, t)][i], a, FromKey(Newer(b, t)))
  {
    hide InRange, ValueLess, RestLess;
    RangeHoldsItself(a);
  }

  /** Resumed at the stray entry, the range has lost the retraction and still has the assertion and what follows. */
  lemma ResumedRange(a: string, b: string, t: int, m: nat)
    requires a != "" && Setting(a, b, t)
    ensures Committed(Scene(a, b, t, m), a, FromKey(Newer(b, t))) == [Asserted(a, t), Standing(a, t), Newer(b, t)]
  {
    hide InSpan, Range, Setting;
    var start, base := FromKey(Newer(b, t)), Base(a, b, t, m);
    var front, back := Fillers(a, m) + [Withdrawn(a)], [Asserted(a, t), Standing(a, t), Newer(b, t)];
    assert base == front + back;
    RangeConcat(front, back, a, start);
    forall i | 0 <= i < |front|
      ensures !InSpan(front[i], a, start)
    {
      BehindKey(a, b, t, m, i);
    }
    RangeNone(front, a, start);
    forall i | 0 <= i < |back|
      ensures InSpan(back[i], a, start)
    {
      AheadOfKey(a, b, t, i);
    }
    RangeAll(back, a, start);
    NoRange(a, start);
    assert [] + back == back;
  }

  lemma SkipsStray(a: string, b: string, t: int)
    ensures Past([Asserted(a, t), Standing(a, t), Newer(b, t)], Some(Newer(b, t))) == [Asserted(a, t), Standing(a, t)]
  {
    hide ValueLess;
    var x, h, s := Asserted(a, t), Standing(a, t), Newer(b, t);
    SuffixNotLessItself(s);
    assert [x, h, s][1..] == [h, s] && [h, s][1..] == [s] && [s][1..] == [];
    assert Past([s], Some(s)) == [] + [];
    assert Past([h, s], Some(s)) == [h] + [];
    assert Past([x, h, s], Some(s)) == [x] + [h];
  }

  function View(a: string, b: string, t: int, m: nat): Source {
    Source(Scene(a, b, t, m), a, 0, 2)
  }

  /** The step takes exactly the log. */
  function Steps(m: nat): Plan {
    Plan([], m + 4)
  }

  /** The first step has the whole log ahead, and nothing pending. */
  lemma FirstAhead(a: string, b: string, t: int, m: nat)
    requires a != "" && Setting(a, b, t)
    ensures var src, cur := View(a, b, t, m), NewCursor(View(a, b, t, m));
            CommittedAhead(src, cur) == Base(a, b, t, m) && PendingAhead(src, cur) == []
  {
    hide Setting, Committed, Past, Base, Range;
    FirstRange(a, b, t, m);
    PastNothing(Base(a, b, t, m));
    NoRange(a, FromEntity(0));
  }

  lemma BaseEnds(a: string, b: string, t: int, m: nat)
    ensures var base := Base(a, b, t, m); |base| == m + 4 && base[..m + 4] == base && base[m + 3] == Newer(b, t)
  {}

  lemma FirstStep(a: string, b: string, t: int, m: nat)
    requires a != "" && Setting(a, b, t)
    ensures var cur := CursorAt(View(a, b, t, m), Steps(m), 1);
            && ReadAt(View(a, b, t, m), Steps(m), 1) == Base(a, b, t, m)
            && cur.start == FromKey(Newer(b, t)) && cur.last == Some(Newer(b, t)) && cur.position == 0 && !cur.committedDone && !cur.done
  {
    hide Setting, CommittedAhead, PendingAhead, Portioned, Reduce, AsOf, Base, CursorAt, ReadAt, PendingOf;
    var src, base, cur := View(a, b, t, m), Base(a, b, t, m), NewCursor(View(a, b, t, m));
    FirstAhead(a, b, t, m);
    BaseEnds(a, b, t, m);
    PortionAlone(base, m + 4);
    PortionAlone(base, m + 3);
    StepUnfolds(src, Steps(m), 0);
    NoSteps(src, Steps(m));
    assert [] + base == base;
  }

  lemma NoSteps(src: Source, plan: Plan)
    ensures CursorAt(src, plan, 0) == NewCursor(src) && ReadAt(src, plan, 0) == []
  {}

  lemma SecondStep(a: string, b: string, t: int, m: nat)
    requires a != "" && Setting(a, b, t)
    ensures CursorAt(View(a, b, t, m), Steps(m), 2).done
    ensures ReadAt(View(a, b, t, m), Steps(m), 2) == Base(a, b, t, m) + [Asserted(a, t), Standing(a, t)]
  {
    hide Setting, Committed, Past, Portioned, Reduce, AsOf, CursorAt, ReadAt, Base;
    var src, cur := View(a, b, t, m), CursorAt(View(a, b, t, m), Steps(m), 1);
    var again := [Asserted(a, t), Standing(a, t)];
    FirstStep(a, b, t, m);
    ResumedRange(a, b, t, m);
    SkipsStray(a, b, t);
    assert CommittedAhead(src, cur) == again;
    assert PendingAhead(src, cur) == [];
    PortionShort(again, m + 4);
    PortionShort(again, m + 3);
    StepUnfolds(src, Steps(m), 1);
  }

  lemma StepUnfolds(src: Source, plan: Plan, k: nat)
    ensures CursorAt(src, plan, k + 1) == NextCursor(src, CursorAt(src, plan, k), StopAt(plan, k))
    ensures ReadAt(src, plan, k + 1) == ReadAt(src, plan, k) + Reads(src, CursorAt(src, plan, k), StopAt(plan, k))
  {
    hide NextCursor, Reads;
  }

  lemma LongHorizon(a: string, b: string, t: int, m: nat)
    ensures Horizon(View(a, b, t, m), Steps(m)) >= 2
  {}

  /** The whole walk reads the assertion and the entity behind it twice. */
  lemma ReadsAgain(a: string, b: string, t: int, m: nat)
    requires a != "" && Setting(a, b, t)
    ensures WholeWalk(View(a, b, t, m), Steps(m)) == Base(a, b, t, m) + [Asserted(a, t), Standing(a, t)]
    ensures AsOf(WholeWalk(View(a, b, t, m), Steps(m)), 2) == Ours(a, t) + [Asserted(a, t), Standing(a, t)]
  {
    hide CursorAt, ReadAt, AsOf, Base, Ours;
    var src, again := View(a, b, t, m), [Asserted(a, t), Standing(a, t)];
    SecondStep(a, b, t, m);
    LongHorizon(a, b, t, m);
    StaysDone(src, Steps(m), 2, Horizon(src, Steps(m)));
    AsOfConcat(Base(a, b, t, m), again, 2);
    Seen(a, b, t, m);
    AllVisible(again, 2);
  }

  // ── The diff ───────────────────────────────────────────────────────────────

  function GroupFor(f: Fact): EntityGroup {
    EntityGroup(f.triple.entity, [IntervalOf(f)])
  }

  lemma RunsNext(entries: seq<Fact>, f: Fact)
    ensures RunsOf(entries + [f]) == Extended(RunsOf(entries), f)
  {
    assert (entries + [f])[..|entries|] == entries;
    RunsUnfold(entries + [f]);
  }

  lemma RunsOfWalk(a: string, t: int)
    ensures RunsOf(Ours(a, t) + [Asserted(a, t), Standing(a, t)]) ==
            [[Withdrawn(a), Asserted(a, t)], [Standing(a, t)], [Asserted(a, t)], [Standing(a, t)]]
  {
    hide RunsOf;
    var r, x, h := Withdrawn(a), Asserted(a, t), Standing(a, t);
    AloneRuns(r);
    RunsNext([r], x);
    assert [r] + [x] == [r, x];
    assert Extended([[r]], x) == [[r, x]];
    RunsNext([r, x], h);
    assert [r, x] + [h] == [r, x, h];
    assert Extended([[r, x]], h) == [[r, x], [h]];
    RunsNext([r, x, h], x);
    assert [r, x, h] + [x] == [r, x, h, x];
    assert Extended([[r, x], [h]], x) == [[r, x], [h], [x]];
    RunsNext([r, x, h, x], h);
    assert [r, x, h, x] + [h] == [r, x, h, x, h] == Ours(a, t) + [x, h];
  }

  /** Read together, the retraction hides the assertion. */
  lemma HiddenTogether(a: string, t: int)
    ensures Flush([Withdrawn(a), Asserted(a, t)]) == []
  {
    var r, x := Withdrawn(a), Asserted(a, t);
    var run, i := [r, x], IntervalOf(x);
    assert r in run && CancelsInterval(r, i);
    assert !NetAny(run, i);
    assert FlushUpTo(run, 0) == [];
    assert FlushUpTo(run, 1) == [];
  }

  lemma GroupsOfWalk(a: string, t: int)
    ensures GroupsFrom(RunsOf(Ours(a, t) + [Asserted(a, t), Standing(a, t)])) ==
            [GroupFor(Standing(a, t)), GroupFor(Asserted(a, t)), GroupFor(Standing(a, t))]
  {
    hide RunsOf, Flush, Ours;
    var r, x, h := Withdrawn(a), Asserted(a, t), Standing(a, t);
    RunsOfWalk(a, t);
    HiddenTogether(a, t);
    AloneFlush(x);
    AloneFlush(h);
    assert [[r, x]][..0] == [] && GroupsFrom([[r, x]]) == [];
    assert [[r, x], [h]][..1] == [[r, x]] && GroupsFrom([[r, x], [h]]) == [] + [GroupFor(h)];
    assert [[r, x], [h], [x]][..2] == [[r, x], [h]] && GroupsFrom([[r, x], [h], [x]]) == [GroupFor(h)] + [GroupFor(x)];
    assert [[r, x], [h], [x], [h]][..3] == [[r, x], [h], [x]];
  }

  lemma WrongListing(a: string, b: string, t: int, m: nat)
    requires a != "" && Setting(a, b, t)
    ensures GroupsAfter(Store(Scene(a, b, t, m), 2), a, None, Steps(m)) == [GroupFor(Standing(a, t)), GroupFor(Asserted(a, t)), GroupFor(Standing(a, t))]
  {
    hide WholeWalk, GroupsFrom, RunsOf, AsOf, Setting;
    ReadsAgain(a, b, t, m);
    GroupsOfWalk(a, t);
  }

  /** As of the view, the assertion is retracted. */
  lemma Retracted(a: string, b: string, t: int, m: nat, at: int)
    ensures !Visible(AsOf(Base(a, b, t, m), 2), Triple(1, a, Null), at)
  {
    hide AsOf;
    Seen(a, b, t, m);
    var log := Ours(a, t);
    assert log[0] == Withdrawn(a);
    assert Withdrawn(a) in log;
  }

  function ThreeRows(q: Query): seq<Row> {
    [RowFor(Standing(q.attribute, q.ax.after), q), RowFor(Asserted(q.attribute, q.ax.after), q), RowFor(Standing(q.attribute, q.ax.after), q)]
  }

  lemma RowsOfWalk(q: Query)
    requires Proper(q.ax)
    ensures var t, a := q.ax.after, q.attribute;
            RowsRange([GroupFor(Standing(a, t)), GroupFor(Asserted(a, t)), GroupFor(Standing(a, t))], 0, 3, q) == ThreeRows(q)
  {
    hide GroupRows;
    var t, a := q.ax.after, q.attribute;
    var x, h := Asserted(a, t), Standing(a, t);
    ArrivalRow(x, q);
    ArrivalRow(h, q);
    var groups := [GroupFor(h), GroupFor(x), GroupFor(h)];
    assert RowsRange(groups, 0, 1, q) == RowsRange(groups, 0, 0, q) + [RowFor(h, q)] == [RowFor(h, q)];
    assert RowsRange(groups, 0, 2, q) == [RowFor(h, q)] + [RowFor(x, q)];
    assert RowsRange(groups, 0, 3, q) == [RowFor(h, q), RowFor(x, q)] + [RowFor(h, q)];
  }

  /**
   A finished one-page diff, pinned where nothing strays, that reports an assertion which was retracted before the
   pinned transaction and delivers another entity twice: the first step ends at an entry written after the view.
   With `m` fillers the step size is `m + 4`; the diff's own step size is one of them.
   */
  lemma NewerStrayIsReported(q: Query, b: string, m: nat, limit: nat)
    requires q.attribute != "" && Stray(q.attribute, b) && Proper(q.ax) && RETRACT_ALL_FROM < q.ax.before && limit >= 3
    ensures var facts := Base(q.attribute, b, q.ax.after, m);
            var log := [Exchange(Scene(q.attribute, b, q.ax.after, m), FirstRequest(q, limit), Steps(m), Page(ThreeRows(q), None), 3)];
            && Indexes(log[0].index, facts)
            && StrayFree(AsOf(facts, 2), q.attribute) && !StrayFree(facts, q.attribute)
            && Chain(2, q, None, log) && Ended(log)
            && ReportsOf(AllRows(log), 1, Null, Appeared)
            && !Changed(AsOf(facts, 2), Triple(1, q.attribute, Null), q.ax, Appeared)
  {
    hide Stray, AsOf, Indexes, GroupsAfter, RowsRange, Base;
    var a, t := q.attribute, q.ax.after;
    var log := [Exchange(Scene(a, b, t, m), FirstRequest(q, limit), Steps(m), Page(ThreeRows(q), None), 3)];
    SceneHolds(a, b, t, m);
    NothingStraysInView(a, b, t, m);
    WrongListing(a, b, t, m);
    RowsOfWalk(q);
    assert Link(2, q, None, log, 0);
    assert log[..0] == [] && AllRows([]) == [];
    assert AllRows(log) == [] + ThreeRows(q);
    assert AllRows(log)[1] == RowFor(Asserted(a, t), q);
    Retracted(a, b, t, m, t);
  }

  /** The same with the step size of the diff. */
  lemma DiffReportsNewerStray(q: Query, b: string)
    requires q.attribute != "" && Stray(q.attribute, b) && Proper(q.ax) && RETRACT_ALL_FROM < q.ax.before
    ensures Steps(STEP_ENTRIES - 4) == Plan([], STEP_ENTRIES)
    ensures exists n: nat, facts: seq<Fact>, log: seq<Exchange> ::
              && Written(n, facts, log, [facts]) && StrayFree(AsOf(facts, n), q.attribute)
              && Chain(n, q, None, log) && Ended(log) && (forall i :: 0 <= i < |log| ==> log[i].plan == Plan([], STEP_ENTRIES))
              && !ReportsTheDifference(n, facts, q, None, log)
  {
    hide Stray, AsOf, Indexes, Chain, Base, ReportsOf, AllRows, Changed, ReportsTheDifference, Written;
    var m, a, t := STEP_ENTRIES - 4, q.attribute, q.ax.after;
    var log := [Exchange(Scene(a, b, t, m), FirstRequest(q, 3), Steps(m), Page(ThreeRows(q), None), 3)];
    NewerStrayIsReported(q, b, m, 3);
    WrongReport(2, Base(a, b, t, m), q, log, 1, Null);
    OnePage(2, Base(a, b, t, m), log);
  }
}
