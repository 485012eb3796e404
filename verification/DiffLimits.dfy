/** What a whole-attribute diff does when another attribute strays into its range. */
module DiffLimits {
  import opened Bytes
  import opened Ledger
  import opened Diff
  import opened DiffScan
  import opened DiffPages
  import opened DiffChain
  import opened Sequences
  import opened Groups
  import opened Cursors
  import opened Walks
  import opened PureWalks
  import opened Orders

  /** `:task/due-date` strays into the range of `:task/due`. */
  lemma DueDateStraysIntoDue()
    ensures Stray(":task/due", ":task/due-date")
  {
    RangeIsPrefix(":task/due", ":task/due-date");
  }

  /** The fact's window starts in the diff's span and outlasts it. */
  predicate Arrives(f: Fact, ax: Axis) {
    f.asserted && ax.before < f.from <= ax.after < f.to
  }

  function RowFor(f: Fact, q: Query): Row {
    Row(f.triple.entity, q.attribute, f.triple.value, Appeared, f.from, f.to)
  }

  lemma ArrivalRow(f: Fact, q: Query)
    requires Arrives(f, q.ax)
    ensures GroupRows(EntityGroup(f.triple.entity, [IntervalOf(f)]), q) == [RowFor(f, q)]
  {
    var i := IntervalOf(f);
    assert [i][..0] == [];
    assert GroupOf([i], q.ax) == NoteWindow([], i, q.ax);
    var s := ValueState(f.triple.value, None, Some(i));
    assert GroupOf([i], q.ax) == [s];
    assert [s][1..] == [];
    assert IntoRows([s], f.triple.entity, q.attribute) == RowOf(s, f.triple.entity, q.attribute) + [];
  }

  function FirstRequest(q: Query, limit: nat): Request {
    Request(q, None, None, limit)
  }

  // ── A value of another attribute ───────────────────────────────────────────

  lemma AloneIsPure(f: Fact, attribute: string)
    ensures Pure(Alone(f), attribute, f.triple.attribute)
  {}

  /** However the steps split, a lone stray fact is delivered, from any start. */
  lemma AloneGroupsAfter(f: Fact, attribute: string, last: Option<nat>, plan: Plan)
    requires f.asserted && f.txCount == 1 && f.triple.entity <= ENTITY_MAX && Stray(attribute, f.triple.attribute)
    requires plan.size > 0 && (last.Some? ==> last.value < ENTITY_MAX)
    ensures GroupsAfter(Store(Alone(f), 1), attribute, last, plan) == [EntityGroup(f.triple.entity, [IntervalOf(f)])]
  {
    hide Listing, InRange, Pure, WalkListing;
    var src := SourceAfter(Store(Alone(f), 1), attribute, last);
    AloneIsPure(f, attribute);
    EverySplitReadsTheSame(src, f.triple.attribute, plan);
    StrayIsServed(f, 1, attribute, src.from);
  }

  /** A finished one-page diff that reports, under the queried attribute, a value only the other attribute has. */
  lemma StrayIsReported(f: Fact, q: Query, limit: nat, plan: Plan)
    requires f.txCount == 1 && f.triple.entity <= ENTITY_MAX && Stray(q.attribute, f.triple.attribute) && Arrives(f, q.ax)
    requires limit >= 1 && plan.size > 0
    ensures var log := [Exchange(Alone(f), FirstRequest(q, limit), plan, Page([RowFor(f, q)], None), 1)];
            && Indexes(Alone(f), [f])
            && Chain(1, q, None, log) && Ended(log)
            && ReportsOf(AllRows(log), f.triple.entity, f.triple.value, Appeared)
            && !Changed(AsOf([f], 1), Triple(f.triple.entity, q.attribute, f.triple.value), q.ax, Appeared)
  {
    hide GroupRows, InRange, Indexes, GroupsAfter;
    var g := EntityGroup(f.triple.entity, [IntervalOf(f)]);
    var log := [Exchange(Alone(f), FirstRequest(q, limit), plan, Page([RowFor(f, q)], None), 1)];
    StrayIsServed(f, 1, q.attribute, 0);
    AloneGroupsAfter(f, q.attribute, None, plan);
    ArrivalRow(f, q);
    assert RowsRange([g], 0, 1, q) == RowsRange([g], 0, 0, q) + GroupRows(g, q) == [RowFor(f, q)];
    assert Link(1, q, None, log, 0);
    assert log[..0] == [];
    assert AllRows(log) == [] + [RowFor(f, q)];
    assert RowFor(f, q) in AllRows(log);
    OnlyOwnTriple(f, Triple(f.triple.entity, q.attribute, f.triple.value), q.ax.after);
  }

  lemma OnlyOwnTriple(f: Fact, t: Triple, at: int)
    requires f.txCount == 1 && f.triple != t
    ensures !Visible(AsOf([f], 1), t, at)
  {}

  // ── When a diff is exact ───────────────────────────────────────────────────

  /** Every log behind every page is over these attributes. */
  ghost predicate Over(attributes: set<string>, logs: seq<seq<Fact>>) {
    forall i, f :: 0 <= i < |logs| && f in logs[i] ==> f.triple.attribute in attributes
  }

  /** Every whole-attribute chain that ends, over logs of these attributes that may grow between pages, reports what changed. */
  ghost predicate AlwaysReports(attributes: set<string>, q: Query) {
    forall n: nat, facts: seq<Fact>, log: seq<Exchange>, logs: seq<seq<Fact>> ::
      Chain(n, q, None, log) && Ended(log) && Written(n, facts, log, logs) && Over(attributes, logs) ==>
        ReportsTheDifference(n, facts, q, None, log)
  }

  /** Whole-attribute diffs over some attributes report exactly what changed, if and only if none of them strays into the range. */
  lemma ReportsIffNothingStrays(attributes: set<string>, q: Query)
    requires q.attribute != "" && Proper(q.ax)
    ensures AlwaysReports(attributes, q) <==> forall other :: other in attributes ==> !Stray(q.attribute, other)
  {
    hide ReportsTheDifference, Chain, Indexes, InRange, Written;
    if other :| other in attributes && Stray(q.attribute, other) {
      var f := Fact(Triple(0, other, Null), 0, 1, q.ax.after, q.ax.after + 1, true);
      StrayIsReported(f, q, 1, Plan([], STEP_ENTRIES));
      var log := [Exchange(Alone(f), FirstRequest(q, 1), Plan([], STEP_ENTRIES), Page([RowFor(f, q)], None), 1)];
      WrongReport(1, [f], q, log, 0, Null);
      OnePage(1, [f], log);
      assert Over(attributes, [[f]]);
    } else {
      forall n: nat, facts: seq<Fact>, log: seq<Exchange>, logs: seq<seq<Fact>>
        | Chain(n, q, None, log) && Ended(log) && Written(n, facts, log, logs) && Over(attributes, logs)
        ensures ReportsTheDifference(n, facts, q, None, log)
      {
        AllReadExactly(attributes, n, facts, q, log, logs);
        ChainIsLedgerDifference(n, facts, q, None, log, logs);
      }
    }
  }

  lemma AllReadExactly(attributes: set<string>, n: nat, facts: seq<Fact>, q: Query, log: seq<Exchange>, logs: seq<seq<Fact>>)
    requires Written(n, facts, log, logs) && Over(attributes, logs) && forall other :: other in attributes ==> !Stray(q.attribute, other)
    ensures forall i :: 0 <= i < |log| ==> ReadsExactly(n, q.attribute, log[i], logs[i])
  {
    hide Stray, Indexes, SameView;
  }

  lemma OnePage(n: nat, facts: seq<Fact>, log: seq<Exchange>)
    requires |log| == 1 && Indexes(log[0].index, facts)
    ensures Written(n, facts, log, [facts])
  {
    hide Indexes;
  }

  lemma WrongReport(n: nat, facts: seq<Fact>, q: Query, log: seq<Exchange>, e: nat, v: Value)
    requires ReportsOf(AllRows(log), e, v, Appeared) && !Changed(AsOf(facts, n), Triple(e, q.attribute, v), q.ax, Appeared)
    ensures !ReportsTheDifference(n, facts, q, None, log)
  {
    hide ReportsOf, Changed;
  }

  // ── Chains that never end ──────────────────────────────────────────────────

  function Pair(f: Fact, g: Fact): Index {
    Index([f, g], [], [])
  }

  /** Two facts of one straying attribute, of different entities. */
  predicate StrayPair(f: Fact, g: Fact, q: Query) {
    && f.txCount == g.txCount == 1 && f.triple.entity < g.triple.entity <= ENTITY_MAX
    && f.triple.attribute == g.triple.attribute && Stray(q.attribute, f.triple.attribute)
    && Arrives(f, q.ax) && Arrives(g, q.ax)
  }

  lemma PairIsPure(f: Fact, g: Fact, q: Query)
    requires StrayPair(f, g, q)
    ensures Pure(Pair(f, g), q.attribute, f.triple.attribute) && Indexes(Pair(f, g), [f, g])
  {
    hide InRange;
    assert Held(Pair(f, g)) == [f, g];
  }

  lemma PairEntries(f: Fact, g: Fact, q: Query, from: nat)
    requires StrayPair(f, g, q)
    ensures Entries(Pair(f, g), 1, q.attribute, from) == [f, g]
  {
    hide InRange;
    var start := FromEntity(from);
    assert [f, g][1..] == [g] && [g][1..] == [];
    assert Range([], q.attribute, start) == [];
    assert Range([g], q.attribute, start) == [g] + [];
    assert Range([f, g], q.attribute, start) == [f] + [g];
    assert AsOf([g], 1) == [g] + [];
    assert AsOf([f, g], 1) == [f] + [g];
  }

  lemma PairListing(f: Fact, g: Fact, q: Query, from: nat)
    requires StrayPair(f, g, q)
    ensures Listing(Pair(f, g), 1, q.attribute, from) ==
            [EntityGroup(f.triple.entity, [IntervalOf(f)]), EntityGroup(g.triple.entity, [IntervalOf(g)])]
  {
    hide Flush, Entries, Stray;
    PairEntries(f, g, q, from);
    assert [f, g][..1] == [f];
    AloneRuns(f);
    assert RunsOf([f, g]) == [[f]] + [[g]];
    assert ([[f]] + [[g]])[..1] == [[f]];
    AloneGroups(f);
    AloneFlush(f);
    AloneFlush(g);
    var first := EntityGroup(f.triple.entity, [IntervalOf(f)]);
    assert GroupsFrom([[f]]) == [] + [first];
  }

  /** However the steps split and wherever a request resumes, it walks both groups again. */
  lemma PairGroupsAfter(f: Fact, g: Fact, q: Query, last: Option<nat>, plan: Plan)
    requires StrayPair(f, g, q) && plan.size > 0 && (last.Some? ==> last.value < ENTITY_MAX)
    ensures GroupsAfter(Store(Pair(f, g), 1), q.attribute, last, plan) ==
            [EntityGroup(f.triple.entity, [IntervalOf(f)]), EntityGroup(g.triple.entity, [IntervalOf(g)])]
  {
    hide Listing, Stray, Pure, WalkListing;
    var src := SourceAfter(Store(Pair(f, g), 1), q.attribute, last);
    PairIsPure(f, g, q);
    EverySplitReadsTheSame(src, f.triple.attribute, plan);
    PairListing(f, g, q, src.from);
  }

  function Again(q: Query, f: Fact): DiffCursor {
    DiffCursor(q.attribute, 1, q.ax.before, q.ax.after, WholeAttribute(f.triple.entity))
  }

  /** With limit one, a page holds the first group and continues behind it. */
  lemma PairPage(f: Fact, g: Fact, request: Request, plan: Plan, end: nat, page: Page)
    requires StrayPair(f, g, request.q) && plan.size > 0 && request.entities == None && request.limit == 1
    requires request.resume == None || request.resume == Some(Again(request.q, f))
    ensures Answers(Store(Pair(f, g), 1), request, plan, end, page) <==> end == 1 && page == Page([RowFor(f, request.q)], Some(Again(request.q, f)))
  {
    hide GroupsAfter, GroupRows, Stray;
    var q := request.q;
    var a, b := EntityGroup(f.triple.entity, [IntervalOf(f)]), EntityGroup(g.triple.entity, [IntervalOf(g)]);
    PairGroupsAfter(f, g, q, LastOf(request.resume), plan);
    ArrivalRow(f, q);
    ArrivalRow(g, q);
    assert RowsRange([a, b], 0, 1, q) == RowsRange([a, b], 0, 0, q) + GroupRows(a, q) == [RowFor(f, q)];
    assert RowsRange([a, b], 0, 2, q) == RowsRange([a, b], 0, 1, q) + GroupRows(b, q);
  }

  /** Every request of the log asks for one row, of the same pair of stray facts. */
  ghost predicate OfPair(f: Fact, g: Fact, log: seq<Exchange>) {
    forall k :: 0 <= k < |log| ==> log[k].request.limit == 1 && log[k].index == Pair(f, g)
  }

  lemma {:induction false} PairPages(f: Fact, g: Fact, q: Query, log: seq<Exchange>, i: nat)
    requires StrayPair(f, g, q) && Chain(1, q, None, log) && OfPair(f, g, log) && i < |log|
    ensures log[i].page == Page([RowFor(f, q)], Some(Again(q, f)))
  {
    hide Answers, Stray;
    assert Link(1, q, None, log, i);
    if i > 0 {
      PairPages(f, g, q, log, i - 1);
    }
    PairPage(f, g, log[i].request, log[i].plan, log[i].end, log[i].page);
  }

  /**
   With limit one, every page of every chain repeats the first group and continues: following continuations
   never ends, however the storage steps split.
   */
  lemma StrayChainNeverEnds(f: Fact, g: Fact, q: Query, log: seq<Exchange>)
    requires StrayPair(f, g, q) && Chain(1, q, None, log) && OfPair(f, g, log)
    ensures Indexes(Pair(f, g), [f, g])
    ensures !Ended(log) && forall i :: 0 <= i < |log| ==> log[i].page.rows == [RowFor(f, q)]
  {
    hide Answers, Stray, Indexes, Chain;
    PairIsPure(f, g, q);
    forall i | 0 <= i < |log|
      ensures log[i].page == Page([RowFor(f, q)], Some(Again(q, f)))
    {
      PairPages(f, g, q, log, i);
    }
  }

  lemma ChainGrows(n: nat, q: Query, log: seq<Exchange>, x: Exchange)
    requires Chain(n, q, None, log) && Link(n, q, None, log + [x], |log|)
    ensures Chain(n, q, None, log + [x])
  {
    hide Answers;
    forall i | 0 <= i < |log|
      ensures Link(n, q, None, log + [x], i)
    {
      assert Link(n, q, None, log, i);
    }
  }

  function RepeatedExchange(f: Fact, g: Fact, q: Query, first: bool): Exchange {
    Exchange(Pair(f, g), Request(q, None, if first then None else Some(Again(q, f)), 1), Plan([], STEP_ENTRIES),
             Page([RowFor(f, q)], Some(Again(q, f))), 1)
  }

  lemma NextPair(f: Fact, g: Fact, q: Query, log: seq<Exchange>)
    requires StrayPair(f, g, q) && (|log| > 0 ==> log[|log| - 1].page.next == Some(Again(q, f)))
    ensures Link(1, q, None, log + [RepeatedExchange(f, g, q, |log| == 0)], |log|)
  {
    hide Answers, Stray;
    var x := RepeatedExchange(f, g, q, |log| == 0);
    PairPage(f, g, x.request, x.plan, x.end, x.page);
  }

  function Repeats(f: Fact, g: Fact, q: Query, n: nat): seq<Exchange> {
    if n == 0 then [] else Repeats(f, g, q, n - 1) + [RepeatedExchange(f, g, q, n == 1)]
  }

  lemma {:induction false} RepeatsAre(f: Fact, g: Fact, q: Query, n: nat)
    ensures var log := Repeats(f, g, q, n);
            |log| == n && OfPair(f, g, log) && (n > 0 ==> log[n - 1].page.next == Some(Again(q, f)))
  {
    if n > 0 {
      RepeatsAre(f, g, q, n - 1);
    }
  }

  lemma OneMoreRepeat(f: Fact, g: Fact, q: Query, n: nat, log: seq<Exchange>)
    requires StrayPair(f, g, q) && |log| == n && (n > 0 ==> log[n - 1].page.next == Some(Again(q, f))) && Chain(1, q, None, log)
    ensures Chain(1, q, None, log + [RepeatedExchange(f, g, q, n == 0)])
  {
    hide StrayPair, Chain, Link, RepeatedExchange, Again;
    NextPair(f, g, q, log);
    ChainGrows(1, q, log, RepeatedExchange(f, g, q, n == 0));
  }

  /** Such chains exist at every length, so a client that follows continuations goes on for ever. */
  lemma {:induction false} StrayChainGoesOn(f: Fact, g: Fact, q: Query, n: nat)
    requires StrayPair(f, g, q)
    ensures |Repeats(f, g, q, n)| == n && OfPair(f, g, Repeats(f, g, q, n)) && Chain(1, q, None, Repeats(f, g, q, n))
  {
    RepeatsAre(f, g, q, n);
    if n > 0 {
      hide StrayPair, Chain, RepeatedExchange, Again, OfPair;
      RepeatsAre(f, g, q, n - 1);
      StrayChainGoesOn(f, g, q, n - 1);
      OneMoreRepeat(f, g, q, n - 1, Repeats(f, g, q, n - 1));
    }
  }
}
