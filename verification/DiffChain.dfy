/**
 What following continuations adds up to, for every limit per page and every split of the storage work, while
 other transactions may be written between the pages.
 */
module DiffChain {
  import opened Bytes
  import opened Ledger
  import opened Diff
  import opened DiffScan
  import opened DiffPages
  import opened Sequences
  import opened Groups
  import opened Cursors
  import opened Walks
  import opened PureWalks

  /**
   A request, the index it was answered from, how the storage steps behind it ended, the page, and the group at
   which that page ended. The index may have grown since the page before.
   */
  datatype Exchange = Exchange(index: Index, request: Request, plan: Plan, page: Page, end: nat)

  /** The storage one exchange reads: its own index, at the transaction all pages pin. */
  function At(n: nat, x: Exchange): Store {
    Store(x.index, n)
  }

  /** Exchange `i` is for this attribute, these instants and this scope, and resumes from the continuation before it. */
  ghost predicate Link(n: nat, q: Query, entities: Option<seq<nat>>, log: seq<Exchange>, i: nat)
    requires i < |log|
  {
    && log[i].request.q == q && log[i].request.entities == entities && log[i].plan.size > 0
    && Answers(At(n, log[i]), log[i].request, log[i].plan, log[i].end, log[i].page)
    && if i == 0 then log[i].request.resume == None
       else log[i - 1].page.next.Some? && log[i].request.resume == log[i - 1].page.next
  }

  ghost predicate Chain(n: nat, q: Query, entities: Option<seq<nat>>, log: seq<Exchange>) {
    forall i :: 0 <= i < |log| ==> Link(n, q, entities, log, i)
  }

  lemma ChainPrefix(store: Store, q: Query, entities: Option<seq<nat>>, log: seq<Exchange>)
    requires Chain(store.txCount, q, entities, log) && log != []
    ensures Chain(store.txCount, q, entities, log[..|log| - 1])
    ensures Coherent(store, q, entities, log) ==> Coherent(store, q, entities, log[..|log| - 1])
  {
    hide Answers, Steady, WholeListing, Alike;
    var front := log[..|log| - 1];
    forall i | 0 <= i < |front|
      ensures Link(store.txCount, q, entities, front, i)
    {
      assert Link(store.txCount, q, entities, log, i);
    }
  }

  ghost predicate Ended(log: seq<Exchange>) {
    log != [] && log[|log| - 1].page.next == None
  }

  function AllRows(log: seq<Exchange>): seq<Row> {
    if log == [] then [] else AllRows(log[..|log| - 1]) + log[|log| - 1].page.rows
  }

  function ScopeIn(entities: Option<seq<nat>>): Option<seq<nat>> {
    ScopeOf(Request(Query("", Axis(0, 0)), entities, None, 0))
  }

  /** What uninterrupted walks list for a whole attribute. */
  function WholeListing(store: Store, attribute: string): seq<EntityGroup> {
    Listing(store.index, store.txCount, attribute, 0)
  }

  function ChainGroups(store: Store, q: Query, entities: Option<seq<nat>>): seq<EntityGroup> {
    if entities.Some? then GroupsOf(store, q.attribute, ScopeIn(entities).value) else WholeListing(store, q.attribute)
  }

  /** On the other storage, under this plan, starting after any entity delivers what the uninterrupted listing holds past it. */
  ghost predicate Steady(store: Store, attribute: string, other: Store, plan: Plan) {
    var whole := WholeListing(store, attribute);
    && GroupsAfter(other, attribute, None, plan) == whole
    && forall last: nat :: GroupsAfter(other, attribute, Some(last), plan) == whole[StartAfter(whole, last)..]
  }

  /** The other storage has the same windows for every entity. */
  ghost predicate Alike(store: Store, attribute: string, other: Store) {
    forall e: nat :: WindowsOf(other, attribute, e) == WindowsOf(store, attribute, e)
  }

  /** Every page reads storage that is like this one; for a whole attribute its listing is in entity order and the plans are steady. */
  ghost predicate Coherent(store: Store, q: Query, entities: Option<seq<nat>>, log: seq<Exchange>) {
    if entities.Some? then forall i :: 0 <= i < |log| ==> Alike(store, q.attribute, At(store.txCount, log[i]))
    else
      && InOrder(WholeListing(store, q.attribute))
      && forall i :: 0 <= i < |log| ==> Steady(store, q.attribute, At(store.txCount, log[i]), log[i].plan)
  }

  /** The group of the whole scope at which exchange `i` starts; attribute pages count from where they resume. */
  function Cut(entities: Option<seq<nat>>, log: seq<Exchange>, i: nat): nat
    requires i <= |log|
  {
    if i == 0 then 0
    else if entities.Some? then log[i - 1].end
    else Cut(entities, log, i - 1) + log[i - 1].end
  }

  lemma {:induction false} RowsRangeShift(groups: seq<EntityGroup>, skip: nat, lo: nat, hi: nat, q: Query)
    requires lo <= hi && skip + hi <= |groups|
    ensures RowsRange(groups[skip..], lo, hi, q) == RowsRange(groups, skip + lo, skip + hi, q)
    decreases hi
  {
    if lo < hi {
      RowsRangeShift(groups, skip, lo, hi - 1, q);
    }
  }

  /** What a chain keeps: exchange `i` walks the whole scope's groups from its cut on. */
  ghost predicate AtCut(store: Store, q: Query, entities: Option<seq<nat>>, log: seq<Exchange>, i: nat)
    requires i < |log|
  {
    var groups, walked := ChainGroups(store, q, entities), RequestGroups(At(store.txCount, log[i]), log[i].request, log[i].plan);
    var cut, start := Cut(entities, log, i), StartOf(log[i].request.resume);
    cut <= |groups| && if entities.Some? then walked == groups && start == cut else walked == groups[cut..] && start == 0
  }

  lemma CutBounds(store: Store, q: Query, entities: Option<seq<nat>>, log: seq<Exchange>, i: nat)
    requires i < |log| && Link(store.txCount, q, entities, log, i) && AtCut(store, q, entities, log, i)
    ensures var groups := ChainGroups(store, q, entities);
            && Cut(entities, log, i) <= Cut(entities, log, i + 1) <= |groups|
            && log[i].page.rows == RowsRange(groups, Cut(entities, log, i), Cut(entities, log, i + 1), q)
            && |log[i].page.rows| <= log[i].request.limit
            && (if log[i].page.next.Some? then Cut(entities, log, i) < Cut(entities, log, i + 1) else Cut(entities, log, i + 1) == |groups|)
  {
    hide RowsRange, ResumeAt, RequestGroups, ChainGroups, ScopeOf;
    var groups, cut := ChainGroups(store, q, entities), Cut(entities, log, i);
    assert entities.Some? ==> Cut(entities, log, i + 1) == log[i].end;
    if entities.None? {
      assert Cut(entities, log, i + 1) == cut + log[i].end;
      RowsRangeShift(groups, cut, 0, log[i].end, q);
    }
  }

  lemma NextIsLast(store: Store, q: Query, log: seq<Exchange>, i: nat)
    requires i < |log| && Link(store.txCount, q, None, log, i) && log[i].page.next.Some?
    ensures var walked := RequestGroups(At(store.txCount, log[i]), log[i].request, log[i].plan);
            && 0 < log[i].end <= |walked|
            && LastOf(log[i].page.next) == Some(walked[log[i].end - 1].entity) && StartOf(log[i].page.next) == 0
  {
    hide RowsRange, RequestGroups;
  }

  lemma ResumesPast(store: Store, q: Query, log: seq<Exchange>, i: nat, other: Store, plan: Plan)
    requires InOrder(WholeListing(store, q.attribute)) && Steady(store, q.attribute, other, plan)
    requires i < |log| && Link(store.txCount, q, None, log, i) && AtCut(store, q, None, log, i) && log[i].page.next.Some?
    requires Cut(None, log, i) < Cut(None, log, i + 1) <= |WholeListing(store, q.attribute)|
    ensures GroupsAfter(other, q.attribute, LastOf(log[i].page.next), plan) == WholeListing(store, q.attribute)[Cut(None, log, i + 1)..]
  {
    hide RowsRange, Answers, InOrder, WholeListing, GroupsAfter, RequestGroups;
    NextIsLast(store, q, log, i);
    var groups, cut, end := WholeListing(store, q.attribute), Cut(None, log, i), log[i].end;
    assert RequestGroups(At(store.txCount, log[i]), log[i].request, log[i].plan)[end - 1] == groups[cut + end - 1];
    StartAfterGroup(groups, cut + end - 1);
  }

  lemma FirstAtCut(store: Store, q: Query, entities: Option<seq<nat>>, log: seq<Exchange>)
    requires log != [] && Link(store.txCount, q, entities, log, 0) && Coherent(store, q, entities, log)
    ensures AtCut(store, q, entities, log, 0)
  {
    hide RowsRange, Answers, WholeListing, GroupsAfter, WindowsOf;
    var groups := ChainGroups(store, q, entities);
    assert groups[0..] == groups;
    if entities.Some? {
      AlikeGroups(store, q.attribute, At(store.txCount, log[0]), ScopeIn(entities).value);
    }
  }

  lemma AlikeGroups(store: Store, attribute: string, other: Store, ids: seq<nat>)
    requires Alike(store, attribute, other)
    ensures GroupsOf(other, attribute, ids) == GroupsOf(store, attribute, ids)
  {
    hide WindowsOf;
  }

  /** A page of an entity set starts at the index its continuation names. */
  lemma NextInSet(store: Store, q: Query, entities: seq<nat>, log: seq<Exchange>, i: nat)
    requires i + 1 < |log| && Link(store.txCount, q, Some(entities), log, i) && Link(store.txCount, q, Some(entities), log, i + 1)
    requires AtCut(store, q, Some(entities), log, i) && Alike(store, q.attribute, At(store.txCount, log[i + 1]))
    requires Cut(Some(entities), log, i + 1) <= |ChainGroups(store, q, Some(entities))|
    ensures AtCut(store, q, Some(entities), log, i + 1)
  {
    hide RowsRange, WindowsOf, Alike;
    AlikeGroups(store, q.attribute, At(store.txCount, log[i + 1]), ScopeIn(Some(entities)).value);
  }

  /** A page of a whole attribute walks what lies past the last entity of the page before. */
  lemma NextInAttribute(store: Store, q: Query, log: seq<Exchange>, i: nat)
    requires i + 1 < |log| && Link(store.txCount, q, None, log, i) && Link(store.txCount, q, None, log, i + 1)
    requires Cut(None, log, i + 1) <= |WholeListing(store, q.attribute)| && StartOf(log[i].page.next) == 0
    requires GroupsAfter(At(store.txCount, log[i + 1]), q.attribute, LastOf(log[i].page.next), log[i + 1].plan) ==
             WholeListing(store, q.attribute)[Cut(None, log, i + 1)..]
    ensures AtCut(store, q, None, log, i + 1)
  {
    hide RowsRange, Answers, WholeListing, GroupsAfter;
  }

  lemma {:induction false} StartsAtCut(store: Store, q: Query, entities: Option<seq<nat>>, log: seq<Exchange>, i: nat)
    requires Coherent(store, q, entities, log) && Chain(store.txCount, q, entities, log) && i < |log|
    ensures AtCut(store, q, entities, log, i)
  {
    hide RowsRange, AtCut, Answers, RequestGroups, Steady, Alike, Cut, StartOf, WholeListing, InOrder;
    assert Link(store.txCount, q, entities, log, i);
    if i == 0 {
      FirstAtCut(store, q, entities, log);
    } else {
      StartsAtCut(store, q, entities, log, i - 1);
      assert Link(store.txCount, q, entities, log, i - 1);
      CutBounds(store, q, entities, log, i - 1);
      match entities {
        case Some(es) => NextInSet(store, q, es, log, i - 1);
        case None =>
          ResumesPast(store, q, log, i - 1, At(store.txCount, log[i]), log[i].plan);
          NextIsLast(store, q, log, i - 1);
          NextInAttribute(store, q, log, i - 1);
      }
    }
  }

  /** Each page starts where the preceding one ended, holds whole groups within its limit, and passes a group if it continues. */
  lemma PagesMeet(store: Store, q: Query, entities: Option<seq<nat>>, log: seq<Exchange>, i: nat)
    requires Coherent(store, q, entities, log) && Chain(store.txCount, q, entities, log) && i < |log|
    ensures var groups := ChainGroups(store, q, entities);
            && Cut(entities, log, i) <= Cut(entities, log, i + 1) <= |groups|
            && log[i].page.rows == RowsRange(groups, Cut(entities, log, i), Cut(entities, log, i + 1), q)
            && |log[i].page.rows| <= log[i].request.limit
            && (if log[i].page.next.Some? then Cut(entities, log, i) < Cut(entities, log, i + 1) else Cut(entities, log, i + 1) == |groups|)
  {
    hide AtCut, RowsRange, Coherent, ChainGroups;
    StartsAtCut(store, q, entities, log, i);
    assert Link(store.txCount, q, entities, log, i);
    CutBounds(store, q, entities, log, i);
  }

  lemma {:induction false} CutOfPrefix(entities: Option<seq<nat>>, log: seq<Exchange>, i: nat)
    requires log != [] && i < |log|
    ensures Cut(entities, log[..|log| - 1], i) == Cut(entities, log, i)
  {
    if i > 0 {
      CutOfPrefix(entities, log, i - 1);
    }
  }

  lemma {:induction false} RowsUpTo(store: Store, q: Query, entities: Option<seq<nat>>, log: seq<Exchange>)
    requires Coherent(store, q, entities, log) && Chain(store.txCount, q, entities, log)
    ensures Cut(entities, log, |log|) <= |ChainGroups(store, q, entities)|
    ensures AllRows(log) == RowsRange(ChainGroups(store, q, entities), 0, Cut(entities, log, |log|), q)
  {
    if log != [] {
      hide Chain, ChainGroups, Coherent;
      var n := |log| - 1;
      ChainPrefix(store, q, entities, log);
      RowsUpTo(store, q, entities, log[..n]);
      CutOfPrefix(entities, log, n);
      PagesMeet(store, q, entities, log, n);
      RowsRangeSplit(ChainGroups(store, q, entities), 0, Cut(entities, log, n), Cut(entities, log, n + 1), q);
    }
  }

  /** A chain that ends without error concatenates to the one full diff in scope order. */
  lemma ChainIsFullDiff(store: Store, q: Query, entities: Option<seq<nat>>, log: seq<Exchange>)
    requires Coherent(store, q, entities, log) && Chain(store.txCount, q, entities, log) && Ended(log)
    ensures var groups := ChainGroups(store, q, entities); AllRows(log) == RowsRange(groups, 0, |groups|, q)
  {
    RowsUpTo(store, q, entities, log);
    PagesMeet(store, q, entities, log, |log| - 1);
  }

  /** Page cuts never go back, and every page but the last passes at least one group. */
  lemma {:induction false} CutsGrow(store: Store, q: Query, entities: Option<seq<nat>>, log: seq<Exchange>, i: nat, j: nat)
    requires Coherent(store, q, entities, log) && Chain(store.txCount, q, entities, log) && i <= j < |log|
    ensures Cut(entities, log, i) + (j - i) <= Cut(entities, log, j)
    decreases j
  {
    hide RowsRange, Answers, ChainGroups, ScopeOf, Coherent;
    if i < j {
      CutsGrow(store, q, entities, log, i, j - 1);
      PagesMeet(store, q, entities, log, j - 1);
      assert Link(store.txCount, q, entities, log, j);
    }
  }

  /** Following continuations cannot go on: a chain, ended or not, has at most one page per group and one more. */
  lemma ChainsAreShort(store: Store, q: Query, entities: Option<seq<nat>>, log: seq<Exchange>)
    requires Coherent(store, q, entities, log) && Chain(store.txCount, q, entities, log)
    ensures |log| <= |ChainGroups(store, q, entities)| + 1
  {
    hide RowsRange, Chain, ChainGroups, ScopeOf, Coherent;
    if log != [] {
      CutsGrow(store, q, entities, log, 0, |log| - 1);
      PagesMeet(store, q, entities, log, |log| - 1);
    }
  }

  /** A page's continuation is accepted with the same request and any limit. */
  lemma ContinuationsAreAccepted(store: Store, anyValidTime: bool, request: Request, plan: Plan, end: nat, page: Page, limit: nat)
    requires Accepted(anyValidTime, store.txCount, request) && Answers(store, request, plan, end, page)
    requires page.next.Some? && 1 <= limit <= MAX_ROWS
    ensures Accepted(anyValidTime, store.txCount, request.(resume := page.next, limit := limit))
    ensures StartOf(request.resume) < end
    ensures request.entities.Some? ==> StartOf(page.next) == end
  {
    hide GroupsAfter, WindowsOf;
    ContinuationBelongs(RequestGroups(store, request, plan), ScopeOf(request), store.txCount, request.q, end);
  }

  /** Each group lies whole in exactly one page of an ended chain. */
  lemma {:induction false} GroupInOnePage(store: Store, q: Query, entities: Option<seq<nat>>, log: seq<Exchange>, k: nat)
    returns (i: nat, front: seq<Row>, back: seq<Row>)
    requires Coherent(store, q, entities, log) && Chain(store.txCount, q, entities, log) && Ended(log) && k < |ChainGroups(store, q, entities)|
    ensures i < |log| && Cut(entities, log, i) <= k < Cut(entities, log, i + 1)
    ensures log[i].page.rows == front + GroupRows(ChainGroups(store, q, entities)[k], q) + back
    ensures forall j :: 0 <= j < |log| && Cut(entities, log, j) <= k < Cut(entities, log, j + 1) ==> j == i
  {
    hide Answers, GroupRows, Chain, ChainGroups, Coherent;
    var groups := ChainGroups(store, q, entities);
    PagesMeet(store, q, entities, log, |log| - 1);
    i := FirstPast(entities, log, k);
    PagesMeet(store, q, entities, log, i);
    RowsRangeSplit(groups, Cut(entities, log, i), k + 1, Cut(entities, log, i + 1), q);
    front, back := RowsRange(groups, Cut(entities, log, i), k, q), RowsRange(groups, k + 1, Cut(entities, log, i + 1), q);
    forall j | 0 <= j < |log| && Cut(entities, log, j) <= k < Cut(entities, log, j + 1)
      ensures j == i
    {
      if j > i {
        CutsGrow(store, q, entities, log, i + 1, j);
      }
    }
  }

  lemma {:induction false} FirstPast(entities: Option<seq<nat>>, log: seq<Exchange>, k: nat) returns (i: nat)
    requires log != [] && k < Cut(entities, log, |log|)
    ensures i < |log| && Cut(entities, log, i) <= k < Cut(entities, log, i + 1)
    ensures forall j :: 0 < j <= i ==> Cut(entities, log, j) <= k
  {
    i := 0;
    while Cut(entities, log, i + 1) <= k
      invariant i < |log| && Cut(entities, log, i) <= k
      invariant forall j :: 0 < j <= i ==> Cut(entities, log, j) <= k
      decreases |log| - i
    {
      i := i + 1;
    }
  }

  // ── Against the ledger ─────────────────────────────────────────────────────

  /** When nothing strays at the pinned transaction, uninterrupted walks from any entity on are parts of one listing in entity order. */
  lemma ListingIsOrdered(store: Store, facts: seq<Fact>, attribute: string)
    requires attribute != "" && Indexes(store.index, facts) && StrayFree(AsOf(facts, store.txCount), attribute)
    ensures InOrder(WholeListing(store, attribute))
    ensures forall last: nat :: var whole := WholeListing(store, attribute);
              (if last >= ENTITY_MAX then [] else Listing(store.index, store.txCount, attribute, last + 1)) == whole[StartAfter(whole, last)..]
  {
    hide Listing, Stray;
    var whole := WholeListing(store, attribute);
    ListingInOrder(store.index, facts, store.txCount, attribute, 0);
    forall last: nat
      ensures (if last >= ENTITY_MAX then [] else Listing(store.index, store.txCount, attribute, last + 1)) == whole[StartAfter(whole, last)..]
    {
      if last >= ENTITY_MAX {
        ListingBounded(store.index, facts, store.txCount, attribute);
        StartAfterBeyond(whole, last);
      } else {
        ListingResumes(store.index, facts, store.txCount, attribute, last);
      }
    }
  }

  /** The second log shows the same facts at the pinned transaction: it differs by newer ones only. */
  ghost predicate SameView(n: nat, facts: seq<Fact>, later: seq<Fact>) {
    forall f :: f in AsOf(later, n) <==> f in AsOf(facts, n)
  }

  lemma SameWindows(n: nat, facts: seq<Fact>, later: seq<Fact>, e: nat, attribute: string)
    requires SameView(n, facts, later)
    ensures EntityWindows(later, n, e, attribute) == EntityWindows(facts, n, e, attribute)
  {
    hide Flush, InExactRange, AsOf;
    forall f
      ensures f in ExactEntries(later, n, e, attribute) <==> f in ExactEntries(facts, n, e, attribute)
    {
      InView(n, facts, f);
      InView(n, later, f);
    }
    FlushIgnoresOrder(ExactEntries(later, n, e, attribute), ExactEntries(facts, n, e, attribute));
  }

  lemma InView(n: nat, facts: seq<Fact>, f: Fact)
    ensures f in AsOf(facts, n) <==> f in facts && f.txCount <= n
  {}

  lemma LaterIsAlike(store: Store, facts: seq<Fact>, attribute: string, other: Store, later: seq<Fact>)
    requires Indexes(store.index, facts) && Indexes(other.index, later) && other.txCount == store.txCount && SameView(store.txCount, facts, later)
    ensures Alike(store, attribute, other)
  {
    hide EntityWindows, Indexes, SameView;
    forall e: nat
      ensures WindowsOf(other, attribute, e) == WindowsOf(store, attribute, e)
    {
      EntityWindowsAreTheLogs(store.index, facts, store.txCount, e, attribute);
      EntityWindowsAreTheLogs(other.index, later, store.txCount, e, attribute);
      SameWindows(store.txCount, facts, later, e, attribute);
    }
  }

  /** Uninterrupted walks list the same from both, when nothing strays at the pinned transaction. */
  lemma LaterListing(store: Store, facts: seq<Fact>, attribute: string, other: Store, later: seq<Fact>, from: nat)
    requires attribute != "" && Indexes(store.index, facts) && StrayFree(AsOf(facts, store.txCount), attribute)
    requires Indexes(other.index, later) && other.txCount == store.txCount && SameView(store.txCount, facts, later)
    ensures Listing(other.index, other.txCount, attribute, from) == Listing(store.index, store.txCount, attribute, from)
  {
    hide Listing, EntityWindows, Indexes, InRange;
    var n := store.txCount;
    assert StrayFree(AsOf(later, n), attribute);
    ListingInOrder(store.index, facts, n, attribute, from);
    ListingInOrder(other.index, later, n, attribute, from);
    forall e: nat
      ensures WindowsFor(Listing(other.index, n, attribute, from), e) == WindowsFor(Listing(store.index, n, attribute, from), e)
    {
      ListingWindows(store.index, facts, n, attribute, from, e);
      ListingWindows(other.index, later, n, attribute, from, e);
      SameWindows(n, facts, later, e, attribute);
    }
    OrderedUnique(Listing(other.index, n, attribute, from), Listing(store.index, n, attribute, from));
  }

  /** The plan reads from every start what an uninterrupted walk reads. */
  ghost predicate ReadsWhole(store: Store, attribute: string, plan: Plan) {
    forall from: nat :: WalkListing(Source(store.index, attribute, from, store.txCount), plan) == Listing(store.index, store.txCount, attribute, from)
  }

  lemma WholeWalksAreSteady(store: Store, facts: seq<Fact>, attribute: string, other: Store, later: seq<Fact>, plan: Plan)
    requires attribute != "" && Indexes(store.index, facts) && StrayFree(AsOf(facts, store.txCount), attribute)
    requires Indexes(other.index, later) && other.txCount == store.txCount && SameView(store.txCount, facts, later)
    requires ReadsWhole(other, attribute, plan)
    ensures Steady(store, attribute, other, plan)
  {
    hide Listing, Stray, WalkListing, SameView, Indexes;
    ListingIsOrdered(store, facts, attribute);
    LaterListing(store, facts, attribute, other, later, 0);
    forall last: nat
      ensures var whole := WholeListing(store, attribute); GroupsAfter(other, attribute, Some(last), plan) == whole[StartAfter(whole, last)..]
    {
      LaterListing(store, facts, attribute, other, later, last + 1);
    }
  }

  /** When nothing in the index strays, at any transaction, every split of the steps reads what an uninterrupted walk reads. */
  lemma EveryPlanReadsWhole(store: Store, facts: seq<Fact>, attribute: string, plan: Plan)
    requires Indexes(store.index, facts) && StrayFree(facts, attribute) && plan.size > 0
    ensures ReadsWhole(store, attribute, plan)
  {
    hide Listing, Stray, WalkListing, Pure;
    IndexIsPure(store.index, facts, attribute);
    forall from: nat
      ensures WalkListing(Source(store.index, attribute, from, store.txCount), plan) == Listing(store.index, store.txCount, attribute, from)
    {
      EverySplitReadsTheSame(Source(store.index, attribute, from, store.txCount), attribute, plan);
    }
  }

  /** Steps that never yield: there is budget for every entry and storage does not fault. */
  predicate Uninterrupted(store: Store, plan: Plan) {
    plan.stops == [] && plan.size > |Held(store.index)|
  }

  lemma UninterruptedReadsWhole(store: Store, attribute: string, plan: Plan)
    requires Uninterrupted(store, plan)
    ensures ReadsWhole(store, attribute, plan)
  {
    hide Listing, WalkListing;
    forall from: nat
      ensures WalkListing(Source(store.index, attribute, from, store.txCount), plan) == Listing(store.index, store.txCount, attribute, from)
    {
      OneStepReadsAll(Source(store.index, attribute, from, store.txCount), plan);
    }
  }

  lemma ListingBounded(index: Index, log: seq<Fact>, n: nat, attribute: string)
    requires attribute != "" && Indexes(index, log) && StrayFree(AsOf(log, n), attribute)
    ensures var whole := Listing(index, n, attribute, 0); forall i :: 0 <= i < |whole| ==> whole[i].entity <= ENTITY_MAX
  {
    hide Listing, Flush, InRange, InExactRange;
    var whole := Listing(index, n, attribute, 0);
    ListingInOrder(index, log, n, attribute, 0);
    forall i | 0 <= i < |whole|
      ensures whole[i].entity <= ENTITY_MAX
    {
      var e := whole[i].entity;
      LookupAt(whole, i);
      ListingWindows(index, log, n, attribute, 0, e);
      if ExactEntries(log, n, e, attribute) == [] {
        NothingEmitted();
      } else {
        assert ExactEntries(log, n, e, attribute)[0] in ExactEntries(log, n, e, attribute);
      }
    }
  }

  lemma {:induction false} StartAfterBeyond(groups: seq<EntityGroup>, last: nat)
    requires forall i :: 0 <= i < |groups| ==> groups[i].entity <= last
    ensures StartAfter(groups, last) == |groups|
  {
    if groups != [] {
      StartAfterBeyond(groups[1..], last);
    }
  }

  ghost predicate InScope(entities: Option<seq<nat>>, e: nat) {
    entities.Some? ==> e in entities.value
  }

  ghost predicate ReportsOf(rows: seq<Row>, e: nat, v: Value, change: Change) {
    exists r :: r in rows && r.entity == e && r.value == v && r.change == change
  }

  lemma {:induction false} RowsRangeHas(groups: seq<EntityGroup>, lo: nat, hi: nat, q: Query, r: Row)
    requires lo <= hi <= |groups|
    ensures r in RowsRange(groups, lo, hi, q) <==> exists k :: lo <= k < hi && r in GroupRows(groups[k], q)
    decreases hi
  {
    hide GroupRows;
    if lo < hi {
      RowsRangeHas(groups, lo, hi - 1, q, r);
      assert r in RowsRange(groups, lo, hi, q) <==> r in RowsRange(groups, lo, hi - 1, q) || r in GroupRows(groups[hi - 1], q);
    }
  }

  /** The rows of one group speak of its entity only. */
  lemma GroupReports(g: EntityGroup, q: Query, e: nat, v: Value, change: Change)
    ensures ReportsOf(GroupRows(g, q), e, v, change) <==> g.entity == e && Reports(GroupRows(g, q), v, change)
  {
    hide RowsOf, TrueRow;
    forall r
      ensures r in GroupRows(g, q) ==> r.entity == g.entity
    {
      RowsAreTheDifference(g.windows, g.entity, q.attribute, q.ax, r);
    }
  }

  lemma RangeReports(groups: seq<EntityGroup>, lo: nat, hi: nat, q: Query, e: nat, v: Value, change: Change)
    requires lo <= hi <= |groups|
    ensures ReportsOf(RowsRange(groups, lo, hi, q), e, v, change) <==>
            exists k :: lo <= k < hi && groups[k].entity == e && Reports(GroupRows(groups[k], q), v, change)
  {
    hide RowsRange, GroupRows;
    var rows := RowsRange(groups, lo, hi, q);
    if ReportsOf(rows, e, v, change) {
      var r :| r in rows && r.entity == e && r.value == v && r.change == change;
      RowsRangeHas(groups, lo, hi, q, r);
      var k :| lo <= k < hi && r in GroupRows(groups[k], q);
      assert ReportsOf(GroupRows(groups[k], q), e, v, change);
      GroupReports(groups[k], q, e, v, change);
    }
    forall k | lo <= k < hi && groups[k].entity == e && Reports(GroupRows(groups[k], q), v, change)
      ensures ReportsOf(rows, e, v, change)
    {
      GroupReports(groups[k], q, e, v, change);
      var r :| r in GroupRows(groups[k], q) && r.entity == e && r.value == v && r.change == change;
      RowsRangeHas(groups, lo, hi, q, r);
    }
  }

  /** What the ledger says changed for one value between the two instants. */
  ghost predicate Changed(log: seq<Fact>, t: Triple, ax: Axis, change: Change) {
    match change
    case Disappeared => Visible(log, t, ax.before) && !Visible(log, t, ax.after)
    case Appeared => Visible(log, t, ax.after) && !Visible(log, t, ax.before)
  }

  lemma GroupMatchesLedger(g: EntityGroup, facts: seq<Fact>, q: Query, v: Value, change: Change)
    requires Lists(facts, g.entity, q.attribute, g.windows)
    ensures Reports(GroupRows(g, q), v, change) <==> Changed(facts, Triple(g.entity, q.attribute, v), q.ax, change)
  {
    hide Lists, Reports, Visible, RowsOf;
    DiffIsLedgerDifference(facts, g.entity, q.attribute, g.windows, q.ax, v);
  }

  /** An entity without a window in force did not change. */
  lemma NothingChanged(facts: seq<Fact>, q: Query, e: nat, v: Value, change: Change)
    requires Lists(facts, e, q.attribute, [])
    ensures !Changed(facts, Triple(e, q.attribute, v), q.ax, change)
  {
    hide Lists, Visible;
    ListedVisibility(facts, e, q.attribute, [], v, q.ax.before);
    ListedVisibility(facts, e, q.attribute, [], v, q.ax.after);
  }

  /** Each group lists its entity's windows, and an entity of the scope without a group has none. */
  ghost predicate Lawful(groups: seq<EntityGroup>, entities: Option<seq<nat>>, facts: seq<Fact>, attribute: string) {
    && (forall k :: 0 <= k < |groups| ==> InScope(entities, groups[k].entity) && Lists(facts, groups[k].entity, attribute, groups[k].windows))
    && (forall e: nat :: InScope(entities, e) && !HasGroup(groups, e) ==> Lists(facts, e, attribute, []))
  }

  ghost predicate HasGroup(groups: seq<EntityGroup>, e: nat) {
    exists k :: 0 <= k < |groups| && groups[k].entity == e
  }

  lemma EntityGroupsAreLawful(store: Store, facts: seq<Fact>, q: Query, entities: seq<nat>)
    requires Indexes(store.index, facts)
    ensures Lawful(ChainGroups(store, q, Some(entities)), Some(entities), AsOf(facts, store.txCount), q.attribute)
  {
    hide Lists, EntityWindows;
    var n, groups := store.txCount, ChainGroups(store, q, Some(entities));
    var ids := Unique(entities);
    forall k | 0 <= k < |groups|
      ensures groups[k].entity in entities && Lists(AsOf(facts, n), groups[k].entity, q.attribute, groups[k].windows)
    {
      assert groups[k] == EntityGroup(ids[k], WindowsOf(store, q.attribute, ids[k]));
      assert ids[k] in ids;
      EntityWindowsAreTheLogs(store.index, facts, n, ids[k], q.attribute);
      EntityCursorIsExact(facts, n, ids[k], q.attribute);
    }
    forall e: nat | e in entities
      ensures HasGroup(groups, e)
    {
      assert e in ids;
      var k :| 0 <= k < |ids| && ids[k] == e;
      assert groups[k].entity == e;
    }
  }

  lemma ListingIsLawful(store: Store, facts: seq<Fact>, q: Query)
    requires q.attribute != "" && Indexes(store.index, facts) && StrayFree(AsOf(facts, store.txCount), q.attribute)
    ensures Lawful(ChainGroups(store, q, None), None, AsOf(facts, store.txCount), q.attribute)
  {
    hide Lists, Listing, Stray;
    var n, groups := store.txCount, WholeListing(store, q.attribute);
    StrayFreeIsServed(store.index, facts, n, q.attribute, 0);
    forall k | 0 <= k < |groups|
      ensures Lists(AsOf(facts, n), groups[k].entity, q.attribute, groups[k].windows)
    {
      LookupAt(groups, k);
      assert WindowsIn(groups, groups[k].entity) == groups[k].windows;
    }
    forall e: nat | !HasGroup(groups, e)
      ensures Lists(AsOf(facts, n), e, q.attribute, [])
    {
      LookupMissing(groups, e);
      assert WindowsIn(groups, e) == [];
    }
  }

  lemma LawfulRows(groups: seq<EntityGroup>, entities: Option<seq<nat>>, facts: seq<Fact>, q: Query, e: nat, v: Value, change: Change)
    requires Lawful(groups, entities, facts, q.attribute)
    ensures ReportsOf(RowsRange(groups, 0, |groups|, q), e, v, change) <==>
            InScope(entities, e) && Changed(facts, Triple(e, q.attribute, v), q.ax, change)
  {
    hide RowsRange, GroupRows, Changed, Reports, ReportsOf, Lists;
    RangeReports(groups, 0, |groups|, q, e, v, change);
    forall k | 0 <= k < |groups| && groups[k].entity == e
      ensures Reports(GroupRows(groups[k], q), v, change) <==> Changed(facts, Triple(e, q.attribute, v), q.ax, change)
    {
      GroupMatchesLedger(groups[k], facts, q, v, change);
    }
    if InScope(entities, e) && !HasGroup(groups, e) {
      NothingChanged(facts, q, e, v, change);
    }
  }

  /** What the chain reports is what changed in the ledger as of the pinned transaction, for the entities in scope. */
  ghost predicate ReportsTheDifference(n: nat, facts: seq<Fact>, q: Query, entities: Option<seq<nat>>, log: seq<Exchange>) {
    forall e: nat, v: Value, change: Change ::
      ReportsOf(AllRows(log), e, v, change) <==> InScope(entities, e) && Changed(AsOf(facts, n), Triple(e, q.attribute, v), q.ax, change)
  }

  /** Page `i` was answered from an index of `logs[i]`, which shows at the pinned transaction what the first log shows. */
  ghost predicate Written(n: nat, facts: seq<Fact>, log: seq<Exchange>, logs: seq<seq<Fact>>) {
    && |logs| == |log|
    && forall i :: 0 <= i < |log| ==> Indexes(log[i].index, logs[i]) && SameView(n, facts, logs[i])
  }

  lemma CoherentChainReports(store: Store, facts: seq<Fact>, q: Query, entities: Option<seq<nat>>, log: seq<Exchange>)
    requires q.attribute != "" && Indexes(store.index, facts) && Chain(store.txCount, q, entities, log) && Ended(log)
    requires Coherent(store, q, entities, log) && (entities.None? ==> StrayFree(AsOf(facts, store.txCount), q.attribute))
    ensures ReportsTheDifference(store.txCount, facts, q, entities, log)
  {
    hide RowsRange, Chain, Changed, ReportsOf, AllRows, ChainGroups, Lawful, Coherent, Indexes, Stray;
    if entities.Some? {
      EntityGroupsAreLawful(store, facts, q, entities.value);
    } else {
      ListingIsLawful(store, facts, q);
    }
    ChainIsFullDiff(store, q, entities, log);
    forall e: nat, v: Value, change: Change
      ensures ReportsOf(AllRows(log), e, v, change) <==>
              InScope(entities, e) && Changed(AsOf(facts, store.txCount), Triple(e, q.attribute, v), q.ax, change)
    {
      LawfulRows(ChainGroups(store, q, entities), entities, AsOf(facts, store.txCount), q, e, v, change);
    }
  }

  /** A page of a whole-attribute chain reads exactly: nothing it reads strays at all, or it never yields and nothing strays in the view. */
  ghost predicate ReadsExactly(n: nat, attribute: string, x: Exchange, facts: seq<Fact>) {
    StrayFree(facts, attribute) || (StrayFree(AsOf(facts, n), attribute) && Uninterrupted(At(n, x), x.plan))
  }

  lemma ExactPageIsSteady(store: Store, facts: seq<Fact>, attribute: string, x: Exchange, later: seq<Fact>)
    requires attribute != "" && Indexes(store.index, facts) && StrayFree(AsOf(facts, store.txCount), attribute) && x.plan.size > 0
    requires Indexes(x.index, later) && SameView(store.txCount, facts, later) && ReadsExactly(store.txCount, attribute, x, later)
    ensures Steady(store, attribute, At(store.txCount, x), x.plan)
  {
    hide Steady, Indexes, SameView, Stray, Uninterrupted, ReadsWhole;
    if StrayFree(later, attribute) {
      EveryPlanReadsWhole(At(store.txCount, x), later, attribute, x.plan);
    } else {
      UninterruptedReadsWhole(At(store.txCount, x), attribute, x.plan);
    }
    WholeWalksAreSteady(store, facts, attribute, At(store.txCount, x), later, x.plan);
  }

  /**
   The pages of an ended chain together report exactly what changed in the ledger as of the pinned
   transaction, whatever the limits, however the storage steps split, and whatever is written between the
   pages: always for named entities, and for a whole attribute when every page reads exactly.
   */
  lemma ChainIsLedgerDifference(n: nat, facts: seq<Fact>, q: Query, entities: Option<seq<nat>>, log: seq<Exchange>, logs: seq<seq<Fact>>)
    requires q.attribute != "" && Chain(n, q, entities, log) && Ended(log) && Written(n, facts, log, logs)
    requires entities.Some? || forall i :: 0 <= i < |log| ==> ReadsExactly(n, q.attribute, log[i], logs[i])
    ensures ReportsTheDifference(n, facts, q, entities, log)
  {
    hide Steady, Alike, Indexes, Answers, ReportsTheDifference, Stray, SameView, Uninterrupted, WholeListing, InOrder;
    var store, first := At(n, log[0]), logs[0];
    if entities.None? {
      ViewStrayFree(n, q.attribute, log[0], first);
      ListingIsOrdered(store, first, q.attribute);
    }
    forall i | 0 <= i < |log|
      ensures if entities.Some? then Alike(store, q.attribute, At(n, log[i])) else Steady(store, q.attribute, At(n, log[i]), log[i].plan)
    {
      assert Link(n, q, entities, log, i);
      BothViews(n, facts, first, logs[i]);
      if entities.Some? {
        LaterIsAlike(store, first, q.attribute, At(n, log[i]), logs[i]);
      } else {
        ExactPageIsSteady(store, first, q.attribute, log[i], logs[i]);
      }
    }
    CoherentChainReports(store, first, q, entities, log);
    SameDifference(n, first, facts, q, entities, log);
  }

  lemma ViewStrayFree(n: nat, attribute: string, x: Exchange, facts: seq<Fact>)
    requires ReadsExactly(n, attribute, x, facts)
    ensures StrayFree(AsOf(facts, n), attribute)
  {
    hide Stray, Uninterrupted;
  }

  lemma BothViews(n: nat, facts: seq<Fact>, a: seq<Fact>, b: seq<Fact>)
    requires SameView(n, facts, a) && SameView(n, facts, b)
    ensures SameView(n, a, b) && SameView(n, a, facts)
  {
    hide AsOf;
  }

  /** What changed as of the pinned transaction depends on what the log shows there. */
  lemma SameDifference(n: nat, a: seq<Fact>, b: seq<Fact>, q: Query, entities: Option<seq<nat>>, log: seq<Exchange>)
    requires SameView(n, b, a) && ReportsTheDifference(n, a, q, entities, log)
    ensures ReportsTheDifference(n, b, q, entities, log)
  {
    hide AsOf, ReportsOf, Visible;
    forall e: nat, v: Value, change: Change
      ensures Changed(AsOf(a, n), Triple(e, q.attribute, v), q.ax, change) <==> Changed(AsOf(b, n), Triple(e, q.attribute, v), q.ax, change)
    {
      SameVisible(AsOf(a, n), AsOf(b, n), Triple(e, q.attribute, v), q.ax.before);
      SameVisible(AsOf(a, n), AsOf(b, n), Triple(e, q.attribute, v), q.ax.after);
    }
  }

  lemma SameVisible(a: seq<Fact>, b: seq<Fact>, t: Triple, at: int)
    requires forall f :: f in a <==> f in b
    ensures Visible(a, t, at) <==> Visible(b, t, at)
  {
    hide Net;
    forall w
      ensures Net(a, w) <==> Net(b, w)
    {
      NetIgnoresOrder(a, b, w);
    }
  }
}
