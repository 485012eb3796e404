/**
 The resumable state machine behind `valid_time_diff`, its driver, and what a chain of pages
 adds up to.
 */
module DiffPages {
  import opened Bytes
  import opened Ledger
  import opened Diff
  import opened Sequences
  import opened DiffScan
  import opened Groups
  import opened Cursors
  import opened Walks

  /** A started attribute cursor: what it was created for, and where it stands. */
  datatype Running = Running(src: Source, at: Cursor)

  datatype ScanState =
    | ByEntity(entities: seq<nat>, startIndex: nat, index: nat, windows: Option<seq<Interval>>, group: seq<ValueState>)
    | ByAttribute(cursor: Option<Running>, resumeAfter: Option<nat>, current: Option<OpenGroup>, completed: seq<OpenGroup>,
                  emittedLast: Option<nat>)
    | Finished

  /** What one call of `step` reports; `Faulted` is a storage error after which the call may be repeated. */
  datatype StepResult = Yield | Done | Faulted | Rejected

  /** Everything that stays fixed while one page is built; the plan says how the attribute cursor's steps will end. */
  datatype Frame = Frame(store: Store, scope: Option<seq<nat>>, last: Option<nat>, plan: Plan, q: Query, limit: nat, start: nat)

  ghost function GroupsIn(f: Frame): seq<EntityGroup> {
    ScopeGroups(f.store, f.q.attribute, f.scope, f.last, f.plan)
  }

  ghost predicate Sound(f: Frame) {
    f.start <= |GroupsIn(f)| && (f.scope.None? ==> f.start == 0) && f.plan.size == STEP_ENTRIES
  }

  function SourceIn(f: Frame): Source {
    SourceAfter(f.store, f.q.attribute, f.last)
  }

  /** After `calls` steps of its cursor, an attribute scan stands where the walk stands, and knows what the steps delivered. */
  ghost predicate Streaming(f: Frame, emitted: nat, noted: nat, cursor: Running, calls: nat, current: Option<OpenGroup>,
                            completed: seq<OpenGroup>) {
    && (f.last.Some? ==> f.last.value < ENTITY_MAX)
    && cursor == Running(SourceIn(f), CursorAt(SourceIn(f), f.plan, calls)) && !cursor.at.done
    && Finishes(GroupsIn(f), emitted, completed, f.q.ax)
    && Ahead(GroupsIn(f), emitted + |completed|, current, noted, Undelivered(f, calls), f.q.ax)
  }

  /** What the cursor has yet to deliver. */
  ghost function Undelivered(f: Frame, calls: nat): seq<Emission> {
    var stream, n := Stream(GroupsIn(f)), |DeliveredAt(SourceIn(f), f.plan, calls)|;
    if n <= |stream| then stream[n..] else []
  }

  /** The rows so far are those of the groups from the start up to `emitted`. */
  ghost predicate Emitted(f: Frame, emitted: nat, rows: seq<Row>) {
    && f.start <= emitted <= |GroupsIn(f)|
    && rows == RowsRange(GroupsIn(f), f.start, emitted, f.q)
    && |rows| <= f.limit
  }

  /** The group the entity-set scan works on has seen its first `noted` windows. */
  ghost predicate InGroup(f: Frame, at: nat, noted: nat, windows: seq<Interval>, group: seq<ValueState>) {
    && at < |GroupsIn(f)|
    && noted <= |GroupsIn(f)[at].windows|
    && windows == GroupsIn(f)[at].windows[noted..]
    && group == GroupOf(GroupsIn(f)[at].windows[..noted], f.q.ax)
  }

  ghost predicate Positioned(f: Frame, emitted: nat, noted: nat, calls: nat, rows: seq<Row>, next: Option<DiffCursor>, state: ScanState)
    requires Emitted(f, emitted, rows)
  {
    match state
    case ByEntity(entities, startIndex, index, windows, group) =>
      && f.scope == Some(entities) && startIndex == f.start && index == emitted
      && (windows.Some? ==> InGroup(f, index, noted, windows.value, group))
    case ByAttribute(cursor, resumeAfter, current, completed, emittedLast) =>
      && f.scope == None
      && emittedLast == LastEmitted(GroupsIn(f), f.start, emitted)
      && (cursor.None? ==> emitted == f.start && calls == 0 && current == None && completed == [] && resumeAfter == f.last)
      && (cursor.Some? ==> Streaming(f, emitted, noted, cursor.value, calls, current, completed))
    case Finished => PageOf(GroupsIn(f), f.scope, f.store.txCount, f.q, f.limit, f.start, emitted, rows, next)
  }

  lemma ScopeIsApart(f: Frame)
    requires Sound(f) && f.scope == None
    ensures Apart(GroupsIn(f))
  {
    GroupsAfterAreApart(f.store, f.q.attribute, f.last, f.plan);
  }

  /** Past the largest id there is nothing to list, so an empty page ends the scope. */
  lemma NothingLeft(f: Frame, rows: seq<Row>)
    requires Sound(f) && f.scope == None && f.last.Some? && f.last.value >= ENTITY_MAX && Emitted(f, f.start, rows)
    ensures PageOf(GroupsIn(f), f.scope, f.store.txCount, f.q, f.limit, f.start, f.start, rows, None)
  {
    hide RowsRange;
  }

  /** A new cursor has everything still to deliver. */
  lemma FreshStream(f: Frame)
    requires Sound(f) && f.scope == None && (f.last.Some? ==> f.last.value < ENTITY_MAX)
    ensures Streaming(f, 0, 0, Running(SourceIn(f), NewCursor(SourceIn(f))), 0, None, [])
  {
    hide Stream, GroupsAfter;
    assert GroupsIn(f)[0..] == GroupsIn(f) && Stream(GroupsIn(f))[0..] == Stream(GroupsIn(f));
  }

  /** One step delivers the next of what was undelivered; the step that completes the walk, all of it. */
  lemma StepReveals(f: Frame, cursor: Cursor, calls: nat)
    requires Sound(f) && f.scope == None && (f.last.Some? ==> f.last.value < ENTITY_MAX)
    requires cursor == CursorAt(SourceIn(f), f.plan, calls)
    ensures var emitted := Emits(SourceIn(f), cursor, StopAt(f.plan, calls));
            && emitted <= Undelivered(f, calls) && Undelivered(f, calls + 1) == Undelivered(f, calls)[|emitted|..]
            && (CursorAt(SourceIn(f), f.plan, calls + 1).done ==> Undelivered(f, calls + 1) == [])
  {
    hide Stream, WalkListing, DeliveredAt, CursorAt, Emits;
    var stream, emitted := Stream(GroupsIn(f)), Emits(SourceIn(f), cursor, StopAt(f.plan, calls));
    StepDelivers(SourceIn(f), f.plan, calls);
    var n := |DeliveredAt(SourceIn(f), f.plan, calls)|;
    assert |DeliveredAt(SourceIn(f), f.plan, calls + 1)| == n + |emitted|;
    RestOfRest(stream, n, |emitted|);
  }

  /** `note_window` over the next windows of one entity. */
  method NoteAll(ghost f: Frame, ax: Axis, ghost at: nat, ghost seen: nat, windows: seq<Interval>, group: seq<ValueState>, take: nat)
    returns (remaining: seq<Interval>, states: seq<ValueState>)
    requires f.q.ax == ax && InGroup(f, at, seen, windows, group) && take <= |windows|
    ensures InGroup(f, at, seen + take, remaining, states)
  {
    hide NoteWindow;
    remaining, states := windows, group;
    for i := 0 to take
      invariant InGroup(f, at, seen + i, remaining, states)
    {
      NoteOne(GroupsIn(f)[at].windows, seen + i, f.q.ax);
      states := NoteWindow(states, remaining[0], ax);
      remaining := remaining[1..];
    }
  }

  lemma FreshGroup(f: Frame, at: nat)
    requires at < |GroupsIn(f)|
    ensures InGroup(f, at, 0, GroupsIn(f)[at].windows, [])
  {
    assert GroupsIn(f)[at].windows[..0] == [];
  }

  lemma GroupDone(f: Frame, at: nat, noted: nat, group: seq<ValueState>)
    requires InGroup(f, at, noted, [], group)
    ensures IntoRows(group, GroupsIn(f)[at].entity, f.q.attribute) == GroupRows(GroupsIn(f)[at], f.q)
  {
    var ws := GroupsIn(f)[at].windows;
    assert ws[..noted] == ws;
  }

  lemma EmptyRange(groups: seq<EntityGroup>, at: nat, q: Query)
    requires at <= |groups|
    ensures RowsRange(groups, at, at, q) == []
  {}

  lemma NoneFinished(groups: seq<EntityGroup>, lo: nat, ax: Axis)
    requires lo <= |groups|
    ensures Finishes(groups, lo, [], ax)
  {}

  class ValidTimeDiffScan {
    const store: Store
    const q: Query
    const limit: nat
    var rows: seq<Row>
    var sourceEntries: nat
    var next: Option<DiffCursor>
    var state: ScanState
    ghost const f: Frame
    ghost var emitted: nat
    ghost var noted: nat
    ghost var calls: nat

    ghost predicate Valid()
      reads this
    {
      && Sound(f) && f.store == store && f.q == q && f.limit == limit
      && Emitted(f, emitted, rows)
      && Positioned(f, emitted, noted, calls, rows, next, state)
      && (state.ByAttribute? ==> sourceEntries % STEP_ENTRIES == 0)
    }

    /** `begin`, for a request that validation accepted with this scope. */
    constructor (store: Store, request: Request, scope: Option<seq<nat>>, ghost plan: Plan)
      requires request.resume.Some? ==> Belongs(request.resume.value, store.txCount, request.q, scope)
      requires plan.size == STEP_ENTRIES
      ensures Valid()
      ensures f == Frame(store, scope, LastOf(request.resume), plan, request.q, request.limit, StartOf(request.resume))
      ensures emitted == f.start && sourceEntries == 0 && calls == 0 && !state.Finished?
    {
      hide GroupsAfter, Streaming, EntityWindows;
      this.store, q, limit := store, request.q, request.limit;
      rows, sourceEntries, next := [], 0, None;
      var resume := request.resume;
      if scope.Some? {
        var startIndex := StartOf(resume);
        state := ByEntity(scope.value, startIndex, startIndex, None, []);
      } else {
        state := ByAttribute(None, LastOf(resume), None, [], None);
      }
      f := Frame(store, scope, LastOf(request.resume), plan, request.q, request.limit, StartOf(request.resume));
      emitted, noted, calls := StartOf(request.resume), 0, 0;
    }

    function Continuation(scope: CursorScope): DiffCursor
      reads this
    {
      DiffCursor(q.attribute, store.txCount, q.ax.before, q.ax.after, scope)
    }

    /** Close the page with this continuation. */
    method Close(continuation: Option<DiffCursor>)
      requires Valid()
      requires PageOf(GroupsIn(f), f.scope, store.txCount, q, limit, f.start, emitted, rows, continuation)
      modifies this`next, this`state
      ensures Valid() && state.Finished? && next == continuation
    {
      next, state := continuation, Finished;
    }

    /** Source entries and entities left before the page must close. */
    ghost function Work(): nat
      requires Valid()
      reads this
    {
      (if sourceEntries < MAX_SOURCE_ENTRIES then MAX_SOURCE_ENTRIES - sourceEntries else 0) +
      if state.ByEntity? then |state.entities| - state.index else 0
    }

    /** The first group of the page cannot be delivered whole: the budget is spent or its rows exceed the limit. */
    ghost predicate FirstGroupTooLarge()
      requires Sound(f)
      reads this
    {
      && f.start < |GroupsIn(f)|
      && (sourceEntries >= MAX_SOURCE_ENTRIES || |GroupRows(GroupsIn(f)[f.start], q)| > limit)
    }

    method StepEntitySet(d: Delivery) returns (r: StepResult)
      requires Valid() && state.ByEntity?
      modifies this
      ensures !r.Rejected? ==> Valid() && (r.Done? <==> state.Finished?)
      ensures r.Yield? ==> Work() < old(Work())
      ensures r.Faulted? ==> d.outcome.Fault? && Work() == old(Work())
      ensures sourceEntries <= old(sourceEntries) + Cost(d)
      ensures r.Rejected? ==> FirstGroupTooLarge()
    {
      hide RowsRange, GroupOf, GroupRows, GroupsAfter, Streaming, EntityWindows;
      var ByEntity(entities, startIndex, index, windows, group) := state;
      if index >= |entities| {
        Close(None);
        return Done;
      }
      if windows.None? {
        FreshGroup(f, index);
        windows, group, noted := Some(WindowsOf(store, q.attribute, entities[index])), [], 0;
        state := ByEntity(entities, startIndex, index, windows, group);
      }
      assert InGroup(f, index, noted, windows.value, group);
      if sourceEntries >= MAX_SOURCE_ENTRIES {
        if index == startIndex {
          return Rejected;
        }
        Close(Some(Continuation(EntitySet(entities, index))));
        return Done;
      }
      var take := Taken(d, |windows.value|);
      var remaining, states := NoteAll(f, q.ax, index, noted, windows.value, group, take);
      noted := noted + take;
      state := ByEntity(entities, startIndex, index, Some(remaining), states);
      if d.outcome.Fault? {
        return Faulted;
      }
      sourceEntries := sourceEntries + Charged(d, Min(STEP_ENTRIES, MAX_SOURCE_ENTRIES - sourceEntries));
      if d.outcome.Yielded? {
        return Yield;
      }
      r := FinishGroup(entities, startIndex, index, states);
    }

    /** A completed entity: emit its rows if they fit, or close the page before it. */
    method FinishGroup(entities: seq<nat>, startIndex: nat, index: nat, group: seq<ValueState>) returns (r: StepResult)
      requires Valid() && state.ByEntity? && state == ByEntity(entities, startIndex, index, Some([]), group)
      modifies this`rows, this`next, this`state, this`emitted
      ensures !r.Rejected? ==> Valid() && (r.Done? <==> state.Finished?)
      ensures r.Yield? ==> Work() < old(Work())
      ensures !r.Faulted?
      ensures r.Rejected? ==> FirstGroupTooLarge()
    {
      hide GroupOf, GroupRows, GroupsAfter, Streaming, EntityWindows;
      GroupDone(f, index, noted, group);
      state := ByEntity(entities, startIndex, index, None, []);
      var groupRows := IntoRows(group, entities[index], q.attribute);
      if |rows| + |groupRows| > limit {
        if index == startIndex {
          return Rejected;
        }
        Close(Some(Continuation(EntitySet(entities, index))));
        return Done;
      }
      rows, emitted := rows + groupRows, emitted + 1;
      state := ByEntity(entities, startIndex, index + 1, None, []);
      if index + 1 >= |entities| {
        Close(None);
        return Done;
      }
      return Yield;
    }

    /** Create the attribute cursor; there is none past the largest entity id. */
    method StartStream() returns (exhausted: bool)
      requires Valid() && state.ByAttribute? && state.cursor == None
      modifies this`next, this`state, this`noted
      ensures Valid() && (exhausted <==> state.Finished?)
      ensures !exhausted ==> state.ByAttribute? && state.cursor.Some?
    {
      hide RowsRange, Streaming, GroupsAfter, PageOf;
      var resumeAfter := state.resumeAfter;
      if resumeAfter.Some? && resumeAfter.value >= ENTITY_MAX {
        NothingLeft(f, rows);
        Close(None);
        return true;
      }
      FreshStream(f);
      noted := 0;
      var src := SourceAfter(store, q.attribute, resumeAfter);
      state := ByAttribute(Some(Running(src, NewCursor(src))), None, None, [], state.emittedLast);
      return false;
    }

    /** The step reads what it should unless storage faults, and charges what it read. */
    ghost predicate Charges(d: Delivery, before: nat, callsBefore: nat)
      reads this
    {
      var cur := CursorAt(SourceIn(f), f.plan, callsBefore);
      sourceEntries <= before + if d.outcome.Fault? then 0 else |Reads(SourceIn(f), cur, StopAt(f.plan, callsBefore))|
    }

    method StepAttribute(d: Delivery) returns (r: StepResult)
      requires Valid() && state.ByAttribute? && StopOf(d) == StopAt(f.plan, calls)
      modifies this
      ensures !r.Rejected? ==> Valid() && (r.Done? <==> state.Finished?)
      ensures r.Yield? || r.Faulted? ==> state.ByAttribute? && calls == old(calls) + 1
      ensures r.Yield? ==> Work() < old(Work())
      ensures r.Faulted? ==> d.outcome.Fault? && Work() == old(Work())
      ensures Charges(d, old(sourceEntries), old(calls))
      ensures r.Rejected? ==> sourceEntries >= MAX_SOURCE_ENTRIES || FirstGroupTooLarge()
    {
      hide RowsRange, Ahead, Finishes, GroupRows, Apart, Streaming, Walks.CursorAt, Reads;
      if state.cursor.None? {
        var exhausted := StartStream();
        if exhausted {
          return Done;
        }
      }
      r := Advance(d);
    }

    /** One storage step of a running attribute cursor. */
    method Advance(d: Delivery) returns (r: StepResult)
      requires Valid() && state.ByAttribute? && state.cursor.Some? && StopOf(d) == StopAt(f.plan, calls)
      modifies this
      ensures !r.Rejected? ==> Valid() && (r.Done? <==> state.Finished?)
      ensures r.Yield? || r.Faulted? ==> state.ByAttribute? && calls == old(calls) + 1
      ensures r.Yield? ==> Work() < old(Work())
      ensures r.Faulted? ==> d.outcome.Fault? && Work() == old(Work())
      ensures Charges(d, old(sourceEntries), old(calls))
      ensures r.Rejected? ==> sourceEntries >= MAX_SOURCE_ENTRIES || FirstGroupTooLarge()
    {
      hide RowsRange, Ahead, Finishes, GroupRows, Apart, CursorAt, Reads, Emits, NextCursor, GroupsIn, Undelivered, SourceIn, StopAt;
      ScopeIsApart(f);
      if sourceEntries >= MAX_SOURCE_ENTRIES {
        if state.emittedLast.None? {
          return Rejected;
        }
        Close(Some(Continuation(WholeAttribute(state.emittedLast.value))));
        return Done;
      }
      var cursor := state.cursor.value;
      StepReveals(f, cursor.at, calls);
      AdvancesWalk(cursor.src, f.plan, calls);
      var next, delivered, entries := StepCursor(cursor.src, cursor.at, StopOf(d));
      var completed, current;
      completed, current, noted := Receive(GroupsIn(f), emitted, state.completed, state.current, noted, Undelivered(f, calls), delivered, q.ax);
      calls := calls + 1;
      if d.outcome.Fault? {
        FaultGoesOn(cursor.src, cursor.at, StopOf(d));
        state := ByAttribute(Some(Running(cursor.src, next)), None, current, completed, state.emittedLast);
        return Faulted;
      }
      StepCharges(cursor.src, f.plan, calls - 1, sourceEntries);
      sourceEntries := sourceEntries + entries;
      r := Flush(Running(cursor.src, next), current, completed, state.emittedLast);
    }

    /** Emit the groups finished by this step, and the open one when the walk is complete. */
    method Flush(cursor: Running, open: Option<OpenGroup>, finished: seq<OpenGroup>, emittedLast: Option<nat>) returns (r: StepResult)
      requires Sound(f) && f.store == store && f.q == q && f.limit == limit && f.scope == None && Emitted(f, emitted, rows)
      requires f.last.Some? ==> f.last.value < ENTITY_MAX
      requires cursor == Running(SourceIn(f), CursorAt(SourceIn(f), f.plan, calls)) && emittedLast == LastEmitted(GroupsIn(f), f.start, emitted)
      requires Finishes(GroupsIn(f), emitted, finished, f.q.ax)
      requires Ahead(GroupsIn(f), emitted + |finished|, open, noted, Undelivered(f, calls), f.q.ax)
      requires if cursor.at.done then Undelivered(f, calls) == [] else sourceEntries % STEP_ENTRIES == 0
      modifies this`rows, this`next, this`state, this`emitted
      ensures !r.Rejected? ==> Valid() && (r.Done? <==> state.Finished?)
      ensures r.Done? || r.Yield? || r.Rejected?
      ensures r.Yield? ==> state.ByAttribute? && !cursor.at.done
      ensures r.Rejected? ==> FirstGroupTooLarge()
    {
      hide RowsRange, GroupRows, Ahead, Finishes, Apart, CursorAt, GroupsAfter, Undelivered;
      ScopeIsApart(f);
      var current, completed := open, finished;
      if cursor.at.done {
        StreamDone(GroupsIn(f), emitted, completed, current, noted, q.ax);
        if current.Some? {
          completed, current := completed + [current.value], None;
        }
      }
      assert Finishes(GroupsIn(f), emitted, completed, q.ax);
      var drained, last, full;
      drained, last, full, emitted := Drain(GroupsIn(f), f.start, emitted, completed, rows, limit, emittedLast, q);
      rows := drained;
      if full {
        if last.None? {
          EmptyRange(GroupsIn(f), f.start, q);
          return Rejected;
        }
        next, state := Some(Continuation(WholeAttribute(last.value))), Finished;
        return Done;
      }
      if cursor.at.done {
        next, state := None, Finished;
        return Done;
      }
      NoneFinished(GroupsIn(f), emitted, q.ax);
      state := ByAttribute(Some(cursor), None, current, [], last);
      return Yield;
    }
  }

  lemma FaultGoesOn(src: Source, cur: Cursor, stop: Stop)
    requires Within(src, cur) && !cur.done && stop.Failure?
    ensures !NextCursor(src, cur, stop).done
  {
    hide Settles, PortionOf, Reduces, NextStart, LastRead;
  }

  lemma AdvancesWalk(src: Source, plan: Plan, k: nat)
    ensures CursorAt(src, plan, k + 1) == NextCursor(src, CursorAt(src, plan, k), StopAt(plan, k))
  {
    hide NextCursor;
  }

  lemma WholeSteps(n: nat)
    requires n % STEP_ENTRIES == 0
    ensures (n + STEP_ENTRIES) % STEP_ENTRIES == 0
  {}

  /** A step that does not complete the walk charges a whole budget, so the budget left stays whole. */
  lemma StepCharges(src: Source, plan: Plan, k: nat, charged: nat)
    requires StopAt(plan, k) == Budget(STEP_ENTRIES) && charged % STEP_ENTRIES == 0 && !CursorAt(src, plan, k).done
    ensures !CursorAt(src, plan, k + 1).done ==>
              |Reads(src, CursorAt(src, plan, k), StopAt(plan, k))| == STEP_ENTRIES && (charged + STEP_ENTRIES) % STEP_ENTRIES == 0
  {
    hide PortionOf, Reduces, Settles, NextStart, LastRead, CursorAt;
    WholeSteps(charged);
    AdvancesWalk(src, plan, k);
    if !CursorAt(src, plan, k + 1).done {
      YieldsFull(src, CursorAt(src, plan, k), Budget(STEP_ENTRIES));
    }
  }

  const MAX_RESULT_BYTES: nat := 8 * 1024 * 1024

  datatype Page = Page(rows: seq<Row>, next: Option<DiffCursor>)

  predicate Accepted(anyValidTime: bool, txCount: nat, request: Request) {
    WellPosed(anyValidTime, request) && (request.resume.Some? ==> Belongs(request.resume.value, txCount, request.q, ScopeOf(request)))
  }

  function RequestGroups(store: Store, request: Request, plan: Plan): seq<EntityGroup> {
    ScopeGroups(store, request.q.attribute, ScopeOf(request), LastOf(request.resume), plan)
  }

  /** The page answers the request by the groups from where the request starts up to `end`. */
  ghost predicate Answers(store: Store, request: Request, plan: Plan, end: nat, page: Page) {
    PageOf(RequestGroups(store, request, plan), ScopeOf(request), store.txCount, request.q, request.limit, StartOf(request.resume), end,
           page.rows, page.next)
  }

  /** What the first `n` deliveries of the entity cursor charge at most. */
  function CostOf(deliver: nat -> Delivery, n: nat): nat {
    if n == 0 then 0 else CostOf(deliver, n - 1) + Cost(deliver(n - 1))
  }

  /** How the attribute cursor's steps end, for as many calls as one page can make. */
  function PlanOf(deliver: nat -> Delivery, patience: nat): (plan: Plan)
    ensures plan.size == STEP_ENTRIES && |plan.stops| == MAX_SOURCE_ENTRIES + patience + 1
    ensures forall k :: 0 <= k < |plan.stops| ==> StopAt(plan, k) == StopOf(deliver(k))
  {
    Plan(seq(MAX_SOURCE_ENTRIES + patience + 1, k requires 0 <= k => StopOf(deliver(k))), STEP_ENTRIES)
  }

  /** Storage that never faults and stays within the source budget. */
  ghost predicate Smooth(deliver: nat -> Delivery, f: Frame) {
    && (forall k :: !deliver(k).outcome.Fault?)
    && if f.scope.Some? then forall n :: CostOf(deliver, n) < MAX_SOURCE_ENTRIES
       else |WholeWalk(SourceIn(f), f.plan)| < MAX_SOURCE_ENTRIES
  }

  function FrameOf(store: Store, request: Request, plan: Plan): Frame {
    Frame(store, ScopeOf(request), LastOf(request.resume), plan, request.q, request.limit, StartOf(request.resume))
  }

  /** Some page the request could get would be too long: its first group for the limit, or its encoding. */
  ghost predicate CannotFit(store: Store, request: Request, plan: Plan, encodedLength: seq<Row> -> nat) {
    var groups := RequestGroups(store, request, plan);
    var start := StartOf(request.resume);
    || (start < |groups| && |GroupRows(groups[start], request.q)| > request.limit)
    || (exists end :: start <= end <= |groups| && encodedLength(RowsRange(groups, start, end, request.q)) > MAX_RESULT_BYTES)
  }

  /** The first group of the page has more rows than the page may hold. */
  ghost predicate FirstGroupOverLimit(f: Frame) {
    f.start < |GroupsIn(f)| && |GroupRows(GroupsIn(f)[f.start], f.q)| > f.limit
  }

  /** What the scan may have charged after so many calls. */
  ghost function Bill(deliver: nat -> Delivery, f: Frame, calls: nat): nat {
    if f.scope.Some? then CostOf(deliver, calls) else |ReadAt(SourceIn(f), f.plan, calls)|
  }

  lemma SmoothBill(deliver: nat -> Delivery, f: Frame, calls: nat)
    requires Smooth(deliver, f) && f.plan.size > 0
    ensures Bill(deliver, f, calls) < MAX_SOURCE_ENTRIES
  {
    hide ReadAt, Horizon;
    if f.scope.None? {
      ReadsGrow(SourceIn(f), f.plan, calls);
    }
  }

  lemma BillGrows(deliver: nat -> Delivery, f: Frame, calls: nat, d: Delivery)
    requires d == deliver(calls)
    ensures Bill(deliver, f, calls) <= Bill(deliver, f, calls + 1)
    ensures f.scope.Some? ==> Bill(deliver, f, calls + 1) == Bill(deliver, f, calls) + Cost(d)
    ensures f.scope.None? ==> Bill(deliver, f, calls + 1) ==
                              Bill(deliver, f, calls) + |Reads(SourceIn(f), CursorAt(SourceIn(f), f.plan, calls), StopAt(f.plan, calls))|
  {
    hide CursorAt, Reads;
  }

  /**
   Steps until the page closes. `deliver` says how each storage step goes; the browser stages a
   missing page and repeats a faulted step, up to `patience` times here, and the native driver has none.
   */
  method Drive(scan: ValidTimeDiffScan, deliver: nat -> Delivery, patience: nat) returns (failure: Option<string>)
    requires scan.Valid() && scan.sourceEntries == 0 && scan.calls == 0 && !scan.state.Finished? && scan.f.plan == PlanOf(deliver, patience)
    modifies scan
    ensures failure.None? ==> scan.Valid() && scan.state.Finished?
    ensures failure.Some? && Smooth(deliver, scan.f) ==> FirstGroupOverLimit(scan.f)
  {
    hide RowsRange, GroupRows, Cost, Positioned, Emitted, GroupsIn, Bill, Smooth, PlanOf, ReadAt, CursorAt, Reads;
    var calls, faults := 0, 0;
    KindFits(scan);
    while !scan.state.Finished?
      invariant scan.Valid() && faults <= patience && scan.sourceEntries <= Bill(deliver, scan.f, calls)
      invariant !scan.state.Finished? ==> (scan.f.scope.None? <==> scan.state.ByAttribute?)
      invariant scan.state.ByAttribute? ==> scan.calls == calls && calls + scan.Work() + patience - faults <= MAX_SOURCE_ENTRIES + patience
      decreases !scan.state.Finished?, scan.Work() + patience - faults
    {
      var step;
      BillGrows(deliver, scan.f, calls, deliver(calls));
      if scan.state.ByEntity? {
        step := scan.StepEntitySet(deliver(calls));
      } else {
        step := scan.StepAttribute(deliver(calls));
      }
      calls := calls + 1;
      if step.Rejected? {
        if Smooth(deliver, scan.f) {
          SmoothBill(deliver, scan.f, calls);
        }
        return Some("result was rejected without truncation");
      }
      if step.Faulted? {
        if faults == patience {
          NeverFaults(deliver, scan.f, calls - 1);
          return Some("storage");
        }
        faults := faults + 1;
      }
      if !scan.state.Finished? {
        KindFits(scan);
      }
    }
    return None;
  }

  lemma NeverFaults(deliver: nat -> Delivery, f: Frame, k: nat)
    ensures Smooth(deliver, f) ==> !deliver(k).outcome.Fault?
  {}

  lemma KindFits(scan: ValidTimeDiffScan)
    requires scan.Valid() && !scan.state.Finished?
    ensures scan.f.scope.None? <==> scan.state.ByAttribute?
  {}

  /** `valid_time_diff`: one page, or an error for a stated reason. */
  method ValidTimeDiff(store: Store, anyValidTime: bool, request: Request, deliver: nat -> Delivery, patience: nat, encodedLength: seq<Row> -> nat)
    returns (r: Result<Page>, ghost end: nat)
    ensures r.Ok? ==> Accepted(anyValidTime, store.txCount, request) && Answers(store, request, PlanOf(deliver, patience), end, r.value)
    ensures r.Ok? ==> encodedLength(r.value.rows) <= MAX_RESULT_BYTES
    ensures var plan := PlanOf(deliver, patience);
            r.Err? && Accepted(anyValidTime, store.txCount, request) && Smooth(deliver, FrameOf(store, request, plan)) ==>
              CannotFit(store, request, plan, encodedLength)
  {
    hide RowsRange, GroupRows, Smooth, PlanOf;
    end := 0;
    var scope := Validate(anyValidTime, store.txCount, request);
    if scope.Err? {
      return Err(scope.error), 0;
    }
    var scan := new ValidTimeDiffScan(store, request, scope.value, PlanOf(deliver, patience));
    var failure := Drive(scan, deliver, patience);
    if failure.Some? {
      return Err(failure.value), 0;
    }
    if encodedLength(scan.rows) > MAX_RESULT_BYTES {
      return Err("result was rejected without truncation"), 0;
    }
    return Ok(Page(scan.rows, scan.next)), scan.emitted;
  }
}
