/**
 The resumable scan behind `valid_time_diff`: pages of whole entity groups, bounded by rows and
 by source work, over cursors that deliver their windows step by step.
 */
module DiffScan {
  import opened Bytes
  import opened Ledger
  import opened Diff
  import opened Sequences
  import opened Groups
  import opened Cursors
  import opened Walks

  const MAX_SOURCE_ENTRIES: nat := 65_536
  const STEP_ENTRIES: nat := 4_096
  const MAX_ROWS: nat := 10_000
  const MAX_IDS: nat := 128

  /** What every page of one diff shares: the attribute and the two instants. */
  datatype Query = Query(attribute: string, ax: Axis)

  /** Storage as the view sees it: the index, and the transaction the view pins. */
  datatype Store = Store(index: Index, txCount: nat)

  /** What the entity cursor delivers. */
  function WindowsOf(store: Store, attribute: string, e: nat): seq<Interval> {
    EntityWindows(Held(store.index), store.txCount, e, attribute)
  }

  function GroupsOf(store: Store, attribute: string, entities: seq<nat>): (g: seq<EntityGroup>)
    ensures |g| == |entities|
    ensures forall i :: 0 <= i < |g| ==> g[i] == EntityGroup(entities[i], WindowsOf(store, attribute, entities[i]))
  {
    seq(|entities|, i requires 0 <= i < |entities| => EntityGroup(entities[i], WindowsOf(store, attribute, entities[i])))
  }

  /** The attribute cursor of a scan that resumes after an entity. */
  function SourceAfter(store: Store, attribute: string, last: Option<nat>): Source {
    Source(store.index, attribute, if last.Some? then last.value + 1 else 0, store.txCount)
  }

  /** What the attribute cursor delivers when its steps end as planned; there is none past the largest entity id. */
  function GroupsAfter(store: Store, attribute: string, last: Option<nat>, plan: Plan): seq<EntityGroup> {
    if last.Some? && last.value >= ENTITY_MAX then [] else WalkListing(SourceAfter(store, attribute, last), plan)
  }

  lemma GroupsAfterAreApart(store: Store, attribute: string, last: Option<nat>, plan: Plan)
    ensures Apart(GroupsAfter(store, attribute, last, plan))
  {
    hide GroupsFrom, RunsOf, WholeWalk, AsOf;
    GroupsAreApart(RunsOf(AsOf(WholeWalk(SourceAfter(store, attribute, last), plan), store.txCount)));
  }

  // ── Rows of a stretch of groups ────────────────────────────────────────────

  function GroupRows(g: EntityGroup, q: Query): seq<Row> {
    RowsOf(g.windows, g.entity, q.attribute, q.ax)
  }

  /** The rows of groups `lo` up to `hi`, in scope order. */
  function RowsRange(groups: seq<EntityGroup>, lo: nat, hi: nat, q: Query): seq<Row>
    requires lo <= hi <= |groups|
  {
    if lo == hi then [] else RowsRange(groups, lo, hi - 1, q) + GroupRows(groups[hi - 1], q)
  }

  lemma {:induction false} RowsRangeSplit(groups: seq<EntityGroup>, lo: nat, mid: nat, hi: nat, q: Query)
    requires lo <= mid <= hi <= |groups|
    ensures RowsRange(groups, lo, hi, q) == RowsRange(groups, lo, mid, q) + RowsRange(groups, mid, hi, q)
    decreases hi
  {
    if mid == hi {
      assert RowsRange(groups, lo, mid, q) + [] == RowsRange(groups, lo, mid, q);
    } else {
      RowsRangeSplit(groups, lo, mid, hi - 1, q);
      var a, b, c := RowsRange(groups, lo, mid, q), RowsRange(groups, mid, hi - 1, q), GroupRows(groups[hi - 1], q);
      assert (a + b) + c == a + (b + c);
    }
  }

  // ── The attribute stream ───────────────────────────────────────────────────

  datatype OpenGroup = OpenGroup(entity: nat, states: seq<ValueState>)

  function Closed(g: EntityGroup, ax: Axis): OpenGroup {
    OpenGroup(g.entity, GroupOf(g.windows, ax))
  }

  /** Group `c` is open with its first `noted` windows, and `remaining` is what the cursor still holds. */
  ghost predicate Ahead(groups: seq<EntityGroup>, c: nat, current: Option<OpenGroup>, noted: nat, remaining: seq<Emission>, ax: Axis) {
    match current
    case None => c <= |groups| && remaining == Stream(groups[c..])
    case Some(g) =>
      && c < |groups|
      && 0 < noted <= |groups[c].windows|
      && g == OpenGroup(groups[c].entity, GroupOf(groups[c].windows[..noted], ax))
      && remaining == Emit(groups[c].entity, groups[c].windows[noted..]) + Stream(groups[c + 1..])
  }

  /** `completed` holds the finished groups from `lo` on. */
  ghost predicate Finishes(groups: seq<EntityGroup>, lo: nat, completed: seq<OpenGroup>, ax: Axis) {
    && lo + |completed| <= |groups|
    && forall i :: 0 <= i < |completed| ==> completed[i] == Closed(groups[lo + i], ax)
  }

  lemma StreamHead(groups: seq<EntityGroup>, c: nat)
    requires Apart(groups) && c < |groups|
    ensures Stream(groups[c..]) == [Emission(groups[c].entity, groups[c].windows[0])] +
                                   (Emit(groups[c].entity, groups[c].windows[1..]) + Stream(groups[c + 1..]))
  {
    var g := groups[c];
    assert groups[c..][0] == g && groups[c..][1..] == groups[c + 1..];
    assert Emit(g.entity, g.windows) == [Emission(g.entity, g.windows[0])] + Emit(g.entity, g.windows[1..]);
    var a, b, s := [Emission(g.entity, g.windows[0])], Emit(g.entity, g.windows[1..]), Stream(groups[c + 1..]);
    assert (a + b) + s == a + (b + s);
  }

  lemma NoteOne(windows: seq<Interval>, n: nat, ax: Axis)
    requires n < |windows|
    ensures GroupOf(windows[..n + 1], ax) == NoteWindow(GroupOf(windows[..n], ax), windows[n], ax)
  {
    assert windows[..n + 1][..n] == windows[..n];
  }

  /** A window of the open entity: it is noted. */
  lemma VisitSame(groups: seq<EntityGroup>, c: nat, g: OpenGroup, noted: nat, remaining: seq<Emission>, ax: Axis)
    requires Apart(groups) && Ahead(groups, c, Some(g), noted, remaining, ax)
    requires noted < |groups[c].windows|
    ensures remaining != [] && remaining[0] == Emission(groups[c].entity, groups[c].windows[noted])
    ensures Ahead(groups, c, Some(OpenGroup(g.entity, NoteWindow(g.states, remaining[0].window, ax))), noted + 1, remaining[1..], ax)
  {
    hide GroupOf, NoteWindow, Stream;
    var ws, e := groups[c].windows, groups[c].entity;
    NoteOne(ws, noted, ax);
    assert Emit(e, ws[noted..])[1..] == Emit(e, ws[noted + 1..]);
    assert remaining[1..] == Emit(e, ws[noted..])[1..] + Stream(groups[c + 1..]);
  }

  /** The first window of the next entity: the open group, if any, is finished and a new one starts. */
  lemma VisitNext(groups: seq<EntityGroup>, c: nat, remaining: seq<Emission>, ax: Axis)
    requires Apart(groups) && c <= |groups| && remaining == Stream(groups[c..]) && remaining != []
    ensures c < |groups| && remaining[0] == Emission(groups[c].entity, groups[c].windows[0])
    ensures Ahead(groups, c, Some(OpenGroup(remaining[0].entity, NoteWindow([], remaining[0].window, ax))), 1, remaining[1..], ax)
  {
    StreamHead(groups, c);
    var ws := groups[c].windows;
    assert ws[..1][..0] == [];
    assert GroupOf(ws[..1], ax) == NoteWindow(GroupOf([], ax), ws[0], ax);
    assert remaining[1..] == Emit(groups[c].entity, ws[1..]) + Stream(groups[c + 1..]);
  }

  /** An open group that has seen all its windows is complete. */
  lemma OpenIsClosed(groups: seq<EntityGroup>, c: nat, g: OpenGroup, noted: nat, remaining: seq<Emission>, ax: Axis)
    requires Ahead(groups, c, Some(g), noted, remaining, ax) && noted == |groups[c].windows|
    ensures g == Closed(groups[c], ax) && remaining == Stream(groups[c + 1..])
  {
    var ws := groups[c].windows;
    assert ws[..noted] == ws && ws[noted..] == [];
    assert Emit(groups[c].entity, []) + Stream(groups[c + 1..]) == Stream(groups[c + 1..]);
  }

  /** The open group's entity differs from the next emission's exactly when it has seen all its windows. */
  lemma SameEntity(groups: seq<EntityGroup>, c: nat, g: OpenGroup, noted: nat, remaining: seq<Emission>, ax: Axis)
    requires Apart(groups) && Ahead(groups, c, Some(g), noted, remaining, ax) && remaining != []
    ensures g.entity == remaining[0].entity <==> noted < |groups[c].windows|
  {
    hide GroupOf;
    if noted < |groups[c].windows| {
      VisitSame(groups, c, g, noted, remaining, ax);
    } else {
      OpenIsClosed(groups, c, g, noted, remaining, ax);
      VisitNext(groups, c + 1, remaining, ax);
    }
  }

  lemma NothingAhead(groups: seq<EntityGroup>, c: nat)
    requires Apart(groups) && c <= |groups| && Stream(groups[c..]) == []
    ensures c == |groups|
  {
    if c < |groups| {
      StreamHead(groups, c);
    }
  }

  // ── Requests and continuations ─────────────────────────────────────────────

  datatype CursorScope = EntitySet(entities: seq<nat>, nextIndex: nat) | WholeAttribute(lastEntity: nat)

  datatype DiffCursor = DiffCursor(attribute: string, txCount: nat, before: int, after: int, scope: CursorScope)

  datatype Request = Request(q: Query, entities: Option<seq<nat>>, resume: Option<DiffCursor>, limit: nat)

  const PSEUDO: set<string> := {":db/valid-from", ":db/valid-to", ":db/tx-count", ":db/tx-id", ":db/valid-at"}

  predicate StoredKeyword(attribute: string) {
    |attribute| > 0 && attribute[0] == ':' && '/' in attribute && '\0' !in attribute && attribute !in PSEUDO
  }

  /** A continuation belongs to the view, attribute, instants and entity scope that produced it. */
  predicate Belongs(c: DiffCursor, txCount: nat, q: Query, scope: Option<seq<nat>>) {
    && c.attribute == q.attribute && c.txCount == txCount && c.before == q.ax.before && c.after == q.ax.after
    && match c.scope
       case EntitySet(entities, nextIndex) => scope == Some(entities) && nextIndex <= |entities|
       case WholeAttribute(_) => scope == None
  }

  predicate WellPosed(anyValidTime: bool, request: Request) {
    && anyValidTime
    && StoredKeyword(request.q.attribute)
    && request.q.ax.before < request.q.ax.after
    && 1 <= request.limit <= MAX_ROWS
    && (request.entities.Some? ==> 1 <= |request.entities.value| <= MAX_IDS)
  }

  function ScopeOf(request: Request): Option<seq<nat>> {
    if request.entities.Some? then Some(Unique(request.entities.value)) else None
  }

  /** `validate_valid_time_diff_request`: refuses exactly malformed requests and foreign continuations. */
  method Validate(anyValidTime: bool, txCount: nat, request: Request) returns (r: Result<Option<seq<nat>>>)
    ensures r.Ok? <==> WellPosed(anyValidTime, request) && (request.resume.Some? ==> Belongs(request.resume.value, txCount, request.q, ScopeOf(request)))
    ensures r.Ok? ==> r.value == ScopeOf(request)
  {
    if !anyValidTime {
      return Err("an AnyValidTime view is required");
    }
    if !StoredKeyword(request.q.attribute) {
      return Err("attribute");
    }
    if request.q.ax.before >= request.q.ax.after {
      return Err("instants");
    }
    if request.limit == 0 || request.limit > MAX_ROWS {
      return Err("limit");
    }
    var scope: Option<seq<nat>> := None;
    if request.entities.Some? {
      if request.entities.value == [] || |request.entities.value| > MAX_IDS {
        return Err("entities");
      }
      var unique := Dedup(request.entities.value);
      scope := Some(unique);
    }
    if request.resume.Some? && !Belongs(request.resume.value, txCount, request.q, scope) {
      return Err("the continuation does not belong to this request");
    }
    r := Ok(scope);
  }

  // ── What one page is ───────────────────────────────────────────────────────

  /** The entity an attribute continuation starts after. */
  function LastOf(resume: Option<DiffCursor>): Option<nat> {
    if resume.Some? && resume.value.scope.WholeAttribute? then Some(resume.value.scope.lastEntity) else None
  }

  /** The groups a request walks, in scope order. */
  function ScopeGroups(store: Store, attribute: string, scope: Option<seq<nat>>, last: Option<nat>, plan: Plan): seq<EntityGroup> {
    if scope.Some? then GroupsOf(store, attribute, scope.value) else GroupsAfter(store, attribute, last, plan)
  }

  /** The group at which a request starts: an attribute listing already starts after the resumed entity. */
  function StartOf(resume: Option<DiffCursor>): nat {
    if resume.Some? && resume.value.scope.EntitySet? then resume.value.scope.nextIndex else 0
  }

  /** The continuation that resumes at group `at`. */
  function ResumeAt(groups: seq<EntityGroup>, scope: Option<seq<nat>>, txCount: nat, q: Query, at: nat): DiffCursor
    requires 0 < at <= |groups|
  {
    DiffCursor(q.attribute, txCount, q.ax.before, q.ax.after,
               if scope.Some? then EntitySet(scope.value, at) else WholeAttribute(groups[at - 1].entity))
  }

  /** A page from group `start`: whole groups up to `end`, within the limit, with a continuation exactly at `end`. */
  ghost predicate PageOf(groups: seq<EntityGroup>, scope: Option<seq<nat>>, txCount: nat, q: Query, limit: nat,
                         start: nat, end: nat, rows: seq<Row>, next: Option<DiffCursor>) {
    && start <= end <= |groups|
    && rows == RowsRange(groups, start, end, q)
    && |rows| <= limit
    && (next.None? ==> end == |groups|)
    && (next.Some? ==> start < end && next.value == ResumeAt(groups, scope, txCount, q, end))
  }

  /** A continuation belongs to the request that produced it. */
  lemma ContinuationBelongs(groups: seq<EntityGroup>, scope: Option<seq<nat>>, txCount: nat, q: Query, at: nat)
    requires 0 < at <= |groups| && (scope.Some? ==> |groups| == |scope.value|)
    ensures Belongs(ResumeAt(groups, scope, txCount, q, at), txCount, q, scope)
  {}

  // ── One storage step ───────────────────────────────────────────────────────

  /** A fault of the attribute cursor may come before or after its committed side has reported its end. */
  datatype Outcome = Yielded | Complete | Fault(settled: bool)

  /** How far one step of the entity cursor gets: windows delivered, entries read, and how it ends. */
  datatype Delivery = Delivery(take: nat, entries: nat, outcome: Outcome)

  /** One step of the attribute cursor: it reads up to its budget unless storage faults before. */
  function StopOf(d: Delivery): Stop {
    if d.outcome.Fault? then Failure(Min(d.entries, STEP_ENTRIES - 1), d.outcome.settled) else Budget(STEP_ENTRIES)
  }

  function Min(a: nat, b: nat): nat {
    if a < b then a else b
  }

  /** Entries charged: never above the allowance, and at least one when the step only yields. */
  function Charged(d: Delivery, allowance: nat): nat
    requires allowance > 0
  {
    if d.outcome.Yielded? && d.entries == 0 then 1 else Min(d.entries, allowance)
  }

  /** What a step may charge, whatever its allowance. */
  function Cost(d: Delivery): nat {
    if d.outcome.Yielded? && d.entries == 0 then 1 else d.entries
  }

  /** Windows delivered: all of them when the step completes. */
  function Taken(d: Delivery, available: nat): nat {
    if d.outcome.Complete? then available else Min(d.take, available)
  }

  /** The callback of the attribute cursor, run over the windows one step delivers. */
  method Receive(ghost groups: seq<EntityGroup>, ghost lo: nat, done: seq<OpenGroup>, open: Option<OpenGroup>, ghost seen: nat,
                 ghost stream: seq<Emission>, emitted: seq<Emission>, ax: Axis)
    returns (completed: seq<OpenGroup>, current: Option<OpenGroup>, ghost noted: nat)
    requires Apart(groups) && Finishes(groups, lo, done, ax) && Ahead(groups, lo + |done|, open, seen, stream, ax)
    requires emitted <= stream
    ensures Finishes(groups, lo, completed, ax) && Ahead(groups, lo + |completed|, current, noted, stream[|emitted|..], ax)
  {
    hide Ahead, Finishes, Apart, NoteWindow;
    completed, current, noted := done, open, seen;
    assert stream[0..] == stream;
    for i := 0 to |emitted|
      invariant Finishes(groups, lo, completed, ax) && Ahead(groups, lo + |completed|, current, noted, stream[i..], ax)
    {
      var e := emitted[i];
      ghost var remaining := stream[i..];
      assert remaining[0] == e && remaining[1..] == stream[i + 1..];
      VisitEmission(groups, lo, completed, current, noted, remaining, ax);
      if current.Some? && current.value.entity == e.entity {
        current := Some(OpenGroup(e.entity, NoteWindow(current.value.states, e.window, ax)));
        noted := noted + 1;
      } else {
        if current.Some? {
          completed := completed + [current.value];
        }
        current := Some(OpenGroup(e.entity, NoteWindow([], e.window, ax)));
        noted := 1;
      }
    }
  }

  lemma VisitEmission(groups: seq<EntityGroup>, lo: nat, completed: seq<OpenGroup>, current: Option<OpenGroup>, noted: nat,
                      remaining: seq<Emission>, ax: Axis)
    requires Apart(groups) && Finishes(groups, lo, completed, ax) && Ahead(groups, lo + |completed|, current, noted, remaining, ax)
    requires remaining != []
    ensures var e := remaining[0];
            if current.Some? && current.value.entity == e.entity then
              Ahead(groups, lo + |completed|, Some(OpenGroup(e.entity, NoteWindow(current.value.states, e.window, ax))), noted + 1, remaining[1..], ax)
            else
              var more := if current.Some? then completed + [current.value] else completed;
              && Finishes(groups, lo, more, ax)
              && Ahead(groups, lo + |more|, Some(OpenGroup(e.entity, NoteWindow([], e.window, ax))), 1, remaining[1..], ax)
  {
    hide GroupOf, NoteWindow, Stream, Ahead, Finishes, Apart;
    var c := lo + |completed|;
    if current.Some? {
      OpenWithin(groups, c, current.value, noted, remaining, ax);
      SameEntity(groups, c, current.value, noted, remaining, ax);
      if noted < |groups[c].windows| {
        VisitSame(groups, c, current.value, noted, remaining, ax);
      } else {
        OpenIsClosed(groups, c, current.value, noted, remaining, ax);
        FinishesMore(groups, lo, completed, current.value, ax);
        VisitNext(groups, c + 1, remaining, ax);
      }
    } else {
      NoneOpen(groups, c, noted, remaining, ax);
      VisitNext(groups, c, remaining, ax);
    }
  }

  lemma NoneOpen(groups: seq<EntityGroup>, c: nat, noted: nat, remaining: seq<Emission>, ax: Axis)
    requires Ahead(groups, c, None, noted, remaining, ax)
    ensures c <= |groups| && remaining == Stream(groups[c..])
  {}

  lemma OpenWithin(groups: seq<EntityGroup>, c: nat, g: OpenGroup, noted: nat, remaining: seq<Emission>, ax: Axis)
    requires Ahead(groups, c, Some(g), noted, remaining, ax)
    ensures c < |groups| && noted <= |groups[c].windows| && g.entity == groups[c].entity
  {}

  lemma FinishesMore(groups: seq<EntityGroup>, lo: nat, completed: seq<OpenGroup>, g: OpenGroup, ax: Axis)
    requires Finishes(groups, lo, completed, ax) && lo + |completed| < |groups| && g == Closed(groups[lo + |completed|], ax)
    ensures Finishes(groups, lo, completed + [g], ax)
  {}

  /** When the stream is exhausted, the open group is the last one. */
  lemma StreamDone(groups: seq<EntityGroup>, lo: nat, completed: seq<OpenGroup>, current: Option<OpenGroup>, noted: nat, ax: Axis)
    requires Apart(groups) && Finishes(groups, lo, completed, ax) && Ahead(groups, lo + |completed|, current, noted, [], ax)
    ensures var all := if current.Some? then completed + [current.value] else completed;
            Finishes(groups, lo, all, ax) && lo + |all| == |groups|
  {
    hide GroupOf, Stream;
    var c := lo + |completed|;
    if current.Some? {
      assert groups[c].windows[noted..] == [];
      OpenIsClosed(groups, c, current.value, noted, [], ax);
      NothingAhead(groups, c + 1);
    } else {
      NothingAhead(groups, c);
    }
  }

  /** The entity of the last group emitted by this page, if any. */
  function LastEmitted(groups: seq<EntityGroup>, start: nat, emitted: nat): Option<nat>
    requires start <= emitted <= |groups|
  {
    if emitted == start then None else Some(groups[emitted - 1].entity)
  }

  lemma FinishedRoom(groups: seq<EntityGroup>, lo: nat, completed: seq<OpenGroup>, ax: Axis)
    requires Finishes(groups, lo, completed, ax)
    ensures lo + |completed| <= |groups|
  {}

  lemma FinishedRows(groups: seq<EntityGroup>, lo: nat, completed: seq<OpenGroup>, i: nat, q: Query)
    requires Finishes(groups, lo, completed, q.ax) && i < |completed|
    ensures completed[i].entity == groups[lo + i].entity
    ensures IntoRows(completed[i].states, completed[i].entity, q.attribute) == GroupRows(groups[lo + i], q)
  {
    hide IntoRows;
  }

  lemma RangeGrows(groups: seq<EntityGroup>, lo: nat, hi: nat, q: Query)
    requires lo <= hi < |groups|
    ensures RowsRange(groups, lo, hi + 1, q) == RowsRange(groups, lo, hi, q) + GroupRows(groups[hi], q)
  {}

  /** Emit finished groups while they fit the limit, whole groups only. */
  method Drain(ghost groups: seq<EntityGroup>, ghost start: nat, ghost lo: nat, completed: seq<OpenGroup>, before: seq<Row>, limit: nat,
               last: Option<nat>, q: Query)
    returns (rows: seq<Row>, lastEmitted: Option<nat>, full: bool, ghost emitted: nat)
    requires start <= lo && Finishes(groups, lo, completed, q.ax)
    requires before == RowsRange(groups, start, lo, q) && |before| <= limit && last == LastEmitted(groups, start, lo)
    ensures lo <= emitted <= lo + |completed| <= |groups|
    ensures rows == RowsRange(groups, start, emitted, q) && |rows| <= limit && lastEmitted == LastEmitted(groups, start, emitted)
    ensures full <==> emitted < lo + |completed|
    ensures full ==> |rows| + |GroupRows(groups[emitted], q)| > limit
  {
    hide RowsRange, GroupRows, Finishes, IntoRows;
    FinishedRoom(groups, lo, completed, q.ax);
    rows, lastEmitted, full, emitted := before, last, false, lo;
    for i := 0 to |completed|
      invariant emitted == lo + i && !full
      invariant rows == RowsRange(groups, start, emitted, q) && |rows| <= limit && lastEmitted == LastEmitted(groups, start, emitted)
    {
      var groupRows := IntoRows(completed[i].states, completed[i].entity, q.attribute);
      FinishedRows(groups, lo, completed, i, q);
      RangeGrows(groups, start, emitted, q);
      if |rows| + |groupRows| > limit {
        full := true;
        return;
      }
      rows := rows + groupRows;
      lastEmitted := Some(completed[i].entity);
      emitted := emitted + 1;
    }
  }
}
