/**
 Net valid-time differences of one entity: the values visible at one of two instants but not
 at the other, each with a window that proves it.
 */
module Diff {
  import opened Bytes
  import opened Ledger
  import opened Orders

  /** One window of a value, as the storage cursor reports it. */
  datatype Interval = Interval(value: Value, from: int, to: int)

  /** The two instants of a diff. */
  datatype Axis = Axis(before: int, after: int)

  predicate Proper(ax: Axis) {
    ax.before < ax.after
  }

  datatype Change = Appeared | Disappeared

  datatype Row = Row(entity: nat, attribute: string, value: Value, change: Change, from: int, to: int)

  /** The first window seen at each instant. */
  datatype ValueState = ValueState(value: Value, before: Option<Interval>, after: Option<Interval>)

  predicate At(i: Interval, instant: int) {
    i.from <= instant < i.to
  }

  // ── The accumulator ────────────────────────────────────────────────────────

  function Seen(i: Interval, instant: int): Option<Interval> {
    if At(i, instant) then Some(i) else None
  }

  function Or(a: Option<Interval>, b: Option<Interval>): Option<Interval> {
    if a.Some? then a else b
  }

  function Merge(s: ValueState, i: Interval, ax: Axis): ValueState {
    ValueState(s.value, Or(s.before, Seen(i, ax.before)), Or(s.after, Seen(i, ax.after)))
  }

  /** The entry of a map kept in canonical value order, created on first use. */
  function Upsert(states: seq<ValueState>, i: Interval, ax: Axis): seq<ValueState> {
    if states == [] then [Merge(ValueState(i.value, None, None), i, ax)]
    else if states[0].value == i.value then [Merge(states[0], i, ax)] + states[1..]
    else if ValueLess(i.value, states[0].value) then [Merge(ValueState(i.value, None, None), i, ax)] + states
    else [states[0]] + Upsert(states[1..], i, ax)
  }

  /** `note_window`: windows visible at neither instant leave no trace. */
  function NoteWindow(states: seq<ValueState>, i: Interval, ax: Axis): seq<ValueState> {
    if !At(i, ax.before) && !At(i, ax.after) then states else Upsert(states, i, ax)
  }

  function GroupOf(windows: seq<Interval>, ax: Axis): seq<ValueState> {
    if windows == [] then [] else NoteWindow(GroupOf(windows[..|windows| - 1], ax), windows[|windows| - 1], ax)
  }

  function RowOf(s: ValueState, entity: nat, attribute: string): seq<Row> {
    if s.before.Some? && s.after.None? then
      [Row(entity, attribute, s.value, Disappeared, s.before.value.from, s.before.value.to)]
    else if s.before.None? && s.after.Some? then
      [Row(entity, attribute, s.value, Appeared, s.after.value.from, s.after.value.to)]
    else []
  }

  /** `into_rows`. */
  function IntoRows(states: seq<ValueState>, entity: nat, attribute: string): seq<Row> {
    if states == [] then [] else RowOf(states[0], entity, attribute) + IntoRows(states[1..], entity, attribute)
  }

  function RowsOf(windows: seq<Interval>, entity: nat, attribute: string, ax: Axis): seq<Row> {
    IntoRows(GroupOf(windows, ax), entity, attribute)
  }

  // ── What the accumulator holds ─────────────────────────────────────────────

  ghost predicate Sorted(states: seq<ValueState>) {
    forall i, j :: 0 <= i < j < |states| ==> ValueLess(states[i].value, states[j].value)
  }

  function Find(states: seq<ValueState>, v: Value): Option<ValueState> {
    if states == [] then None
    else if states[0].value == v then Some(states[0])
    else Find(states[1..], v)
  }

  /** The first listed window of `v` that contains the instant. */
  function FirstAt(windows: seq<Interval>, v: Value, instant: int): Option<Interval> {
    if windows == [] then None
    else
      var last := windows[|windows| - 1];
      Or(FirstAt(windows[..|windows| - 1], v, instant), if last.value == v then Seen(last, instant) else None)
  }

  ghost predicate VisibleAt(windows: seq<Interval>, v: Value, instant: int) {
    exists i :: i in windows && i.value == v && At(i, instant)
  }

  lemma {:induction false} FirstAtIsVisible(windows: seq<Interval>, v: Value, instant: int)
    ensures FirstAt(windows, v, instant).Some? <==> VisibleAt(windows, v, instant)
    ensures var f := FirstAt(windows, v, instant);
            f.Some? ==> f.value in windows && f.value.value == v && At(f.value, instant)
  {
    if windows != [] {
      var rest, last := windows[..|windows| - 1], windows[|windows| - 1];
      FirstAtIsVisible(rest, v, instant);
      assert windows == rest + [last];
      if VisibleAt(windows, v, instant) {
        var i :| i in windows && i.value == v && At(i, instant);
        assert i in rest || i == last;
      }
      if i :| i in rest && i.value == v && At(i, instant) {
        assert i in windows;
      }
      assert last in windows;
    }
  }

  lemma SortedTail(states: seq<ValueState>)
    requires Sorted(states) && states != []
    ensures Sorted(states[1..])
    ensures forall i :: 0 <= i < |states| - 1 ==> ValueLess(states[0].value, states[1..][i].value)
  {}

  lemma SortedCons(s: ValueState, states: seq<ValueState>)
    requires Sorted(states)
    requires forall i :: 0 <= i < |states| ==> ValueLess(s.value, states[i].value)
    ensures Sorted([s] + states)
  {}

  /** Nothing below the first key of a sorted list is found in it. */
  lemma {:induction false} FindBelow(states: seq<ValueState>, v: Value)
    requires forall i :: 0 <= i < |states| ==> ValueLess(v, states[i].value)
    ensures Find(states, v).None?
  {
    if states != [] {
      ValueNotLessItself(v);
      FindBelow(states[1..], v);
    }
  }

  lemma {:induction false} FindIsMember(states: seq<ValueState>, v: Value)
    ensures Find(states, v).Some? ==> Find(states, v).value in states && Find(states, v).value.value == v
  {
    if states != [] && states[0].value != v {
      FindIsMember(states[1..], v);
    }
  }

  function Found(states: seq<ValueState>, v: Value): ValueState {
    var f := Find(states, v);
    if f.Some? then f.value else ValueState(v, None, None)
  }

  ghost predicate HasState(states: seq<ValueState>, v: Value) {
    exists k :: 0 <= k < |states| && states[k].value == v
  }

  /** The keys are those from before and the noted one. */
  lemma {:induction false} UpsertValues(states: seq<ValueState>, i: Interval, ax: Axis)
    ensures forall k :: 0 <= k < |Upsert(states, i, ax)| ==>
              Upsert(states, i, ax)[k].value == i.value || HasState(states, Upsert(states, i, ax)[k].value)
  {
    hide ValueLess;
    var more := Upsert(states, i, ax);
    if states != [] {
      UpsertValues(states[1..], i, ax);
      forall k | 0 <= k < |more|
        ensures more[k].value == i.value || HasState(states, more[k].value)
      {
        UpsertValue(states, i, ax, k);
      }
    }
  }

  lemma UpsertValue(states: seq<ValueState>, i: Interval, ax: Axis, k: nat)
    requires states != [] && k < |Upsert(states, i, ax)|
    requires forall j :: 0 <= j < |Upsert(states[1..], i, ax)| ==>
               Upsert(states[1..], i, ax)[j].value == i.value || HasState(states[1..], Upsert(states[1..], i, ax)[j].value)
    ensures var v := Upsert(states, i, ax)[k].value; v == i.value || HasState(states, v)
  {
    hide ValueLess;
    var more, v := Upsert(states, i, ax), Upsert(states, i, ax)[k].value;
    if states[0].value == i.value {
      assert k > 0 ==> more[k] == states[k];
    } else if ValueLess(i.value, states[0].value) {
      assert k > 0 ==> more[k] == states[k - 1];
    } else if k == 0 {
      assert states[0].value == v;
    } else {
      assert more[k] == Upsert(states[1..], i, ax)[k - 1];
      if v != i.value {
        var j :| 0 <= j < |states[1..]| && states[1..][j].value == v;
        assert states[j + 1].value == v;
      }
    }
  }

  lemma {:induction false} UpsertSorted(states: seq<ValueState>, i: Interval, ax: Axis)
    requires Sorted(states)
    ensures Sorted(Upsert(states, i, ax))
  {
    hide ValueLess;
    if states != [] {
      SortedTail(states);
      if states[0].value == i.value {
        SortedCons(Merge(states[0], i, ax), states[1..]);
      } else if ValueLess(i.value, states[0].value) {
        SortedAbove(states, i.value);
        SortedCons(Merge(ValueState(i.value, None, None), i, ax), states);
      } else {
        UpsertSorted(states[1..], i, ax);
        UpsertValues(states[1..], i, ax);
        ValueLessIsTotal(states[0].value, i.value);
        SortedCons(states[0], Upsert(states[1..], i, ax));
      }
    }
  }

  /** Only the noted value's entry changes. */
  lemma {:induction false} UpsertFinds(states: seq<ValueState>, i: Interval, ax: Axis, v: Value)
    requires Sorted(states)
    ensures Find(Upsert(states, i, ax), v) == if v == i.value then Some(Merge(Found(states, v), i, ax)) else Find(states, v)
  {
    hide Merge, Sorted;
    if states == [] {
      MergeKeepsValue(ValueState(i.value, None, None), i, ax);
    } else if states[0].value == i.value {
      assert ([Merge(states[0], i, ax)] + states[1..])[1..] == states[1..];
      MergeKeepsValue(states[0], i, ax);
    } else if ValueLess(i.value, states[0].value) {
      assert ([Merge(ValueState(i.value, None, None), i, ax)] + states)[1..] == states;
      MergeKeepsValue(ValueState(i.value, None, None), i, ax);
      SortedAbove(states, i.value);
      FindBelow(states, i.value);
    } else {
      SortedTail(states);
      UpsertFinds(states[1..], i, ax, v);
      assert ([states[0]] + Upsert(states[1..], i, ax))[1..] == Upsert(states[1..], i, ax);
    }
  }

  lemma MergeKeepsValue(s: ValueState, i: Interval, ax: Axis)
    ensures Merge(s, i, ax).value == s.value
  {}

  lemma SortedAbove(states: seq<ValueState>, v: Value)
    requires Sorted(states) && states != [] && ValueLess(v, states[0].value)
    ensures forall k :: 0 <= k < |states| ==> ValueLess(v, states[k].value)
  {
    hide ValueLess;
    forall k | 0 < k < |states|
      ensures ValueLess(v, states[k].value)
    {
      ValueLessIsTransitive(v, states[0].value, states[k].value);
    }
  }

  /** The entry a group should hold for a value: its first window at each instant, if any. */
  function Expected(windows: seq<Interval>, v: Value, ax: Axis): Option<ValueState> {
    var b, a := FirstAt(windows, v, ax.before), FirstAt(windows, v, ax.after);
    if b.None? && a.None? then None else Some(ValueState(v, b, a))
  }

  lemma NoteFinds(states: seq<ValueState>, i: Interval, ax: Axis, v: Value)
    requires Sorted(states)
    ensures Sorted(NoteWindow(states, i, ax))
    ensures Find(NoteWindow(states, i, ax), v) ==
            if v == i.value && (At(i, ax.before) || At(i, ax.after)) then Some(Merge(Found(states, v), i, ax)) else Find(states, v)
  {
    hide Upsert, Find, Sorted, Merge;
    if At(i, ax.before) || At(i, ax.after) {
      UpsertFinds(states, i, ax, v);
      UpsertSorted(states, i, ax);
    }
  }

  lemma ExpectedStep(windows: seq<Interval>, v: Value, ax: Axis)
    requires windows != []
    ensures var rest, last := windows[..|windows| - 1], windows[|windows| - 1];
            var was := Expected(rest, v, ax);
            Expected(windows, v, ax) ==
            if v == last.value && (At(last, ax.before) || At(last, ax.after))
            then Some(Merge(if was.Some? then was.value else ValueState(v, None, None), last, ax)) else was
  {}

  lemma {:induction false} GroupHolds(windows: seq<Interval>, ax: Axis, v: Value)
    ensures Sorted(GroupOf(windows, ax))
    ensures Find(GroupOf(windows, ax), v) == Expected(windows, v, ax)
  {
    if windows != [] {
      hide NoteWindow, Find, Sorted, Merge, Expected;
      var rest, last := windows[..|windows| - 1], windows[|windows| - 1];
      GroupHolds(rest, ax, v);
      NoteFinds(GroupOf(rest, ax), last, ax, v);
      ExpectedStep(windows, v, ax);
    }
  }

  lemma {:induction false} FindAll(states: seq<ValueState>, s: ValueState)
    requires Sorted(states)
    ensures s in states <==> Find(states, s.value) == Some(s)
  {
    if states != [] {
      SortedTail(states);
      FindAll(states[1..], s);
      if states[0].value == s.value {
        FindBelow(states[1..], s.value);
      }
    }
  }

  lemma {:induction false} IntoRowsHas(states: seq<ValueState>, entity: nat, attribute: string, r: Row)
    ensures r in IntoRows(states, entity, attribute) <==> exists s :: s in states && r in RowOf(s, entity, attribute)
  {
    if states != [] {
      IntoRowsHas(states[1..], entity, attribute, r);
      if r in RowOf(states[0], entity, attribute) {
        assert states[0] in states;
      }
      if s :| s in states[1..] && r in RowOf(s, entity, attribute) {
        assert s in states;
      }
    }
  }

  // ── Rows are the difference of two snapshots ───────────────────────────────

  /** What a row claims about the windows of its entity. */
  ghost predicate TrueRow(windows: seq<Interval>, r: Row, ax: Axis) {
    match r.change
    case Disappeared =>
      VisibleAt(windows, r.value, ax.before) && !VisibleAt(windows, r.value, ax.after)
      && FirstAt(windows, r.value, ax.before) == Some(Interval(r.value, r.from, r.to))
    case Appeared =>
      VisibleAt(windows, r.value, ax.after) && !VisibleAt(windows, r.value, ax.before)
      && FirstAt(windows, r.value, ax.after) == Some(Interval(r.value, r.from, r.to))
  }

  /** A row is reported exactly when its value is visible at one instant and not at the other. */
  lemma RowsAreTheDifference(windows: seq<Interval>, entity: nat, attribute: string, ax: Axis, r: Row)
    ensures r in RowsOf(windows, entity, attribute, ax) <==>
            r.entity == entity && r.attribute == attribute && TrueRow(windows, r, ax)
  {
    hide VisibleAt, GroupOf, FirstAt, IntoRows, Find, Sorted;
    var states := GroupOf(windows, ax);
    GroupHolds(windows, ax, r.value);
    IntoRowsHas(states, entity, attribute, r);
    FirstAtIsVisible(windows, r.value, ax.before);
    FirstAtIsVisible(windows, r.value, ax.after);
    var s := ValueState(r.value, FirstAt(windows, r.value, ax.before), FirstAt(windows, r.value, ax.after));
    FindAll(states, s);
    if x :| x in states && r in RowOf(x, entity, attribute) {
      FindAll(states, x);
      assert x == s;
    }
  }

  ghost predicate InValueOrder(rows: seq<Row>) {
    forall i, j :: 0 <= i < j < |rows| ==> ValueLess(rows[i].value, rows[j].value)
  }

  ghost predicate FromStates(rows: seq<Row>, states: seq<ValueState>) {
    forall i :: 0 <= i < |rows| ==> HasState(states, rows[i].value)
  }

  lemma LaterState(states: seq<ValueState>, v: Value)
    requires Sorted(states) && states != [] && HasState(states[1..], v)
    ensures ValueLess(states[0].value, v) && HasState(states, v)
  {
    var k :| 0 <= k < |states[1..]| && states[1..][k].value == v;
    assert states[k + 1].value == v;
  }

  /** A row of the first state goes before rows of the others. */
  lemma RowBefore(states: seq<ValueState>, first: seq<Row>, rest: seq<Row>)
    requires Sorted(states) && states != [] && |first| <= 1 && (first != [] ==> first[0].value == states[0].value)
    requires InValueOrder(rest) && FromStates(rest, states[1..])
    ensures InValueOrder(first + rest) && FromStates(first + rest, states)
  {
    hide Sorted;
    var all, n := first + rest, |first|;
    forall i | 0 <= i < |all|
      ensures HasState(states, all[i].value)
    {
      if i < n {
        assert states[0].value == all[i].value;
      } else {
        assert all[i] == rest[i - n];
        LaterState(states, rest[i - n].value);
      }
    }
    forall i, j | 0 <= i < j < |all|
      ensures ValueLess(all[i].value, all[j].value)
    {
      assert all[j] == rest[j - n];
      if i < n {
        LaterState(states, rest[j - n].value);
      } else {
        assert all[i] == rest[i - n];
      }
    }
  }

  lemma {:induction false} RowsInOrder(states: seq<ValueState>, entity: nat, attribute: string)
    requires Sorted(states)
    ensures InValueOrder(IntoRows(states, entity, attribute)) && FromStates(IntoRows(states, entity, attribute), states)
  {
    if states != [] {
      SortedTail(states);
      RowsInOrder(states[1..], entity, attribute);
      hide Sorted, InValueOrder, FromStates;
      RowBefore(states, RowOf(states[0], entity, attribute), IntoRows(states[1..], entity, attribute));
    }
  }

  /** Rows come in canonical value order, so no value is reported twice. */
  lemma RowsAreSorted(states: seq<ValueState>, entity: nat, attribute: string)
    requires Sorted(states)
    ensures var rows := IntoRows(states, entity, attribute);
            && (forall i, j :: 0 <= i < j < |rows| ==> ValueLess(rows[i].value, rows[j].value))
            && (forall r :: r in rows ==> exists s :: s in states && s.value == r.value)
  {
    hide Sorted, IntoRows;
    RowsInOrder(states, entity, attribute);
    var rows := IntoRows(states, entity, attribute);
    forall r | r in rows
      ensures exists s :: s in states && s.value == r.value
    {
      var i :| 0 <= i < |rows| && rows[i] == r;
      var k :| 0 <= k < |states| && states[k].value == rows[i].value;
      assert states[k] in states;
    }
  }

  /** The reported window ends (disappeared) or starts (appeared) after the first instant and by the second. */
  lemma RowWindowMarksTheChange(windows: seq<Interval>, entity: nat, attribute: string, ax: Axis, r: Row)
    requires Proper(ax) && r in RowsOf(windows, entity, attribute, ax)
    ensures Interval(r.value, r.from, r.to) in windows
    ensures r.change.Disappeared? ==> r.from <= ax.before < r.to <= ax.after
    ensures r.change.Appeared? ==> ax.before < r.from <= ax.after < r.to
  {
    RowsAreTheDifference(windows, entity, attribute, ax, r);
    FirstAtIsVisible(windows, r.value, ax.before);
    FirstAtIsVisible(windows, r.value, ax.after);
  }

  ghost predicate Reports(rows: seq<Row>, v: Value, change: Change) {
    exists r :: r in rows && r.value == v && r.change == change
  }

  /** Dropping the disappeared values from the earlier snapshot and adding the appeared ones gives the later snapshot. */
  lemma DiffTurnsSnapshots(windows: seq<Interval>, entity: nat, attribute: string, ax: Axis, v: Value)
    ensures var rows := RowsOf(windows, entity, attribute, ax);
            && (Reports(rows, v, Disappeared) <==> VisibleAt(windows, v, ax.before) && !VisibleAt(windows, v, ax.after))
            && (Reports(rows, v, Appeared) <==> VisibleAt(windows, v, ax.after) && !VisibleAt(windows, v, ax.before))
            && (VisibleAt(windows, v, ax.after) <==>
                (VisibleAt(windows, v, ax.before) && !Reports(rows, v, Disappeared)) || Reports(rows, v, Appeared))
  {
    hide VisibleAt, RowsOf;
    var rows := RowsOf(windows, entity, attribute, ax);
    FirstAtIsVisible(windows, v, ax.before);
    FirstAtIsVisible(windows, v, ax.after);
    forall r
      ensures r in rows <==> r.entity == entity && r.attribute == attribute && TrueRow(windows, r, ax)
    {
      RowsAreTheDifference(windows, entity, attribute, ax, r);
    }
    var b, a := FirstAt(windows, v, ax.before), FirstAt(windows, v, ax.after);
    if b.Some? && a.None? {
      assert Row(entity, attribute, v, Disappeared, b.value.from, b.value.to) in rows;
    }
    if a.Some? && b.None? {
      assert Row(entity, attribute, v, Appeared, a.value.from, a.value.to) in rows;
    }
  }

  /** What is reported does not depend on the order in which windows arrive. */
  lemma DirectionIgnoresOrder(windows: seq<Interval>, shuffled: seq<Interval>, entity: nat, attribute: string, ax: Axis, v: Value, change: Change)
    requires forall i :: i in windows <==> i in shuffled
    ensures Reports(RowsOf(windows, entity, attribute, ax), v, change) <==> Reports(RowsOf(shuffled, entity, attribute, ax), v, change)
  {
    hide RowsOf, Reports;
    DiffTurnsSnapshots(windows, entity, attribute, ax, v);
    DiffTurnsSnapshots(shuffled, entity, attribute, ax, v);
    SameVisible(windows, shuffled, v, ax.before);
    SameVisible(windows, shuffled, v, ax.after);
  }

  lemma SameVisible(windows: seq<Interval>, shuffled: seq<Interval>, v: Value, instant: int)
    requires forall i :: i in windows <==> i in shuffled
    ensures VisibleAt(windows, v, instant) <==> VisibleAt(shuffled, v, instant)
  {}

  /** Diffs over (a, b) and (b, c) compose to the diff over (a, c): opposite changes cancel, others carry over. */
  lemma DiffsCompose(windows: seq<Interval>, entity: nat, attribute: string, a: int, b: int, c: int, v: Value)
    ensures var ab, bc, ac := RowsOf(windows, entity, attribute, Axis(a, b)), RowsOf(windows, entity, attribute, Axis(b, c)),
                              RowsOf(windows, entity, attribute, Axis(a, c));
            && (Reports(ac, v, Disappeared) <==>
                (Reports(ab, v, Disappeared) && !Reports(bc, v, Appeared)) || (Reports(bc, v, Disappeared) && !Reports(ab, v, Appeared)))
            && (Reports(ac, v, Appeared) <==>
                (Reports(ab, v, Appeared) && !Reports(bc, v, Disappeared)) || (Reports(bc, v, Appeared) && !Reports(ab, v, Disappeared)))
  {
    hide RowsOf, Reports, VisibleAt;
    DiffTurnsSnapshots(windows, entity, attribute, Axis(a, b), v);
    DiffTurnsSnapshots(windows, entity, attribute, Axis(b, c), v);
    DiffTurnsSnapshots(windows, entity, attribute, Axis(a, c), v);
  }

  // ── Against the ledger ─────────────────────────────────────────────────────

  /** The intervals are exactly the windows in force of one entity and attribute. */
  ghost predicate Lists(log: seq<Fact>, entity: nat, attribute: string, windows: seq<Interval>) {
    forall i: Interval :: i in windows <==> Net(log, Window(Triple(entity, attribute, i.value), i.from, i.to))
  }

  lemma ListedVisibility(log: seq<Fact>, entity: nat, attribute: string, windows: seq<Interval>, v: Value, instant: int)
    requires Lists(log, entity, attribute, windows)
    ensures VisibleAt(windows, v, instant) <==> Visible(log, Triple(entity, attribute, v), instant)
  {
    hide Net;
    var t := Triple(entity, attribute, v);
    if VisibleAt(windows, v, instant) {
      var i :| i in windows && i.value == v && At(i, instant);
      assert Contains(Window(t, i.from, i.to), instant);
    }
    if Visible(log, t, instant) {
      var w :| Net(log, w) && w.triple == t && Contains(w, instant);
      assert w == Window(t, w.from, w.to);
      assert Interval(v, w.from, w.to) in windows;
    }
  }

  /** Rows report exactly the net visibility changes of the ledger between the two instants. */
  lemma DiffIsLedgerDifference(log: seq<Fact>, entity: nat, attribute: string, windows: seq<Interval>, ax: Axis, v: Value)
    requires Lists(log, entity, attribute, windows)
    ensures var rows, t := RowsOf(windows, entity, attribute, ax), Triple(entity, attribute, v);
            && (Reports(rows, v, Disappeared) <==> Visible(log, t, ax.before) && !Visible(log, t, ax.after))
            && (Reports(rows, v, Appeared) <==> Visible(log, t, ax.after) && !Visible(log, t, ax.before))
  {
    hide RowsOf, Reports, VisibleAt, Visible;
    DiffTurnsSnapshots(windows, entity, attribute, ax, v);
    ListedVisibility(log, entity, attribute, windows, v, ax.before);
    ListedVisibility(log, entity, attribute, windows, v, ax.after);
  }
}
