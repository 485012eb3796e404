/**
 The attribute cursor step by step. A step reads a bounded number of entries and leaves a resume key:
 the queried attribute and, from the last committed entry read, everything but its attribute.
 */
module Walks {
  import opened Bytes
  import opened Ledger
  import opened Orders
  import opened Diff
  import opened Sequences
  import opened Groups
  import opened Cursors

  /** What a cursor is created for: an index, the attribute, the first entity and the pinned transaction. */
  datatype Source = Source(index: Index, attribute: string, from: nat, n: nat)

  /** The pending side is selected once, when the cursor is created. */
  function PendingOf(src: Source): seq<Fact> {
    Range(src.index.pending, src.attribute, FromEntity(src.from))
  }

  /**
   Between steps: where the committed range starts, the last committed entry read, the position on the pending
   side, and the entries of the entity being reduced.
   */
  datatype Cursor = Cursor(start: Start, last: Option<Fact>, position: nat, committedDone: bool, done: bool, run: seq<Fact>)

  function NewCursor(src: Source): Cursor {
    Cursor(FromEntity(src.from), None, 0, false, false, [])
  }

  predicate Within(src: Source, cur: Cursor) {
    cur.position <= |PendingOf(src)|
  }

  predicate PastLast(f: Fact, last: Option<Fact>) {
    last.None? || SuffixLess(last.value, f)
  }

  /** Entries at or before the resume key are skipped, whatever their attribute. */
  function Past(entries: seq<Fact>, last: Option<Fact>): (r: seq<Fact>)
    ensures forall f :: f in r <==> f in entries && PastLast(f, last)
  {
    if entries == [] then []
    else (if PastLast(entries[0], last) then [entries[0]] else []) + Past(entries[1..], last)
  }

  function CommittedAhead(src: Source, cur: Cursor): seq<Fact> {
    if cur.committedDone then [] else Past(Committed(src.index, src.attribute, cur.start), cur.last)
  }

  function PendingAhead(src: Source, cur: Cursor): seq<Fact>
    requires Within(src, cur)
  {
    PendingOf(src)[cur.position..]
  }

  // ── What one step reads ────────────────────────────────────────────────────

  /** The first entries of two interleaved streams, and how many came from each. */
  datatype Portion = Portion(entries: seq<Fact>, committed: nat, pending: nat)

  function Portioned(a: seq<Fact>, b: seq<Fact>, max: nat): (p: Portion)
    ensures |p.entries| == p.committed + p.pending <= max && p.committed <= |a| && p.pending <= |b|
    decreases |a| + |b|
  {
    if max == 0 || (a == [] && b == []) then Portion([], 0, 0)
    else if b != [] && (a == [] || SuffixLess(b[0], a[0])) then
      var rest := Portioned(a, b[1..], max - 1);
      Portion([b[0]] + rest.entries, rest.committed, rest.pending + 1)
    else
      var rest := Portioned(a[1..], b, max - 1);
      Portion([a[0]] + rest.entries, rest.committed + 1, rest.pending)
  }

  /** How a step ends: its budget is spent or nothing is left, or storage fails after some entries. */
  datatype Stop = Budget(max: nat) | Failure(entries: nat, settled: bool)

  function Allowance(stop: Stop): nat {
    if stop.Budget? then stop.max else stop.entries
  }

  function PortionOf(src: Source, cur: Cursor, stop: Stop): (p: Portion)
    requires Within(src, cur)
    ensures p.committed <= |CommittedAhead(src, cur)| && cur.position + p.pending <= |PendingOf(src)|
  {
    Portioned(CommittedAhead(src, cur), PendingAhead(src, cur), Allowance(stop))
  }

  /** The entries one step reads, visible or not. */
  function Reads(src: Source, cur: Cursor, stop: Stop): seq<Fact>
    requires Within(src, cur)
  {
    if cur.done then [] else PortionOf(src, cur, stop).entries
  }

  /**
   The committed side reports its end only when its last entry leaves budget over. A step that fails right behind
   that entry may have reported it or not.
   */
  predicate Settles(src: Source, cur: Cursor, stop: Stop)
    requires Within(src, cur)
  {
    var a, b := CommittedAhead(src, cur), PendingAhead(src, cur);
    || cur.committedDone
    || (Allowance(stop) > 0 && Portioned(a, b, Allowance(stop) - 1).committed == |a|)
    || (stop.Failure? && stop.settled && Portioned(a, b, stop.entries).committed == |a|)
  }

  /** The step completes the walk. */
  predicate Completes(src: Source, cur: Cursor, stop: Stop)
    requires Within(src, cur)
  {
    stop.Budget? && Settles(src, cur, stop) && cur.position + PortionOf(src, cur, stop).pending == |PendingOf(src)|
  }

  // ── What one step delivers ─────────────────────────────────────────────────

  /** One callback of the attribute cursor. */
  datatype Emission = Emission(entity: nat, window: Interval)

  function Emit(entity: nat, windows: seq<Interval>): (r: seq<Emission>)
    ensures |r| == |windows|
    ensures forall i :: 0 <= i < |r| ==> r[i] == Emission(entity, windows[i])
  {
    seq(|windows|, i requires 0 <= i < |windows| => Emission(entity, windows[i]))
  }

  /** Flushing a run of entries delivers its windows in force. */
  function Flushed(run: seq<Fact>): seq<Emission> {
    if run == [] then [] else Emit(EntityOf(run), Flush(run))
  }

  datatype Reduction = Reduction(emitted: seq<Emission>, run: seq<Fact>)

  /** Accept one visible entry: an entry of another entity flushes the run. */
  function Accept(r: Reduction, f: Fact): Reduction {
    if r.run != [] && EntityOf(r.run) != f.triple.entity
    then Reduction(r.emitted + Flushed(r.run), [f])
    else Reduction(r.emitted, r.run + [f])
  }

  function Reduce(run: seq<Fact>, entries: seq<Fact>): Reduction {
    if entries == [] then Reduction([], run)
    else Accept(Reduce(run, entries[..|entries| - 1]), entries[|entries| - 1])
  }

  function Reduces(src: Source, cur: Cursor, stop: Stop): Reduction
    requires Within(src, cur)
  {
    Reduce(cur.run, AsOf(PortionOf(src, cur, stop).entries, src.n))
  }

  /** The windows one step delivers; the step that completes the walk flushes the last run. */
  function Emits(src: Source, cur: Cursor, stop: Stop): seq<Emission>
    requires Within(src, cur)
  {
    if cur.done then []
    else
      var r := Reduces(src, cur, stop);
      r.emitted + if Completes(src, cur, stop) then Flushed(r.run) else []
  }

  function LastRead(src: Source, cur: Cursor, stop: Stop): Option<Fact>
    requires Within(src, cur)
  {
    var k := PortionOf(src, cur, stop).committed;
    if k > 0 then Some(CommittedAhead(src, cur)[k - 1]) else cur.last
  }

  /** The next step's range starts at the resume key, which names the queried attribute whatever was read; a failure leaves it. */
  function NextStart(src: Source, cur: Cursor, stop: Stop): Start
    requires Within(src, cur)
  {
    var last := LastRead(src, cur, stop);
    if last.Some? && !cur.committedDone && (stop.Budget? || Settles(src, cur, stop)) then FromKey(last.value) else cur.start
  }

  /** The cursor after one step. */
  function NextCursor(src: Source, cur: Cursor, stop: Stop): (next: Cursor)
    requires Within(src, cur)
    ensures Within(src, next)
  {
    if cur.done then cur
    else
      var completes := Completes(src, cur, stop);
      Cursor(NextStart(src, cur, stop), LastRead(src, cur, stop), cur.position + PortionOf(src, cur, stop).pending,
             Settles(src, cur, stop), completes, if completes then [] else Reduces(src, cur, stop).run)
  }

  lemma {:induction false} PortionUnfolds(a: seq<Fact>, b: seq<Fact>, i: nat, j: nat, max: nat)
    requires i <= |a| && j <= |b|
    ensures var p := Portioned(a[i..], b[j..], max);
            if max == 0 || (i == |a| && j == |b|) then p == Portion([], 0, 0)
            else if j < |b| && (i == |a| || SuffixLess(b[j], a[i])) then
              var rest := Portioned(a[i..], b[j + 1..], max - 1); p == Portion([b[j]] + rest.entries, rest.committed, rest.pending + 1)
            else
              var rest := Portioned(a[i + 1..], b[j..], max - 1); p == Portion([a[i]] + rest.entries, rest.committed + 1, rest.pending)
  {
    hide SuffixLess;
    if i < |a| {
      assert a[i..][1..] == a[i + 1..];
    }
    if j < |b| {
      assert b[j..][1..] == b[j + 1..];
    }
  }

  // ── The loop ───────────────────────────────────────────────────────────────

  /** `p` is what has been read, and reading goes on from positions `i` and `j`. */
  ghost predicate ReadSoFar(a: seq<Fact>, b: seq<Fact>, max: nat, i: nat, j: nat, entries: seq<Fact>) {
    && i <= |a| && j <= |b| && |entries| == i + j <= max
    && var rest := Portioned(a[i..], b[j..], max - |entries|);
       Portioned(a, b, max) == Portion(entries + rest.entries, i + rest.committed, j + rest.pending)
  }

  lemma NothingRead(a: seq<Fact>, b: seq<Fact>, max: nat)
    ensures ReadSoFar(a, b, max, 0, 0, [])
  {
    var p := Portioned(a, b, max);
    assert a[0..] == a && b[0..] == b && [] + p.entries == p.entries;
  }

  lemma ReadOneMore(a: seq<Fact>, b: seq<Fact>, max: nat, i: nat, j: nat, entries: seq<Fact>)
    requires ReadSoFar(a, b, max, i, j, entries) && |entries| < max && (i < |a| || j < |b|)
    ensures if j < |b| && (i == |a| || SuffixLess(b[j], a[i])) then ReadSoFar(a, b, max, i, j + 1, entries + [b[j]])
            else i < |a| && ReadSoFar(a, b, max, i + 1, j, entries + [a[i]])
  {
    hide Portioned, SuffixLess;
    var left := max - |entries|;
    PortionUnfolds(a, b, i, j, left);
    if j < |b| && (i == |a| || SuffixLess(b[j], a[i])) {
      Regroup(entries, [b[j]], Portioned(a[i..], b[j + 1..], left - 1).entries);
    } else {
      Regroup(entries, [a[i]], Portioned(a[i + 1..], b[j..], left - 1).entries);
    }
  }

  lemma ReadAll(a: seq<Fact>, b: seq<Fact>, max: nat, i: nat, j: nat, entries: seq<Fact>)
    requires ReadSoFar(a, b, max, i, j, entries) && (|entries| == max || (i == |a| && j == |b|))
    ensures Portioned(a, b, max) == Portion(entries, i, j)
  {
    hide Portioned, SuffixLess;
    PortionUnfolds(a, b, i, j, max - |entries|);
    assert entries + [] == entries;
  }

  /** Reading is the same with one entry less to go, as long as it lasts. */
  ghost predicate ReadBoth(a: seq<Fact>, b: seq<Fact>, max: nat, i: nat, j: nat, entries: seq<Fact>) {
    && ReadSoFar(a, b, max, i, j, entries)
    && (|entries| < max ==> ReadSoFar(a, b, max - 1, i, j, entries))
  }

  /** After one more entry from a committed side that is not exhausted, either the budget lasts or its end went unreported. */
  lemma ReadInCommitted(a: seq<Fact>, b: seq<Fact>, max: nat, i: nat, j: nat, entries: seq<Fact>)
    requires ReadBoth(a, b, max, i, j, entries) && |entries| < max && i < |a|
    ensures var pending := j < |b| && SuffixLess(b[j], a[i]);
            if pending then ReadBoth(a, b, max, i, j + 1, entries + [b[j]]) else ReadBoth(a, b, max, i + 1, j, entries + [a[i]])
    ensures |entries| + 1 == max ==> Portioned(a, b, max - 1).committed < |a|
  {
    hide Portioned, SuffixLess, ReadSoFar;
    ReadWithin(a, b, max, i, j, entries);
    ReadOneMore(a, b, max, i, j, entries);
    if |entries| + 1 < max {
      ReadOneMore(a, b, max - 1, i, j, entries);
    } else {
      ReadAll(a, b, max - 1, i, j, entries);
    }
  }

  lemma ReadWithin(a: seq<Fact>, b: seq<Fact>, max: nat, i: nat, j: nat, entries: seq<Fact>)
    requires ReadSoFar(a, b, max, i, j, entries)
    ensures i <= |a| && j <= |b| && |entries| == i + j <= max
    ensures i == |a| ==> Portioned(a, b, max).committed == |a|
  {}

  method AcceptVisible(n: nat, r: Reduction, f: Fact) returns (next: Reduction)
    ensures next == if f.txCount <= n then Accept(r, f) else r
  {
    if f.txCount > n {
      return r;
    }
    var emitted, run := r.emitted, r.run;
    if run != [] && EntityOf(run) != f.triple.entity {
      emitted, run := emitted + Flushed(run), [];
    }
    next := Reduction(emitted, run + [f]);
  }

  lemma ReduceOneMore(run: seq<Fact>, entries: seq<Fact>, f: Fact, n: nat)
    ensures Reduce(run, AsOf(entries + [f], n)) == var r := Reduce(run, AsOf(entries, n)); if f.txCount <= n then Accept(r, f) else r
  {
    AsOfConcat(entries, [f], n);
    assert [f][1..] == [];
    if f.txCount <= n {
      assert AsOf([f], n) == [f] + [];
      assert (AsOf(entries, n) + [f])[..|AsOf(entries, n)|] == AsOf(entries, n);
    } else {
      assert AsOf(entries, n) + [] == AsOf(entries, n);
    }
  }

  /** The committed part of a step: pending entries that come first are read in between, until the budget is spent. */
  method ReadCommitted(src: Source, run: seq<Fact>, a: seq<Fact>, b: seq<Fact>, max: nat)
    returns (r: Reduction, i: nat, j: nat, open: bool, ghost entries: seq<Fact>)
    requires max > 0
    ensures ReadBoth(a, b, max, i, j, entries) && r == Reduce(run, AsOf(entries, src.n))
    ensures open ==> i == |a| && |entries| < max
    ensures !open ==> |entries| == max && Portioned(a, b, max - 1).committed < |a|
  {
    hide Portioned, SuffixLess, ReadBoth, Accept, Reduce, AsOf;
    r, i, j, open, entries := Reduction([], run), 0, 0, true, [];
    NothingReadYet(a, b, max, run, src.n);
    while open && i < |a|
      invariant ReadBoth(a, b, max, i, j, entries) && r == Reduce(run, AsOf(entries, src.n))
      invariant i <= |a| && j <= |b| && |entries| == i + j <= max
      invariant open ==> |entries| < max
      invariant !open ==> |entries| == max && Portioned(a, b, max - 1).committed < |a|
      decreases open, |a| - i, |b| - j
    {
      ReadInCommitted(a, b, max, i, j, entries);
      if j < |b| && SuffixLess(b[j], a[i]) {
        ReduceOneMore(run, entries, b[j], src.n);
        r := AcceptVisible(src.n, r, b[j]);
        j, entries := j + 1, entries + [b[j]];
      } else {
        ReduceOneMore(run, entries, a[i], src.n);
        r := AcceptVisible(src.n, r, a[i]);
        i, entries := i + 1, entries + [a[i]];
      }
      open := i + j < max;
    }
  }

  lemma NothingReadYet(a: seq<Fact>, b: seq<Fact>, max: nat, run: seq<Fact>, n: nat)
    requires max > 0
    ensures ReadBoth(a, b, max, 0, 0, []) && Reduce(run, AsOf([], n)) == Reduction([], run)
  {
    hide Portioned;
    NothingRead(a, b, max);
    NothingRead(a, b, max - 1);
  }

  /** The pending part of a step, once the committed side is done. */
  method ReadPending(src: Source, run: seq<Fact>, a: seq<Fact>, b: seq<Fact>, max: nat, before: Reduction, from: nat, ghost read: seq<Fact>)
    returns (r: Reduction, j: nat, ghost entries: seq<Fact>)
    requires ReadSoFar(a, b, max, |a|, from, read) && before == Reduce(run, AsOf(read, src.n))
    ensures Portioned(a, b, max) == Portion(entries, |a|, j) && r == Reduce(run, AsOf(entries, src.n))
  {
    hide Portioned, SuffixLess, ReadSoFar, Accept, Reduce, AsOf;
    r, j, entries := before, from, read;
    ReadWithin(a, b, max, |a|, j, entries);
    while j < |b| && |a| + j < max
      invariant ReadSoFar(a, b, max, |a|, j, entries) && r == Reduce(run, AsOf(entries, src.n))
      invariant j <= |b| && |entries| == |a| + j <= max
    {
      ReadOneMore(a, b, max, |a|, j, entries);
      ReduceOneMore(run, entries, b[j], src.n);
      r := AcceptVisible(src.n, r, b[j]);
      j, entries := j + 1, entries + [b[j]];
    }
    ReadAll(a, b, max, |a|, j, entries);
  }

  /** `step_current_attribute_cursor_inner`: committed entries with the pending ones between them, then the pending rest. */
  method StepCursor(src: Source, cur: Cursor, stop: Stop) returns (next: Cursor, emitted: seq<Emission>, entries: nat)
    requires Within(src, cur)
    ensures next == NextCursor(src, cur, stop) && emitted == Emits(src, cur, stop) && entries == |Reads(src, cur, stop)|
  {
    hide Portioned, Reduce, AsOf, Committed, Range, Past, ReadSoFar;
    if cur.done {
      return cur, [], 0;
    }
    var a, b, max := CommittedAhead(src, cur), PendingAhead(src, cur), Allowance(stop);
    var r, i, j, settled := Reduction([], cur.run), 0, 0, cur.committedDone;
    ghost var read: seq<Fact> := [];
    if max == 0 {
      NothingToRead(a, b, cur.run, src.n);
    } else {
      var open;
      r, i, j, open, read := ReadCommitted(src, cur.run, a, b, max);
      if open {
        OpenMeansSettled(a, b, max, j, read);
        settled := true;
        r, j, read := ReadPending(src, cur.run, a, b, max, r, j, read);
      } else {
        ReadAll(a, b, max, i, j, read);
      }
    }
    if stop.Failure? && stop.settled && i == |a| {
      settled := true;
    }
    var last := if i > 0 then Some(a[i - 1]) else cur.last;
    var start := if last.Some? && !cur.committedDone && (stop.Budget? || settled) then FromKey(last.value) else cur.start;
    var done := stop.Budget? && settled && cur.position + j == |PendingOf(src)|;
    if done {
      r := Reduction(r.emitted + Flushed(r.run), []);
    }
    emitted, entries := r.emitted, i + j;
    next := Cursor(start, last, cur.position + j, settled, done, r.run);
  }

  lemma NothingToRead(a: seq<Fact>, b: seq<Fact>, run: seq<Fact>, n: nat)
    ensures Portioned(a, b, 0) == Portion([], 0, 0) && Reduce(run, AsOf([], n)) == Reduction([], run)
  {}

  lemma OpenMeansSettled(a: seq<Fact>, b: seq<Fact>, max: nat, j: nat, read: seq<Fact>)
    requires ReadBoth(a, b, max, |a|, j, read) && |read| < max
    ensures ReadSoFar(a, b, max, |a|, j, read) && Portioned(a, b, max - 1).committed == |a|
  {
    hide Portioned;
    ReadWithin(a, b, max - 1, |a|, j, read);
  }

  // ── Whole walks ────────────────────────────────────────────────────────────

  /** How the first steps of a walk end, and the budget of every later one. */
  datatype Plan = Plan(stops: seq<Stop>, size: nat)

  function StopAt(plan: Plan, k: nat): Stop {
    if k < |plan.stops| then plan.stops[k] else Budget(plan.size)
  }

  function CursorAt(src: Source, plan: Plan, k: nat): (cur: Cursor)
    ensures Within(src, cur)
  {
    if k == 0 then NewCursor(src) else NextCursor(src, CursorAt(src, plan, k - 1), StopAt(plan, k - 1))
  }

  /** Everything the first `k` steps read, in order. */
  function ReadAt(src: Source, plan: Plan, k: nat): seq<Fact> {
    if k == 0 then [] else ReadAt(src, plan, k - 1) + Reads(src, CursorAt(src, plan, k - 1), StopAt(plan, k - 1))
  }

  /** Everything the first `k` steps deliver, in order. */
  function DeliveredAt(src: Source, plan: Plan, k: nat): seq<Emission> {
    if k == 0 then [] else DeliveredAt(src, plan, k - 1) + Emits(src, CursorAt(src, plan, k - 1), StopAt(plan, k - 1))
  }

  /** By then every walk is over. */
  function Horizon(src: Source, plan: Plan): nat {
    |plan.stops| + |Held(src.index)| + 1
  }

  /** What a walk reads from beginning to end. */
  function WholeWalk(src: Source, plan: Plan): seq<Fact> {
    ReadAt(src, plan, Horizon(src, plan))
  }

  /** The groups a consumer of the walk sees. */
  function WalkListing(src: Source, plan: Plan): seq<EntityGroup> {
    GroupsFrom(RunsOf(AsOf(WholeWalk(src, plan), src.n)))
  }

  // ── Deliveries are the groups of what was read ─────────────────────────────

  function Emissions(runs: seq<seq<Fact>>): seq<Emission>
    requires forall k :: 0 <= k < |runs| ==> runs[k] != []
  {
    if runs == [] then [] else Emissions(runs[..|runs| - 1]) + Flushed(runs[|runs| - 1])
  }

  function LastRun(entries: seq<Fact>): seq<Fact> {
    var runs := RunsOf(entries);
    if runs == [] then [] else runs[|runs| - 1]
  }

  function ClosedRuns(entries: seq<Fact>): (runs: seq<seq<Fact>>)
    ensures forall k :: 0 <= k < |runs| ==> runs[k] != []
  {
    var runs := RunsOf(entries);
    if runs == [] then [] else runs[..|runs| - 1]
  }

  lemma AllEmissions(entries: seq<Fact>)
    ensures Emissions(RunsOf(entries)) == Emissions(ClosedRuns(entries)) + Flushed(LastRun(entries))
  {
    if RunsOf(entries) == [] {
      assert [] + [] == Emissions([]);
    }
  }

  lemma AcceptRuns(entries: seq<Fact>, f: Fact, emitted: seq<Emission>)
    ensures var r := Accept(Reduction(emitted, LastRun(entries)), f);
            && r.run == LastRun(entries + [f])
            && (emitted == Emissions(ClosedRuns(entries)) ==> r.emitted == Emissions(ClosedRuns(entries + [f])))
  {
    hide Flush;
    var runs, more := RunsOf(entries), entries + [f];
    assert more[..|entries|] == entries;
    RunsUnfold(more);
    AllEmissions(entries);
    if runs == [] {
      assert RunsOf(more) == [] + [[f]];
    } else if EntityOf(runs[|runs| - 1]) == f.triple.entity {
      assert RunsOf(more)[..|runs| - 1] == runs[..|runs| - 1];
    } else {
      assert RunsOf(more)[..|runs|] == runs;
    }
  }

  /** Reducing from the open run of what was read before. */
  lemma {:induction false} ReduceRuns(before: seq<Fact>, entries: seq<Fact>)
    ensures var r := Reduce(LastRun(before), entries);
            && r.run == LastRun(before + entries)
            && Emissions(ClosedRuns(before)) + r.emitted == Emissions(ClosedRuns(before + entries))
  {
    hide Emissions, LastRun, ClosedRuns, Accept;
    if entries == [] {
      assert before + entries == before;
      assert Emissions(ClosedRuns(before)) + [] == Emissions(ClosedRuns(before));
    } else {
      var m := |entries| - 1;
      var front, f := entries[..m], entries[m];
      ReduceRuns(before, front);
      assert before + entries == (before + front) + [f];
      var r := Reduce(LastRun(before), front);
      AcceptRuns(before + front, f, Emissions(ClosedRuns(before)) + r.emitted);
      AcceptAdds(Emissions(ClosedRuns(before)), r, f);
    }
  }

  lemma AcceptAdds(earlier: seq<Emission>, r: Reduction, f: Fact)
    ensures Accept(Reduction(earlier + r.emitted, r.run), f) == Reduction(earlier + Accept(r, f).emitted, Accept(r, f).run)
  {
    hide Flush;
    Regroup(earlier, r.emitted, Flushed(r.run));
  }

  /** A cursor that is not done holds the open run of what it has read; one that is done has delivered everything. */
  ghost predicate Chronicles(src: Source, cur: Cursor, read: seq<Fact>, delivered: seq<Emission>) {
    var seen := AsOf(read, src.n);
    if cur.done then delivered == Emissions(RunsOf(seen))
    else cur.run == LastRun(seen) && delivered == Emissions(ClosedRuns(seen))
  }

  lemma ChronicleStep(src: Source, cur: Cursor, stop: Stop, read: seq<Fact>, delivered: seq<Emission>)
    requires Within(src, cur) && Chronicles(src, cur, read, delivered)
    ensures Chronicles(src, NextCursor(src, cur, stop), read + Reads(src, cur, stop), delivered + Emits(src, cur, stop))
  {
    hide Emissions, LastRun, ClosedRuns, Reduce, PortionOf, Settles, Completes, AsOf, NextStart, LastRead, Flushed;
    if cur.done {
      assert read + [] == read && delivered + [] == delivered;
    } else {
      var seen, more := AsOf(read, src.n), AsOf(PortionOf(src, cur, stop).entries, src.n);
      AsOfConcat(read, PortionOf(src, cur, stop).entries, src.n);
      ReduceRuns(seen, more);
      var r := Reduces(src, cur, stop);
      assert r.emitted + [] == r.emitted;
      if Completes(src, cur, stop) {
        AllEmissions(seen + more);
        Regroup(delivered, r.emitted, Flushed(r.run));
      }
    }
  }

  lemma ChronicleStart(src: Source)
    ensures Chronicles(src, NewCursor(src), [], [])
  {
    assert AsOf([], src.n) == [] && RunsOf([]) == [];
  }

  lemma {:induction false} Chronicle(src: Source, plan: Plan, k: nat)
    ensures Chronicles(src, CursorAt(src, plan, k), ReadAt(src, plan, k), DeliveredAt(src, plan, k))
  {
    hide Chronicles, NextCursor, Emits, Reads, NewCursor, Within;
    if k == 0 {
      ChronicleStart(src);
    } else {
      Chronicle(src, plan, k - 1);
      ChronicleStep(src, CursorAt(src, plan, k - 1), StopAt(plan, k - 1), ReadAt(src, plan, k - 1), DeliveredAt(src, plan, k - 1));
    }
  }

  // ── Every walk ends ────────────────────────────────────────────────────────

  lemma {:induction false} PastShrinks(entries: seq<Fact>, last: Option<Fact>, next: Fact)
    requires PastLast(next, last)
    ensures |Past(entries, Some(next))| + (if next in entries then 1 else 0) <= |Past(entries, last)| <= |entries|
  {
    hide SuffixLess;
    if entries != [] {
      PastShrinks(entries[1..], last, next);
      var f := entries[0];
      assert entries == [f] + entries[1..];
      if last.Some? && SuffixLess(next, f) {
        SuffixIsTransitive(last.value, next, f);
      }
      SuffixNotLessItself(next);
    }
  }

  /** What a cursor can still read, at most: committed entries past its resume key, of any attribute, and pending ones. */
  function Left(src: Source, cur: Cursor): (n: int)
    requires Within(src, cur)
  {
    |Past(src.index.base + src.index.delta, cur.last)| + |PendingOf(src)| - cur.position
  }

  lemma {:induction false} RangeShrinks(entries: seq<Fact>, attribute: string, start: Start)
    ensures |Range(entries, attribute, start)| <= |entries|
  {
    hide InSpan;
    if entries != [] {
      RangeShrinks(entries[1..], attribute, start);
    }
  }

  lemma LeftAtFirst(src: Source)
    ensures 0 <= Left(src, NewCursor(src)) <= |Held(src.index)|
  {
    hide Range;
    RangeShrinks(src.index.pending, src.attribute, FromEntity(src.from));
    PastNothing(src.index.base + src.index.delta);
  }

  lemma {:induction false} PastNothing(entries: seq<Fact>)
    ensures Past(entries, None) == entries
  {
    if entries != [] {
      PastNothing(entries[1..]);
      assert entries == [entries[0]] + entries[1..];
    }
  }

  /** Reading a committed entry moves the resume key up. */
  lemma LastMovesUp(src: Source, cur: Cursor, stop: Stop)
    requires Within(src, cur) && PortionOf(src, cur, stop).committed > 0
    ensures var next := LastRead(src, cur, stop).value;
            PastLast(next, cur.last) && next in src.index.base + src.index.delta
  {
    hide Portioned, SuffixLess, InSpan;
    var a, k := CommittedAhead(src, cur), PortionOf(src, cur, stop).committed;
    assert a[k - 1] in a;
  }

  /** A step leaves no more than before, and less by what it read when nothing cut it short. */
  lemma StepUses(src: Source, cur: Cursor, stop: Stop)
    requires Within(src, cur)
    ensures Left(src, NextCursor(src, cur, stop)) <= Left(src, cur)
    ensures stop.Budget? && stop.max > 0 && !NextCursor(src, cur, stop).done ==> Left(src, NextCursor(src, cur, stop)) < Left(src, cur)
  {
    hide Portioned, Past, Range, Committed, Reduce, Settles, SuffixLess;
    if !cur.done {
      var p := PortionOf(src, cur, stop);
      if p.committed > 0 {
        LastMovesUp(src, cur, stop);
        PastShrinks(src.index.base + src.index.delta, cur.last, LastRead(src, cur, stop).value);
      }
      if stop.Budget? && stop.max > 0 && !Completes(src, cur, stop) {
        YieldsFull(src, cur, stop);
      }
    }
  }

  /** A step that does not complete the walk reads as many entries as its budget allows. */
  lemma YieldsFull(src: Source, cur: Cursor, stop: Stop)
    requires Within(src, cur) && stop.Budget? && stop.max > 0 && !Completes(src, cur, stop)
    ensures |PortionOf(src, cur, stop).entries| == stop.max
  {
    hide SuffixLess, Past, Range, Committed;
    var a, b := CommittedAhead(src, cur), PendingAhead(src, cur);
    PortionFills(a, b, stop.max);
    PortionFills(a, b, stop.max - 1);
  }

  lemma {:induction false} PortionFills(a: seq<Fact>, b: seq<Fact>, max: nat)
    ensures |Portioned(a, b, max).entries| < max ==> Portioned(a, b, max).committed == |a| && Portioned(a, b, max).pending == |b|
    ensures |a| + |b| < max ==> |Portioned(a, b, max).entries| < max
    ensures |Portioned(a, b, max).entries| == if |a| + |b| < max then |a| + |b| else max
    decreases |a| + |b|
  {
    hide SuffixLess;
    if max > 0 && (a != [] || b != []) {
      if b != [] && (a == [] || SuffixLess(b[0], a[0])) {
        PortionFills(a, b[1..], max - 1);
      } else {
        PortionFills(a[1..], b, max - 1);
      }
    }
  }

  lemma DoneStep(src: Source, cur: Cursor, stop: Stop)
    requires Within(src, cur) && cur.done
    ensures NextCursor(src, cur, stop) == cur && Reads(src, cur, stop) == [] && Emits(src, cur, stop) == []
  {}

  /** Once done, a cursor reads and delivers nothing more. */
  lemma {:induction false} StaysDone(src: Source, plan: Plan, k: nat, m: nat)
    requires k <= m && CursorAt(src, plan, k).done
    ensures CursorAt(src, plan, m).done && ReadAt(src, plan, m) == ReadAt(src, plan, k) && DeliveredAt(src, plan, m) == DeliveredAt(src, plan, k)
    decreases m
  {
    hide NewCursor, Within, NextCursor, Reads, Emits;
    if k < m {
      StaysDone(src, plan, k, m - 1);
      DoneStep(src, CursorAt(src, plan, m - 1), StopAt(plan, m - 1));
      assert ReadAt(src, plan, k) + [] == ReadAt(src, plan, k) && DeliveredAt(src, plan, k) + [] == DeliveredAt(src, plan, k);
    }
  }

  lemma {:induction false} LeftAt(src: Source, plan: Plan, k: nat)
    requires plan.size > 0 && !CursorAt(src, plan, k).done
    ensures 0 <= Left(src, CursorAt(src, plan, k))
    ensures Left(src, CursorAt(src, plan, k)) <= |Held(src.index)| - (if k > |plan.stops| then k - |plan.stops| else 0)
  {
    hide NextCursor, NewCursor, Within, Left;
    if k == 0 {
      LeftAtFirst(src);
    } else {
      var cur := CursorAt(src, plan, k - 1);
      if cur.done {
        StaysDone(src, plan, k - 1, k);
      }
      LeftAt(src, plan, k - 1);
      StepUses(src, cur, StopAt(plan, k - 1));
      LeftIsNatural(src, CursorAt(src, plan, k));
    }
  }

  lemma LeftIsNatural(src: Source, cur: Cursor)
    requires Within(src, cur)
    ensures Left(src, cur) >= 0
  {}

  /** Whatever the plan, and whatever strays into the range, a walk is over by its horizon. */
  lemma WalkEnds(src: Source, plan: Plan)
    requires plan.size > 0
    ensures CursorAt(src, plan, Horizon(src, plan)).done
  {
    hide CursorAt, Left;
    if !CursorAt(src, plan, Horizon(src, plan)).done {
      LeftAt(src, plan, Horizon(src, plan));
    }
  }

  // ── The walk as a stream of groups ─────────────────────────────────────────

  /** Everything the groups deliver, grouped by entity. */
  function Stream(groups: seq<EntityGroup>): seq<Emission> {
    if groups == [] then [] else Emit(groups[0].entity, groups[0].windows) + Stream(groups[1..])
  }

  lemma {:induction false} StreamSnoc(groups: seq<EntityGroup>, g: EntityGroup)
    ensures Stream(groups + [g]) == Stream(groups) + Emit(g.entity, g.windows)
  {
    if groups == [] {
      assert groups + [g] == [g] && [g][1..] == [];
    } else {
      StreamSnoc(groups[1..], g);
      assert (groups + [g])[1..] == groups[1..] + [g];
      Regroup(Emit(groups[0].entity, groups[0].windows), Stream(groups[1..]), Emit(g.entity, g.windows));
    }
  }

  lemma StreamJoined(groups: seq<EntityGroup>, g: EntityGroup)
    ensures Stream(Joined(groups, g)) == Stream(groups) + Emit(g.entity, g.windows)
  {
    hide Stream;
    var n := |groups| - 1;
    if g.windows == [] {
      assert Stream(groups) + [] == Stream(groups);
    } else if groups != [] && groups[n].entity == g.entity {
      var front, both := groups[..n], EntityGroup(g.entity, groups[n].windows + g.windows);
      assert groups == front + [groups[n]];
      StreamSnoc(front, groups[n]);
      StreamSnoc(front, both);
      assert Emit(g.entity, both.windows) == Emit(g.entity, groups[n].windows) + Emit(g.entity, g.windows);
      Regroup(Stream(front), Emit(g.entity, groups[n].windows), Emit(g.entity, g.windows));
    } else {
      StreamSnoc(groups, g);
    }
  }

  lemma {:induction false} StreamOfRuns(runs: seq<seq<Fact>>)
    requires forall k :: 0 <= k < |runs| ==> runs[k] != []
    ensures Stream(GroupsFrom(runs)) == Emissions(runs)
  {
    hide Stream, Flush, Joined;
    if runs == [] {
      NoStream();
    } else {
      var front, run := runs[..|runs| - 1], runs[|runs| - 1];
      StreamOfRuns(front);
      StreamJoined(GroupsFrom(front), EntityGroup(EntityOf(run), Flush(run)));
    }
  }

  lemma NoStream()
    ensures Stream([]) == []
  {}

  /** What a walk delivers from beginning to end is the stream of its groups. */
  lemma WalkDelivers(src: Source, plan: Plan)
    requires plan.size > 0
    ensures DeliveredAt(src, plan, Horizon(src, plan)) == Stream(WalkListing(src, plan))
  {
    hide CursorAt, ReadAt, DeliveredAt, Horizon, Stream, GroupsFrom, RunsOf, Emissions, AsOf;
    WalkEnds(src, plan);
    Chronicle(src, plan, Horizon(src, plan));
    StreamOfRuns(RunsOf(AsOf(WholeWalk(src, plan), src.n)));
  }

  lemma {:induction false} DeliveriesGrow(src: Source, plan: Plan, k: nat, m: nat)
    requires k <= m
    ensures DeliveredAt(src, plan, k) <= DeliveredAt(src, plan, m)
    decreases m
  {
    hide CursorAt, Emits;
    if k < m {
      DeliveriesGrow(src, plan, k, m - 1);
    }
  }

  lemma NextSlice<T>(stream: seq<T>, before: seq<T>, more: seq<T>)
    requires before + more <= stream
    ensures |before| + |more| <= |stream| && more == stream[|before|..][..|more|] && before + more == stream[..|before| + |more|]
  {
    assert stream[..|before| + |more|] == before + more;
    SliceOfRest(stream, |before|, 0, |more|);
  }

  /** Each step delivers the next windows of the walk's stream; a step that completes the walk, all that remain. */
  lemma StepDelivers(src: Source, plan: Plan, k: nat)
    requires plan.size > 0
    ensures var stream, before := Stream(WalkListing(src, plan)), |DeliveredAt(src, plan, k)|;
            var emitted := Emits(src, CursorAt(src, plan, k), StopAt(plan, k));
            && before + |emitted| <= |stream|
            && emitted == stream[before..][..|emitted|]
            && DeliveredAt(src, plan, k + 1) == stream[..before + |emitted|]
            && (CursorAt(src, plan, k + 1).done ==> before + |emitted| == |stream|)
  {
    hide CursorAt, Emits, Stream, WalkListing, DeliveredAt, Horizon;
    WalkDelivers(src, plan);
    DeliveredStep(src, plan, k);
    var h := Horizon(src, plan);
    if k + 1 <= h {
      DeliveriesGrow(src, plan, k + 1, h);
      if CursorAt(src, plan, k + 1).done {
        StaysDone(src, plan, k + 1, h);
      }
    } else {
      WalkEnds(src, plan);
      StaysDone(src, plan, h, k + 1);
    }
    NextSlice(Stream(WalkListing(src, plan)), DeliveredAt(src, plan, k), Emits(src, CursorAt(src, plan, k), StopAt(plan, k)));
  }

  lemma DeliveredStep(src: Source, plan: Plan, k: nat)
    ensures DeliveredAt(src, plan, k + 1) == DeliveredAt(src, plan, k) + Emits(src, CursorAt(src, plan, k), StopAt(plan, k))
  {
    hide CursorAt, Emits;
  }

  lemma {:induction false} ReadsExtend(src: Source, plan: Plan, k: nat, m: nat)
    requires k <= m
    ensures |ReadAt(src, plan, k)| <= |ReadAt(src, plan, m)|
    decreases m
  {
    hide CursorAt, Reads;
    if k < m {
      ReadsExtend(src, plan, k, m - 1);
    }
  }

  /** No prefix of a walk reads more than the whole. */
  lemma ReadsGrow(src: Source, plan: Plan, k: nat)
    requires plan.size > 0
    ensures |ReadAt(src, plan, k)| <= |WholeWalk(src, plan)|
  {
    hide ReadAt, Horizon, CursorAt;
    var h := Horizon(src, plan);
    if k <= h {
      ReadsExtend(src, plan, k, h);
    } else {
      WalkEnds(src, plan);
      StaysDone(src, plan, h, k);
    }
  }
}
