/**
 Pinned views inside one process, with no condition on how earlier writes ended: a view shows what
 the process opened with and whole transactions applied since, and keeps showing exactly that.
 */
module Views {
  import opened Bytes
  import opened Ledger
  import opened Wal
  import opened Machine
  import opened Recovery
  import opened Guarantees

  // ── Counts in any run ──────────────────────────────────────────────────────

  /** No fact outruns the counter, and the batch in progress carries it. */
  ghost predicate Counted(s: System) {
    s.proc.Open? ==>
      && CountsUpTo(s.proc.pending, s.proc.counter)
      && (s.proc.phase.Allocated? || s.proc.phase.Appended? ==> Stamped(s.proc.phase.entry) && s.proc.phase.entry.tx == s.proc.counter)
  }

  lemma CountedStep(fmt: Format, s: System, step: Step)
    requires Counted(s) && Enabled(fmt, s, step)
    ensures Counted(Next(fmt, s, step))
  {
    hide ReadFile, EntryBytes, Writable, ReplayFacts;
    var t := Next(fmt, s, step);
    if step.OpenDb? && t.proc.Open? {
      forall i | 0 <= i < |t.proc.pending|
        ensures t.proc.pending[i].txCount <= t.proc.counter
      {
        assert t.proc.pending[i] in t.proc.pending;
      }
    }
  }

  lemma {:induction false} CountedRun(fmt: Format, s: System, steps: seq<Step>)
    requires Counted(s) && Runs(fmt, s, steps)
    ensures Counted(Run(fmt, s, steps))
    decreases steps
  {
    hide Enabled, Next, Counted;
    if steps != [] {
      CountedStep(fmt, s, steps[0]);
      CountedRun(fmt, Next(fmt, s, steps[0]), steps[1..]);
    }
  }

  // ── What a process applies ─────────────────────────────────────────────────

  /** The non-empty batches a run finishes, in order. */
  ghost function Applied(fmt: Format, s: System, steps: seq<Step>): seq<Entry>
    requires Runs(fmt, s, steps)
    decreases steps
  {
    if steps == [] then []
    else Finished(s, steps[0]) + Applied(fmt, Next(fmt, s, steps[0]), steps[1..])
  }

  function Finished(s: System, step: Step): seq<Entry> {
    if step.FinishWrite? && s.proc.Open? && s.proc.phase.Appended? then NonEmpty(s.proc.phase.entry) else []
  }

  ghost predicate AppliedUpTo(es: seq<Entry>, n: int) {
    forall i :: 0 <= i < |es| ==> es[i].tx <= n
  }

  /** The largest count outside the batch in progress. */
  function Settled(p: Process): int
    requires p.Open?
  {
    if p.phase.Allocated? || p.phase.Appended? then p.counter - 1 else p.counter
  }

  /** Memory is what the process started with, whole transactions, and the part of the current batch applied so far. */
  ghost predicate Holds(base: seq<Fact>, applied: seq<Entry>, s: System, front: seq<Fact>) {
    && s.proc.Open? && AllStamped(applied)
    && s.disk.published + front == base + LogOf(applied)
    && CountsUpTo(front, Settled(s.proc)) && AppliedUpTo(applied, Settled(s.proc))
    && match s.proc.phase
       case Allocated(e) => s.proc.pending == front && Stamped(e) && e.tx == s.proc.counter
       case Appended(e, k, _) => k <= |e.facts| && Stamped(e) && e.tx == s.proc.counter && s.proc.pending == front + LoadAll([], e.facts[..k])
       case _ => s.proc.pending == front
  }

  function NextFront(s: System, step: Step, front: seq<Fact>): seq<Fact>
    requires s.proc.Open?
  {
    if step.FinishWrite? then s.proc.pending else if step.Publish? then [] else front
  }

  lemma ApplyHolds(fmt: Format, s: System, base: seq<Fact>, applied: seq<Entry>, front: seq<Fact>)
    requires Holds(base, applied, s, front) && Enabled(fmt, s, ApplyFact)
    ensures Holds(base, applied, Next(fmt, s, ApplyFact), front)
  {
    hide LogOf;
    var e, k := s.proc.phase.entry, s.proc.phase.applied;
    var part, f := LoadAll([], e.facts[..k]), e.facts[k];
    assert e.facts[..k + 1] == e.facts[..k] + [f];
    LoadAllSnoc([], e.facts[..k], f);
    assert f !in front;
    assert Load(front + part, f) == front + Load(part, f);
  }

  lemma FinishHolds(fmt: Format, s: System, base: seq<Fact>, applied: seq<Entry>, front: seq<Fact>)
    requires Holds(base, applied, s, front) && Enabled(fmt, s, FinishWrite)
    ensures Holds(base, applied + NonEmpty(s.proc.phase.entry), Next(fmt, s, FinishWrite), s.proc.pending)
  {
    hide LogOf, LoadAll;
    var e := s.proc.phase.entry;
    assert e.facts[..|e.facts|] == e.facts;
    LogConcat(applied, NonEmpty(e));
    LogOfOne(e);
    BatchCounts(e);
    var part := LoadAll([], e.facts);
    forall i | 0 <= i < |part|
      ensures part[i].txCount <= s.proc.counter
    {
      assert part[i] in part;
    }
    assert s.disk.published + (front + part) == (s.disk.published + front) + part;
    assert (base + LogOf(applied)) + part == base + (LogOf(applied) + part);
  }

  lemma HoldsStep(fmt: Format, s: System, step: Step, base: seq<Fact>, applied: seq<Entry>, front: seq<Fact>)
    requires Holds(base, applied, s, front) && Enabled(fmt, s, step) && !step.Crash? && !step.Close?
    ensures Holds(base, applied + Finished(s, step), Next(fmt, s, step), NextFront(s, step, front))
  {
    hide LogOf, LoadAll, ReadFile, EntryBytes, Writable;
    if step.ApplyFact? {
      assert applied + [] == applied;
      ApplyHolds(fmt, s, base, applied, front);
    } else if step.FinishWrite? {
      FinishHolds(fmt, s, base, applied, front);
    } else {
      assert applied + [] == applied;
      var t := Next(fmt, s, step);
      assert step.Publish? ==> t.disk.published + [] == s.disk.published + front;
      assert step.Append? ==> t.proc.phase.entry.facts[..0] == [] && front + [] == front;
      LoadNothing();
    }
  }

  lemma LoadNothing()
    ensures LoadAll([], []) == []
  {}

  lemma {:induction false} HoldsRun(fmt: Format, s: System, steps: seq<Step>, base: seq<Fact>, applied: seq<Entry>, front: seq<Fact>)
    returns (last: seq<Fact>)
    requires Holds(base, applied, s, front) && Runs(fmt, s, steps) && StaysOpen(steps)
    ensures Holds(base, applied + Applied(fmt, s, steps), Run(fmt, s, steps), last)
    decreases steps
  {
    hide Enabled, Next, Holds;
    if steps == [] {
      assert applied + [] == applied;
      last := front;
    } else {
      HoldsStep(fmt, s, steps[0], base, applied, front);
      var more := applied + Finished(s, steps[0]);
      StillOpen(base, applied, s, front);
      last := HoldsRun(fmt, Next(fmt, s, steps[0]), steps[1..], base, more, NextFront(s, steps[0], front));
      var rest := Applied(fmt, Next(fmt, s, steps[0]), steps[1..]);
      assert more + rest == applied + (Finished(s, steps[0]) + rest);
    }
  }

  lemma StillOpen(base: seq<Fact>, applied: seq<Entry>, s: System, front: seq<Fact>)
    requires Holds(base, applied, s, front)
    ensures s.proc.Open?
  {}

  // ── Views ──────────────────────────────────────────────────────────────────

  /**
   For every run, careful or not: a view taken between writes shows the process's log as it stood at any earlier
   quiet point, and the transactions applied since then up to its cursor, each whole; and it goes on showing
   exactly that through every later interleaving of the same process.
   */
  lemma InProcessViews(fmt: Format, past: seq<Step>, since: seq<Step>, asOf: Option<nat>, later: seq<Step>)
    requires Runs(fmt, Fresh, past)
    requires var s := Run(fmt, Fresh, past); s.proc.Open? && s.proc.phase.Idle? && Runs(fmt, s, since)
    requires StaysOpen(since) && StaysOpen(later)
    requires var t := Run(fmt, Run(fmt, Fresh, past), since); t.proc.Open? && t.proc.phase.Idle? && Runs(fmt, t, later)
    ensures var s := Run(fmt, Fresh, past);
            var t := Run(fmt, s, since);
            var view := ReadView(t, asOf);
            view.Ok? ==>
              var u := Run(fmt, t, later);
              u.proc.Open? && AsOf(MemoryLog(u), view.value) == AsOf(MemoryLog(s), view.value) + LogOf(Below(Applied(fmt, s, since), view.value))
  {
    hide Runs, Run, Applied, AsOf, LogOf, Below, Counted;
    var s := Run(fmt, Fresh, past);
    var t := Run(fmt, s, since);
    NothingCounted();
    CountedRun(fmt, Fresh, past);
    QuietHolds(s);
    var last := HoldsRun(fmt, s, since, MemoryLog(s), [], s.proc.pending);
    var applied := Applied(fmt, s, since);
    assert [] + applied == applied;
    QuietMemory(MemoryLog(s), applied, t, last);
    if ReadView(t, asOf).Ok? {
      var n := ReadView(t, asOf).value;
      PinnedRun(fmt, t, later, n);
      AsOfConcat(MemoryLog(s), LogOf(applied), n);
      SnapshotIsWhole(applied, n);
    }
  }

  lemma NothingCounted()
    ensures Counted(Fresh)
  {}

  lemma QuietHolds(s: System)
    requires s.proc.Open? && s.proc.phase.Idle? && Counted(s)
    ensures Holds(MemoryLog(s), [], s, s.proc.pending)
  {
    assert LogOf([]) == [] && MemoryLog(s) + [] == MemoryLog(s);
  }

  lemma QuietMemory(base: seq<Fact>, applied: seq<Entry>, t: System, front: seq<Fact>)
    requires Holds(base, applied, t, front) && t.proc.phase.Idle?
    ensures MemoryLog(t) == base + LogOf(applied) && AllStamped(applied)
  {}
}
