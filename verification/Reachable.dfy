/**
 What batches a client can hand to the write path, and what every log reached from them avoids: the
 two reserved starts never name an assertion's window, so a forget keeps its promise on every such log.
 */
module Reachable {
  import opened Bytes
  import opened Ledger
  import opened Wal
  import opened Machine
  import opened Recovery
  import Forget
  import Guarantees

  /** Calendar timestamps in milliseconds lie well inside this bound; the calendar library's range is narrower. */
  const TIMESTAMP_BOUND: int := 10_000_000_000_000_000

  predicate Timestamp(t: int) {
    -TIMESTAMP_BOUND < t < TIMESTAMP_BOUND
  }

  /** A fact of a parsed command: its start is a timestamp, left to the transaction time, or the unscoped marker of a retraction. */
  predicate FromCommand(f: Fact) {
    f.from == USE_TX_TIME || Timestamp(f.from) || Unscoped(f)
  }

  ghost predicate ClosureBatch(log: seq<Fact>, triples: seq<Triple>, at: int, facts: seq<Fact>) {
    forall i :: 0 <= i < |facts| ==> Forget.Closure(log, triples, at, facts[i])
  }

  /** A parsed command, or the closure batch of a forget at the current log. */
  ghost predicate ClientBatch(log: seq<Fact>, facts: seq<Fact>) {
    || (forall i :: 0 <= i < |facts| ==> FromCommand(facts[i]))
    || (exists triples, at :: ClosureBatch(log, triples, at, facts))
  }

  /** Every batch of the run is a client's. */
  ghost predicate ClientRun(fmt: Format, s: System, steps: seq<Step>)
    requires Runs(fmt, s, steps)
    decreases steps
  {
    steps == [] || ((steps[0].Begin? ==> ClientBatch(MemoryLog(s), steps[0].facts))
                    && ClientRun(fmt, Next(fmt, s, steps[0]), steps[1..]))
  }

  /** The start is resolved, and an assertion's is not the retract-everything marker. */
  predicate Resolved(f: Fact) {
    f.from != USE_TX_TIME && (f.asserted ==> f.from != RETRACT_ALL_FROM)
  }

  ghost predicate ResolvedFacts(fs: seq<Fact>) {
    forall i :: 0 <= i < |fs| ==> Resolved(fs[i])
  }

  ghost predicate ResolvedEntries(es: seq<Entry>) {
    forall i :: 0 <= i < |es| ==> ResolvedFacts(es[i].facts)
  }

  ghost predicate ResolvedSystem(s: System) {
    && ResolvedEntries(s.hist.base) && ResolvedEntries(s.hist.memory) && ResolvedEntries(s.hist.logged)
    && (s.proc.Open? && (s.proc.phase.Allocated? || s.proc.phase.Appended?) ==> ResolvedFacts(s.proc.phase.entry.facts))
  }

  // ── Batches ────────────────────────────────────────────────────────────────

  lemma ClosureFact(log: seq<Fact>, triples: seq<Triple>, at: int, f: Fact)
    requires ResolvedFacts(log) && Forget.Closure(log, triples, at, f)
    ensures Resolved(f)
  {
    var w :| Forget.Closes(log, w, at) && w.triple == f.triple && (f == Forget.Retraction(w) || (w.from < at && f == Forget.Truncated(w, at)));
    var a :| Upholds(log, a, w);
    var i :| 0 <= i < |log| && log[i] == a;
    assert Resolved(a);
  }

  /** Stamping a client's batch leaves every start resolved. */
  lemma StampedIsResolved(log: seq<Fact>, facts: seq<Fact>, tx: nat, now: nat)
    requires ResolvedFacts(log) && ClientBatch(log, facts)
    ensures ResolvedFacts(StampAll(facts, tx, now))
  {
    hide Forget.Closure;
    var stamped := StampAll(facts, tx, now);
    if triples, at :| ClosureBatch(log, triples, at, facts) {
      forall i | 0 <= i < |stamped|
        ensures Resolved(stamped[i])
      {
        ClosureFact(log, triples, at, facts[i]);
      }
    }
  }

  // ── Every step ─────────────────────────────────────────────────────────────

  lemma ResolvedLog(es: seq<Entry>)
    requires AllStamped(es) && ResolvedEntries(es)
    ensures ResolvedFacts(LogOf(es))
  {
    hide LogOf;
    LogCounts(es);
    forall k | 0 <= k < |LogOf(es)|
      ensures Resolved(LogOf(es)[k])
    {
      var f := LogOf(es)[k];
      assert f in LogOf(es);
      var i :| 0 <= i < |es| && es[i].tx == f.txCount && f in es[i].facts;
    }
  }

  lemma ResolvedAbove(es: seq<Entry>, w: nat)
    requires ResolvedEntries(es)
    ensures ResolvedEntries(Above(es, w))
  {
    hide Above;
    AboveHas(es, w);
    forall i | 0 <= i < |Above(es, w)|
      ensures ResolvedFacts(Above(es, w)[i].facts)
    {
      var e := Above(es, w)[i];
      assert e in Above(es, w);
      var k :| 0 <= k < |es| && es[k] == e;
    }
  }

  lemma ResolvedMemory(fmt: Format, s: System)
    requires Inv(fmt, s) && ResolvedSystem(s) && s.proc.Open?
    ensures ResolvedFacts(MemoryLog(s))
  {
    hide LogOf, Above, WalShape, LoadAll;
    ResolvedLog(s.hist.base);
    ResolvedLog(s.hist.memory);
    if s.proc.phase.Appended? {
      var part := s.proc.phase.entry.facts[..s.proc.phase.applied];
      LoadAllFrom([], part);
      forall k | 0 <= k < |LoadAll([], part)|
        ensures Resolved(LoadAll([], part)[k])
      {
        assert LoadAll([], part)[k] in LoadAll([], part);
      }
    }
  }

  lemma ResolvedOpen(fmt: Format, s: System, landed: nat, opts: Options)
    requires Sound(fmt) && Inv(fmt, s) && Enabled(fmt, s, OpenDb(landed, opts)) && ResolvedSystem(s)
    ensures ResolvedSystem(Next(fmt, s, OpenDb(landed, opts)))
  {
    hide LogOf, Above, ReadFile, ResolvedFacts, ReplayFacts, MaxCount, ReplayCount, WithHeader;
    if s.disk.wal.Some? {
      ShapeReads(fmt, s.disk.wal.value, s.hist.logged, s.hist.tail);
      ResolvedAbove(s.hist.logged, s.disk.watermark);
    }
  }

  lemma ResolvedBegin(fmt: Format, s: System, facts: seq<Fact>, now: nat)
    requires Inv(fmt, s) && Enabled(fmt, s, Begin(facts, now)) && ResolvedSystem(s) && ClientBatch(MemoryLog(s), facts)
    ensures ResolvedSystem(Next(fmt, s, Begin(facts, now)))
  {
    hide ResolvedFacts, ClientBatch, MemoryLog, StampAll, Inv;
    ResolvedMemory(fmt, s);
    StampedIsResolved(MemoryLog(s), facts, s.proc.counter + 1, now);
  }

  lemma ResolvedOther(fmt: Format, s: System, step: Step)
    requires Enabled(fmt, s, step) && ResolvedSystem(s) && !step.OpenDb? && !step.Begin?
    ensures ResolvedSystem(Next(fmt, s, step))
  {
    hide EntryBytes, ReadFile, Writable, ResolvedFacts, Load, Header;
  }

  lemma ResolvedStep(fmt: Format, s: System, step: Step)
    requires Sound(fmt) && Inv(fmt, s) && Enabled(fmt, s, step) && ResolvedSystem(s)
    requires step.Begin? ==> ClientBatch(MemoryLog(s), step.facts)
    ensures ResolvedSystem(Next(fmt, s, step))
  {
    hide Inv, Enabled, Next, ResolvedSystem, ClientBatch;
    match step {
      case OpenDb(landed, opts) => ResolvedOpen(fmt, s, landed, opts);
      case Begin(facts, now) => ResolvedBegin(fmt, s, facts, now);
      case _ => ResolvedOther(fmt, s, step);
    }
  }

  lemma {:induction false} ResolvedRun(fmt: Format, s: System, steps: seq<Step>)
    requires Sound(fmt) && Inv(fmt, s) && ResolvedSystem(s)
    requires Runs(fmt, s, steps) && CarefulRun(fmt, s, steps) && ClientRun(fmt, s, steps)
    ensures Inv(fmt, Run(fmt, s, steps)) && ResolvedSystem(Run(fmt, s, steps))
    decreases steps
  {
    hide Inv, ResolvedSystem, Enabled, Careful, Next, ClientBatch;
    if steps != [] {
      StepKeeps(fmt, s, steps[0]);
      ResolvedStep(fmt, s, steps[0]);
      ResolvedRun(fmt, Next(fmt, s, steps[0]), steps[1..]);
    }
  }

  /** What one process holds, while it stays open. */
  ghost predicate ResolvedProcess(s: System) {
    && s.proc.Open? && ResolvedFacts(MemoryLog(s))
    && (s.proc.phase.Allocated? || s.proc.phase.Appended? ==> ResolvedFacts(s.proc.phase.entry.facts))
  }

  lemma ResolvedLoad(published: seq<Fact>, pending: seq<Fact>, f: Fact)
    requires ResolvedFacts(published + pending) && Resolved(f)
    ensures ResolvedFacts(published + Load(pending, f))
  {
    var log, more := published + pending, published + Load(pending, f);
    forall i | 0 <= i < |more|
      ensures Resolved(more[i])
    {
      assert i < |log| ==> more[i] == log[i];
    }
  }

  /** A step of an open process keeps what it holds resolved, whatever became of earlier appends. */
  lemma ProcessStep(fmt: Format, s: System, step: Step)
    requires ResolvedProcess(s) && Enabled(fmt, s, step) && !step.Crash? && !step.Close?
    requires step.Begin? ==> ClientBatch(MemoryLog(s), step.facts)
    ensures ResolvedProcess(Next(fmt, s, step))
  {
    hide EntryBytes, ReadFile, Writable, ClientBatch;
    match step {
      case Begin(facts, now) => StampedIsResolved(MemoryLog(s), facts, s.proc.counter + 1, now);
      case ApplyFact => ResolvedLoad(s.disk.published, s.proc.pending, s.proc.phase.entry.facts[s.proc.phase.applied]);
      case _ =>
    }
  }

  lemma {:induction false} ProcessRun(fmt: Format, s: System, steps: seq<Step>)
    requires ResolvedProcess(s) && Runs(fmt, s, steps) && ClientRun(fmt, s, steps) && Guarantees.StaysOpen(steps)
    ensures ResolvedProcess(Run(fmt, s, steps))
    decreases steps
  {
    hide ResolvedProcess, Enabled, Next, ClientBatch;
    if steps != [] {
      ProcessStep(fmt, s, steps[0]);
      ProcessRun(fmt, Next(fmt, s, steps[0]), steps[1..]);
    }
  }

  /** A client's run: careful up to some point, and from there on without a reopen, however its appends end. */
  ghost predicate ReachedBy(fmt: Format, past: seq<Step>, since: seq<Step>, s: System) {
    && Runs(fmt, Fresh, past) && CarefulRun(fmt, Fresh, past) && ClientRun(fmt, Fresh, past)
    && var t := Run(fmt, Fresh, past);
       t.proc.Open? && Runs(fmt, t, since) && ClientRun(fmt, t, since) && Guarantees.StaysOpen(since) && s == Run(fmt, t, since)
  }

  /** In every log a client can reach, no start is left unresolved and no assertion starts at the retract-everything marker. */
  lemma ReachableLogs(fmt: Format, past: seq<Step>, since: seq<Step>, s: System)
    requires Sound(fmt) && ReachedBy(fmt, past, since, s)
    ensures s.proc.Open? && ResolvedFacts(MemoryLog(s))
  {
    hide Inv, Runs, CarefulRun, ClientRun, Run, ResolvedFacts;
    FreshInv(fmt);
    FreshIsResolved();
    ResolvedRun(fmt, Fresh, past);
    ResolvedMemory(fmt, Run(fmt, Fresh, past));
    ProcessRun(fmt, Run(fmt, Fresh, past), since);
  }

  lemma FreshIsResolved()
    ensures ResolvedSystem(Fresh)
  {}

  // ── Forgetting ─────────────────────────────────────────────────────────────

  lemma ResolvedIsClosable(log: seq<Fact>, t: Triple, at: int)
    requires ResolvedFacts(log)
    ensures Forget.Closable(log, t, at)
  {
    forall a | a in log && a.asserted
      ensures a.from != RETRACT_ALL_FROM
    {
      var i :| 0 <= i < |log| && log[i] == a;
      assert Resolved(log[i]);
    }
  }

  /** On every log a client can reach, a forget closes exactly the right windows of every named triple. */
  lemma ReachableForget(fmt: Format, past: seq<Step>, since: seq<Step>, s: System, triples: seq<Triple>, at: int, tx: nat, now: nat,
                        after: seq<Fact>, t: Triple)
    requires Sound(fmt) && ReachedBy(fmt, past, since, s) && s.proc.Open?
    requires Forget.Forgotten(MemoryLog(s), triples, at, tx, now, after) && t in triples
    ensures Forget.ClosedExactly(MemoryLog(s), after, t, at)
  {
    hide ReachedBy, ResolvedFacts, Forget.Forgotten, Forget.Closable, Forget.ClosedExactly, MemoryLog;
    ReachableLogs(fmt, past, since, s);
    ResolvedIsClosable(MemoryLog(s), t, at);
    Forget.ForgetIsExact(MemoryLog(s), triples, at, tx, now, after, t);
  }
}
