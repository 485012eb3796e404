/**
 What the step system guarantees beyond recovery: pinned read views, the checkpoint policy,
 and why durability needs the conditions it is stated under.
 */
module Guarantees {
  import opened Bytes
  import opened Ledger
  import opened Wal
  import opened Machine
  import opened Recovery

  // ── The durability conditions are needed ───────────────────────────────────

  /** What a reopen would find if `later` bytes were appended as well. */
  function ReopenedWith(fmt: Format, disk: Disk, later: seq<Byte>): Result<seq<Fact>>
    requires disk.wal.Some?
  {
    Reopened(fmt, disk.(wal := Some(disk.wal.value + later)))
  }

  /**
   An append behind an entry torn after twelve bytes is acknowledged, yet a reopen finds neither it nor any bytes
   appended after it in the sidecar, whatever the checksum function. Only a publish by the same process saves it.
   */
  lemma AckedBehindTearIsLost(fmt: Format, s: System, torn: Entry, later: seq<Byte>)
    requires Sound(fmt) && Inv(fmt, s) && Enabled(fmt, s, Append)
    requires Writable(fmt, torn) && |EntryBytes(fmt, torn)| > 12 && s.hist.tail == EntryBytes(fmt, torn)[..12]
    requires s.proc.phase.entry.tx % U32_LIMIT != 0
    ensures var t := Next(fmt, s, Append);
            && s.proc.phase.entry in t.hist.acked
            && t.disk.wal.Some? && ReopenedWith(fmt, t.disk, later) == Reopened(fmt, s.disk)
  {
    hide EntryBytes, LogOf, Above, ReadFile, ReplayFacts, FileOf, Writable;
    var e := s.proc.phase.entry;
    var t := Next(fmt, s, Append);
    var wal := s.disk.wal.value;
    ShapeReads(fmt, wal, s.hist.logged, s.hist.tail);
    TornShape(fmt, s);
    AppendBehindTwelveBytes(fmt, s.hist.logged, torn, e, later);
    assert EntryBytes(fmt, e)[..|EntryBytes(fmt, e)|] == EntryBytes(fmt, e);
    assert t.disk.wal.value + later == FileOf(fmt, s.hist.logged) + s.hist.tail + EntryBytes(fmt, e) + later;
  }

  lemma TornShape(fmt: Format, s: System)
    requires Inv(fmt, s) && s.proc.Open? && s.proc.writer
    ensures s.disk.wal.Some? && s.disk.wal.value == FileOf(fmt, s.hist.logged) + s.hist.tail
    ensures AllReadable(fmt, s.hist.logged)
  {
    hide LogOf, Above, FileOf;
  }

  /** A batch over the reader's cap is acknowledged, yet a reopen finds neither it nor any bytes appended after it in the sidecar. */
  lemma AckedOversizedIsLost(fmt: Format, s: System, later: seq<Byte>)
    requires Sound(fmt) && Inv(fmt, s) && Enabled(fmt, s, Append) && s.hist.tail == []
    requires |s.proc.phase.entry.facts| > MAX_FACTS_PER_ENTRY
    ensures var t := Next(fmt, s, Append);
            && s.proc.phase.entry in t.hist.acked
            && t.disk.wal.Some? && ReopenedWith(fmt, t.disk, later) == Reopened(fmt, s.disk)
  {
    hide EntryBytes, LogOf, Above, ReadFile, ReplayFacts, FileOf, Writable;
    var e := s.proc.phase.entry;
    var t := Next(fmt, s, Append);
    ShapeReads(fmt, s.disk.wal.value, s.hist.logged, s.hist.tail);
    TornShape(fmt, s);
    OversizedBatchEndsLog(fmt, s.hist.logged, e, later);
    assert EntryBytes(fmt, e)[..|EntryBytes(fmt, e)|] == EntryBytes(fmt, e);
    assert t.disk.wal.value + later == FileOf(fmt, s.hist.logged) + EntryBytes(fmt, e) + later;
  }

  lemma RunCons(fmt: Format, s: System, step: Step, rest: seq<Step>)
    requires Enabled(fmt, s, step) && Runs(fmt, Next(fmt, s, step), rest)
    ensures Runs(fmt, s, [step] + rest)
    ensures Run(fmt, s, [step] + rest) == Run(fmt, Next(fmt, s, step), rest)
  {
    hide Enabled, Next;
    assert ([step] + rest)[1..] == rest;
  }

  /** A first write fails twelve bytes into its append; the next one is acknowledged. */
  function LossySteps(opts: Options, first: seq<Fact>, second: seq<Fact>, now: nat): seq<Step> {
    [OpenDb(0, opts)] + ([Begin(first, now)] + ([OpenWriter(HEADER_SIZE)] +
    ([AppendFails(12)] + ([Begin(second, now)] + ([Append] + [])))))
  }

  function AllocatedAt(opts: Options, tx: nat, e: Entry, writer: bool): Process {
    Open(opts, [], tx, writer, 0, false, Allocated(e))
  }

  /** The disk and process reached by `LossySteps`. */
  lemma LossyRun(fmt: Format, opts: Options, first: seq<Fact>, second: seq<Fact>, now: nat)
    requires Sound(fmt)
    requires Writable(fmt, Entry(1, StampAll(first, 1, now))) && Writable(fmt, Entry(2, StampAll(second, 2, now)))
    ensures Runs(fmt, Fresh, LossySteps(opts, first, second, now))
    ensures var e1, e2 := Entry(1, StampAll(first, 1, now)), Entry(2, StampAll(second, 2, now));
            var s := Run(fmt, Fresh, LossySteps(opts, first, second, now));
            && |EntryBytes(fmt, e1)| > 12
            && s.disk == Disk([], 0, Some(Header() + EntryBytes(fmt, e1)[..12] + EntryBytes(fmt, e2)))
            && s.hist.acked == [e2]
  {
    hide EntryBytes, Header, Runs, Run, Writable;
    var e1, e2 := Entry(1, StampAll(first, 1, now)), Entry(2, StampAll(second, 2, now));
    assert |EntryBytes(fmt, e1)| > 12 by {
      EntryFields(fmt, e1);
    }
    var torn := EntryBytes(fmt, e1)[..12];
    var s0 := System(Disk([], 0, None), Open(opts, [], 0, false, 0, false, Idle), Fresh.hist);
    var s1 := s0.(proc := AllocatedAt(opts, 1, e1, false));
    assert Header()[..HEADER_SIZE] == Header();
    var s2 := s1.(disk := Disk([], 0, Some(Header())), proc := AllocatedAt(opts, 1, e1, true));
    var s3 := System(Disk([], 0, Some(Header() + torn)), Open(opts, [], 1, true, 0, false, Idle), Fresh.hist.(tail := [] + torn));
    var s4 := s3.(proc := AllocatedAt(opts, 2, e2, true));
    var s5 := Next(fmt, s4, Append);
    assert EntryBytes(fmt, e2)[..|EntryBytes(fmt, e2)|] == EntryBytes(fmt, e2);
    assert s5.disk == Disk([], 0, Some(Header() + torn + EntryBytes(fmt, e2)));
    assert Runs(fmt, s5, []) && Run(fmt, s5, []) == s5 by {
      NoSteps(fmt, s5);
    }
    RunCons(fmt, s4, Append, []);
    assert Next(fmt, s3, Begin(second, now)) == s4;
    RunCons(fmt, s3, Begin(second, now), [Append] + []);
    assert Next(fmt, s2, AppendFails(12)) == s3;
    RunCons(fmt, s2, AppendFails(12), [Begin(second, now)] + ([Append] + []));
    assert Next(fmt, s1, OpenWriter(HEADER_SIZE)) == s2;
    RunCons(fmt, s1, OpenWriter(HEADER_SIZE), [AppendFails(12)] + ([Begin(second, now)] + ([Append] + [])));
    assert Next(fmt, s0, Begin(first, now)) == s1;
    RunCons(fmt, s0, Begin(first, now), [OpenWriter(HEADER_SIZE)] + ([AppendFails(12)] + ([Begin(second, now)] + ([Append] + []))));
    assert Next(fmt, Fresh, OpenDb(0, opts)) == s0;
    RunCons(fmt, Fresh, OpenDb(0, opts), [Begin(first, now)] + ([OpenWriter(HEADER_SIZE)] + ([AppendFails(12)] + ([Begin(second, now)] + ([Append] + [])))));
  }

  lemma NoSteps(fmt: Format, s: System)
    ensures Runs(fmt, s, []) && Run(fmt, s, []) == s
  {}

  /** The process that holds the batch in memory can still save it: a publish puts every pending fact into the image. */
  lemma PublishSavesTheBatch(fmt: Format, s: System, disk: Disk)
    requires Enabled(fmt, s, Publish) && disk == Next(fmt, s, Publish).disk && disk.wal.Some? && ReadFile(fmt, disk.wal.value).Ok?
    ensures var log := Reopened(fmt, disk); log.Ok? && MemoryLog(s) <= log.value
  {
    hide ReadFile, ReplayFacts;
  }

  /** From an empty database: an acknowledged write of any batch, of which a reopen finds nothing. */
  lemma AcknowledgedWriteCanBeLost(fmt: Format, opts: Options, first: seq<Fact>, second: seq<Fact>, now: nat)
    requires Sound(fmt) && second != []
    requires Writable(fmt, Entry(1, StampAll(first, 1, now))) && Writable(fmt, Entry(2, StampAll(second, 2, now)))
    ensures Runs(fmt, Fresh, LossySteps(opts, first, second, now))
    ensures var s := Run(fmt, Fresh, LossySteps(opts, first, second, now));
            && s.hist.acked == [Entry(2, StampAll(second, 2, now))]
            && Reopened(fmt, s.disk) == Ok([])
  {
    hide EntryBytes, Header, Runs, Run, Writable, ReadFile, LossySteps, Reopened, StampAll;
    var e1, e2 := Entry(1, StampAll(first, 1, now)), Entry(2, StampAll(second, 2, now));
    LossyRun(fmt, opts, first, second, now);
    AppendBehindTwelveBytes(fmt, [], e1, e2, []);
    var torn, b := EntryBytes(fmt, e1)[..12], EntryBytes(fmt, e2);
    assert FileOf(fmt, []) == Header() by { assert Header() + [] == Header(); }
    assert Header() + torn + b + [] == Header() + torn + b;
    NothingReopened(fmt, Header() + torn + b);
  }

  lemma NothingReopened(fmt: Format, file: seq<Byte>)
    requires ReadFile(fmt, file) == Ok([])
    ensures Reopened(fmt, Disk([], 0, Some(file))) == Ok([])
  {
    hide ReadFile;
    var none: seq<Fact> := [];
    assert none + ReplayFacts([], [], 0) == [];
  }

  // ── Pinned read views ──────────────────────────────────────────────────────

  /** `read_view`: taken while nobody holds the write lock; a future cursor is refused. */
  function ReadView(s: System, asOf: Option<nat>): (r: Result<nat>)
    requires s.proc.Open? && s.proc.phase.Idle?
    ensures r.Ok? <==> asOf.None? || asOf.value <= s.proc.counter
    ensures r.Ok? ==> r.value == if asOf.Some? then asOf.value else s.proc.counter
  {
    match asOf
    case None => Ok(s.proc.counter)
    case Some(n) => if n > s.proc.counter then Err("as_of is newer than the current transaction") else Ok(n)
  }

  /** Whatever is still being written carries a count above `n`. */
  ghost predicate Pinned(s: System, n: nat) {
    && s.proc.Open?
    && n <= s.proc.counter
    && (s.proc.phase.Allocated? || s.proc.phase.Appended? ==> Stamped(s.proc.phase.entry) && s.proc.phase.entry.tx > n)
  }

  predicate StaysOpen(steps: seq<Step>) {
    forall i :: 0 <= i < |steps| ==> !steps[i].Crash? && !steps[i].Close?
  }

  lemma PinnedStep(fmt: Format, s: System, step: Step, n: nat)
    requires Pinned(s, n) && Enabled(fmt, s, step) && !step.Crash? && !step.Close?
    ensures Pinned(Next(fmt, s, step), n)
    ensures AsOf(MemoryLog(Next(fmt, s, step)), n) == AsOf(MemoryLog(s), n)
  {
    hide ReadFile, EntryBytes, Writable, AsOf;
    var t := Next(fmt, s, step);
    if step.ApplyFact? {
      var f := s.proc.phase.entry.facts[s.proc.phase.applied];
      SnocInvisible(MemoryLog(s), f, n);
      assert t.proc.pending == s.proc.pending || MemoryLog(t) == MemoryLog(s) + [f];
    } else if step.Publish? {
      assert MemoryLog(t) == MemoryLog(s);
    }
  }

  lemma SnocInvisible(log: seq<Fact>, f: Fact, n: nat)
    requires f.txCount > n
    ensures AsOf(log + [f], n) == AsOf(log, n)
  {
    AsOfConcat(log, [f], n);
    assert [f][1..] == [];
  }

  lemma {:induction false} PinnedRun(fmt: Format, s: System, steps: seq<Step>, n: nat)
    requires Pinned(s, n) && Runs(fmt, s, steps) && StaysOpen(steps)
    ensures Run(fmt, s, steps).proc.Open?
    ensures AsOf(MemoryLog(Run(fmt, s, steps)), n) == AsOf(MemoryLog(s), n)
    decreases steps
  {
    hide Enabled, Next, MemoryLog, AsOf;
    if steps != [] {
      PinnedStep(fmt, s, steps[0], n);
      PinnedRun(fmt, Next(fmt, s, steps[0]), steps[1..], n);
    }
  }

  /** The transactions with a count of at most `n`. */
  function Below(es: seq<Entry>, n: nat): seq<Entry> {
    if es == [] then []
    else if es[0].tx <= n then [es[0]] + Below(es[1..], n)
    else Below(es[1..], n)
  }

  /** A snapshot of a log of whole transactions is a log of whole transactions. */
  lemma {:induction false} SnapshotIsWhole(es: seq<Entry>, n: nat)
    requires AllStamped(es)
    ensures AsOf(LogOf(es), n) == LogOf(Below(es, n))
  {
    if es == [] {
    } else {
      var e := es[0];
      BatchCounts(e);
      SnapshotIsWhole(es[1..], n);
      AsOfConcat(LoadAll([], e.facts), LogOf(es[1..]), n);
      if e.tx <= n {
        AsOfAll(LoadAll([], e.facts), n);
        assert ([e] + Below(es[1..], n))[1..] == Below(es[1..], n);
      } else {
        AsOfNone(LoadAll([], e.facts), n);
        assert [] + LogOf(Below(es[1..], n)) == LogOf(Below(es[1..], n));
      }
    }
  }

  /**
   A view taken between writes after any careful run shows exactly the transactions up to its
   cursor, each whole, and goes on showing exactly them through every later interleaving of
   allocations, appends, single-fact loads and checkpoints, including a half-applied batch.
   */
  lemma ViewsAreAtomicSnapshots(fmt: Format, past: seq<Step>, asOf: Option<nat>, more: seq<Step>)
    requires Sound(fmt) && Runs(fmt, Fresh, past) && CarefulRun(fmt, Fresh, past)
    requires var s := Run(fmt, Fresh, past);
             s.proc.Open? && s.proc.phase.Idle? && Runs(fmt, s, more)
    requires StaysOpen(more)
    ensures var s := Run(fmt, Fresh, past);
            var view := ReadView(s, asOf);
            view.Ok? ==>
              var t := Run(fmt, s, more);
              t.proc.Open? && AsOf(MemoryLog(t), view.value) == LogOf(Below(s.hist.base + s.hist.memory, view.value))
  {
    hide Inv, Runs, CarefulRun, Run, MemoryLog, AsOf, LogOf, Below;
    var s := Run(fmt, Fresh, past);
    FreshInv(fmt);
    RunKeeps(fmt, Fresh, past);
    IdleMemory(fmt, s);
    if ReadView(s, asOf).Ok? {
      var n := ReadView(s, asOf).value;
      SnapshotIsWhole(s.hist.base + s.hist.memory, n);
      PinnedRun(fmt, s, more, n);
    }
  }

  lemma IdleMemory(fmt: Format, s: System)
    requires Inv(fmt, s) && s.proc.Open? && s.proc.phase.Idle?
    ensures MemoryLog(s) == LogOf(s.hist.base + s.hist.memory)
    ensures AllStamped(s.hist.base + s.hist.memory)
  {
    hide LogOf, Above, WalShape;
    LogConcat(s.hist.base, s.hist.memory);
  }

  /** Without the lock a cursor could be captured half way through a batch, and would show it torn. */
  lemma UnlockedViewIsTorn(fmt: Format, s: System)
    requires Inv(fmt, s) && s.proc.Open? && s.proc.phase.Appended?
    requires var p := s.proc.phase;
             0 < p.applied < |p.entry.facts| && p.entry.facts[p.applied] !in p.entry.facts[..p.applied]
    ensures var p := s.proc.phase;
            var snapshot := AsOf(MemoryLog(s), s.proc.counter);
            p.entry.facts[0] in snapshot && p.entry.facts[p.applied] !in snapshot
  {
    hide LogOf, Above, WalShape, LoadAll, DiskInv;
    var e, k := s.proc.phase.entry, s.proc.phase.applied;
    LoadAllFrom([], e.facts[..k]);
    assert e.facts[0] == e.facts[..k][0];
    MemoryIsOlder(s, e);
    PublishedIsOlder(fmt, s);
  }

  lemma PublishedIsOlder(fmt: Format, s: System)
    requires DiskInv(fmt, s.disk, s.hist)
    ensures forall f :: f in s.disk.published ==> f.txCount <= s.disk.watermark
  {
    hide LogOf, Above, WalShape;
    LogCounts(s.hist.base);
    UpToMembers(s.hist.base, s.disk.watermark);
  }

  // ── Checkpoint policy ──────────────────────────────────────────────────────

  predicate NoMaintenance(steps: seq<Step>) {
    forall i :: 0 <= i < |steps| ==> steps[i] != Checkpoint(false)
  }

  ghost predicate NotDue(s: System) {
    s.proc.Open? ==> !s.proc.phase.Checkpointing? && !s.proc.phase.Published? && (s.proc.phase.Appended? ==> !s.proc.phase.due)
  }

  /** The process, if open, and every later open in the run choose explicit maintenance. */
  predicate Explicit(s: System, steps: seq<Step>) {
    && (s.proc.Open? ==> s.proc.opts.policy.ExplicitMaintenance?)
    && forall i :: 0 <= i < |steps| && steps[i].OpenDb? ==> steps[i].opts.policy.ExplicitMaintenance?
  }

  /** Under explicit maintenance, no run of writes, commits, crashes, reopens and drops publishes anything. */
  lemma {:induction false} ExplicitNeverPublishes(fmt: Format, s: System, steps: seq<Step>)
    requires Explicit(s, steps) && NotDue(s)
    requires Runs(fmt, s, steps) && NoMaintenance(steps)
    ensures NotDue(Run(fmt, s, steps))
    ensures Run(fmt, s, steps).disk.published == s.disk.published
    ensures Run(fmt, s, steps).disk.watermark == s.disk.watermark
    decreases steps
  {
    if steps != [] {
      ExplicitStep(fmt, s, steps[0]);
      hide Enabled, Next;
      ExplicitNeverPublishes(fmt, Next(fmt, s, steps[0]), steps[1..]);
    }
  }

  lemma ExplicitStep(fmt: Format, s: System, step: Step)
    requires Explicit(s, [step]) && NotDue(s)
    requires Enabled(fmt, s, step) && step != Checkpoint(false)
    ensures var t := Next(fmt, s, step);
            Explicit(t, []) && NotDue(t) && t.disk.published == s.disk.published && t.disk.watermark == s.disk.watermark
  {
    assert [step][0] == step;
    hide ReadFile, EntryBytes, Writable;
  }

  /** The flag set by the append decides as the backlog does. */
  ghost predicate DueIsBacklog(s: System) {
    s.proc.Open? && s.proc.phase.Appended? ==> (s.proc.phase.due <==> s.proc.opts.policy.Automatic? && s.proc.backlog >= s.proc.opts.threshold)
  }

  lemma {:induction false} DueInRuns(fmt: Format, s: System, steps: seq<Step>)
    requires DueIsBacklog(s) && Runs(fmt, s, steps)
    ensures DueIsBacklog(Run(fmt, s, steps))
    decreases steps
  {
    if steps != [] {
      DueStep(fmt, s, steps[0]);
      hide Enabled, Next;
      DueInRuns(fmt, Next(fmt, s, steps[0]), steps[1..]);
    }
  }

  lemma DueStep(fmt: Format, s: System, step: Step)
    requires DueIsBacklog(s) && Enabled(fmt, s, step)
    ensures DueIsBacklog(Next(fmt, s, step))
  {
    hide ReadFile, EntryBytes, Writable;
  }

  /** Under the automatic policy every write that returns, with its checkpoint if due, leaves the backlog below the threshold. */
  lemma AutomaticBoundsBacklog(fmt: Format, steps: seq<Step>, last: Step)
    requires Runs(fmt, Fresh, steps) && Enabled(fmt, Run(fmt, Fresh, steps), last) && (last.FinishWrite? || last.Retire?)
    requires var opts := Run(fmt, Fresh, steps).proc.opts; opts.policy.Automatic? && opts.threshold >= 1
    ensures var s, t := Run(fmt, Fresh, steps), Next(fmt, Run(fmt, Fresh, steps), last);
            && (t.proc.phase.Idle? ==> t.proc.backlog < t.proc.opts.threshold)
            && (last.FinishWrite? && s.proc.backlog >= s.proc.opts.threshold ==> t.proc.phase.Checkpointing?)
  {
    DueInRuns(fmt, Fresh, steps);
  }
}
