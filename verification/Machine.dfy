/**
 The file-backed database as a step system: the published image, the WAL file and the open
 process, advanced one durable or in-memory action at a time, with a crash possible between
 any two of them and inside every file write.
 */
module Machine {
  import opened Bytes
  import opened Ledger
  import opened Wal

  /** `usize::MAX`, the threshold that suppresses automatic checkpoints. */
  const NEVER: nat := U64_LIMIT - 1

  datatype Policy = Automatic | ExplicitMaintenance

  /** What a process is opened with; the next open may choose differently. */
  datatype Options = Options(threshold: nat, policy: Policy)

  /** What survives a crash. `wal` is `None` while the sidecar file does not exist. */
  datatype Disk = Disk(published: seq<Fact>, watermark: nat, wal: Option<seq<Byte>>)

  /** Where the holder of the write lock stands; `Idle` means nobody holds it. */
  datatype Phase =
    | Idle
    | Allocated(entry: Entry)
    | Appended(entry: Entry, applied: nat, due: bool)
    | Checkpointing
    | Published

  datatype Process =
    | Closed
    | Open(opts: Options, pending: seq<Fact>, counter: nat, writer: bool, backlog: nat, dirty: bool, phase: Phase)

  /**
   History kept for stating results; no step's effect on disk or process depends on it.
   `logged` and `tail` split the WAL into its complete entries and what follows them, `base`
   lists the transactions in the published image, `memory` those applied since, `handed`
   every entry that reached the file whole and `acked` those whose append returned success.
   */
  datatype History = History(base: seq<Entry>, memory: seq<Entry>, logged: seq<Entry>, tail: seq<Byte>,
                             handed: seq<Entry>, acked: seq<Entry>)

  datatype System = System(disk: Disk, proc: Process, hist: History)

  const Fresh: System := System(Disk([], 0, None), Closed, History([], [], [], [], [], []))

  datatype Step =
    | OpenDb(landed: nat, opts: Options)
    | Begin(facts: seq<Fact>, now: nat)
    | OpenWriter(landed: nat)
    | GiveUp
    | Append
    | AppendFails(landed: nat)
    | ApplyFact
    | FinishWrite
    | Checkpoint(onDrop: bool)
    | Publish
    | PublishFails
    | Retire
    | RetireFails
    | Close
    | Crash

  // ── Entries and logs ───────────────────────────────────────────────────────

  /** The facts a list of transactions adds to the log; a batch's repeated facts count once. */
  function LogOf(es: seq<Entry>): seq<Fact> {
    if es == [] then [] else LoadAll([], es[0].facts) + LogOf(es[1..])
  }

  /** Non-empty entries above the watermark: what replay contributes. */
  function Above(es: seq<Entry>, watermark: nat): seq<Entry> {
    if es == [] then []
    else if es[0].tx > watermark && es[0].facts != [] then [es[0]] + Above(es[1..], watermark)
    else Above(es[1..], watermark)
  }

  function NonEmpty(e: Entry): seq<Entry> {
    if e.facts == [] then [] else [e]
  }

  /** `replay_wal`'s visitor: skip what the image already holds, load the rest fact by fact. */
  function ReplayFacts(pending: seq<Fact>, es: seq<Entry>, watermark: nat): seq<Fact>
    decreases es
  {
    if es == [] then pending
    else if es[0].tx <= watermark then ReplayFacts(pending, es[1..], watermark)
    else ReplayFacts(LoadAll(pending, es[0].facts), es[1..], watermark)
  }

  /** Entries replayed, empty ones included: the reopened handle's backlog. */
  function ReplayCount(es: seq<Entry>, watermark: nat): nat {
    if es == [] then 0 else (if es[0].tx > watermark then 1 else 0) + ReplayCount(es[1..], watermark)
  }

  /** `restore_tx_counter`: the largest count among the pending facts. */
  function MaxCount(fs: seq<Fact>): (m: nat)
    ensures forall f :: f in fs ==> f.txCount <= m
  {
    if fs == [] then 0
    else
      var rest := MaxCount(fs[1..]);
      if fs[0].txCount > rest then fs[0].txCount else rest
  }

  /** `replay_wal` never leaves the counter below the watermark. */
  function RestoredCounter(pending: seq<Fact>, watermark: nat): nat {
    if MaxCount(pending) < watermark then watermark else MaxCount(pending)
  }

  // ── Steps ──────────────────────────────────────────────────────────────────

  predicate MissingHeader(wal: Option<seq<Byte>>) {
    wal.None? || |wal.value| < HEADER_SIZE
  }

  predicate InPhase(s: System, writerOpen: bool) {
    s.proc.Open? && s.proc.phase.Allocated? && s.proc.writer == writerOpen
  }

  /**
   When a step can be taken. Each write that may be cut short says how many bytes landed;
   `GiveUp` is a write that fails before any byte of its entry does.
   */
  ghost predicate Enabled(fmt: Format, s: System, step: Step) {
    match step
    case OpenDb(landed, _) =>
      s.proc.Closed? && landed <= HEADER_SIZE && (s.disk.wal.Some? ==> ReadFile(fmt, s.disk.wal.value).Ok?)
    case Begin(_, _) =>
      s.proc.Open? && s.proc.phase.Idle?
    case OpenWriter(landed) =>
      InPhase(s, false) && landed <= HEADER_SIZE && (MissingHeader(s.disk.wal) || ValidHeader(s.disk.wal.value))
    case GiveUp =>
      s.proc.Open? && s.proc.phase.Allocated?
    case Append =>
      InPhase(s, true) && s.disk.wal.Some? && Writable(fmt, s.proc.phase.entry)
    case AppendFails(landed) =>
      && InPhase(s, true) && s.disk.wal.Some?
      && Writable(fmt, s.proc.phase.entry) && 0 < landed <= |EntryBytes(fmt, s.proc.phase.entry)|
    case ApplyFact =>
      s.proc.Open? && s.proc.phase.Appended? && s.proc.phase.applied < |s.proc.phase.entry.facts|
    case FinishWrite =>
      s.proc.Open? && s.proc.phase.Appended? && s.proc.phase.applied == |s.proc.phase.entry.facts|
    case Checkpoint(onDrop) =>
      && s.proc.Open? && s.proc.phase.Idle? && (s.proc.backlog > 0 || s.proc.dirty)
      && (onDrop ==> s.proc.opts.policy.Automatic? && s.proc.opts.threshold != NEVER)
    case Publish => s.proc.Open? && s.proc.phase.Checkpointing?
    case PublishFails => s.proc.Open? && s.proc.phase.Checkpointing?
    case Retire => s.proc.Open? && s.proc.phase.Published?
    case RetireFails => s.proc.Open? && s.proc.phase.Published?
    case Close => s.proc.Open? && s.proc.phase.Idle?
    case Crash => s.proc.Open?
  }

  /** The header is written only when the file is missing or too short to hold one. */
  function WithHeader(wal: Option<seq<Byte>>, landed: nat): seq<Byte>
    requires landed <= HEADER_SIZE
  {
    if MissingHeader(wal) then Header()[..landed] else wal.value
  }

  /** Replay, then reopen the writer if the sidecar exists; a torn header write fails the open. */
  ghost function DoOpen(fmt: Format, s: System, landed: nat, opts: Options): System
    requires s.proc.Closed? && landed <= HEADER_SIZE
    requires s.disk.wal.Some? ==> ReadFile(fmt, s.disk.wal.value).Ok?
  {
    if s.disk.wal.None? then
      s.(proc := Open(opts, [], s.disk.watermark, false, 0, false, Idle), hist := s.hist.(memory := []))
    else
      var es := ReadFile(fmt, s.disk.wal.value).value;
      var pending := ReplayFacts([], es, s.disk.watermark);
      var file := WithHeader(s.disk.wal, landed);
      if |file| < HEADER_SIZE then
        s.(disk := s.disk.(wal := Some(file)))
      else
        s.(disk := s.disk.(wal := Some(file)),
           proc := Open(opts, pending, RestoredCounter(pending, s.disk.watermark), true,
                        ReplayCount(es, s.disk.watermark), false, Idle),
           hist := s.hist.(memory := Above(es, s.disk.watermark)))
  }

  ghost function DoOpenWriter(s: System, landed: nat): System
    requires InPhase(s, false) && landed <= HEADER_SIZE
  {
    var file := WithHeader(s.disk.wal, landed);
    var proc := if |file| < HEADER_SIZE then s.proc.(phase := Idle) else s.proc.(writer := true);
    s.(disk := s.disk.(wal := Some(file)), proc := proc)
  }

  /** Bytes reach the end of the file; behind a torn entry nothing counts as logged any more. */
  ghost function Landed(fmt: Format, s: System, landed: nat): System
    requires InPhase(s, true) && s.disk.wal.Some? && landed <= |EntryBytes(fmt, s.proc.phase.entry)|
  {
    var e := s.proc.phase.entry;
    var bytes := EntryBytes(fmt, e)[..landed];
    var whole := landed == |EntryBytes(fmt, e)|;
    var hist :=
      s.hist.(handed := if whole then s.hist.handed + [e] else s.hist.handed,
              logged := if whole && s.hist.tail == [] then s.hist.logged + [e] else s.hist.logged,
              tail := if whole && s.hist.tail == [] then [] else s.hist.tail + bytes);
    s.(disk := s.disk.(wal := Some(s.disk.wal.value + bytes)), hist := hist)
  }

  ghost function DoAppend(fmt: Format, s: System): System
    requires InPhase(s, true) && s.disk.wal.Some?
  {
    var e := s.proc.phase.entry;
    var t := Landed(fmt, s, |EntryBytes(fmt, e)|);
    var due := s.proc.opts.policy.Automatic? && s.proc.backlog + 1 >= s.proc.opts.threshold;
    t.(proc := s.proc.(backlog := s.proc.backlog + 1, dirty := true, phase := Appended(e, 0, due)),
       hist := t.hist.(acked := t.hist.acked + [e]))
  }

  ghost function DoAppendFails(fmt: Format, s: System, landed: nat): System
    requires InPhase(s, true) && s.disk.wal.Some?
    requires landed <= |EntryBytes(fmt, s.proc.phase.entry)|
  {
    Landed(fmt, s, landed).(proc := s.proc.(phase := Idle))
  }

  ghost function DoApplyFact(s: System): System
    requires s.proc.Open? && s.proc.phase.Appended? && s.proc.phase.applied < |s.proc.phase.entry.facts|
  {
    var p := s.proc.phase;
    s.(proc := s.proc.(pending := Load(s.proc.pending, p.entry.facts[p.applied]), phase := p.(applied := p.applied + 1)))
  }

  ghost function DoFinishWrite(s: System): System
    requires s.proc.Open? && s.proc.phase.Appended?
  {
    var p := s.proc.phase;
    s.(proc := s.proc.(phase := if p.due then Checkpointing else Idle),
       hist := s.hist.(memory := s.hist.memory + NonEmpty(p.entry)))
  }

  /** `save` publishes every pending fact and moves the watermark to the counter, in one page-0 write. */
  ghost function DoPublish(s: System): System
    requires s.proc.Open?
  {
    System(s.disk.(published := s.disk.published + s.proc.pending, watermark := s.proc.counter),
           s.proc.(pending := [], dirty := false, phase := Published),
           s.hist.(base := s.hist.base + s.hist.memory, memory := []))
  }

  ghost function DoRetire(s: System): System
    requires s.proc.Open?
  {
    System(s.disk.(wal := None),
           s.proc.(writer := false, backlog := 0, phase := Idle),
           s.hist.(logged := [], tail := []))
  }

  ghost function Next(fmt: Format, s: System, step: Step): System
    requires Enabled(fmt, s, step)
  {
    match step
    case OpenDb(landed, opts) => DoOpen(fmt, s, landed, opts)
    case Begin(facts, now) =>
      var tx := s.proc.counter + 1;
      s.(proc := s.proc.(counter := tx, phase := Allocated(Entry(tx, StampAll(facts, tx, now)))))
    case OpenWriter(landed) => DoOpenWriter(s, landed)
    case GiveUp => s.(proc := s.proc.(phase := Idle))
    case Append => DoAppend(fmt, s)
    case AppendFails(landed) => DoAppendFails(fmt, s, landed)
    case ApplyFact => DoApplyFact(s)
    case FinishWrite => DoFinishWrite(s)
    case Checkpoint(_) => s.(proc := s.proc.(phase := Checkpointing, dirty := true))
    case Publish => DoPublish(s)
    case PublishFails => s.(proc := s.proc.(phase := Idle))
    case Retire => DoRetire(s)
    case RetireFails => s.(proc := s.proc.(writer := false, phase := Idle))
    case Close => s.(proc := Closed)
    case Crash => s.(proc := Closed)
  }

  ghost predicate Runs(fmt: Format, s: System, steps: seq<Step>)
    decreases steps
  {
    steps == [] || (Enabled(fmt, s, steps[0]) && Runs(fmt, Next(fmt, s, steps[0]), steps[1..]))
  }

  ghost function Run(fmt: Format, s: System, steps: seq<Step>): System
    requires Runs(fmt, s, steps)
    decreases steps
  {
    if steps == [] then s else Run(fmt, Next(fmt, s, steps[0]), steps[1..])
  }

  // ── What a reopen finds ────────────────────────────────────────────────────

  /** The log a process would hold after opening this disk image. */
  function Reopened(fmt: Format, disk: Disk): Result<seq<Fact>> {
    if disk.wal.None? then Ok(disk.published)
    else
      match ReadFile(fmt, disk.wal.value)
      case Err(m) => Err(m)
      case Ok(es) => Ok(disk.published + ReplayFacts([], es, disk.watermark))
  }

  /** The transactions a reopen finds, oldest first. */
  function Recovered(s: System): seq<Entry> {
    s.hist.base + Above(s.hist.logged, s.disk.watermark)
  }

  /** The in-process log: published facts, then pending ones. */
  function MemoryLog(s: System): seq<Fact>
    requires s.proc.Open?
  {
    s.disk.published + s.proc.pending
  }

  // ── The conditions durability depends on ───────────────────────────────────

  /** The WAL ends exactly at the end of an entry the reader accepts. */
  predicate EndsWhole(fmt: Format, file: seq<Byte>) {
    var r := ReadFile(fmt, file);
    |file| >= HEADER_SIZE && r.Ok? && file == FileOf(fmt, r.value)
  }

  /** Nothing is written behind an incomplete entry, and no batch exceeds the reader's cap. */
  ghost predicate Careful(fmt: Format, s: System, step: Step) {
    (step.Append? || step.AppendFails?) && InPhase(s, true) && s.disk.wal.Some? ==>
      EndsWhole(fmt, s.disk.wal.value) && |s.proc.phase.entry.facts| <= MAX_FACTS_PER_ENTRY
  }

  ghost predicate CarefulRun(fmt: Format, s: System, steps: seq<Step>)
    requires Runs(fmt, s, steps)
    decreases steps
  {
    steps == [] || (Careful(fmt, s, steps[0]) && CarefulRun(fmt, Next(fmt, s, steps[0]), steps[1..]))
  }
}
