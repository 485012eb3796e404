/**
 The write path as it runs: fields updated in place, early returns on failure, a loop over the
 batch. Every call is a run of the step system, and an object knows the whole run behind it, so the
 results about runs apply to it after any sequence of calls.
 */
module Database {
  import opened Bytes
  import opened Ledger
  import opened Wal
  import opened Machine
  import opened Recovery
  import opened Reachable
  import opened Sequences
  import Forget

  /**
   Outcomes decided by the file system: how much of a header lands, where an append breaks off
   (`None`: it completes and syncs), whether the publish and the deletion succeed.
   */
  datatype Io = Io(header: nat, append: Option<nat>, publishes: bool, deletes: bool)

  // ── Runs, put together ─────────────────────────────────────────────────────

  ghost predicate Reaches(fmt: Format, s: System, steps: seq<Step>, t: System) {
    Runs(fmt, s, steps) && Run(fmt, s, steps) == t
  }

  lemma Unmoved(fmt: Format, s: System)
    ensures Reaches(fmt, s, [], s) && CarefulRun(fmt, s, []) && ClientRun(fmt, s, [])
  {}

  lemma OneStep(fmt: Format, s: System, step: Step)
    requires Enabled(fmt, s, step)
    ensures Reaches(fmt, s, [step], Next(fmt, s, step))
    ensures Careful(fmt, s, step) ==> CarefulRun(fmt, s, [step])
    ensures (step.Begin? ==> ClientBatch(MemoryLog(s), step.facts)) ==> ClientRun(fmt, s, [step])
  {
    hide Enabled, Next, Careful, ClientBatch;
    assert [step][1..] == [];
    Unmoved(fmt, Next(fmt, s, step));
  }

  /** Two runs one after the other are a run; it is careful, or a client's, if both are. */
  lemma {:induction false} Chain(fmt: Format, s: System, a: seq<Step>, m: System, b: seq<Step>, t: System)
    requires Reaches(fmt, s, a, m) && Reaches(fmt, m, b, t)
    ensures Reaches(fmt, s, a + b, t)
    ensures CarefulRun(fmt, s, a) && CarefulRun(fmt, m, b) ==> CarefulRun(fmt, s, a + b)
    ensures ClientRun(fmt, s, a) && ClientRun(fmt, m, b) ==> ClientRun(fmt, s, a + b)
    decreases a
  {
    hide Enabled, Next, Careful, ClientBatch;
    if a == [] {
      assert a + b == b;
    } else {
      Chain(fmt, Next(fmt, s, a[0]), a[1..], m, b, t);
      assert (a + b)[1..] == a[1..] + b;
    }
  }

  lemma ReachesMore(fmt: Format, s: System, steps: seq<Step>, t: System, step: Step)
    requires Reaches(fmt, s, steps, t) && Enabled(fmt, t, step)
    ensures Reaches(fmt, s, steps + [step], Next(fmt, t, step))
    ensures CarefulRun(fmt, s, steps) && Careful(fmt, t, step) ==> CarefulRun(fmt, s, steps + [step])
    ensures ClientRun(fmt, s, steps) && !step.Begin? ==> ClientRun(fmt, s, steps + [step])
  {
    hide Enabled, Next, Careful, ClientBatch, Reaches, CarefulRun, ClientRun;
    OneStep(fmt, t, step);
    Chain(fmt, s, steps, t, [step], Next(fmt, t, step));
  }

  /** Steps that append nothing and start no batch. */
  predicate Quiet(steps: seq<Step>) {
    forall i :: 0 <= i < |steps| ==> !steps[i].Append? && !steps[i].AppendFails? && !steps[i].Begin?
  }

  lemma {:induction false} QuietIsCareful(fmt: Format, s: System, steps: seq<Step>)
    requires Runs(fmt, s, steps) && Quiet(steps)
    ensures CarefulRun(fmt, s, steps) && ClientRun(fmt, s, steps)
    decreases steps
  {
    hide Enabled, Next;
    if steps != [] {
      QuietIsCareful(fmt, Next(fmt, s, steps[0]), steps[1..]);
    }
  }

  // ── The WAL ends whole ─────────────────────────────────────────────────────

  /** The sidecar is missing, too short for a header, or ends at the end of an entry the reader accepts. */
  predicate WalWhole(fmt: Format, wal: Option<seq<Byte>>) {
    MissingHeader(wal) || EndsWhole(fmt, wal.value)
  }

  lemma HeaderEndsWhole(fmt: Format)
    requires Sound(fmt)
    ensures EndsWhole(fmt, Header())
  {
    hide Header, ReadFile;
    RoundTrip(fmt, []);
    assert FileOf(fmt, []) == Header() by { assert Header() + [] == Header(); }
    assert |Header()| == HEADER_SIZE;
  }

  /** In a reachable state the WAL is whole exactly when nothing follows its complete entries. */
  lemma WholeIsNoTail(fmt: Format, s: System)
    requires Sound(fmt) && Inv(fmt, s)
    ensures WalWhole(fmt, s.disk.wal) <==> s.hist.tail == []
  {
    hide LogOf, Above, EndsWhole, Transactions;
    if !MissingHeader(s.disk.wal) {
      if EndsWhole(fmt, s.disk.wal.value) {
        WholeHasNoTail(fmt, s.disk.wal.value, s.hist.logged, s.hist.tail);
      }
      if s.hist.tail == [] {
        FileEndsWhole(fmt, s.hist.logged, s.disk.wal.value);
      }
    }
  }

  lemma FileEndsWhole(fmt: Format, es: seq<Entry>, file: seq<Byte>)
    requires Sound(fmt) && AllReadable(fmt, es) && file == FileOf(fmt, es) + []
    ensures EndsWhole(fmt, file)
  {
    hide Header, ReadFile, EntriesBytes;
    assert FileOf(fmt, es) + [] == FileOf(fmt, es);
    RoundTrip(fmt, es);
    assert |FileOf(fmt, es)| >= |Header()| == HEADER_SIZE;
  }

  class FileDatabase {
    const fmt: Format
    const opts: Options
    var disk: Disk
    var pending: seq<Fact>
    var counter: nat
    var writer: bool
    var backlog: nat
    var dirty: bool
    ghost var hist: History
    /** Every step since the file was created, by this and earlier processes. */
    ghost var past: seq<Step>

    /** The system this object represents while the lock holder is at `phase`. */
    ghost function At(phase: Phase): System
      reads this
    {
      System(disk, Open(opts, pending, counter, writer, backlog, dirty, phase), hist)
    }

    ghost predicate Valid()
      reads this
    {
      Reaches(fmt, Fresh, past, At(Idle)) && (writer ==> disk.wal.Some?)
    }

    /** No append so far landed behind an incomplete entry or exceeded the reader's cap. */
    ghost predicate WasCareful()
      requires Valid()
      reads this
    {
      CarefulRun(fmt, Fresh, past)
    }

    /** Every batch so far was a parsed command or a closure. */
    ghost predicate WasClient()
      requires Valid()
      reads this
    {
      ClientRun(fmt, Fresh, past)
    }

    /** `open_with_options` on a disk image: replay, repair the counter, reopen an existing sidecar. */
    constructor (fmt: Format, opts: Options, disk: Disk, landed: nat, ghost hist: History, ghost past: seq<Step>)
      requires landed <= HEADER_SIZE && Reaches(fmt, Fresh, past, System(disk, Closed, hist))
      requires disk.wal.Some? ==> ReadFile(fmt, disk.wal.value).Ok? && |WithHeader(disk.wal, landed)| >= HEADER_SIZE
      ensures Valid()
      ensures this.fmt == fmt && this.opts == opts && this.past == past + [OpenDb(landed, opts)]
      ensures At(Idle) == DoOpen(fmt, System(disk, Closed, hist), landed, opts)
      ensures CarefulRun(fmt, Fresh, past) ==> WasCareful()
      ensures ClientRun(fmt, Fresh, past) ==> WasClient()
    {
      hide LoadAll, Header, ReadEntries, CarefulRun, ClientRun, Reaches;
      this.fmt, this.opts := fmt, opts;
      var replayed: seq<Entry> := [];
      var file := disk.wal;
      if disk.wal.Some? {
        replayed := VisitEntries(fmt, disk.wal.value);
        file := Some(WithHeader(disk.wal, landed));
      }
      var facts, count := [], 0;
      for i := 0 to |replayed|
        invariant facts + [] == facts
        invariant ReplayFacts([], replayed, disk.watermark) == ReplayFacts(facts, replayed[i..], disk.watermark)
        invariant ReplayCount(replayed, disk.watermark) == count + ReplayCount(replayed[i..], disk.watermark)
      {
        assert replayed[i..][1..] == replayed[i + 1..];
        if replayed[i].tx > disk.watermark {
          facts := LoadAll(facts, replayed[i].facts);
          count := count + 1;
        }
      }
      this.disk := disk.(wal := file);
      this.pending := facts;
      this.counter := RestoredCounter(facts, disk.watermark);
      this.writer := disk.wal.Some?;
      this.backlog := count;
      this.dirty := false;
      this.hist := hist.(memory := Above(replayed, disk.watermark));
      this.past := past + [OpenDb(landed, opts)];
      ReachesMore(fmt, Fresh, past, System(disk, Closed, hist), OpenDb(landed, opts));
    }

    /** The lazy `open_or_create` of a write: an existing header is checked, a missing one written. */
    method EnsureWriter(e: Entry, io: Io) returns (failure: Option<string>, ghost steps: seq<Step>)
      requires io.header <= HEADER_SIZE && (writer ==> disk.wal.Some?)
      modifies `disk, `writer
      ensures Reaches(fmt, old(At(Allocated(e))), steps, At(if failure.None? then Allocated(e) else Idle)) && Quiet(steps)
      ensures writer ==> disk.wal.Some?
      ensures failure.None? ==> writer
      ensures failure.Some? ==> io.header < HEADER_SIZE || (!old(writer) && !MissingHeader(old(disk.wal)) && !ValidHeader(old(disk.wal).value))
      ensures failure.None? && Sound(fmt) && (old(writer) ==> !MissingHeader(old(disk.wal))) && old(WalWhole(fmt, disk.wal)) ==>
                EndsWhole(fmt, disk.wal.value)
      ensures disk.published == old(disk.published) && disk.watermark == old(disk.watermark)
    {
      hide EntryBytes, Header, ReadFile, Reaches, CarefulRun, ClientRun, EndsWhole;
      ghost var s := At(Allocated(e));
      steps := [];
      Unmoved(fmt, s);
      if !writer {
        if !MissingHeader(disk.wal) && !ValidHeader(disk.wal.value) {
          OneStep(fmt, s, GiveUp);
          return Some("invalid WAL header"), [GiveUp];
        }
        OneStep(fmt, s, OpenWriter(io.header));
        steps := [OpenWriter(io.header)];
        disk := disk.(wal := Some(WithHeader(disk.wal, io.header)));
        if |disk.wal.value| < HEADER_SIZE {
          return Some("WAL header was not written"), steps;
        }
        writer := true;
      }
      OpenedWhole(fmt, old(disk.wal), io.header, disk.wal.value, old(writer));
      failure := None;
    }

    /** `append_entry` and the bookkeeping after it. */
    method AppendEntry(e: Entry, io: Io) returns (r: Result<bool>, ghost steps: seq<Step>)
      requires e.tx < U64_LIMIT && |e.facts| < U64_LIMIT && writer && disk.wal.Some?
      modifies `disk, `backlog, `dirty, `hist
      ensures Reaches(fmt, old(At(Allocated(e))), steps, At(if r.Ok? then Appended(e, 0, r.value) else Idle))
      ensures ClientRun(fmt, old(At(Allocated(e))), steps)
      ensures EndsWhole(fmt, old(disk.wal).value) && |e.facts| <= MAX_FACTS_PER_ENTRY ==> CarefulRun(fmt, old(At(Allocated(e))), steps)
      ensures disk.wal.Some?
      ensures r.Ok? ==> io.append.None? && hist.acked == old(hist.acked) + [e] && dirty
      ensures io.append.None? && old(hist.tail) == [] ==> hist.tail == []
      ensures r.Err? ==> hist.acked == old(hist.acked)
      ensures r.Err? ==> io.append.Some? || !Writable(fmt, e)
      ensures disk.published == old(disk.published) && disk.watermark == old(disk.watermark)
    {
      hide EntryBytes, Header, ReadFile, Reaches, CarefulRun, ClientRun, EndsWhole;
      ghost var m := At(Allocated(e));
      var bytes := SerializeEntry(fmt, e.tx, e.facts);
      if bytes.Err? || io.append == Some(0) {
        OneStep(fmt, m, GiveUp);
        return Err("the entry was not written"), [GiveUp];
      }
      if io.append.Some? {
        var landed := if io.append.value < |bytes.value| then io.append.value else |bytes.value|;
        assert |bytes.value| > 0 by {
          NoEmptyEntry(fmt, e);
        }
        OneStep(fmt, m, AppendFails(landed));
        hist := Landed(fmt, m, landed).hist;
        disk := disk.(wal := Some(disk.wal.value + bytes.value[..landed]));
        return Err("append failed"), [AppendFails(landed)];
      }
      OneStep(fmt, m, Append);
      steps := [Append];
      hist := DoAppend(fmt, m).hist;
      assert bytes.value[..|bytes.value|] == bytes.value;
      disk := disk.(wal := Some(disk.wal.value + bytes.value));
      dirty := true;
      backlog := backlog + 1;
      r := Ok(opts.policy.Automatic? && backlog >= opts.threshold);
    }

    /** `wal_write_stamped_batch`: open the writer if needed, append, say whether a checkpoint is due. */
    method WalWriteStampedBatch(e: Entry, io: Io) returns (r: Result<bool>, ghost steps: seq<Step>)
      requires e.tx < U64_LIMIT && |e.facts| < U64_LIMIT && io.header <= HEADER_SIZE
      requires writer ==> disk.wal.Some?
      modifies `disk, `writer, `backlog, `dirty, `hist
      ensures Reaches(fmt, old(At(Allocated(e))), steps, At(if r.Ok? then Appended(e, 0, r.value) else Idle))
      ensures ClientRun(fmt, old(At(Allocated(e))), steps)
      ensures Sound(fmt) && (old(writer) ==> !MissingHeader(old(disk.wal))) && old(WalWhole(fmt, disk.wal)) && |e.facts| <= MAX_FACTS_PER_ENTRY ==>
                CarefulRun(fmt, old(At(Allocated(e))), steps)
      ensures writer ==> disk.wal.Some?
      ensures r.Ok? ==> io.append.None? && hist.acked == old(hist.acked) + [e] && dirty
      ensures io.append.None? && old(hist.tail) == [] ==> hist.tail == []
      ensures r.Err? ==> hist.acked == old(hist.acked)
      ensures disk.published == old(disk.published) && disk.watermark == old(disk.watermark)
      ensures r.Err? ==> io.append.Some? || io.header < HEADER_SIZE || !Writable(fmt, e)
                         || (!old(writer) && !MissingHeader(old(disk.wal)) && !ValidHeader(old(disk.wal).value))
    {
      hide EntryBytes, Header, ReadFile, Reaches, CarefulRun, ClientRun, EndsWhole, Writable, WalWhole;
      ghost var s := At(Allocated(e));
      var failure, prepared := EnsureWriter(e, io);
      SettlesCarefully(fmt, s, prepared, At(if failure.None? then Allocated(e) else Idle));
      if failure.Some? {
        return Err(failure.value), prepared;
      }
      ghost var m := At(Allocated(e));
      ghost var appended;
      r, appended := AppendEntry(e, io);
      Chain(fmt, s, prepared, m, appended, At(if r.Ok? then Appended(e, 0, r.value) else Idle));
      steps := prepared + appended;
    }

    /** `save`: every pending fact goes into the image, and the watermark to the counter. */
    method PublishImage(io: Io) returns (ok: bool, ghost steps: seq<Step>)
      modifies `disk, `pending, `dirty, `hist
      ensures Reaches(fmt, old(At(Checkpointing)), steps, At(if ok then Published else Idle)) && Quiet(steps)
      ensures ok == io.publishes
      ensures ok ==> disk == Disk(old(disk.published) + old(pending), counter, old(disk.wal)) && pending == [] && !dirty
      ensures !ok ==> disk == old(disk) && pending == old(pending) && dirty == old(dirty)
      ensures hist.acked == old(hist.acked) && hist.tail == old(hist.tail)
    {
      hide Reaches, CarefulRun, ClientRun;
      ghost var s := At(Checkpointing);
      if !io.publishes {
        OneStep(fmt, s, PublishFails);
        return false, [PublishFails];
      }
      OneStep(fmt, s, Publish);
      hist := DoPublish(s).hist;
      disk := Disk(disk.published + pending, counter, disk.wal);
      pending := [];
      dirty := false;
      return true, [Publish];
    }

    /** Close the writer and delete the sidecar. */
    method RetireSidecar(io: Io) returns (ok: bool, ghost steps: seq<Step>)
      modifies `disk, `writer, `backlog, `hist
      ensures Reaches(fmt, old(At(Published)), steps, At(Idle)) && Quiet(steps)
      ensures ok == io.deletes && !writer
      ensures ok ==> disk == old(disk).(wal := None) && backlog == 0
      ensures !ok ==> disk == old(disk) && backlog == old(backlog)
      ensures hist.acked == old(hist.acked) && (hist.tail == old(hist.tail) || hist.tail == [])
    {
      hide Reaches, CarefulRun, ClientRun;
      ghost var s := At(Published);
      writer := false;
      if !io.deletes {
        OneStep(fmt, s, RetireFails);
        return false, [RetireFails];
      }
      OneStep(fmt, s, Retire);
      hist := DoRetire(s).hist;
      disk := disk.(wal := None);
      backlog := 0;
      return true, [Retire];
    }

    /** The body of `do_checkpoint` past its guard: publish, drop the writer, delete the sidecar. */
    method PublishAndRetire(io: Io) returns (r: Result<bool>, ghost steps: seq<Step>)
      requires dirty && (writer ==> disk.wal.Some?)
      modifies `disk, `pending, `writer, `backlog, `dirty, `hist
      ensures Reaches(fmt, old(At(Checkpointing)), steps, At(Idle)) && Quiet(steps)
      ensures writer ==> disk.wal.Some?
      ensures r.Ok? ==> r.value && disk == Disk(old(disk.published) + old(pending), counter, None) && pending == [] && backlog == 0 && !writer && !dirty
      ensures hist.acked == old(hist.acked) && (hist.tail == old(hist.tail) || hist.tail == [])
      ensures r.Err? ==> !io.publishes || !io.deletes
    {
      hide Reaches, CarefulRun, ClientRun;
      ghost var s := At(Checkpointing);
      var published;
      published, steps := PublishImage(io);
      if !published {
        return Err("publish failed"), steps;
      }
      ghost var m := At(Published);
      var retired, more := RetireSidecar(io);
      Chain(fmt, s, steps, m, more, At(Idle));
      return if retired then Ok(true) else Err("the WAL file was not deleted"), steps + more;
    }

    /** `do_checkpoint` behind the public call: `Ok(false)` is its no-op, when nothing was written or replayed. */
    method DoCheckpoint(io: Io) returns (r: Result<bool>, ghost steps: seq<Step>)
      requires Valid()
      modifies `disk, `pending, `writer, `backlog, `dirty, `hist, `past
      ensures Valid() && past == old(past) + steps && Quiet(steps)
      ensures old(WasCareful()) ==> WasCareful()
      ensures old(WasClient()) ==> WasClient()
      ensures old(backlog) == 0 && !old(dirty) ==> r == Ok(false) && At(Idle) == old(At(Idle))
      ensures r.Ok? && (old(backlog) > 0 || old(dirty)) ==>
                r.value && disk == Disk(old(disk.published) + old(pending), counter, None) && pending == [] && backlog == 0 && !writer && !dirty
      ensures hist.acked == old(hist.acked) && (hist.tail == old(hist.tail) || hist.tail == [])
      ensures r.Err? ==> !io.publishes || !io.deletes
    {
      hide ReadFile, Reaches, CarefulRun, ClientRun;
      ghost var s := At(Idle);
      if backlog == 0 && !dirty {
        assert past + [] == past;
        return Ok(false), [];
      }
      OneStep(fmt, s, Checkpoint(false));
      dirty := true;
      ghost var c := At(Checkpointing);
      ghost var more;
      r, more := PublishAndRetire(io);
      Chain(fmt, s, [Checkpoint(false)], c, more, At(Idle));
      steps := [Checkpoint(false)] + more;
      Lengthen(fmt, past, s, steps, At(Idle));
      past := past + steps;
    }

    /** `Inner::drop`: a best-effort checkpoint unless the policy or the threshold forbids it. */
    method Drop(io: Io) returns (ghost steps: seq<Step>)
      requires Valid()
      modifies `disk, `pending, `writer, `backlog, `dirty, `hist, `past
      ensures Valid() && past == old(past) + steps && Quiet(steps)
      ensures old(WasCareful()) ==> WasCareful()
      ensures old(WasClient()) ==> WasClient()
      ensures opts.policy.ExplicitMaintenance? || opts.threshold == NEVER ==> disk == old(disk)
      ensures opts.policy.Automatic? && opts.threshold != NEVER && (old(backlog) > 0 || old(dirty)) && io.publishes && io.deletes ==>
                disk == Disk(old(disk.published) + old(pending), counter, None)
      ensures hist.acked == old(hist.acked)
    {
      hide ReadFile, Reaches, CarefulRun, ClientRun;
      ghost var s := At(Idle);
      if opts.policy.ExplicitMaintenance? || opts.threshold == NEVER || (backlog == 0 && !dirty) {
        assert past + [] == past;
        return [];
      }
      OneStep(fmt, s, Checkpoint(true));
      dirty := true;
      ghost var c := At(Checkpointing);
      var _, more := PublishAndRetire(io);
      Chain(fmt, s, [Checkpoint(true)], c, more, At(Idle));
      steps := [Checkpoint(true)] + more;
      Lengthen(fmt, past, s, steps, At(Idle));
      past := past + steps;
    }

    /** Load the batch into memory fact by fact. */
    method ApplyBatch(e: Entry, due: bool) returns (ghost steps: seq<Step>)
      modifies `pending, `hist
      ensures Reaches(fmt, old(At(Appended(e, 0, due))), steps, At(if due then Checkpointing else Idle)) && Quiet(steps)
      ensures pending == LoadAll(old(pending), e.facts) && hist.acked == old(hist.acked) && hist.tail == old(hist.tail)
    {
      hide EntryBytes, Header, ReadFile, Reaches, CarefulRun, ClientRun;
      ghost var s := At(Appended(e, 0, due));
      Unmoved(fmt, s);
      steps := [];
      for i := 0 to |e.facts|
        invariant hist == old(hist) && Quiet(steps)
        invariant LoadAll(old(pending), e.facts) == LoadAll(pending, e.facts[i..])
        invariant Reaches(fmt, s, steps, At(Appended(e, i, due)))
      {
        ReachesMore(fmt, s, steps, At(Appended(e, i, due)), ApplyFact);
        assert e.facts[i..][1..] == e.facts[i + 1..];
        pending := Load(pending, e.facts[i]);
        steps := steps + [ApplyFact];
      }
      ReachesMore(fmt, s, steps, At(Appended(e, |e.facts|, due)), FinishWrite);
      steps := steps + [FinishWrite];
      hist := hist.(memory := hist.memory + NonEmpty(e));
    }

    /** The steps of a write after the append: apply, then checkpoint if due. */
    method Settle(e: Entry, due: bool, io: Io) returns (r: Result<bool>, ghost steps: seq<Step>)
      requires dirty && (writer ==> disk.wal.Some?)
      modifies `disk, `pending, `writer, `backlog, `dirty, `hist
      ensures Reaches(fmt, old(At(Appended(e, 0, due))), steps, At(Idle)) && Quiet(steps)
      ensures writer ==> disk.wal.Some?
      ensures hist.acked == old(hist.acked) && (hist.tail == old(hist.tail) || hist.tail == [])
      ensures r.Ok? ==> MemoryLog(At(Idle)) == old(disk.published) + LoadAll(old(pending), e.facts)
      ensures r.Err? ==> !io.publishes || !io.deletes
    {
      hide Reaches, CarefulRun, ClientRun, LoadAll;
      ghost var s := At(Appended(e, 0, due));
      steps := ApplyBatch(e, due);
      if !due {
        return Ok(true), steps;
      }
      ghost var c := At(Checkpointing);
      ghost var more;
      r, more := PublishAndRetire(io);
      Chain(fmt, s, steps, c, more, At(Idle));
      steps := steps + more;
      assert r.Ok? ==> disk.published + [] == disk.published;
    }

    /** The steps of a write from allocation on, before the object's past is brought up to date. */
    method Perform(facts: seq<Fact>, now: nat, io: Io) returns (r: Result<bool>, ghost steps: seq<Step>)
      requires (writer ==> disk.wal.Some?) && counter + 1 < U64_LIMIT && |facts| < U64_LIMIT && io.header <= HEADER_SIZE
      modifies `disk, `pending, `counter, `writer, `backlog, `dirty, `hist
      ensures Reaches(fmt, old(At(Idle)), steps, At(Idle)) && (writer ==> disk.wal.Some?)
      ensures Sound(fmt) && (old(writer) ==> !MissingHeader(old(disk.wal))) && old(WalWhole(fmt, disk.wal)) && |facts| <= MAX_FACTS_PER_ENTRY ==>
                CarefulRun(fmt, old(At(Idle)), steps)
      ensures ClientBatch(old(MemoryLog(At(Idle))), facts) ==> ClientRun(fmt, old(At(Idle)), steps)
      ensures io.append.None? && old(hist.tail) == [] ==> hist.tail == []
      ensures r.Ok? ==> io.append.None? && hist.acked == old(hist.acked) + [Entry(counter, StampAll(facts, counter, now))]
      ensures r.Err? ==> hist.acked == old(hist.acked) || hist.acked == old(hist.acked) + [Entry(counter, StampAll(facts, counter, now))]
      ensures r.Ok? ==> MemoryLog(At(Idle)) == old(disk.published) + LoadAll(old(pending), StampAll(facts, counter, now))
      ensures counter == old(counter) + 1
      ensures r.Err? ==> io.append.Some? || io.header < HEADER_SIZE || !Writable(fmt, Entry(counter, StampAll(facts, counter, now)))
                         || (!old(writer) && !MissingHeader(old(disk.wal)) && !ValidHeader(old(disk.wal).value))
                         || !io.publishes || !io.deletes
    {
      hide EntryBytes, Header, ReadFile, Reaches, LoadAll, CarefulRun, ClientRun, ClientBatch, EndsWhole, Writable, WalWhole, StampAll;
      ghost var s := At(Idle);
      counter := counter + 1;
      var e := Entry(counter, StampAll(facts, counter, now));
      ghost var a := At(Allocated(e));
      OneStep(fmt, s, Begin(facts, now));
      var appended, more := WalWriteStampedBatch(e, io);
      ghost var m := At(if appended.Ok? then Appended(e, 0, appended.value) else Idle);
      Chain(fmt, s, [Begin(facts, now)], a, more, m);
      steps := [Begin(facts, now)] + more;
      if appended.Err? {
        r := Err(appended.error);
      } else {
        ghost var rest;
        r, rest := Settle(e, appended.value, io);
        SettlesCarefully(fmt, m, rest, At(Idle));
        Chain(fmt, s, steps, m, rest, At(Idle));
        steps := steps + rest;
      }
    }

    /** `execute`, `commit` and `execute_forget_locked` from allocation on: WAL first, then memory, then a due checkpoint. */
    method Write(facts: seq<Fact>, now: nat, io: Io) returns (r: Result<bool>, ghost steps: seq<Step>)
      requires Valid() && counter + 1 < U64_LIMIT && |facts| < U64_LIMIT && io.header <= HEADER_SIZE
      modifies this
      ensures Valid() && past == old(past) + steps
      ensures Sound(fmt) && old(WasCareful()) && old(WalWhole(fmt, disk.wal)) && |facts| <= MAX_FACTS_PER_ENTRY ==>
                WasCareful() && (io.append.None? ==> WalWhole(fmt, disk.wal))
      ensures old(WasClient()) && ClientBatch(old(MemoryLog(At(Idle))), facts) ==> WasClient()
      ensures r.Ok? ==> io.append.None? && hist.acked == old(hist.acked) + [Entry(counter, StampAll(facts, counter, now))]
      ensures r.Err? ==> hist.acked == old(hist.acked) || hist.acked == old(hist.acked) + [Entry(counter, StampAll(facts, counter, now))]
      ensures r.Ok? ==> MemoryLog(At(Idle)) == old(disk.published) + LoadAll(old(pending), StampAll(facts, counter, now))
      ensures counter == old(counter) + 1
      ensures r.Err? ==> io.append.Some? || io.header < HEADER_SIZE || !Writable(fmt, Entry(counter, StampAll(facts, counter, now)))
                         || (!old(writer) && !MissingHeader(old(disk.wal)) && !ValidHeader(old(disk.wal).value))
                         || !io.publishes || !io.deletes
    {
      hide EntryBytes, Header, ReadFile, Reaches, LoadAll, CarefulRun, ClientRun, ClientBatch, EndsWhole, Inv, Writable, WalWhole, StampAll;
      ghost var s := At(Idle);
      ghost var sound := Sound(fmt) && WasCareful() && WalWhole(fmt, disk.wal) && |facts| <= MAX_FACTS_PER_ENTRY;
      if sound {
        StandsWhole(fmt, past, s);
      }
      r, steps := Perform(facts, now, io);
      Lengthen(fmt, past, s, steps, At(Idle));
      past := past + steps;
      if sound {
        EndsUpWhole(fmt, past, At(Idle), io.append.None?);
      }
    }

    /** `execute_forget_locked`: close the windows that contain `at`, or do nothing at all if there is none. */
    method ForgetTriples(triples: seq<Triple>, at: int, now: nat, io: Io) returns (r: Result<nat>, ghost steps: seq<Step>)
      requires Valid() && Distinct(triples) && counter + 1 < U64_LIMIT && io.header <= HEADER_SIZE
      modifies this
      ensures Valid() && past == old(past) + steps
      ensures Sound(fmt) && old(WasCareful()) && old(WalWhole(fmt, disk.wal)) && ClosureFits(old(MemoryLog(At(Idle))), triples, at) ==> WasCareful()
      ensures old(WasClient()) ==> WasClient()
      ensures r.Ok? ==> r.value == |Forget.ClosingAmong(old(MemoryLog(At(Idle))), triples, at)|
      ensures r.Ok? && r.value == 0 ==> At(Idle) == old(At(Idle)) && steps == []
      ensures r.Ok? && Sound(fmt) && old(WasCareful()) && old(WasClient()) ==>
                forall t :: t in triples ==> Forget.ClosedExactly(old(MemoryLog(At(Idle))), MemoryLog(At(Idle)), t, at)
    {
      hide Reaches, CarefulRun, ClientRun, ClientBatch, LoadAll, EndsWhole, Writable, Forget.ClosedExactly, Forget.Closure, StampAll;
      var log := disk.published + pending;
      var facts, closed := Forget.MaterializeClosure(log, triples, at);
      steps := [];
      assert past + [] == past;
      if facts == [] {
        if Sound(fmt) && WasCareful() && WasClient() {
          NothingToClose(fmt, past, At(Idle), triples, at, facts);
        }
        r := Ok(0);
        return;
      }
      if |facts| >= U64_LIMIT {
        r := Err("the batch does not fit memory");
        return;
      }
      ClosureIsClient(log, triples, at, facts);
      ghost var s, was := At(Idle), past;
      var written;
      written, steps := Write(facts, now, io);
      if written.Err? {
        r := Err(written.error);
        return;
      }
      if Sound(fmt) && old(WasCareful()) && old(WasClient()) {
        ClosesExactly(fmt, was, s, triples, at, facts, now, MemoryLog(At(Idle)));
      }
      r := Ok(closed);
    }
  }

  lemma NoEmptyEntry(fmt: Format, e: Entry)
    ensures |EntryBytes(fmt, e)| > 0
  {}

  /** A longer past: the run behind the object, then the steps of one call. */
  lemma Lengthen(fmt: Format, past: seq<Step>, s: System, steps: seq<Step>, t: System)
    requires Reaches(fmt, Fresh, past, s) && Reaches(fmt, s, steps, t)
    ensures Reaches(fmt, Fresh, past + steps, t)
    ensures CarefulRun(fmt, Fresh, past) && (CarefulRun(fmt, s, steps) || Quiet(steps)) ==> CarefulRun(fmt, Fresh, past + steps)
    ensures ClientRun(fmt, Fresh, past) && (ClientRun(fmt, s, steps) || Quiet(steps)) ==> ClientRun(fmt, Fresh, past + steps)
  {
    hide CarefulRun, ClientRun, Runs, Run, Quiet;
    if Quiet(steps) {
      QuietIsCareful(fmt, s, steps);
    }
    Chain(fmt, Fresh, past, s, steps, t);
  }

  lemma SettlesCarefully(fmt: Format, s: System, steps: seq<Step>, t: System)
    requires Reaches(fmt, s, steps, t) && Quiet(steps)
    ensures CarefulRun(fmt, s, steps) && ClientRun(fmt, s, steps)
  {
    QuietIsCareful(fmt, s, steps);
  }

  /** What an append finds once the writer is open. */
  lemma OpenedWhole(fmt: Format, wal: Option<seq<Byte>>, landed: nat, file: seq<Byte>, open: bool)
    requires landed <= HEADER_SIZE && |file| >= 0
    requires if open then wal == Some(file) else file == WithHeader(wal, landed) && |file| >= HEADER_SIZE
    ensures Sound(fmt) && (open ==> !MissingHeader(wal)) && WalWhole(fmt, wal) ==> EndsWhole(fmt, file)
  {
    hide EndsWhole, Header;
    if Sound(fmt) && !open && MissingHeader(wal) {
      HeaderEndsWhole(fmt);
      assert Header()[..landed] == Header();
    }
  }

  lemma StandsWhole(fmt: Format, past: seq<Step>, s: System)
    requires Sound(fmt) && Reaches(fmt, Fresh, past, s) && CarefulRun(fmt, Fresh, past) && WalWhole(fmt, s.disk.wal)
    ensures s.hist.tail == [] && (s.proc.Open? && s.proc.writer ==> !MissingHeader(s.disk.wal))
  {
    hide CarefulRun, DiskInv, EndsWhole, Runs, Run;
    FreshInv(fmt);
    RunKeeps(fmt, Fresh, past);
    WholeIsNoTail(fmt, s);
  }

  lemma EndsUpWhole(fmt: Format, past: seq<Step>, s: System, complete: bool)
    requires Sound(fmt) && Reaches(fmt, Fresh, past, s) && CarefulRun(fmt, Fresh, past) && (complete ==> s.hist.tail == [])
    ensures complete ==> WalWhole(fmt, s.disk.wal)
  {
    hide CarefulRun, Inv, EndsWhole, Runs, Run;
    FreshInv(fmt);
    RunKeeps(fmt, Fresh, past);
    WholeIsNoTail(fmt, s);
  }

  // ── Forgetting through the write path ──────────────────────────────────────

  /** The closure, listed without repeats, is within the reader's cap. */
  ghost predicate ClosureFits(log: seq<Fact>, triples: seq<Triple>, at: int) {
    forall facts :: Distinct(facts) && (forall f :: f in facts <==> Forget.Closure(log, triples, at, f)) ==> |facts| <= MAX_FACTS_PER_ENTRY
  }

  lemma ClosureIsClient(log: seq<Fact>, triples: seq<Triple>, at: int, facts: seq<Fact>)
    requires forall f :: f in facts <==> Forget.Closure(log, triples, at, f)
    ensures ClientBatch(log, facts)
  {
    hide Forget.Closure;
    assert ClosureBatch(log, triples, at, facts);
  }

  lemma {:induction false} LoadDistinct(log: seq<Fact>, fs: seq<Fact>)
    requires Distinct(fs) && forall i :: 0 <= i < |fs| ==> fs[i] !in log
    ensures LoadAll(log, fs) == log + fs
    decreases fs
  {
    if fs != [] {
      LoadDistinct(log + [fs[0]], fs[1..]);
      assert log + [fs[0]] + fs[1..] == log + fs;
    }
  }

  /** A closure batch sent down the write path changes the log exactly as forgetting is specified to. */
  lemma ForgetThroughWrite(published: seq<Fact>, pending: seq<Fact>, triples: seq<Triple>, at: int, facts: seq<Fact>, tx: nat, now: nat)
    requires tx > 0 && forall f :: f in published + pending ==> f.txCount < tx
    requires Distinct(facts) && forall f :: f in facts <==> Forget.Closure(published + pending, triples, at, f)
    requires ResolvedFacts(published + pending)
    ensures Forget.Forgotten(published + pending, triples, at, tx, now, published + LoadAll(pending, StampAll(facts, tx, now)))
  {
    hide Forget.Closure;
    var log := published + pending;
    var batch := StampAll(facts, tx, now);
    forall i | 0 <= i < |facts|
      ensures facts[i].from != USE_TX_TIME && facts[i].txCount == 0 && facts[i].txId == 0
    {
      assert facts[i] in facts;
      ClosureFact(log, triples, at, facts[i]);
      Forget.ClosureUnstamped(log, triples, at, facts[i]);
    }
    assert batch == Restamp(facts, tx, now);
    assert Distinct(batch) by {
      forall i, j | 0 <= i < j < |batch|
        ensures batch[i] != batch[j]
      {
        assert facts[i] != facts[j];
      }
    }
    assert forall i :: 0 <= i < |batch| ==> batch[i] !in pending by {
      assert forall f :: f in pending ==> f in log;
    }
    LoadDistinct(pending, batch);
    assert published + (pending + batch) == log + batch;
  }

  /** In a reachable object the counter covers every count and every start is resolved. */
  lemma ReachableObject(fmt: Format, past: seq<Step>, s: System)
    requires Sound(fmt) && Reaches(fmt, Fresh, past, s) && CarefulRun(fmt, Fresh, past) && ClientRun(fmt, Fresh, past)
    requires s.proc.Open?
    ensures forall f :: f in MemoryLog(s) ==> f.txCount < s.proc.counter + 1
    ensures ResolvedFacts(MemoryLog(s))
  {
    hide CarefulRun, ClientRun, Inv, Runs, Run, ResolvedFacts, MemoryLog;
    FreshInv(fmt);
    RunKeeps(fmt, Fresh, past);
    CountsBounded(fmt, s);
    assert ReachedBy(fmt, past, [], s) by {
      Unmoved(fmt, s);
    }
    ReachableLogs(fmt, past, [], s);
  }

  lemma ClosesExactly(fmt: Format, past: seq<Step>, s: System, triples: seq<Triple>, at: int, facts: seq<Fact>, now: nat, after: seq<Fact>)
    requires Sound(fmt) && Reaches(fmt, Fresh, past, s) && CarefulRun(fmt, Fresh, past) && ClientRun(fmt, Fresh, past)
    requires s.proc.Open? && Distinct(facts) && forall f :: f in facts <==> Forget.Closure(MemoryLog(s), triples, at, f)
    requires var tx := s.proc.counter + 1; after == s.disk.published + LoadAll(s.proc.pending, StampAll(facts, tx, now))
    ensures forall t :: t in triples ==> Forget.ClosedExactly(MemoryLog(s), after, t, at)
  {
    hide CarefulRun, ClientRun, Reaches, LoadAll, StampAll, Forget.Closure, Forget.ClosedExactly, Forget.Closable, Forget.Forgotten, ResolvedFacts;
    var tx := s.proc.counter + 1;
    ReachableObject(fmt, past, s);
    ForgetThroughWrite(s.disk.published, s.proc.pending, triples, at, facts, tx, now);
    forall t | t in triples
      ensures Forget.ClosedExactly(MemoryLog(s), after, t, at)
    {
      ResolvedIsClosable(MemoryLog(s), t, at);
      Forget.ForgetIsExact(MemoryLog(s), triples, at, tx, now, after, t);
    }
  }

  lemma NothingToClose(fmt: Format, past: seq<Step>, s: System, triples: seq<Triple>, at: int, facts: seq<Fact>)
    requires Sound(fmt) && Reaches(fmt, Fresh, past, s) && CarefulRun(fmt, Fresh, past) && ClientRun(fmt, Fresh, past)
    requires s.proc.Open? && facts == [] && forall f :: f in facts <==> Forget.Closure(MemoryLog(s), triples, at, f)
    ensures forall t :: t in triples ==> Forget.ClosedExactly(MemoryLog(s), MemoryLog(s), t, at)
  {
    hide CarefulRun, ClientRun, Reaches, Forget.Closure, Forget.ClosedExactly;
    assert LoadAll(s.proc.pending, StampAll(facts, s.proc.counter + 1, 0)) == s.proc.pending;
    ClosesExactly(fmt, past, s, triples, at, facts, 0, MemoryLog(s));
  }

  // ── Sequences of calls ─────────────────────────────────────────────────────

  /** Whatever calls led here, a careful object's disk reopens to whole transactions with every acknowledged non-empty one. */
  lemma Durable(db: FileDatabase)
    requires Sound(db.fmt) && db.Valid() && db.WasCareful()
    ensures var s := db.At(Idle);
            && Reopened(db.fmt, db.disk) == Ok(LogOf(Recovered(s)))
            && Increasing(Recovered(s))
            && (forall e :: e in db.hist.acked && e.facts != [] ==> e in Recovered(s))
            && (forall e :: e in Recovered(s) ==> e in db.hist.handed)
  {
    hide CarefulRun, LogOf, Above, Reopened;
    Durability(db.fmt, db.past);
  }

  /** The entry acknowledged for each batch, in order. */
  ghost predicate Acknowledged(before: seq<Entry>, after: seq<Entry>, batches: seq<seq<Fact>>, n: nat, counter: nat, now: nat -> nat)
    requires n <= |batches|
  {
    && |before| + n <= |after| && after[..|before|] == before
    && forall k :: 0 <= k < n ==> after[|before| + k] == Entry(counter + k + 1, StampAll(batches[k], counter + k + 1, now(k)))
  }

  /**
   Writes one after the other until one fails: the batches that returned success are acknowledged in order,
   and a reopen at the end finds every non-empty one.
   */
  method WriteAll(db: FileDatabase, batches: seq<seq<Fact>>, now: nat -> nat, io: nat -> Io) returns (written: nat)
    requires Sound(db.fmt) && db.Valid() && db.WasCareful() && WalWhole(db.fmt, db.disk.wal)
    requires db.counter + |batches| < U64_LIMIT && forall k :: io(k).header <= HEADER_SIZE
    requires forall k :: 0 <= k < |batches| ==> |batches[k]| <= MAX_FACTS_PER_ENTRY
    modifies db
    ensures db.Valid() && db.WasCareful() && written <= |batches|
    ensures Acknowledged(old(db.hist.acked), db.hist.acked, batches, written, old(db.counter), now)
    ensures Reopened(db.fmt, db.disk) == Ok(LogOf(Recovered(db.At(Idle))))
    ensures forall k :: 0 <= k < written && batches[k] != [] ==>
              Entry(old(db.counter) + k + 1, StampAll(batches[k], old(db.counter) + k + 1, now(k))) in Recovered(db.At(Idle))
  {
    hide CarefulRun, ClientRun, Reaches, EndsWhole, LoadAll, Writable, LogOf, Reopened, Recovered;
    written := 0;
    var failed := false;
    while written < |batches| && !failed
      invariant db.Valid() && db.WasCareful() && written <= |batches|
      invariant !failed ==> WalWhole(db.fmt, db.disk.wal) && db.counter == old(db.counter) + written && |db.hist.acked| == |old(db.hist.acked)| + written
      invariant Acknowledged(old(db.hist.acked), db.hist.acked, batches, written, old(db.counter), now)
      decreases |batches| - written, !failed
    {
      ghost var before := db.hist.acked;
      var r, steps := db.Write(batches[written], now(written), io(written));
      if r.Ok? {
        written := written + 1;
      } else {
        failed := true;
      }
    }
    Durable(db);
    forall k | 0 <= k < written && batches[k] != []
      ensures Entry(old(db.counter) + k + 1, StampAll(batches[k], old(db.counter) + k + 1, now(k))) in Recovered(db.At(Idle))
    {
      assert db.hist.acked[|old(db.hist.acked)| + k] in db.hist.acked;
    }
  }

  /** `open` with its failures: a bad header refuses the file, a torn header write leaves it for the next open. */
  method OpenFile(fmt: Format, opts: Options, disk: Disk, landed: nat, ghost hist: History, ghost past: seq<Step>)
    returns (db: Option<FileDatabase>, image: Disk, ghost steps: seq<Step>)
    requires landed <= HEADER_SIZE && Reaches(fmt, Fresh, past, System(disk, Closed, hist))
    ensures db.Some? <==> disk.wal.None? || ((|disk.wal.value| < HEADER_SIZE || ValidHeader(disk.wal.value)) && |WithHeader(disk.wal, landed)| >= HEADER_SIZE)
    ensures db.Some? ==> fresh(db.value) && db.value.Valid() && db.value.fmt == fmt && db.value.opts == opts && image == db.value.disk
                         && db.value.At(Idle) == DoOpen(fmt, System(disk, Closed, hist), landed, opts) && db.value.past == past + steps
    ensures db.None? ==> Reaches(fmt, Fresh, past + steps, System(image, Closed, hist))
    ensures image.published == disk.published && image.watermark == disk.watermark
  {
    hide Reaches, Header, CarefulRun, ClientRun, ReadEntries, LoadAll;
    ghost var s := System(disk, Closed, hist);
    if disk.wal.Some? && |disk.wal.value| >= HEADER_SIZE && !ValidHeader(disk.wal.value) {
      assert past + [] == past;
      return None, disk, [];
    }
    steps := [OpenDb(landed, opts)];
    if disk.wal.Some? && |WithHeader(disk.wal, landed)| < HEADER_SIZE {
      ReachesMore(fmt, Fresh, past, s, OpenDb(landed, opts));
      return None, disk.(wal := Some(WithHeader(disk.wal, landed))), steps;
    }
    var found := new FileDatabase(fmt, opts, disk, landed, hist, past);
    return Some(found), found.disk, steps;
  }
}
