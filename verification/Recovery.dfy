/**
 Crash safety of the step system: the invariant every step keeps and what it implies for
 every run, at every point where a crash may fall.
 */
module Recovery {
  import opened Bytes
  import opened Ledger
  import opened Wal
  import opened Machine
  import opened Sequences

  // ── Logs and entry lists ───────────────────────────────────────────────────

  ghost predicate Stamped(e: Entry) {
    e.tx > 0 && forall i :: 0 <= i < |e.facts| ==> e.facts[i].txCount == e.tx
  }

  ghost predicate AllStamped(es: seq<Entry>) {
    forall i :: 0 <= i < |es| ==> Stamped(es[i])
  }

  ghost predicate Increasing(es: seq<Entry>) {
    forall i, j :: 0 <= i < j < |es| ==> es[i].tx < es[j].tx
  }

  ghost predicate UpTo(es: seq<Entry>, n: int) {
    forall i :: 0 <= i < |es| && es[i].facts != [] ==> es[i].tx <= n
  }

  ghost predicate CountsUpTo(fs: seq<Fact>, n: int) {
    forall i :: 0 <= i < |fs| ==> fs[i].txCount <= n
  }

  lemma {:induction false} AboveConcat(a: seq<Entry>, b: seq<Entry>, w: nat)
    ensures Above(a + b, w) == Above(a, w) + Above(b, w)
  {
    if a == [] {
      assert a + b == b;
    } else {
      AboveConcat(a[1..], b, w);
      assert (a + b)[1..] == a[1..] + b;
      assert (a + b)[0] == a[0];
      Regroup([a[0]], Above(a[1..], w), Above(b, w));
    }
  }

  lemma AboveOne(e: Entry, w: nat)
    requires e.tx > w
    ensures Above([e], w) == NonEmpty(e)
  {
    assert [e][1..] == [];
  }

  lemma {:induction false} AboveNone(es: seq<Entry>, w: nat)
    requires UpTo(es, w)
    ensures Above(es, w) == []
  {
    if es != [] {
      AboveNone(es[1..], w);
    }
  }

  lemma {:induction false} AboveHas(es: seq<Entry>, w: nat)
    ensures forall e :: e in Above(es, w) <==> e in es && e.tx > w && e.facts != []
  {
    if es != [] {
      AboveHas(es[1..], w);
      assert forall e :: e in es <==> e == es[0] || e in es[1..];
    }
  }

  lemma TailIncreasing(e: Entry, es: seq<Entry>)
    requires Increasing([e] + es)
    ensures Increasing(es)
    ensures forall x :: x in es ==> e.tx < x.tx
  {
    var all := [e] + es;
    assert all[0] == e;
    assert forall i :: 0 <= i < |es| ==> es[i] == all[i + 1];
  }

  lemma ConsIncreasing(e: Entry, es: seq<Entry>)
    requires Increasing(es)
    requires forall x :: x in es ==> e.tx < x.tx
    ensures Increasing([e] + es)
  {}

  /** Raising the watermark only drops entries, so order is kept. */
  lemma {:induction false} AboveIncreasing(es: seq<Entry>, w: nat)
    requires Increasing(Above(es, 0))
    ensures Increasing(Above(es, w))
  {
    if es != [] {
      var e := es[0];
      if e.tx > 0 && e.facts != [] {
        TailIncreasing(e, Above(es[1..], 0));
        AboveHas(es[1..], 0);
        AboveHas(es[1..], w);
        AboveIncreasing(es[1..], w);
        ConsIncreasing(e, Above(es[1..], w));
      } else {
        assert Above(es, 0) == Above(es[1..], 0);
        AboveIncreasing(es[1..], w);
      }
    }
  }

  lemma {:induction false} LogConcat(a: seq<Entry>, b: seq<Entry>)
    ensures LogOf(a + b) == LogOf(a) + LogOf(b)
  {
    if a == [] {
      assert a + b == b;
    } else {
      hide LoadAll;
      LogConcat(a[1..], b);
      assert (a + b)[1..] == a[1..] + b;
      Regroup(LoadAll([], a[0].facts), LogOf(a[1..]), LogOf(b));
    }
  }

  lemma LogOfOne(e: Entry)
    ensures LogOf(NonEmpty(e)) == LoadAll([], e.facts)
  {
    if e.facts != [] {
      assert [e][1..] == [];
    }
  }

  lemma {:induction false} LoadAllSnoc(log: seq<Fact>, fs: seq<Fact>, f: Fact)
    ensures LoadAll(log, fs + [f]) == Load(LoadAll(log, fs), f)
    decreases fs
  {
    if fs == [] {
      assert fs + [f] == [f];
      assert [f][1..] == [];
    } else {
      LoadAllSnoc(Load(log, fs[0]), fs[1..], f);
      assert (fs + [f])[1..] == fs[1..] + [f];
    }
  }

  /** Loading a batch no fact of which is in `front` appends the batch's own distinct facts. */
  lemma {:induction false} LoadBehind(front: seq<Fact>, log: seq<Fact>, fs: seq<Fact>)
    requires forall i :: 0 <= i < |fs| ==> fs[i] !in front
    ensures LoadAll(front + log, fs) == front + LoadAll(log, fs)
    decreases fs
  {
    if fs != [] {
      LoadBehind(front, Load(log, fs[0]), fs[1..]);
      assert Load(front + log, fs[0]) == front + Load(log, fs[0]);
    }
  }

  /** Loading keeps to the facts given. */
  lemma {:induction false} LoadAllFrom(log: seq<Fact>, fs: seq<Fact>)
    ensures forall f :: f in LoadAll(log, fs) <==> f in log || f in fs
    decreases fs
  {
    if fs != [] {
      LoadAllFrom(Load(log, fs[0]), fs[1..]);
      assert forall f :: f in fs <==> f == fs[0] || f in fs[1..];
    }
  }

  lemma BatchCounts(e: Entry)
    requires Stamped(e)
    ensures forall f :: f in LoadAll([], e.facts) ==> f.txCount == e.tx
  {
    LoadAllFrom([], e.facts);
  }

  /** Loading a batch behind facts of smaller counts keeps the two apart. */
  lemma LoadNewer(front: seq<Fact>, e: Entry)
    requires Stamped(e) && CountsUpTo(front, e.tx - 1)
    ensures LoadAll(front, e.facts) == front + LoadAll([], e.facts)
    ensures CountsUpTo(LoadAll(front, e.facts), e.tx)
  {
    LoadBehind(front, [], e.facts);
    assert front + [] == front;
    BatchCounts(e);
  }

  /** Replay rebuilds exactly the log of the non-empty entries above the watermark. */
  lemma {:induction false} ReplayIsLog(pending: seq<Fact>, es: seq<Entry>, w: nat)
    requires AllStamped(es) && Increasing(Above(es, w))
    requires forall e :: e in Above(es, w) ==> CountsUpTo(pending, e.tx - 1)
    ensures ReplayFacts(pending, es, w) == pending + LogOf(Above(es, w))
    decreases es
  {
    if es != [] {
      var e, rest := es[0], Above(es[1..], w);
      if e.tx <= w || e.facts == [] {
        assert Above(es, w) == rest;
        ReplayIsLog(pending, es[1..], w);
      } else {
        TailIncreasing(e, rest);
        assert e in Above(es, w);
        LoadNewer(pending, e);
        ReplayIsLog(LoadAll(pending, e.facts), es[1..], w);
        assert ([e] + rest)[1..] == rest;
        Regroup(pending, LoadAll([], e.facts), LogOf(rest));
      }
    }
  }

  lemma {:induction false} LogCounts(es: seq<Entry>)
    requires AllStamped(es)
    ensures forall f :: f in LogOf(es) ==> exists i :: 0 <= i < |es| && es[i].tx == f.txCount && f in es[i].facts
    ensures forall i :: 0 <= i < |es| ==> forall f :: f in es[i].facts ==> f in LogOf(es)
  {
    if es != [] {
      LogCounts(es[1..]);
      LoadAllFrom([], es[0].facts);
      forall f | f in LogOf(es)
        ensures exists i :: 0 <= i < |es| && es[i].tx == f.txCount && f in es[i].facts
      {
        if f in LoadAll([], es[0].facts) {
          assert es[0].tx == f.txCount;
        } else {
          var i :| 0 <= i < |es[1..]| && es[1..][i].tx == f.txCount && f in es[1..][i].facts;
          assert es[i + 1].tx == f.txCount && f in es[i + 1].facts;
        }
      }
    }
  }

  // ── The invariant ──────────────────────────────────────────────────────────

  /** The WAL is a (possibly torn) header, or complete entries followed by bytes the reader refuses. */
  ghost predicate WalShape(fmt: Format, wal: Option<seq<Byte>>, logged: seq<Entry>, tail: seq<Byte>) {
    if MissingHeader(wal) then
      logged == [] && tail == [] && (wal.Some? ==> wal.value == Header()[..|wal.value|])
    else
      && wal.value == FileOf(fmt, logged) + tail
      && AllReadable(fmt, logged)
      && ReadEntry(fmt, tail).None?
  }

  ghost predicate Transactions(es: seq<Entry>) {
    && AllStamped(es)
    && Increasing(es)
    && forall i :: 0 <= i < |es| ==> es[i].facts != []
  }

  ghost predicate DiskInv(fmt: Format, disk: Disk, hist: History) {
    var recovered := hist.base + Above(hist.logged, disk.watermark);
    && disk.published == LogOf(hist.base)
    && WalShape(fmt, disk.wal, hist.logged, hist.tail)
    && Transactions(hist.base) && UpTo(hist.base, disk.watermark)
    && AllStamped(hist.logged) && Increasing(Above(hist.logged, 0))
    && AllStamped(hist.acked) && Increasing(Above(hist.acked, 0))
    && (forall e :: e in hist.acked && e.facts != [] ==> e in recovered)
    && (forall e :: e in recovered ==> e in hist.handed)
  }

  /** The largest count a logged or acknowledged transaction may carry. */
  function Ceiling(p: Process): int
    requires p.Open?
  {
    if p.phase.Allocated? then p.counter - 1 else p.counter
  }

  ghost predicate PhaseInv(disk: Disk, p: Process, hist: History)
    requires p.Open?
  {
    match p.phase
    case Idle => p.pending == LogOf(hist.memory)
    case Checkpointing => p.pending == LogOf(hist.memory)
    case Allocated(e) =>
      p.pending == LogOf(hist.memory) && e.tx == p.counter && Stamped(e) && e.tx > disk.watermark
    case Appended(e, k, _) =>
      && k <= |e.facts|
      && p.pending == LogOf(hist.memory) + LoadAll([], e.facts[..k])
      && e.tx == p.counter && Stamped(e) && e.tx > disk.watermark
      && (e.facts != [] ==> e in hist.logged)
    case Published => p.pending == [] && hist.memory == [] && disk.watermark == p.counter
  }

  ghost predicate ProcInv(disk: Disk, p: Process, hist: History)
    requires p.Open?
  {
    && disk.watermark <= p.counter
    && (p.writer ==> !MissingHeader(disk.wal))
    && UpTo(hist.logged, Ceiling(p)) && UpTo(hist.acked, Ceiling(p))
    && Transactions(hist.memory)
    && UpTo(hist.memory, if p.phase.Allocated? || p.phase.Appended? then p.counter - 1 else p.counter)
    && (forall e :: e in hist.memory ==> e in Above(hist.logged, disk.watermark))
    && (forall e :: e in hist.acked && e.facts != [] ==>
          e in hist.base || e in hist.memory || (p.phase.Appended? && e == p.phase.entry))
    && PhaseInv(disk, p, hist)
  }

  ghost predicate Inv(fmt: Format, s: System) {
    DiskInv(fmt, s.disk, s.hist) && (s.proc.Open? ==> ProcInv(s.disk, s.proc, s.hist))
  }

  lemma FreshInv(fmt: Format)
    ensures Inv(fmt, Fresh)
  {}

  // ── Every step keeps it ────────────────────────────────────────────────────

  /** A file of the required shape reads back as its complete entries. */
  lemma ShapeReads(fmt: Format, wal: seq<Byte>, logged: seq<Entry>, tail: seq<Byte>)
    requires Sound(fmt) && WalShape(fmt, Some(wal), logged, tail)
    ensures ReadFile(fmt, wal) == Ok(logged)
  {
    if |wal| >= HEADER_SIZE {
      StopsAt(fmt, logged, tail);
    }
  }

  lemma ShapeWithHeader(fmt: Format, wal: Option<seq<Byte>>, logged: seq<Entry>, tail: seq<Byte>, landed: nat)
    requires WalShape(fmt, wal, logged, tail) && landed <= HEADER_SIZE
    ensures WalShape(fmt, Some(WithHeader(wal, landed)), logged, tail)
  {
    var file := WithHeader(wal, landed);
    if MissingHeader(wal) && landed == HEADER_SIZE {
      assert file == Header();
      assert Header() == FileOf(fmt, []) + [];
    }
  }

  lemma {:induction false} RestoredAbove(es: seq<Entry>, w: nat)
    requires AllStamped(es) && Increasing(Above(es, 0))
    ensures UpTo(es, RestoredCounter(LogOf(Above(es, w)), w))
  {
    var kept := Above(es, w);
    AboveHas(es, w);
    assert AllStamped(kept) by {
      forall i | 0 <= i < |kept|
        ensures Stamped(kept[i])
      {
        assert kept[i] in es;
      }
    }
    LogCounts(kept);
    forall i | 0 <= i < |es| && es[i].facts != []
      ensures es[i].tx <= RestoredCounter(LogOf(kept), w)
    {
      if es[i].tx > w {
        assert es[i] in kept;
        assert es[i].facts[0] in LogOf(kept);
      }
    }
  }

  lemma AboveTransactions(es: seq<Entry>, w: nat)
    requires AllStamped(es) && Increasing(Above(es, 0))
    ensures Transactions(Above(es, w))
  {
    AboveHas(es, w);
    AboveIncreasing(es, w);
    forall i | 0 <= i < |Above(es, w)|
      ensures Stamped(Above(es, w)[i]) && Above(es, w)[i].facts != []
    {
      assert Above(es, w)[i] in es;
    }
  }

  lemma UpToMembers(es: seq<Entry>, n: int)
    ensures UpTo(es, n) <==> forall e :: e in es && e.facts != [] ==> e.tx <= n
  {}

  /** The process built by replay satisfies its part of the invariant. */
  lemma ReplayedProcess(fmt: Format, disk: Disk, hist: History, opts: Options, writer: bool, backlog: nat)
    requires DiskInv(fmt, disk, hist) && (writer ==> !MissingHeader(disk.wal))
    ensures var kept := Above(hist.logged, disk.watermark);
            ProcInv(disk, Open(opts, LogOf(kept), RestoredCounter(LogOf(kept), disk.watermark), writer, backlog, false, Idle),
                    hist.(memory := kept))
  {
    hide WalShape, LogOf, MaxCount, Above;
    var kept := Above(hist.logged, disk.watermark);
    var counter := RestoredCounter(LogOf(kept), disk.watermark);
    AboveTransactions(hist.logged, disk.watermark);
    RestoredAbove(hist.logged, disk.watermark);
    AboveHas(hist.logged, disk.watermark);
    UpToMembers(hist.logged, counter);
    UpToMembers(kept, counter);
    UpToMembers(hist.base, disk.watermark);
    UpToMembers(hist.acked, counter);
  }

  lemma NoMemoryNeeded(fmt: Format, disk: Disk, hist: History, memory: seq<Entry>)
    requires DiskInv(fmt, disk, hist)
    ensures DiskInv(fmt, disk, hist.(memory := memory))
  {}

  lemma OpenKeeps(fmt: Format, s: System, landed: nat, opts: Options)
    requires Sound(fmt) && Inv(fmt, s) && Enabled(fmt, s, OpenDb(landed, opts))
    ensures Inv(fmt, Next(fmt, s, OpenDb(landed, opts)))
  {
    hide ReadFile, WithHeader, ProcInv, LogOf;
    var w, hist := s.disk.watermark, s.hist;
    var kept := Above(hist.logged, w);
    NoMemoryNeeded(fmt, s.disk, hist, kept);
    if s.disk.wal.None? {
      ReplayedProcess(fmt, s.disk, hist, opts, false, 0);
      assert LogOf([]) == [] && RestoredCounter([], w) == w by {
        EmptyReplay(w);
      }
    } else {
      ShapeReads(fmt, s.disk.wal.value, hist.logged, hist.tail);
      ShapeWithHeader(fmt, s.disk.wal, hist.logged, hist.tail, landed);
      AboveTransactions(hist.logged, w);
      ReplayIsLog([], hist.logged, w);
      assert [] + LogOf(kept) == LogOf(kept);
      var disk := s.disk.(wal := Some(WithHeader(s.disk.wal, landed)));
      assert DiskInv(fmt, disk, hist);
      if |disk.wal.value| >= HEADER_SIZE {
        ReplayedProcess(fmt, disk, hist, opts, true, ReplayCount(hist.logged, w));
        NoMemoryNeeded(fmt, disk, hist, kept);
      }
    }
  }

  lemma EmptyReplay(w: nat)
    ensures LogOf([]) == [] && RestoredCounter([], w) == w
  {}

  lemma BeginKeeps(fmt: Format, s: System, facts: seq<Fact>, now: nat)
    requires Inv(fmt, s) && Enabled(fmt, s, Begin(facts, now))
    ensures Inv(fmt, Next(fmt, s, Begin(facts, now)))
  {
    hide DiskInv, LogOf, Above, Transactions;
  }

  lemma OpenWriterKeeps(fmt: Format, s: System, landed: nat)
    requires Inv(fmt, s) && Enabled(fmt, s, OpenWriter(landed))
    ensures Inv(fmt, Next(fmt, s, OpenWriter(landed)))
  {
    hide LogOf, Above, Transactions, WithHeader;
    ShapeWithHeader(fmt, s.disk.wal, s.hist.logged, s.hist.tail, landed);
    assert |WithHeader(s.disk.wal, landed)| >= HEADER_SIZE || MissingHeader(Some(WithHeader(s.disk.wal, landed)));
    var t := Next(fmt, s, OpenWriter(landed));
    assert DiskInv(fmt, t.disk, t.hist);
    assert UpTo(s.hist.logged, s.proc.counter) && UpTo(s.hist.acked, s.proc.counter) && UpTo(s.hist.memory, s.proc.counter);
  }

  /** A file that ends whole has nothing behind its complete entries. */
  lemma WholeHasNoTail(fmt: Format, wal: seq<Byte>, logged: seq<Entry>, tail: seq<Byte>)
    requires Sound(fmt) && WalShape(fmt, Some(wal), logged, tail) && EndsWhole(fmt, wal)
    ensures tail == []
  {
    hide ReadFile, FileOf;
    ShapeReads(fmt, wal, logged, tail);
  }

  lemma SnocIncreasing(es: seq<Entry>, e: Entry)
    requires Increasing(Above(es, 0)) && UpTo(es, e.tx - 1) && e.tx > 0
    ensures Increasing(Above(es + [e], 0))
  {
    hide Above;
    AboveConcat(es, [e], 0);
    AboveOne(e, 0);
    AboveHas(es, 0);
    UpToMembers(es, e.tx - 1);
  }

  /** Bytes landing behind complete entries leave a whole longer log or a torn entry. */
  lemma LandedShape(fmt: Format, logged: seq<Entry>, e: Entry, landed: nat)
    requires Sound(fmt) && AllReadable(fmt, logged) && Readable(fmt, e)
    requires 0 < landed <= |EntryBytes(fmt, e)|
    ensures var file := FileOf(fmt, logged) + EntryBytes(fmt, e)[..landed];
            if landed == |EntryBytes(fmt, e)| then WalShape(fmt, Some(file), logged + [e], [])
            else WalShape(fmt, Some(file), logged, EntryBytes(fmt, e)[..landed])
  {
    hide EntryBytes, Header, ReadEntry;
    if landed == |EntryBytes(fmt, e)| {
      assert EntryBytes(fmt, e)[..landed] == EntryBytes(fmt, e);
      EntriesConcat(fmt, logged, [e]);
      assert [e][1..] == [];
      assert EntriesBytes(fmt, [e]) == EntryBytes(fmt, e) + [];
      assert ReadEntry(fmt, []).None? by {
        NothingToRead(fmt);
      }
      assert FileOf(fmt, logged) + EntryBytes(fmt, e) == FileOf(fmt, logged + [e]) + [];
    } else {
      ReadEntryCut(fmt, e, landed);
    }
  }

  lemma NothingToRead(fmt: Format)
    ensures ReadEntry(fmt, []).None?
  {}

  lemma LoggedMore(base: seq<Entry>, logged: seq<Entry>, e: Entry, w: nat)
    requires e.tx > w
    ensures base + Above(logged + [e], w) == base + Above(logged, w) + NonEmpty(e)
  {
    AboveConcat(logged, [e], w);
    AboveOne(e, w);
  }

  /** The whole entry lands. */
  lemma LandedWhole(fmt: Format, s: System)
    requires Sound(fmt) && Inv(fmt, s) && InPhase(s, true) && s.disk.wal.Some?
    requires Readable(fmt, s.proc.phase.entry) && EndsWhole(fmt, s.disk.wal.value) && |EntryBytes(fmt, s.proc.phase.entry)| > 0
    ensures var e := s.proc.phase.entry;
            var t := Landed(fmt, s, |EntryBytes(fmt, e)|);
            DiskInv(fmt, t.disk, t.hist) && !MissingHeader(t.disk.wal) && t.hist.logged == s.hist.logged + [e]
  {
    hide EntryBytes, EndsWhole, WalShape, LogOf, Above, FileOf, Sound, Readable;
    var e := s.proc.phase.entry;
    var t := Landed(fmt, s, |EntryBytes(fmt, e)|);
    WholeHasNoTail(fmt, s.disk.wal.value, s.hist.logged, s.hist.tail);
    WholeFile(fmt, s.disk.wal.value, s.hist.logged);
    LandedShape(fmt, s.hist.logged, e, |EntryBytes(fmt, e)|);
    SnocIncreasing(s.hist.logged, e);
    LoggedMore(s.hist.base, s.hist.logged, e, s.disk.watermark);
    assert t.hist.tail == [] && t.hist.logged == s.hist.logged + [e];
    assert AllStamped(t.hist.logged);
  }

  /** Only a part of the entry lands. */
  lemma LandedTorn(fmt: Format, s: System, landed: nat)
    requires Sound(fmt) && Inv(fmt, s) && InPhase(s, true) && s.disk.wal.Some?
    requires Readable(fmt, s.proc.phase.entry) && EndsWhole(fmt, s.disk.wal.value)
    requires 0 < landed < |EntryBytes(fmt, s.proc.phase.entry)|
    ensures var t := Landed(fmt, s, landed);
            DiskInv(fmt, t.disk, t.hist) && !MissingHeader(t.disk.wal) && t.hist.logged == s.hist.logged
  {
    hide EntryBytes, EndsWhole, WalShape, LogOf, Above, FileOf, Sound, Readable;
    var e := s.proc.phase.entry;
    var t := Landed(fmt, s, landed);
    WholeHasNoTail(fmt, s.disk.wal.value, s.hist.logged, s.hist.tail);
    WholeFile(fmt, s.disk.wal.value, s.hist.logged);
    LandedShape(fmt, s.hist.logged, e, landed);
    assert t.hist.tail == [] + EntryBytes(fmt, e)[..landed] == EntryBytes(fmt, e)[..landed];
    TornDiskInv(fmt, s, t);
  }

  /** The disk part of the invariant after bytes landed, when the file has the right shape. */
  lemma TornDiskInv(fmt: Format, s: System, t: System)
    requires DiskInv(fmt, s.disk, s.hist) && t.disk == s.disk.(wal := t.disk.wal) && t.hist == s.hist.(tail := t.hist.tail)
    requires WalShape(fmt, t.disk.wal, t.hist.logged, t.hist.tail)
    ensures DiskInv(fmt, t.disk, t.hist)
  {
    hide WalShape, LogOf, Above, FileOf;
  }

  lemma LandedKeeps(fmt: Format, s: System, landed: nat)
    requires Sound(fmt) && Inv(fmt, s) && InPhase(s, true) && s.disk.wal.Some?
    requires Readable(fmt, s.proc.phase.entry) && EndsWhole(fmt, s.disk.wal.value)
    requires 0 < landed <= |EntryBytes(fmt, s.proc.phase.entry)|
    ensures var t := Landed(fmt, s, landed);
            var e := s.proc.phase.entry;
            && DiskInv(fmt, t.disk, t.hist)
            && !MissingHeader(t.disk.wal)
            && t.hist.logged == (if landed == |EntryBytes(fmt, e)| then s.hist.logged + [e] else s.hist.logged)
  {
    hide EntryBytes, EndsWhole, Inv, DiskInv, Landed, Sound, Readable;
    if landed == |EntryBytes(fmt, s.proc.phase.entry)| {
      LandedWhole(fmt, s);
    } else {
      LandedTorn(fmt, s, landed);
    }
  }

  lemma WholeFile(fmt: Format, wal: seq<Byte>, logged: seq<Entry>)
    requires WalShape(fmt, Some(wal), logged, []) && |wal| >= HEADER_SIZE
    ensures wal == FileOf(fmt, logged) && AllReadable(fmt, logged)
  {}

  lemma AboveKeeps(logged: seq<Entry>, e: Entry, w: nat)
    ensures forall x :: x in Above(logged, w) ==> x in Above(logged + [e], w)
  {
    AboveConcat(logged, [e], w);
  }

  lemma AppendFailsKeeps(fmt: Format, s: System, landed: nat)
    requires Sound(fmt) && Inv(fmt, s) && Enabled(fmt, s, AppendFails(landed)) && Careful(fmt, s, AppendFails(landed))
    ensures Inv(fmt, Next(fmt, s, AppendFails(landed)))
  {
    hide EntryBytes, EndsWhole, LogOf, Above, DiskInv, Transactions, Writable;
    var e, w, n := s.proc.phase.entry, s.disk.watermark, s.proc.counter;
    var t := Next(fmt, s, AppendFails(landed));
    LandedKeeps(fmt, s, landed);
    AboveKeeps(s.hist.logged, e, w);
    assert UpTo(t.hist.logged, n);
    assert UpTo(t.hist.acked, n) && UpTo(t.hist.memory, n);
  }

  lemma AppendKeeps(fmt: Format, s: System)
    requires Sound(fmt) && Inv(fmt, s) && Enabled(fmt, s, Append) && Careful(fmt, s, Append)
    ensures Inv(fmt, Next(fmt, s, Append))
  {
    hide EntryBytes, EndsWhole, LogOf, Above, WalShape, Transactions, Writable;
    var e, w, n := s.proc.phase.entry, s.disk.watermark, s.proc.counter;
    assert |EntryBytes(fmt, e)| > 0 by {
      EntryFields(fmt, e);
    }
    LandedKeeps(fmt, s, |EntryBytes(fmt, e)|);
    var m := Landed(fmt, s, |EntryBytes(fmt, e)|);
    var t := Next(fmt, s, Append);
    AboveKeeps(s.hist.logged, e, w);
    LoggedMore(s.hist.base, s.hist.logged, e, w);
    SnocIncreasing(s.hist.acked, e);
    AckedMore(fmt, m.disk, m.hist, e);
    assert e.facts[..0] == [] && LogOf(s.hist.memory) + LoadAll([], []) == LogOf(s.hist.memory);
    assert UpTo(t.hist.logged, n) && UpTo(t.hist.acked, n);
  }

  lemma AckedMore(fmt: Format, disk: Disk, hist: History, e: Entry)
    requires DiskInv(fmt, disk, hist) && Stamped(e)
    requires Increasing(Above(hist.acked + [e], 0))
    requires e.facts != [] ==> e in hist.base + Above(hist.logged, disk.watermark)
    ensures DiskInv(fmt, disk, hist.(acked := hist.acked + [e]))
  {
    hide WalShape, LogOf, Above, Transactions;
  }

  lemma ApplyFactKeeps(fmt: Format, s: System)
    requires Inv(fmt, s) && Enabled(fmt, s, ApplyFact)
    ensures Inv(fmt, Next(fmt, s, ApplyFact))
  {
    hide DiskInv, LogOf, Above, Transactions, LoadAll;
    var p := s.proc.phase;
    var facts, k := p.entry.facts, p.applied;
    LoadAllSnoc([], facts[..k], facts[k]);
    assert facts[..k + 1] == facts[..k] + [facts[k]];
    var log, part := LogOf(s.hist.memory), LoadAll([], facts[..k]);
    assert facts[k] !in log by {
      MemoryIsOlder(s, p.entry);
    }
    assert Load(log + part, facts[k]) == log + Load(part, facts[k]);
  }

  lemma MemoryIsOlder(s: System, e: Entry)
    requires s.proc.Open? && ProcInv(s.disk, s.proc, s.hist) && s.proc.phase.Appended? && e == s.proc.phase.entry
    ensures forall f :: f in LogOf(s.hist.memory) ==> f.txCount < e.tx
    ensures forall i :: 0 <= i < |e.facts| ==> e.facts[i] !in LogOf(s.hist.memory)
  {
    hide LogOf, Above;
    LogCounts(s.hist.memory);
    UpToMembers(s.hist.memory, e.tx - 1);
  }

  lemma FinishWriteKeeps(fmt: Format, s: System)
    requires Inv(fmt, s) && Enabled(fmt, s, FinishWrite)
    ensures Inv(fmt, Next(fmt, s, FinishWrite))
  {
    hide LogOf, Above, WalShape;
    var e, memory := s.proc.phase.entry, s.hist.memory;
    assert e.facts[..|e.facts|] == e.facts;
    LogConcat(memory, NonEmpty(e));
    LogOfOne(e);
    AboveHas(s.hist.logged, s.disk.watermark);
    UpToMembers(memory, e.tx - 1);
    var t := Next(fmt, s, FinishWrite);
    assert Transactions(t.hist.memory);
  }

  lemma PublishKeeps(fmt: Format, s: System)
    requires Inv(fmt, s) && Enabled(fmt, s, Publish)
    ensures Inv(fmt, Next(fmt, s, Publish))
  {
    hide LogOf, Above, WalShape;
    var w, n := s.disk.watermark, s.proc.counter;
    LogConcat(s.hist.base, s.hist.memory);
    AboveNone(s.hist.logged, n);
    AboveHas(s.hist.logged, w);
    UpToMembers(s.hist.base, w);
    var base := s.hist.base + s.hist.memory;
    assert Transactions(base) && UpTo(base, n) by {
      forall i | 0 <= i < |s.hist.memory|
        ensures s.hist.memory[i].tx > w
      {
        assert s.hist.memory[i] in s.hist.memory;
      }
    }
    assert base + [] == base;
    assert forall e :: e in base ==> e in s.hist.base + Above(s.hist.logged, w);
  }

  lemma RetireKeeps(fmt: Format, s: System)
    requires Inv(fmt, s) && Enabled(fmt, s, Retire)
    ensures Inv(fmt, Next(fmt, s, Retire))
  {
    hide LogOf, Above;
    AboveNone(s.hist.logged, s.disk.watermark);
    AboveNone([], s.disk.watermark);
    AboveNone([], 0);
    EmptyReplay(0);
    assert s.hist.base + [] == s.hist.base;
  }

  lemma QuietStepKeeps(fmt: Format, s: System, step: Step)
    requires Inv(fmt, s) && Enabled(fmt, s, step)
    requires step.GiveUp? || step.Checkpoint? || step.PublishFails? || step.RetireFails? || step.Close? || step.Crash?
    ensures Inv(fmt, Next(fmt, s, step))
  {
    hide DiskInv, Above, Transactions;
    assert LogOf([]) == [];
    if step.GiveUp? {
      var n := s.proc.counter;
      assert UpTo(s.hist.logged, n) && UpTo(s.hist.acked, n) && UpTo(s.hist.memory, n);
    }
  }

  lemma StepKeeps(fmt: Format, s: System, step: Step)
    requires Sound(fmt) && Inv(fmt, s) && Enabled(fmt, s, step) && Careful(fmt, s, step)
    ensures Inv(fmt, Next(fmt, s, step))
  {
    hide Inv, Enabled, Careful, Next;
    match step {
      case OpenDb(landed, opts) => OpenKeeps(fmt, s, landed, opts);
      case Begin(facts, now) => BeginKeeps(fmt, s, facts, now);
      case OpenWriter(landed) => OpenWriterKeeps(fmt, s, landed);
      case Append => AppendKeeps(fmt, s);
      case AppendFails(landed) => AppendFailsKeeps(fmt, s, landed);
      case ApplyFact => ApplyFactKeeps(fmt, s);
      case FinishWrite => FinishWriteKeeps(fmt, s);
      case Publish => PublishKeeps(fmt, s);
      case Retire => RetireKeeps(fmt, s);
      case _ => QuietStepKeeps(fmt, s, step);
    }
  }

  lemma {:induction false} RunKeeps(fmt: Format, s: System, steps: seq<Step>)
    requires Sound(fmt) && Inv(fmt, s) && Runs(fmt, s, steps) && CarefulRun(fmt, s, steps)
    ensures Inv(fmt, Run(fmt, s, steps))
    decreases steps
  {
    hide Inv, Enabled, Careful, Next;
    if steps != [] {
      StepKeeps(fmt, s, steps[0]);
      RunKeeps(fmt, Next(fmt, s, steps[0]), steps[1..]);
    }
  }

  // ── What it means for every run ────────────────────────────────────────────

  /**
   At every point of every careful run, whatever a crash leaves on disk reopens to the log of a
   strictly ordered list of transactions that contains every acknowledged non-empty transaction,
   and contains nothing that was not a complete entry handed to the WAL.
   */
  lemma Durability(fmt: Format, steps: seq<Step>)
    requires Sound(fmt) && Runs(fmt, Fresh, steps) && CarefulRun(fmt, Fresh, steps)
    ensures var s := Run(fmt, Fresh, steps);
            && Reopened(fmt, s.disk) == Ok(LogOf(Recovered(s)))
            && Increasing(Recovered(s))
            && Increasing(Above(s.hist.acked, 0))
            && (forall e :: e in s.hist.acked && e.facts != [] ==> e in Recovered(s))
            && (forall e :: e in Recovered(s) ==> e in s.hist.handed)
  {
    hide Inv, Runs, CarefulRun, Run;
    FreshInv(fmt);
    RunKeeps(fmt, Fresh, steps);
    InvRecovers(fmt, Run(fmt, Fresh, steps));
  }

  lemma InvRecovers(fmt: Format, s: System)
    requires Sound(fmt) && Inv(fmt, s)
    ensures Reopened(fmt, s.disk) == Ok(LogOf(Recovered(s)))
    ensures Increasing(Recovered(s))
    ensures Increasing(Above(s.hist.acked, 0))
    ensures forall e :: e in s.hist.acked && e.facts != [] ==> e in Recovered(s)
    ensures forall e :: e in Recovered(s) ==> e in s.hist.handed
  {
    hide LogOf, Above, ProcInv, ReadFile, ReplayFacts, WalShape;
    var w, logged := s.disk.watermark, s.hist.logged;
    var kept := Above(logged, w);
    AboveTransactions(logged, w);
    LogConcat(s.hist.base, kept);
    ReplayIsLog([], logged, w);
    assert [] + LogOf(kept) == LogOf(kept);
    if s.disk.wal.Some? {
      ShapeReads(fmt, s.disk.wal.value, logged, s.hist.tail);
    } else {
      NoFileNoEntries(fmt, s.hist.logged, s.hist.tail, w);
      assert s.disk.published + [] == s.disk.published;
    }
    AboveHas(logged, w);
    UpToMembers(s.hist.base, w);
    forall i, j | 0 <= i < j < |s.hist.base + kept|
      ensures (s.hist.base + kept)[i].tx < (s.hist.base + kept)[j].tx
    {
      if i < |s.hist.base| <= j {
        assert s.hist.base[i] in s.hist.base;
        assert kept[j - |s.hist.base|] in kept;
      }
    }
  }

  lemma NoFileNoEntries(fmt: Format, logged: seq<Entry>, tail: seq<Byte>, w: nat)
    requires WalShape(fmt, None, logged, tail)
    ensures LogOf(Above(logged, w)) == []
  {}

  /** After every open at the end of a careful run, the next count exceeds every count in the reopened log. */
  lemma CounterSafety(fmt: Format, steps: seq<Step>, landed: nat, opts: Options)
    requires Sound(fmt) && Runs(fmt, Fresh, steps) && CarefulRun(fmt, Fresh, steps)
    requires Enabled(fmt, Run(fmt, Fresh, steps), OpenDb(landed, opts))
    ensures var t := Next(fmt, Run(fmt, Fresh, steps), OpenDb(landed, opts));
            t.proc.Open? ==>
              && (forall f :: f in MemoryLog(t) ==> f.txCount < t.proc.counter + 1)
              && t.disk.watermark < t.proc.counter + 1
  {
    hide LogOf, Inv, Runs, CarefulRun, Run;
    FreshInv(fmt);
    RunKeeps(fmt, Fresh, steps);
    var s := Run(fmt, Fresh, steps);
    OpenKeeps(fmt, s, landed, opts);
    var t := Next(fmt, s, OpenDb(landed, opts));
    if t.proc.Open? {
      CountsBounded(fmt, t);
    }
  }

  /** In every reachable open state no fact in memory outruns the counter. */
  lemma CountsBounded(fmt: Format, s: System)
    requires Inv(fmt, s) && s.proc.Open?
    ensures forall f :: f in MemoryLog(s) ==> f.txCount <= s.proc.counter
  {
    hide LogOf, Above, WalShape, LoadAll;
    LogCounts(s.hist.base);
    LogCounts(s.hist.memory);
    UpToMembers(s.hist.base, s.disk.watermark);
    UpToMembers(s.hist.memory, s.proc.counter);
    if s.proc.phase.Appended? {
      var e, k := s.proc.phase.entry, s.proc.phase.applied;
      LoadAllFrom([], e.facts[..k]);
    }
  }

  /** Whenever a careful run deletes the WAL, the published image holds every acknowledged non-empty transaction. */
  lemma RetireSafety(fmt: Format, steps: seq<Step>)
    requires Sound(fmt) && Runs(fmt, Fresh, steps) && CarefulRun(fmt, Fresh, steps)
    requires Enabled(fmt, Run(fmt, Fresh, steps), Retire)
    ensures var s := Run(fmt, Fresh, steps);
            && (forall e :: e in s.hist.acked && e.facts != [] ==> e.tx <= s.disk.watermark && e in s.hist.base)
            && (forall e :: e in s.hist.logged && e.facts != [] ==> e.tx <= s.disk.watermark)
  {
    hide Inv, Runs, CarefulRun, Run;
    FreshInv(fmt);
    RunKeeps(fmt, Fresh, steps);
    RetiredIsPublished(fmt, Run(fmt, Fresh, steps));
  }

  lemma RetiredIsPublished(fmt: Format, s: System)
    requires Inv(fmt, s) && Enabled(fmt, s, Retire)
    ensures forall e :: e in s.hist.acked && e.facts != [] ==> e.tx <= s.disk.watermark && e in s.hist.base
    ensures forall e :: e in s.hist.logged && e.facts != [] ==> e.tx <= s.disk.watermark
  {
    hide LogOf, Above, WalShape;
    UpToMembers(s.hist.base, s.disk.watermark);
    UpToMembers(s.hist.logged, s.proc.counter);
  }
}
