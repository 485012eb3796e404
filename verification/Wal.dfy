/**
 The write-ahead log file: a 32-byte header followed by self-delimiting, checksummed entries.

 The checksum is an arbitrary function and the fact codec is any codec whose decoder inverts
 its encoder: every result below holds for all of them.
 */
module Wal {
  import opened Bytes
  import opened Ledger
  import opened Sequences

  const HEADER_SIZE: nat := 32
  const MAX_FACT_BYTES: nat := 4080
  const MAX_FACTS_PER_ENTRY: nat := 1_000_000
  const MAX_FACT_SIZE: nat := 10 * 1024 * 1024
  const WAL_VERSION: nat := 1
  /** The bytes of "MWAL". */
  const MAGIC: seq<Byte> := [77, 87, 65, 76]

  datatype Format = Format(encode: Fact -> seq<Byte>, decode: seq<Byte> -> Option<Fact>, crc: seq<Byte> -> nat)

  ghost predicate Sound(fmt: Format) {
    && (forall f :: fmt.decode(fmt.encode(f)) == Some(f))
    && (forall bytes :: fmt.crc(bytes) < U32_LIMIT)
  }

  datatype Entry = Entry(tx: nat, facts: seq<Fact>)

  /** Every fact's encoding is within the per-fact limit. */
  ghost predicate Encodable(fmt: Format, facts: seq<Fact>) {
    forall i :: 0 <= i < |facts| ==> |fmt.encode(facts[i])| <= MAX_FACT_BYTES
  }

  /** What `serialize_entry` accepts. */
  ghost predicate Writable(fmt: Format, e: Entry) {
    && e.tx < U64_LIMIT
    && |e.facts| < U64_LIMIT
    && Encodable(fmt, e.facts)
  }

  /** Writable, and within the reader's cap on facts per entry. */
  ghost predicate Readable(fmt: Format, e: Entry) {
    Writable(fmt, e) && |e.facts| <= MAX_FACTS_PER_ENTRY
  }

  ghost predicate AllReadable(fmt: Format, es: seq<Entry>) {
    forall i :: 0 <= i < |es| ==> Readable(fmt, es[i])
  }

  // ── Layout ─────────────────────────────────────────────────────────────────

  function Header(): (h: seq<Byte>)
    ensures |h| == HEADER_SIZE
  {
    MAGIC + ToLE(WAL_VERSION, 4) + seq(24, _ => 0)
  }

  /** `validate_wal_header`; the reserved bytes are not inspected. */
  predicate ValidHeader(file: seq<Byte>)
    requires |file| >= HEADER_SIZE
  {
    file[..4] == MAGIC && FromLE(file[4..8]) == WAL_VERSION
  }

  function Frame(fmt: Format, f: Fact): seq<Byte> {
    ToLE(|fmt.encode(f)|, 4) + fmt.encode(f)
  }

  function Frames(fmt: Format, facts: seq<Fact>): seq<Byte> {
    if facts == [] then [] else Frame(fmt, facts[0]) + Frames(fmt, facts[1..])
  }

  function Payload(fmt: Format, e: Entry): seq<Byte> {
    ToLE(e.tx, 8) + ToLE(|e.facts|, 8) + Frames(fmt, e.facts)
  }

  function EntryBytes(fmt: Format, e: Entry): seq<Byte> {
    ToLE(fmt.crc(Payload(fmt, e)), 4) + Payload(fmt, e)
  }

  function EntriesBytes(fmt: Format, es: seq<Entry>): seq<Byte> {
    if es == [] then [] else EntryBytes(fmt, es[0]) + EntriesBytes(fmt, es[1..])
  }

  lemma {:induction false} FramesConcat(fmt: Format, a: seq<Fact>, b: seq<Fact>)
    ensures Frames(fmt, a + b) == Frames(fmt, a) + Frames(fmt, b)
  {
    if a == [] {
      assert a + b == b;
    } else {
      hide Frame;
      FramesConcat(fmt, a[1..], b);
      assert (a + b)[1..] == a[1..] + b;
      Regroup(Frame(fmt, a[0]), Frames(fmt, a[1..]), Frames(fmt, b));
    }
  }

  lemma FirstEntryBytes(fmt: Format, es: seq<Entry>)
    ensures es == [] ==> EntriesBytes(fmt, es) == []
    ensures es != [] ==> EntriesBytes(fmt, es) == EntryBytes(fmt, es[0]) + EntriesBytes(fmt, es[1..])
  {
    hide EntryBytes;
  }

  lemma {:induction false} EntriesConcat(fmt: Format, a: seq<Entry>, b: seq<Entry>)
    ensures EntriesBytes(fmt, a + b) == EntriesBytes(fmt, a) + EntriesBytes(fmt, b)
  {
    hide EntryBytes, EntriesBytes;
    FirstEntryBytes(fmt, a);
    if a == [] {
      assert a + b == b;
      assert [] + EntriesBytes(fmt, b) == EntriesBytes(fmt, b);
    } else {
      EntriesConcat(fmt, a[1..], b);
      FirstEntryBytes(fmt, a + b);
      assert (a + b)[1..] == a[1..] + b;
      Regroup(EntryBytes(fmt, a[0]), EntriesBytes(fmt, a[1..]), EntriesBytes(fmt, b));
    }
  }

  // ── Writing ────────────────────────────────────────────────────────────────

  /** `serialize_entry`: fails exactly when some fact is too large, and otherwise lays the entry out. */
  method SerializeEntry(fmt: Format, tx: nat, facts: seq<Fact>) returns (r: Result<seq<Byte>>)
    requires tx < U64_LIMIT && |facts| < U64_LIMIT
    ensures r.Ok? <==> Writable(fmt, Entry(tx, facts))
    ensures r.Ok? ==> r.value == EntryBytes(fmt, Entry(tx, facts))
  {
    var payload := ToLE(tx, 8) + ToLE(|facts|, 8);
    for i := 0 to |facts|
      invariant payload == ToLE(tx, 8) + ToLE(|facts|, 8) + Frames(fmt, facts[..i])
      invariant Encodable(fmt, facts[..i])
    {
      var bytes := fmt.encode(facts[i]);
      if |bytes| > MAX_FACT_BYTES {
        return Err("fact exceeds maximum size");
      }
      FramesConcat(fmt, facts[..i], [facts[i]]);
      assert facts[..i + 1] == facts[..i] + [facts[i]];
      assert [facts[i]][1..] == [];
      payload := payload + ToLE(|bytes|, 4);
      payload := payload + bytes;
    }
    assert facts[..|facts|] == facts;
    r := Ok(ToLE(fmt.crc(payload), 4) + payload);
  }

  // ── Reading ────────────────────────────────────────────────────────────────

  datatype Parsed<T> = Parsed(value: T, used: nat)

  function After(facts: seq<Fact>, used: nat, rest: Option<Parsed<seq<Fact>>>): Option<Parsed<seq<Fact>>> {
    match rest
    case None => None
    case Some(p) => Some(Parsed(facts + p.value, used + p.used))
  }

  /** One framed fact at the front of `s`; `None` on truncation, an oversized frame or a bad fact. */
  function ReadFrame(fmt: Format, s: seq<Byte>): (r: Option<Parsed<Fact>>)
    ensures r.Some? ==> 4 <= r.value.used <= |s|
  {
    if |s| < 4 then None
    else
      var len := FromLE(s[..4]);
      if len > MAX_FACT_SIZE || |s| < 4 + len then None
      else
        match fmt.decode(s[4..4 + len])
        case None => None
        case Some(f) => Some(Parsed(f, 4 + len))
  }

  /** Reads `n` framed facts from the front of `s`. */
  function ReadFacts(fmt: Format, s: seq<Byte>, n: nat): (r: Option<Parsed<seq<Fact>>>)
    ensures r.Some? ==> r.value.used <= |s|
    decreases n
  {
    if n == 0 then Some(Parsed([], 0))
    else
      match ReadFrame(fmt, s)
      case None => None
      case Some(p) => After([p.value], p.used, ReadFacts(fmt, s[p.used..], n - 1))
  }

  /** Reads one entry from the front of `s`; `None` means the reader stops here. */
  function ReadEntry(fmt: Format, s: seq<Byte>): (r: Option<Parsed<Entry>>)
    ensures r.Some? ==> 20 <= r.value.used <= |s|
  {
    if |s| < 20 then None
    else
      var count := FromLE(s[12..20]);
      if count > MAX_FACTS_PER_ENTRY then None
      else
        match ReadFacts(fmt, s[20..], count)
        case None => None
        case Some(facts) =>
          if fmt.crc(s[4..20 + facts.used]) != FromLE(s[..4]) then None
          else Some(Parsed(Entry(FromLE(s[4..12]), facts.value), 20 + facts.used))
  }

  function ReadEntries(fmt: Format, s: seq<Byte>): seq<Entry>
    decreases |s|
  {
    match ReadEntry(fmt, s)
    case None => []
    case Some(p) => [p.value] + ReadEntries(fmt, s[p.used..])
  }

  /** `WalReader::open` followed by `read_entries`. */
  function ReadFile(fmt: Format, file: seq<Byte>): Result<seq<Entry>> {
    if |file| < HEADER_SIZE then Ok([])
    else if !ValidHeader(file) then Err("invalid WAL header")
    else Ok(ReadEntries(fmt, file[HEADER_SIZE..]))
  }

  lemma AfterNothing(rest: Option<Parsed<seq<Fact>>>)
    ensures After([], 0, rest) == rest
  {
    if rest.Some? {
      assert [] + rest.value.value == rest.value.value;
    }
  }

  lemma AfterOne(facts: seq<Fact>, used: nat, f: Fact, len: nat, rest: Option<Parsed<seq<Fact>>>)
    ensures After(facts, used, After([f], len, rest)) == After(facts + [f], used + len, rest)
  {
    if rest.Some? {
      assert facts + ([f] + rest.value.value) == facts + [f] + rest.value.value;
    }
  }

  /** The body of the inner loop of `visit_entries`. */
  method VisitFrame(fmt: Format, file: seq<Byte>, pos: nat) returns (r: Option<Parsed<Fact>>)
    requires pos <= |file|
    ensures r == ReadFrame(fmt, file[pos..])
  {
    if |file| - pos < 4 {
      return None;
    }
    var len := FromLE(file[pos..pos + 4]);
    assert file[pos..][..4] == file[pos..pos + 4];
    if len > MAX_FACT_SIZE || |file| - (pos + 4) < len {
      return None;
    }
    var bytes := file[pos + 4..pos + 4 + len];
    assert file[pos..][4..4 + len] == bytes;
    match fmt.decode(bytes) {
      case None =>
        return None;
      case Some(f) =>
        return Some(Parsed(f, 4 + len));
    }
  }

  lemma AdvanceFacts(fmt: Format, file: seq<Byte>, pos: nat, facts: seq<Fact>, used: nat, n: nat)
    requires pos <= |file| && n > 0
    ensures var next := ReadFrame(fmt, file[pos..]);
            After(facts, used, ReadFacts(fmt, file[pos..], n)) ==
            if next.None? then None
            else After(facts + [next.value.value], used + next.value.used, ReadFacts(fmt, file[pos + next.value.used..], n - 1))
  {
    hide ReadFrame;
    var next := ReadFrame(fmt, file[pos..]);
    if next.Some? {
      assert file[pos..][next.value.used..] == file[pos + next.value.used..];
      AfterOne(facts, used, next.value.value, next.value.used, ReadFacts(fmt, file[pos + next.value.used..], n - 1));
    }
  }

  lemma FactsDone(fmt: Format, s: seq<Byte>, facts: seq<Fact>, used: nat)
    ensures After(facts, used, ReadFacts(fmt, s, 0)) == Some(Parsed(facts, used))
  {
    assert facts + [] == facts;
  }

  /** The inner loop of `visit_entries`: a moving file position and a growing payload buffer. */
  method VisitFacts(fmt: Format, file: seq<Byte>, start: nat, count: nat)
    returns (truncated: bool, facts: seq<Fact>, frames: seq<Byte>)
    requires start <= |file|
    ensures truncated <==> ReadFacts(fmt, file[start..], count).None?
    ensures !truncated ==> start + |frames| <= |file| && frames == file[start..start + |frames|]
    ensures !truncated ==> ReadFacts(fmt, file[start..], count) == Some(Parsed(facts, |frames|))
  {
    hide ReadFacts, ReadFrame, After;
    truncated, facts, frames := false, [], [];
    var pos := start;
    AfterNothing(ReadFacts(fmt, file[start..], count));
    for i := 0 to count
      invariant start <= pos <= |file|
      invariant frames == file[start..pos]
      invariant ReadFacts(fmt, file[start..], count) == After(facts, pos - start, ReadFacts(fmt, file[pos..], count - i))
    {
      AdvanceFacts(fmt, file, pos, facts, pos - start, count - i);
      var next := VisitFrame(fmt, file, pos);
      if next.None? {
        truncated := true;
        return;
      }
      facts := facts + [next.value.value];
      frames := frames + file[pos..pos + next.value.used];
      pos := pos + next.value.used;
    }
    FactsDone(fmt, file[pos..], facts, pos - start);
  }

  /** The fixed fields of an entry at a file position. */
  lemma EntrySlices(file: seq<Byte>, pos: nat)
    requires pos + 20 <= |file|
    ensures var s := file[pos..];
            && s[..4] == file[pos..pos + 4] && s[4..12] == file[pos + 4..pos + 12] && s[12..20] == file[pos + 12..pos + 20]
            && s[20..] == file[pos + 20..]
  {
    SliceOfRest(file, pos, 0, 4);
    SliceOfRest(file, pos, 4, 12);
    SliceOfRest(file, pos, 12, 20);
    RestOfRest(file, pos, 20);
    assert file[pos..][0..4] == file[pos..][..4];
  }

  lemma PayloadSlice(file: seq<Byte>, pos: nat, n: nat)
    requires pos + 20 + n <= |file|
    ensures file[pos + 4..pos + 12] + file[pos + 12..pos + 20] + file[pos + 20..pos + 20 + n] == file[pos..][4..20 + n]
  {
    SliceOfRest(file, pos, 4, 20 + n);
    assert file[pos + 4..pos + 12] + file[pos + 12..pos + 20] == file[pos + 4..pos + 20];
    assert file[pos + 4..pos + 20] + file[pos + 20..pos + 20 + n] == file[pos + 4..pos + 20 + n];
  }

  /** One turn of the outer loop of `visit_entries`, at a file position. */
  method VisitEntry(fmt: Format, file: seq<Byte>, pos: nat) returns (r: Option<Parsed<Entry>>)
    requires pos <= |file|
    ensures r == ReadEntry(fmt, file[pos..])
  {
    hide ReadFacts, FromLE;
    if |file| - pos < 20 {
      return None;
    }
    var count := FromLE(file[pos + 12..pos + 20]);
    EntrySlices(file, pos);
    if count > MAX_FACTS_PER_ENTRY {
      return None;
    }
    var truncated, facts, frames := VisitFacts(fmt, file, pos + 20, count);
    if truncated {
      return None;
    }
    var payload := file[pos + 4..pos + 12] + file[pos + 12..pos + 20] + frames;
    PayloadSlice(file, pos, |frames|);
    if FromLE(file[pos..pos + 4]) != fmt.crc(payload) {
      return None;
    }
    return Some(Parsed(Entry(FromLE(file[pos + 4..pos + 12]), facts), 20 + |frames|));
  }

  lemma Advance(fmt: Format, file: seq<Byte>, pos: nat, entries: seq<Entry>)
    requires pos <= |file|
    ensures var next := ReadEntry(fmt, file[pos..]);
            entries + ReadEntries(fmt, file[pos..]) ==
            if next.None? then entries else entries + [next.value.value] + ReadEntries(fmt, file[pos + next.value.used..])
  {
    hide ReadEntry;
    var next := ReadEntry(fmt, file[pos..]);
    if next.Some? {
      assert file[pos..][next.value.used..] == file[pos + next.value.used..];
    }
  }

  /** `visit_entries`: seek past the header, then decode entries until one fails. */
  method VisitEntries(fmt: Format, file: seq<Byte>) returns (entries: seq<Entry>)
    ensures entries == if |file| < HEADER_SIZE then [] else ReadEntries(fmt, file[HEADER_SIZE..])
  {
    hide ReadEntry, ReadEntries;
    entries := [];
    if |file| < HEADER_SIZE {
      return;
    }
    var pos, done := HEADER_SIZE, false;
    while !done
      invariant HEADER_SIZE <= pos <= |file|
      invariant ReadEntries(fmt, file[HEADER_SIZE..]) == if done then entries else entries + ReadEntries(fmt, file[pos..])
      decreases |file| - pos, !done
    {
      Advance(fmt, file, pos, entries);
      var next := VisitEntry(fmt, file, pos);
      if next.None? {
        done := true;
      } else {
        entries := entries + [next.value.value];
        pos := pos + next.value.used;
      }
    }
  }

  // ── Round trip ─────────────────────────────────────────────────────────────

  lemma ReadFrameWhole(fmt: Format, f: Fact, tail: seq<Byte>)
    requires Sound(fmt) && |fmt.encode(f)| <= MAX_FACT_BYTES
    ensures ReadFrame(fmt, Frame(fmt, f) + tail) == Some(Parsed(f, |Frame(fmt, f)|))
  {
    var bytes := fmt.encode(f);
    var size, s := ToLE(|bytes|, 4), Frame(fmt, f) + tail;
    CapacityOfWords();
    LERoundTrip(|bytes|, 4);
    assert s[..4] == size && s[4..4 + |bytes|] == bytes;
  }

  lemma {:induction false} ReadFactsWhole(fmt: Format, facts: seq<Fact>, rest: seq<Byte>)
    requires Sound(fmt)
    requires Encodable(fmt, facts)
    ensures ReadFacts(fmt, Frames(fmt, facts) + rest, |facts|) == Some(Parsed(facts, |Frames(fmt, facts)|))
  {
    if facts != [] {
      hide ReadFrame, Frame, Sound;
      var first, others := Frame(fmt, facts[0]), Frames(fmt, facts[1..]);
      ReadFactsWhole(fmt, facts[1..], rest);
      Regroup(first, others, rest);
      ReadFrameWhole(fmt, facts[0], others + rest);
      DropFront(first, others + rest);
      assert [facts[0]] + facts[1..] == facts;
    }
  }

  /** Any string holding the first frame shows the reader its length and its bytes. */
  lemma FirstFrame(fmt: Format, facts: seq<Fact>, s: seq<Byte>)
    requires facts != [] && |fmt.encode(facts[0])| <= MAX_FACT_BYTES
    requires |s| >= 4 && s[..4] == Frames(fmt, facts)[..4]
    ensures FromLE(s[..4]) == |fmt.encode(facts[0])|
    ensures Frames(fmt, facts)[4..4 + |fmt.encode(facts[0])|] == fmt.encode(facts[0])
    ensures Frames(fmt, facts)[4 + |fmt.encode(facts[0])|..] == Frames(fmt, facts[1..])
  {
    CapacityOfWords();
    LERoundTrip(|fmt.encode(facts[0])|, 4);
    assert s[..4] == ToLE(|fmt.encode(facts[0])|, 4);
  }

  /** Three fields of fixed width and a rest, cut apart again. */
  lemma FieldSlices(crc: seq<Byte>, tx: seq<Byte>, count: seq<Byte>, frames: seq<Byte>)
    requires |crc| == 4 && |tx| == 8 && |count| == 8
    ensures var b := crc + (tx + count + frames);
            b[..4] == crc && b[4..12] == tx && b[12..20] == count && b[4..] == tx + count + frames && b[20..] == frames
  {}

  /** The fixed fields of an entry, read back from its bytes. */
  lemma EntryFields(fmt: Format, e: Entry)
    requires Sound(fmt) && Writable(fmt, e)
    ensures var b := EntryBytes(fmt, e);
            && |b| >= 20
            && FromLE(b[..4]) == fmt.crc(Payload(fmt, e))
            && FromLE(b[4..12]) == e.tx
            && FromLE(b[12..20]) == |e.facts|
            && b[4..] == Payload(fmt, e)
            && b[20..] == Frames(fmt, e.facts)
  {
    hide ToLE, FromLE, Capacity, Frames;
    CapacityOfWords();
    var crc := fmt.crc(Payload(fmt, e));
    LERoundTrip(crc, 4);
    LERoundTrip(e.tx, 8);
    LERoundTrip(|e.facts|, 8);
    FieldSlices(ToLE(crc, 4), ToLE(e.tx, 8), ToLE(|e.facts|, 8), Frames(fmt, e.facts));
  }

  /** One whole entry at the front of the log is read back, whatever follows it. */
  lemma ReadEntryWhole(fmt: Format, e: Entry, rest: seq<Byte>)
    requires Sound(fmt) && Readable(fmt, e)
    ensures ReadEntry(fmt, EntryBytes(fmt, e) + rest) == Some(Parsed(e, |EntryBytes(fmt, e)|))
  {
    hide ReadFacts, EntryBytes, Frames, Payload, Encodable, Sound;
    var b := EntryBytes(fmt, e);
    EntryFields(fmt, e);
    FrontOfConcat(b, rest, 0, 4);
    FrontOfConcat(b, rest, 4, 12);
    FrontOfConcat(b, rest, 12, 20);
    FrontOfConcat(b, rest, 4, |b|);
    RestOfConcat(b, rest, 20);
    ReadFactsWhole(fmt, e.facts, rest);
    assert b[4..|b|] == b[4..] && b[0..4] == b[..4] && (b + rest)[0..4] == (b + rest)[..4];
  }

  lemma {:induction false} ReadFactsCut(fmt: Format, facts: seq<Fact>, cut: nat)
    requires Sound(fmt)
    requires Encodable(fmt, facts)
    requires cut < |Frames(fmt, facts)|
    ensures ReadFacts(fmt, Frames(fmt, facts)[..cut], |facts|).None?
  {
    var s := Frames(fmt, facts)[..cut];
    var first := 4 + |fmt.encode(facts[0])|;
    if cut >= 4 {
      assert s[..4] == Frames(fmt, facts)[..4];
      FirstFrame(fmt, facts, s);
      if cut >= first {
        ReadFactsCut(fmt, facts[1..], cut - first);
        assert s[first..] == Frames(fmt, facts[1..])[..cut - first];
      }
    }
  }

  /** A torn entry is never accepted, for any checksum function. */
  lemma ReadEntryCut(fmt: Format, e: Entry, cut: nat)
    requires Sound(fmt) && Writable(fmt, e)
    requires cut < |EntryBytes(fmt, e)|
    ensures ReadEntry(fmt, EntryBytes(fmt, e)[..cut]).None?
  {
    hide EntryBytes, Payload, Frames, ReadFacts, Sound, Encodable;
    var b := EntryBytes(fmt, e);
    EntryFields(fmt, e);
    if cut >= 20 {
      SliceOfFront(b, cut, 12, 20);
      RestOfFront(b, cut, 20);
      ReadFactsCut(fmt, e.facts, cut - 20);
    }
  }

  /** One accepted entry, then the rest. */
  lemma ReadEntriesStep(fmt: Format, e: Entry, tail: seq<Byte>)
    requires Sound(fmt) && Readable(fmt, e)
    ensures ReadEntries(fmt, EntryBytes(fmt, e) + tail) == [e] + ReadEntries(fmt, tail)
  {
    ReadEntryWhole(fmt, e, tail);
    assert (EntryBytes(fmt, e) + tail)[|EntryBytes(fmt, e)|..] == tail;
  }

  /** Whole entries in front are read one by one and leave the reader at what follows. */
  lemma {:induction false} ReadEntriesWhole(fmt: Format, es: seq<Entry>, rest: seq<Byte>)
    requires Sound(fmt) && AllReadable(fmt, es)
    ensures ReadEntries(fmt, EntriesBytes(fmt, es) + rest) == es + ReadEntries(fmt, rest)
  {
    hide ReadEntries, EntryBytes, Writable;
    if es == [] {
      assert EntriesBytes(fmt, es) + rest == rest;
    } else {
      ReadEntriesWhole(fmt, es[1..], rest);
      ReadEntriesStep(fmt, es[0], EntriesBytes(fmt, es[1..]) + rest);
      Regroup(EntryBytes(fmt, es[0]), EntriesBytes(fmt, es[1..]), rest);
      Regroup([es[0]], es[1..], ReadEntries(fmt, rest));
    }
  }

  function FileOf(fmt: Format, es: seq<Entry>): seq<Byte> {
    Header() + EntriesBytes(fmt, es)
  }

  lemma HeaderIsValid(rest: seq<Byte>)
    ensures ValidHeader(Header() + rest)
    ensures (Header() + rest)[HEADER_SIZE..] == rest
  {
    CapacityOfWords();
    LERoundTrip(WAL_VERSION, 4);
    assert (Header() + rest)[4..8] == ToLE(WAL_VERSION, 4);
  }

  /** A complete file whose entries are followed by something the reader refuses. */
  lemma ReadUpTo(fmt: Format, es: seq<Entry>, tail: seq<Byte>)
    requires Sound(fmt) && AllReadable(fmt, es)
    ensures ReadFile(fmt, FileOf(fmt, es) + tail) == Ok(es + ReadEntries(fmt, tail))
  {
    hide ReadEntries, EntriesBytes, Header, ValidHeader, AllReadable, Sound;
    var body := EntriesBytes(fmt, es);
    ReadEntriesWhole(fmt, es, tail);
    HeaderIsValid(body + tail);
    Regroup(Header(), body, tail);
  }

  /** Reading back a log returns exactly the entries written. */
  lemma RoundTrip(fmt: Format, es: seq<Entry>)
    requires Sound(fmt) && AllReadable(fmt, es)
    ensures ReadFile(fmt, FileOf(fmt, es)) == Ok(es)
  {
    ReadUpTo(fmt, es, []);
    assert FileOf(fmt, es) + [] == FileOf(fmt, es);
    assert ReadEntry(fmt, []).None?;
    assert es + [] == es;
  }

  /** A header, whole entries and a torn one: the reader returns exactly the whole ones. */
  lemma ReadTorn(fmt: Format, es: seq<Entry>, torn: Entry, cut: nat)
    requires Sound(fmt) && AllReadable(fmt, es) && Writable(fmt, torn)
    requires cut < |EntryBytes(fmt, torn)|
    ensures ReadFile(fmt, FileOf(fmt, es) + EntryBytes(fmt, torn)[..cut]) == Ok(es)
  {
    ReadEntryCut(fmt, torn, cut);
    StopsAt(fmt, es, EntryBytes(fmt, torn)[..cut]);
  }

  lemma StopsAt(fmt: Format, es: seq<Entry>, tail: seq<Byte>)
    requires Sound(fmt) && AllReadable(fmt, es) && ReadEntry(fmt, tail).None?
    ensures ReadFile(fmt, FileOf(fmt, es) + tail) == Ok(es)
  {
    ReadUpTo(fmt, es, tail);
    assert es + [] == es;
  }

  /** A file is its first `n` entries followed by the next one and the others. */
  lemma SplitAt(fmt: Format, es: seq<Entry>, n: nat)
    requires n <= |es|
    ensures n == |es| ==> FileOf(fmt, es) == FileOf(fmt, es[..n])
    ensures n < |es| ==> FileOf(fmt, es) == FileOf(fmt, es[..n]) + EntryBytes(fmt, es[n]) + EntriesBytes(fmt, es[n + 1..])
  {
    hide EntryBytes, Header;
    EntriesConcat(fmt, es[..n], es[n..]);
    assert es[..n] + es[n..] == es;
    if n < |es| {
      assert es[n..][1..] == es[n + 1..];
    } else {
      assert es[..n] == es;
    }
  }

  lemma ShortFile(fmt: Format, file: seq<Byte>)
    requires |file| < HEADER_SIZE
    ensures ReadFile(fmt, file) == Ok([])
  {}

  /** Cut anywhere, even inside the header: exactly the first `n` entries lying wholly before the cut survive. */
  lemma TruncationSafety(fmt: Format, es: seq<Entry>, cut: nat, n: nat)
    requires Sound(fmt) && AllReadable(fmt, es)
    requires cut <= |FileOf(fmt, es)| && n <= |es|
    requires n > 0 ==> |FileOf(fmt, es[..n])| <= cut
    requires n < |es| ==> cut < |FileOf(fmt, es[..n + 1])|
    ensures ReadFile(fmt, FileOf(fmt, es)[..cut]) == Ok(es[..n])
  {
    hide EntryBytes, ReadFile, Header, Writable;
    if cut < HEADER_SIZE {
      ShortFile(fmt, FileOf(fmt, es)[..cut]);
    } else {
      SplitAt(fmt, es, n);
      if n == |es| {
        assert FileOf(fmt, es)[..cut] == FileOf(fmt, es);
        assert es[..n] == es;
        RoundTrip(fmt, es);
      } else {
        SplitAt(fmt, es[..n + 1], n);
        assert es[..n + 1][..n] == es[..n];
        var whole := FileOf(fmt, es[..n]);
        ReadTorn(fmt, es[..n], es[n], cut - |whole|);
        assert FileOf(fmt, es)[..cut] == whole + EntryBytes(fmt, es[n])[..cut - |whole|];
      }
    }
  }

  /** A batch over the reader's cap that `serialize_entry` accepts ends the log where it stands. */
  lemma OversizedBatchEndsLog(fmt: Format, es: seq<Entry>, big: Entry, rest: seq<Byte>)
    requires Sound(fmt) && AllReadable(fmt, es) && Writable(fmt, big)
    requires |big.facts| > MAX_FACTS_PER_ENTRY
    ensures ReadFile(fmt, FileOf(fmt, es) + EntryBytes(fmt, big) + rest) == Ok(es)
  {
    var b := EntryBytes(fmt, big);
    EntryFields(fmt, big);
    assert (b + rest)[12..20] == b[12..20];
    StopsAt(fmt, es, b + rest);
    assert FileOf(fmt, es) + b + rest == FileOf(fmt, es) + (b + rest);
  }

  // ── Appending behind a torn entry ──────────────────────────────────────────

  lemma HighWordCounts(low: seq<Byte>, high: seq<Byte>)
    requires |low| == 4 && FromLE(high) > 0
    ensures FromLE(low + high) >= U32_LIMIT
  {
    hide FromLE, Capacity;
    CapacityOfWords();
    FromLEConcat(low, high);
  }

  /** A fact count whose high word is not zero is beyond the cap. */
  lemma HighWordStopsReader(fmt: Format, s: seq<Byte>)
    requires |s| >= 20 && FromLE(s[16..20]) > 0
    ensures ReadEntry(fmt, s).None?
  {
    hide FromLE, ReadFacts;
    HighWordCounts(s[12..16], s[16..20]);
    assert s[12..16] + s[16..20] == s[12..20];
  }

  lemma LowCountIsSeen(n: nat)
    requires n < U64_LIMIT && n % U32_LIMIT != 0
    ensures FromLE(ToLE(n, 8)[..4]) > 0
  {
    if FromLE(ToLE(n, 8)[..4]) == 0 {
      LowWordZero(n);
    }
  }

  ghost predicate Hidden(fmt: Format, es: seq<Entry>, torn: seq<Byte>, next: Entry, later: seq<Byte>) {
    ReadFile(fmt, FileOf(fmt, es) + torn + EntryBytes(fmt, next) + later) == Ok(es)
  }

  lemma HiddenBehind(fmt: Format, es: seq<Entry>, torn: seq<Byte>, next: Entry, later: seq<Byte>)
    requires Sound(fmt) && AllReadable(fmt, es)
    requires ReadEntry(fmt, torn + EntryBytes(fmt, next) + later).None?
    ensures Hidden(fmt, es, torn, next, later)
  {
    hide ReadFile, FileOf, EntryBytes, ReadEntry;
    var file, b := FileOf(fmt, es), EntryBytes(fmt, next);
    StopsAt(fmt, es, torn + b + later);
    Regroup(file, torn, b);
    Regroup(file, torn + b, later);
  }

  /** Behind twelve bytes, the reader takes the low half of the next entry's transaction for the high half of its count. */
  lemma TxBehindTwelve(fmt: Format, head: seq<Byte>, next: Entry, later: seq<Byte>)
    requires Writable(fmt, next) && |head| == 12
    ensures var s := head + EntryBytes(fmt, next) + later; |s| >= 20 && s[16..20] == ToLE(next.tx, 8)[..4]
  {
    var b := EntryBytes(fmt, next);
    var tx := ToLE(next.tx, 8);
    assert b[4..12] == tx;
    assert b[4..8] == tx[..4] by {
      SliceOfSlice(b, 4, 12, 0, 4);
    }
    assert (head + b + later)[16..20] == b[4..8];
  }

  /** Torn after checksum and count: the next entry, unless its count is a multiple of 2^32, is lost with all later ones. */
  lemma AppendBehindTwelveBytes(fmt: Format, es: seq<Entry>, torn: Entry, next: Entry, later: seq<Byte>)
    requires Sound(fmt) && AllReadable(fmt, es) && Writable(fmt, torn) && Writable(fmt, next)
    requires next.tx % U32_LIMIT != 0
    ensures |EntryBytes(fmt, torn)| > 12
    ensures Hidden(fmt, es, EntryBytes(fmt, torn)[..12], next, later)
  {
    hide EntryBytes, Hidden, ReadEntry, ToLE, FromLE, Payload;
    EntryFields(fmt, torn);
    var head := EntryBytes(fmt, torn)[..12];
    var s := head + EntryBytes(fmt, next) + later;
    LowCountIsSeen(next.tx);
    TxBehindTwelve(fmt, head, next, later);
    HighWordStopsReader(fmt, s);
    HiddenBehind(fmt, es, head, next, later);
  }

  /** Behind four bytes, the reader takes the low half of the next entry's count for the high half of its own. */
  lemma CountBehindChecksum(fmt: Format, head: seq<Byte>, next: Entry, later: seq<Byte>)
    requires Writable(fmt, next) && |head| == 4
    ensures var s := head + EntryBytes(fmt, next) + later; |s| >= 24 && s[16..20] == ToLE(|next.facts|, 8)[..4]
  {
    var b := EntryBytes(fmt, next);
    var count := ToLE(|next.facts|, 8);
    assert b[12..20] == count;
    assert b[12..16] == count[..4] by {
      SliceOfSlice(b, 12, 20, 0, 4);
    }
    assert (head + b + later)[16..20] == b[12..16];
  }

  /** Torn after the checksum alone: every non-empty next entry is lost with all later ones. */
  lemma AppendBehindChecksum(fmt: Format, es: seq<Entry>, torn: Entry, next: Entry, later: seq<Byte>)
    requires Sound(fmt) && AllReadable(fmt, es) && Writable(fmt, torn) && Readable(fmt, next)
    requires next.facts != []
    ensures |EntryBytes(fmt, torn)| > 4
    ensures Hidden(fmt, es, EntryBytes(fmt, torn)[..4], next, later)
  {
    hide EntryBytes, Hidden, ReadEntry, ToLE, FromLE, Payload;
    EntryFields(fmt, torn);
    var head := EntryBytes(fmt, torn)[..4];
    var s := head + EntryBytes(fmt, next) + later;
    LowCountIsSeen(|next.facts|);
    CountBehindChecksum(fmt, head, next, later);
    HighWordStopsReader(fmt, s);
    HiddenBehind(fmt, es, head, next, later);
  }
}
