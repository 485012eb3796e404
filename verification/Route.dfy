/**
 The projection-first query route: try persisted images newest first, each with a fresh
 aggregate, and fall back to the ledger when none can answer.
 */
module Route {
  import opened Bytes
  import opened Ledger
  import opened Diff
  import opened DiffScan
  import opened Sequences
  import opened Aggregates
  import opened Projection
  import opened Groups
  import opened Cursors

  const WORK: string := "query source work exceeds max-results; incomplete result rejected"

  /** One step of an image scan: the visible rows it visits, and how it ends. A corrupt step may visit anything. */
  datatype ScanStep = Corrupt(garbage: seq<Hit>) | Progress(hits: seq<Hit>, rows: nat, complete: bool)

  /** A persisted image and how reading it goes; running out of steps is a read failure. */
  datatype Candidate = Candidate(subject: Subject, image: seq<EntityGroup>, opens: bool, steps: seq<ScanStep>)

  type Answer = seq<seq<Value>>

  // ── One candidate ──────────────────────────────────────────────────────────

  datatype Played = Abandoned | Failed(error: string) | Scanned(sink: Sink, work: nat)

  /** The scan loop of one candidate from a given sink and work count. */
  function Play(q: Aggregate, tail: seq<EntityGroup>, steps: seq<ScanStep>, sink: Sink, work: nat, max: nat): (p: Played)
    requires |sink.accumulators| == |q.specs|
    ensures p.Scanned? ==> |p.sink.accumulators| == |q.specs|
  {
    if work > max then Failed(WORK)
    else if steps == [] then Abandoned
    else match steps[0]
      case Corrupt(garbage) =>
        var fed := FeedAll(q, sink, Kept(garbage, tail));
        if fed.Err? then Failed(fed.error) else Abandoned
      case Progress(hits, rows, complete) =>
        var fed := FeedAll(q, sink, Kept(hits, tail));
        if fed.Err? then Failed(fed.error)
        else if work + rows > max then Failed(WORK)
        else if complete then Scanned(fed.value, work + rows)
        else if rows == 0 then Abandoned
        else Play(q, tail, steps[1..], fed.value, work + rows, max)
  }

  datatype Verdict = Skipped | Refused(error: string) | Answered(answer: Answer)

  function RowCount(groups: seq<EntityGroup>): nat {
    if groups == [] then 0 else |groups[0].windows| + RowCount(groups[1..])
  }

  /** A candidate with its overlay: image rows, then overlay rows, then the result. */
  function Attempt(q: Aggregate, c: Candidate, tail: seq<EntityGroup>, tailWork: nat, at: int, max: nat): Verdict {
    if tailWork > max then Refused(WORK)
    else if !c.opens then Skipped
    else match Play(q, tail, c.steps, EmptySink(q), tailWork, max)
      case Abandoned => Skipped
      case Failed(e) => Refused(e)
      case Scanned(sink, work) =>
        var fed := FeedAll(q, sink, HitsOf(tail, at));
        if fed.Err? then Refused(fed.error)
        else if work + RowCount(tail) > max then Refused(WORK)
        else Answered(Finish(q, fed.value))
  }

  // ── What a candidate's reads promise ───────────────────────────────────────

  /** The scan reaches a completing step: no corrupt one and no empty one comes first. */
  predicate Completes(steps: seq<ScanStep>) {
    steps != [] && steps[0].Progress? && (steps[0].complete || (steps[0].rows > 0 && Completes(steps[1..])))
  }

  predicate Stops(step: ScanStep) {
    step.Corrupt? || step.complete || step.rows == 0
  }

  function HitsIn(step: ScanStep): seq<Hit> {
    if step.Corrupt? then step.garbage else step.hits
  }

  /** The rows visited up to where the scan stops. */
  function Visited(steps: seq<ScanStep>): seq<Hit> {
    if steps == [] then []
    else HitsIn(steps[0]) + if Stops(steps[0]) then [] else Visited(steps[1..])
  }

  function RowsRead(steps: seq<ScanStep>): nat {
    if steps == [] || steps[0].Corrupt? then 0
    else steps[0].rows + if Stops(steps[0]) then 0 else RowsRead(steps[1..])
  }

  /**
   A scan that completes has checked the image's fingerprint, so it visited exactly the image's rows;
   a visited row was read.
   */
  ghost predicate Checked(c: Candidate, at: int) {
    Completes(c.steps) ==> Visited(c.steps) == HitsOf(c.image, at) && |Visited(c.steps)| <= RowsRead(c.steps)
  }

  lemma {:induction false} KeptSplits(a: seq<Hit>, b: seq<Hit>, tail: seq<EntityGroup>)
    ensures Kept(a + b, tail) == Kept(a, tail) + Kept(b, tail)
  {
    if b == [] {
      assert a + b == a;
    } else {
      assert (a + b)[..|a + b| - 1] == a + b[..|b| - 1];
      KeptSplits(a, b[..|b| - 1], tail);
    }
  }

  /**
   A scan fails exactly when a visited row that the overlay does not replace cannot be fed, or the rows
   read exceed the limit; otherwise it is scanned if it completes and abandoned if it does not.
   */
  ghost predicate PlaysOut(q: Aggregate, tail: seq<EntityGroup>, steps: seq<ScanStep>, sink: Sink, work: nat, max: nat)
    requires |sink.accumulators| == |q.specs|
  {
    var p, fed := Play(q, tail, steps, sink, work, max), FeedAll(q, sink, Kept(Visited(steps), tail));
    && (p.Failed? <==> fed.Err? || work + RowsRead(steps) > max)
    && (p.Scanned? <==> !p.Failed? && Completes(steps))
    && (p.Scanned? ==> fed == Ok(p.sink) && p.work == work + RowsRead(steps))
  }

  lemma PlayStops(q: Aggregate, tail: seq<EntityGroup>, steps: seq<ScanStep>, sink: Sink, work: nat, max: nat)
    requires |sink.accumulators| == |q.specs| && steps != [] && Stops(steps[0])
    ensures PlaysOut(q, tail, steps, sink, work, max)
  {
    hide FeedAll, Kept;
    assert Visited(steps) == HitsIn(steps[0]) by {
      assert HitsIn(steps[0]) + [] == HitsIn(steps[0]);
    }
  }

  lemma PlayGoesOn(q: Aggregate, tail: seq<EntityGroup>, steps: seq<ScanStep>, sink: Sink, work: nat, max: nat)
    requires |sink.accumulators| == |q.specs| && steps != [] && !Stops(steps[0])
    requires var fed := FeedAll(q, sink, Kept(HitsIn(steps[0]), tail));
             fed.Ok? ==> PlaysOut(q, tail, steps[1..], fed.value, work + steps[0].rows, max)
    ensures PlaysOut(q, tail, steps, sink, work, max)
  {
    hide FeedAll, Kept;
    var hits, rest := HitsIn(steps[0]), Visited(steps[1..]);
    assert Visited(steps) == hits + rest;
    KeptSplits(hits, rest, tail);
    FeedAllSplits(q, sink, Kept(hits, tail), Kept(rest, tail));
  }

  lemma PlayNothing(q: Aggregate, tail: seq<EntityGroup>, sink: Sink, work: nat, max: nat)
    requires |sink.accumulators| == |q.specs|
    ensures PlaysOut(q, tail, [], sink, work, max)
  {
    assert Kept([], tail) == [] && FeedAll(q, sink, []) == Ok(sink);
  }

  lemma {:induction false} PlayOutcome(q: Aggregate, tail: seq<EntityGroup>, steps: seq<ScanStep>, sink: Sink, work: nat, max: nat)
    requires |sink.accumulators| == |q.specs|
    ensures PlaysOut(q, tail, steps, sink, work, max)
    decreases |steps|
  {
    hide FeedAll, Kept, PlaysOut;
    if steps == [] {
      PlayNothing(q, tail, sink, work, max);
    } else if Stops(steps[0]) {
      PlayStops(q, tail, steps, sink, work, max);
    } else {
      var fed := FeedAll(q, sink, Kept(HitsIn(steps[0]), tail));
      if fed.Ok? {
        PlayOutcome(q, tail, steps[1..], fed.value, work + steps[0].rows, max);
      }
      PlayGoesOn(q, tail, steps, sink, work, max);
    }
  }

  // ── Against the ledger ─────────────────────────────────────────────────────

  /** The ledger path: every visible row in entity order, at most `max` of them. */
  function LedgerAnswer(q: Aggregate, hits: seq<Hit>, max: nat): Result<Answer> {
    if |hits| > max then Err(WORK)
    else
      var fed := FeedAll(q, EmptySink(q), hits);
      if fed.Err? then Err(fed.error) else Ok(Finish(q, fed.value))
  }

  /** The answer comes from the ledger's rows, each counted once, in some order, within the limit. */
  ghost predicate Counts(q: Aggregate, hits: seq<Hit>, max: nat, rows: seq<Hit>, answer: Answer) {
    && multiset(rows) == multiset(hits)
    && |rows| <= max
    && var fed := FeedAll(q, EmptySink(q), rows);
       fed.Ok? && answer == Finish(q, fed.value)
  }

  /** The image and the overlay are of one subject, and the ledger is the one at the overlay's transaction. */
  ghost predicate Fits(log: seq<Fact>, c: Candidate, o: Overlay, ledger: seq<EntityGroup>, at: int) {
    && Faithful(log, c.subject, c.image) && Current(log, o) && o.subject == c.subject
    && Served(log, o.txCount, c.subject.attribute, 0, ledger)
    && c.subject.floor <= at
    && Checked(c, at)
  }

  function RoutedRows(c: Candidate, tail: seq<EntityGroup>, at: int): seq<Hit> {
    Kept(HitsOf(c.image, at), tail) + HitsOf(tail, at)
  }

  /** An answer of a candidate is made of the ledger's rows. */
  lemma AttemptCounts(log: seq<Fact>, q: Aggregate, c: Candidate, o: Overlay, ledger: seq<EntityGroup>, work: nat, at: int, max: nat)
    requires Fits(log, c, o, ledger, at)
    requires Attempt(q, c, o.replacements, work, at, max).Answered?
    ensures Counts(q, HitsOf(ledger, at), max, RoutedRows(c, o.replacements, at), Attempt(q, c, o.replacements, work, at, max).answer)
  {
    hide Play, FeedAll, Finish, HitsOf, Kept, Faithful, Current, Served, RowCount;
    var tail := o.replacements;
    PlayOutcome(q, tail, c.steps, EmptySink(q), work, max);
    FeedAllSplits(q, EmptySink(q), Kept(HitsOf(c.image, at), tail), HitsOf(tail, at));
    RoutedRowsAreLedgerRows(log, c.subject, c.image, o, ledger, at);
    KeptShrinks(HitsOf(c.image, at), tail);
    HitsWithinRows(tail, at);
  }

  lemma {:induction false} KeptShrinks(hits: seq<Hit>, tail: seq<EntityGroup>)
    ensures |Kept(hits, tail)| <= |hits|
  {
    if hits != [] {
      KeptShrinks(hits[..|hits| - 1], tail);
    }
  }

  lemma {:induction false} HitsWithin(e: nat, windows: seq<Interval>, at: int)
    ensures |HitsAt(e, windows, at)| <= |windows|
  {
    if windows != [] {
      HitsWithin(e, windows[1..], at);
    }
  }

  lemma {:induction false} HitsWithinRows(groups: seq<EntityGroup>, at: int)
    ensures |HitsOf(groups, at)| <= RowCount(groups)
  {
    if groups != [] {
      HitsWithin(groups[0].entity, groups[0].windows, at);
      HitsWithinRows(groups[1..], at);
    }
  }

  /**
   A routed answer is the ledger's answer: the ledger answers too, with as many result rows, the same
   counts, and the same sums when these are steady.
   */
  lemma RoutedAnswerIsLedgerAnswer(q: Aggregate, hits: seq<Hit>, max: nat, rows: seq<Hit>, answer: Answer)
    requires Counts(q, hits, max, rows, answer)
    ensures var truth := LedgerAnswer(q, hits, max);
            && truth.Ok?
            && |answer| == |truth.value| <= 1
            && (forall i :: 0 <= i < |q.specs| && q.specs[i].func.Count? && answer != [] ==>
                  |answer[0]| == |truth.value[0]| == |q.specs| && answer[0][i] == truth.value[0][i])
            && (Steady(q, hits) ==> answer == truth.value)
  {
    hide FeedAll, Steady;
    ResultsIgnoreOrder(q, rows, hits);
    assert |multiset(rows)| == |rows| && |multiset(hits)| == |hits|;
  }

  /** None of the rows holds a value that a sum cannot add. */
  ghost predicate Feeds(q: Aggregate, rows: seq<Hit>) {
    forall i :: 0 <= i < |rows| ==> !Spoils(q, rows[i])
  }

  /** An intact candidate answers exactly when the ledger's rows can be fed and all rows read fit the limit. */
  lemma IntactCandidateAnswers(log: seq<Fact>, q: Aggregate, c: Candidate, o: Overlay, ledger: seq<EntityGroup>, work: nat, at: int, max: nat)
    requires Fits(log, c, o, ledger, at) && c.opens && Completes(c.steps)
    ensures Attempt(q, c, o.replacements, work, at, max).Answered? <==>
            Feeds(q, HitsOf(ledger, at)) && work + RowsRead(c.steps) + RowCount(o.replacements) <= max
    ensures !Attempt(q, c, o.replacements, work, at, max).Skipped?
  {
    hide Play, FeedAll, Finish, HitsOf, Kept, Faithful, Current, Served, RowCount, Spoils, Completes, RowsRead, Visited;
    var tail := o.replacements;
    var rows, truth := RoutedRows(c, tail, at), HitsOf(ledger, at);
    PlayOutcome(q, tail, c.steps, EmptySink(q), work, max);
    FeedAllSplits(q, EmptySink(q), Kept(HitsOf(c.image, at), tail), HitsOf(tail, at));
    RoutedRowsAreLedgerRows(log, c.subject, c.image, o, ledger, at);
    TotalIgnoresOrder(Spoil(q), rows, truth);
    FeedFails(q, rows);
    SpoilIsMember(q, truth);
  }

  /** A candidate whose scan does not complete is passed over unless the scan fails. */
  lemma AttemptSkips(q: Aggregate, c: Candidate, tail: seq<EntityGroup>, work: nat, at: int, max: nat)
    requires c.opens && !Play(q, tail, c.steps, EmptySink(q), work, max).Scanned?
    ensures var verdict := Attempt(q, c, tail, work, at, max);
            !verdict.Answered? && (verdict.Skipped? <==> work <= max && !Play(q, tail, c.steps, EmptySink(q), work, max).Failed?)
  {
    hide Play;
  }

  lemma FeedsUnlessSpoiled(q: Aggregate, rows: seq<Hit>)
    ensures FeedAll(q, EmptySink(q), rows).Ok? <==> Feeds(q, rows)
  {
    hide FeedAll, Spoils;
    FeedFails(q, rows);
    SpoilIsMember(q, rows);
  }

  /** A broken candidate never answers; it is passed over exactly when what it visited could be fed within the limit. */
  lemma BrokenCandidateIsSkipped(q: Aggregate, c: Candidate, tail: seq<EntityGroup>, work: nat, at: int, max: nat)
    requires c.opens && !Completes(c.steps)
    ensures !Attempt(q, c, tail, work, at, max).Answered?
    ensures Attempt(q, c, tail, work, at, max).Skipped? <==> Feeds(q, Kept(Visited(c.steps), tail)) && work + RowsRead(c.steps) <= max
  {
    hide Play, Attempt, FeedAll, Kept, Feeds, Completes, RowsRead, Visited;
    PlayOutcome(q, tail, c.steps, EmptySink(q), work, max);
    AttemptSkips(q, c, tail, work, at, max);
    FeedsUnlessSpoiled(q, Kept(Visited(c.steps), tail));
  }

  // ── The route itself ───────────────────────────────────────────────────────

  /** The scan's callback: replaced rows are dropped, and after a first error nothing more is fed. */
  method Visit(q: Aggregate, tail: seq<EntityGroup>, sink: Sink, hits: seq<Hit>) returns (fed: Result<Sink>)
    requires |sink.accumulators| == |q.specs|
    ensures fed == FeedAll(q, sink, Kept(hits, tail))
  {
    fed := Ok(sink);
    for i := 0 to |hits|
      invariant fed == FeedAll(q, sink, Kept(hits[..i], tail))
    {
      var h := hits[i];
      assert hits[..i + 1][..i] == hits[..i];
      ghost var front := Kept(hits[..i], tail);
      assert (front + [h])[..|front|] == front && front + [] == front;
      assert Kept(hits[..i + 1], tail) == if WindowsFor(tail, h.entity).Some? then front else front + [h];
      if WindowsFor(tail, h.entity).None? && fed.Ok? {
        fed := Feed(q, fed.value, h);
      }
    }
    assert hits[..|hits|] == hits;
  }

  /** One iteration of the route's candidate loop. */
  method RunCandidate(q: Aggregate, c: Candidate, tail: seq<EntityGroup>, tailWork: nat, at: int, max: nat) returns (v: Verdict)
    ensures v == Attempt(q, c, tail, tailWork, at, max)
  {
    hide FeedAll, Kept, Finish;
    if tailWork > max {
      return Refused(WORK);
    }
    if !c.opens {
      return Skipped;
    }
    var sink, work: nat := EmptySink(q), tailWork;
    var i := 0;
    while true
      invariant i <= |c.steps| && |sink.accumulators| == |q.specs| && work <= max
      invariant Play(q, tail, c.steps, EmptySink(q), tailWork, max) == Play(q, tail, c.steps[i..], sink, work, max)
      decreases |c.steps| - i
    {
      if i == |c.steps| {
        return Skipped;
      }
      var step := c.steps[i];
      assert c.steps[i..][0] == step && c.steps[i..][1..] == c.steps[i + 1..];
      var fed := Visit(q, tail, sink, if step.Corrupt? then step.garbage else step.hits);
      if fed.Err? {
        return Refused(fed.error);
      }
      if step.Corrupt? {
        return Skipped;
      }
      sink, work := fed.value, work + step.rows;
      if work > max {
        return Refused(WORK);
      }
      if step.complete {
        v := AddOverlay(q, tail, sink, work, at, max);
        return;
      }
      if step.rows == 0 {
        return Skipped;
      }
      i := i + 1;
    }
  }

  /** After a complete scan: the overlay's rows, and the result. */
  method AddOverlay(q: Aggregate, tail: seq<EntityGroup>, sink: Sink, work: nat, at: int, max: nat) returns (v: Verdict)
    requires |sink.accumulators| == |q.specs|
    ensures v == var fed := FeedAll(q, sink, HitsOf(tail, at));
                 if fed.Err? then Refused(fed.error)
                 else if work + RowCount(tail) > max then Refused(WORK)
                 else Answered(Finish(q, fed.value))
  {
    var over := HitsOf(tail, at);
    KeptWithout(over);
    var fed := Visit(q, [], sink, over);
    if fed.Err? {
      return Refused(fed.error);
    }
    if work + RowCount(tail) > max {
      return Refused(WORK);
    }
    return Answered(Finish(q, fed.value));
  }

  lemma {:induction false} KeptWithout(hits: seq<Hit>)
    ensures Kept(hits, []) == hits
  {
    if hits != [] {
      KeptWithout(hits[..|hits| - 1]);
    }
  }

  /** What a query route call is given: the pinned transaction and instant, and the watermarks it reads. */
  datatype Call = Call(attribute: string, txCount: nat, at: int, max: nat, captured: (nat, nat), final: (nat, nat))

  /** Every offered image is for the attribute, no newer than the view, with a floor at or below the instant. */
  ghost predicate Offered(log: seq<Fact>, call: Call, candidates: seq<Candidate>) {
    forall i :: 0 <= i < |candidates| ==>
      var c := candidates[i];
      && c.subject.attribute == call.attribute
      && c.subject.identity.txCount <= call.txCount
      && c.subject.floor <= call.at
      && Built(log, c.subject, c.image)
      && Checked(c, call.at)
  }

  /** The image is older than the view, so the tail since then must be resident. */
  predicate NeedsTail(call: Call, c: Candidate) {
    c.subject.identity.txCount < call.txCount
  }

  /** The answer is the result of feeding these rows, within the limit. */
  ghost predicate Computes(q: Aggregate, max: nat, rows: seq<Hit>, answer: Answer) {
    |rows| <= max && var fed := FeedAll(q, EmptySink(q), rows); fed.Ok? && answer == Finish(q, fed.value)
  }

  /** What became of one candidate: its tail was over budget, or it was run with an overlay. */
  datatype Tried = Passed | Ran(overlay: Overlay, work: nat)

  /** A candidate runs with a current overlay at the view's transaction; one that needs no tail, always with none. */
  ghost predicate Equipped(log: seq<Fact>, call: Call, c: Candidate, t: Tried) {
    if t.Passed? then NeedsTail(call, c)
    else
      && Current(log, t.overlay) && t.overlay.subject == c.subject && t.overlay.txCount == call.txCount
      && (!NeedsTail(call, c) ==> t == Ran(EmptyOverlay(c.subject), 0))
  }

  function VerdictOf(q: Aggregate, call: Call, c: Candidate, t: Tried): Verdict {
    if t.Passed? then Skipped else Attempt(q, c, t.overlay.replacements, t.work, call.at, call.max)
  }

  /** The candidates tried so far were equipped, and all passed over. */
  ghost predicate PassedOver(log: seq<Fact>, q: Aggregate, call: Call, candidates: seq<Candidate>, tried: seq<Tried>) {
    && |tried| <= |candidates|
    && forall k :: 0 <= k < |tried| ==> Equipped(log, call, candidates[k], tried[k]) && VerdictOf(q, call, candidates[k], tried[k]).Skipped?
  }

  /** The last candidate tried was equipped and came to this verdict, after all before it were passed over. */
  ghost predicate Decided(log: seq<Fact>, q: Aggregate, call: Call, candidates: seq<Candidate>, tried: seq<Tried>, v: Verdict) {
    var k := |tried| - 1;
    && 0 <= k < |candidates| && PassedOver(log, q, call, candidates, tried[..k])
    && Equipped(log, call, candidates[k], tried[k]) && VerdictOf(q, call, candidates[k], tried[k]) == v
  }

  lemma PassedOneMore(log: seq<Fact>, q: Aggregate, call: Call, candidates: seq<Candidate>, tried: seq<Tried>, t: Tried)
    requires PassedOver(log, q, call, candidates, tried) && |tried| < |candidates|
    requires Equipped(log, call, candidates[|tried|], t)
    ensures var v := VerdictOf(q, call, candidates[|tried|], t);
            if v.Skipped? then PassedOver(log, q, call, candidates, tried + [t]) else Decided(log, q, call, candidates, tried + [t], v)
  {
    hide Equipped, VerdictOf;
    assert (tried + [t])[..|tried|] == tried;
  }

  /**
   `try_projected_read_view_query`: an answer is the first verdict that is not to pass over, and feeds the image
   rows that the tail does not replace, then the tail's rows. When nothing strays into the attribute's range these
   are exactly the ledger's rows at the pinned transaction and instant. It falls back only when a watermark moved
   or every candidate was passed over, and fails only with a candidate's own refusal or a tail that could not be prepared.
   */
  method TryProjected(log: seq<Fact>, q: Aggregate, call: Call, candidates: seq<Candidate>, cache: TailCache, index: Index, io: nat -> TailIo)
    returns (r: Result<Option<Answer>>, ghost tried: seq<Tried>, ghost rows: seq<Hit>)
    requires call.attribute != "" && Indexes(index, log) && cache.Valid(log) && Offered(log, call, candidates)
    modifies cache
    ensures cache.Valid(log)
    ensures r.Ok? && r.value.Some? ==> Decided(log, q, call, candidates, tried, Answered(r.value.value)) && Computes(q, call.max, rows, r.value.value)
    ensures r.Ok? && r.value.Some? && StrayFree(AsOf(log, call.txCount), call.attribute) ==>
              Counts(q, HitsOf(Listing(index, call.txCount, call.attribute, 0), call.at), call.max, rows, r.value.value)
    ensures r.Ok? && r.value.Some? ==> call.captured.1 == call.txCount && call.final == call.captured
    ensures r == Ok(None) && call.captured.1 == call.txCount && call.final == call.captured ==>
              |tried| == |candidates| && PassedOver(log, q, call, candidates, tried)
    ensures r.Err? ==>
              || Decided(log, q, call, candidates, tried, Refused(r.error))
              || (PassedOver(log, q, call, candidates, tried) && |tried| < |candidates| && NeedsTail(call, candidates[|tried|]))
  {
    hide Attempt, Counts, Computes, Served, Built, Checked, Current, Exact, Indexes, StrayFree, Listing, Reader, PassedOver, Decided;
    rows, tried := [], [];
    if call.captured.1 != call.txCount {
      return Ok(None), [], [];
    }
    ReaderIsExact(index, log, call.txCount, call.attribute);
    NonePassed(log, q, call, candidates);
    for k := 0 to |candidates|
      invariant cache.Valid(log) && |tried| == k && PassedOver(log, q, call, candidates, tried)
    {
      var c := candidates[k];
      EmptyIsCurrent(log, c.subject);
      var o, work := EmptyOverlay(c.subject), 0;
      var admitted := true;
      if NeedsTail(call, c) {
        var tail := cache.Prepare(log, c.subject, call.txCount, call.captured.1, Reader(index, call.txCount, call.attribute), io(k));
        if tail.Err? {
          return Err(tail.error), tried, [];
        }
        if tail.value.OverBudget? {
          admitted := false;
        } else {
          o, work := tail.value.overlay, tail.value.work;
        }
      }
      ghost var t := if admitted then Ran(o, work) else Passed;
      PassedOneMore(log, q, call, candidates, tried, t);
      tried := tried + [t];
      if admitted {
        var v := RunCandidate(q, c, o.replacements, work, call.at, call.max);
        if v.Refused? {
          return Err(v.error), tried, [];
        }
        if v.Answered? {
          AttemptComputes(q, c, o.replacements, work, call.at, call.max);
          if StrayFree(AsOf(log, call.txCount), call.attribute) {
            CandidateFits(log, call, c, o, index);
            AttemptCounts(log, q, c, o, Listing(index, call.txCount, call.attribute, 0), work, call.at, call.max);
          }
          if call.final != call.captured {
            return Ok(None), tried, [];
          }
          return Ok(Some(v.answer)), tried, RoutedRows(c, o.replacements, call.at);
        }
      }
    }
    return Ok(None), tried, [];
  }

  lemma NonePassed(log: seq<Fact>, q: Aggregate, call: Call, candidates: seq<Candidate>)
    ensures PassedOver(log, q, call, candidates, [])
  {}

  /** Whatever the image holds, an answer is computed from its kept rows and the overlay's. */
  lemma AttemptComputes(q: Aggregate, c: Candidate, tail: seq<EntityGroup>, work: nat, at: int, max: nat)
    requires Checked(c, at) && Attempt(q, c, tail, work, at, max).Answered?
    ensures Computes(q, max, RoutedRows(c, tail, at), Attempt(q, c, tail, work, at, max).answer)
  {
    hide Play, FeedAll, Finish, HitsOf, Kept, RowCount;
    PlayOutcome(q, tail, c.steps, EmptySink(q), work, max);
    FeedAllSplits(q, EmptySink(q), Kept(HitsOf(c.image, at), tail), HitsOf(tail, at));
    KeptShrinks(HitsOf(c.image, at), tail);
    HitsWithinRows(tail, at);
  }

  lemma CandidateFits(log: seq<Fact>, call: Call, c: Candidate, o: Overlay, index: Index)
    requires call.attribute != "" && Indexes(index, log) && StrayFree(AsOf(log, call.txCount), call.attribute)
    requires c.subject.attribute == call.attribute && c.subject.identity.txCount <= call.txCount && c.subject.floor <= call.at
    requires Built(log, c.subject, c.image) && Checked(c, call.at)
    requires Current(log, o) && o.subject == c.subject && o.txCount == call.txCount
    ensures Fits(log, c, o, Listing(index, call.txCount, call.attribute, 0), call.at)
  {
    hide Built, Checked, Current, Served, Faithful, StrayFree, Indexes;
    EarlierIsStrayFree(log, c.subject.identity.txCount, call.txCount, call.attribute);
    BuiltIsFaithful(log, c.subject, c.image);
    StrayFreeIsServed(index, log, call.txCount, call.attribute, 0);
  }
}
