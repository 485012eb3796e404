/**
 `(forget ...)`: closing every window that contains an instant, by one batch of scoped
 retractions and truncated re-assertions.
 */
module Forget {
  import opened Ledger
  import opened Sequences

  /** The window whose scoped retraction is indistinguishable from an unscoped one. */
  function Sentinel(t: Triple): Window {
    Window(t, RETRACT_ALL_FROM, FOREVER)
  }

  function Retraction(w: Window): Fact {
    Fact(w.triple, 0, 0, w.from, w.to, false)
  }

  function Truncated(w: Window, at: int): Fact {
    Fact(w.triple, 0, 0, w.from, at, true)
  }

  /** `w` is in force and contains the closure time. */
  ghost predicate Closes(log: seq<Fact>, w: Window, at: int) {
    Net(log, w) && Contains(w, at)
  }

  /** What the closure of one triple consists of. */
  ghost predicate InClosure(log: seq<Fact>, t: Triple, at: int, f: Fact) {
    exists w :: Closes(log, w, at) && w.triple == t && (f == Retraction(w) || (w.from < at && f == Truncated(w, at)))
  }

  ghost predicate Closing(log: seq<Fact>, t: Triple, at: int) {
    exists w :: Closes(log, w, at) && w.triple == t
  }

  /** The whole batch, before stamping. */
  ghost predicate Closure(log: seq<Fact>, triples: seq<Triple>, at: int, f: Fact) {
    f.triple in triples && InClosure(log, f.triple, at, f)
  }

  function FactsOf(log: seq<Fact>, t: Triple): (r: seq<Fact>)
    ensures forall f :: f in r <==> f in log && f.triple == t
  {
    if log == [] then []
    else (if log[0].triple == t then [log[0]] else []) + FactsOf(log[1..], t)
  }

  /** The closure facts of the first `n` windows of a triple. */
  ghost predicate FromWindows(kept: seq<Fact>, n: nat, at: int, f: Fact)
    requires n <= |kept|
  {
    exists i :: 0 <= i < n && Contains(KeyOf(kept[i]), at) &&
      (f == Retraction(KeyOf(kept[i])) || (kept[i].from < at && f == Truncated(KeyOf(kept[i]), at)))
  }

  ghost predicate Gathered(kept: seq<Fact>, n: nat, at: int, facts: seq<Fact>, starts: set<int>)
    requires n <= |kept|
  {
    && (forall f :: f in facts <==> FromWindows(kept, n, at, f))
    && (forall x :: x in starts <==> exists i :: 0 <= i < n && Contains(KeyOf(kept[i]), at) && kept[i].from < at && kept[i].from == x)
    && Distinct(facts)
  }

  /** One triple's windows: all of `t`, no window twice. */
  ghost predicate WindowsOf(kept: seq<Fact>, t: Triple) {
    && (forall i :: 0 <= i < |kept| ==> kept[i].triple == t)
    && (forall i, j :: 0 <= i < j < |kept| ==> KeyOf(kept[i]) != KeyOf(kept[j]))
  }

  lemma GatherNothing(kept: seq<Fact>, at: int)
    ensures Gathered(kept, 0, at, [], {})
  {}

  lemma GatherSkip(kept: seq<Fact>, n: nat, at: int, facts: seq<Fact>, starts: set<int>)
    requires n < |kept| && Gathered(kept, n, at, facts, starts) && !Contains(KeyOf(kept[n]), at)
    ensures Gathered(kept, n + 1, at, facts, starts)
  {
    forall f
      ensures FromWindows(kept, n + 1, at, f) <==> FromWindows(kept, n, at, f)
    {}
  }

  /** The retraction of the next window is new. */
  lemma RetractionIsNew(kept: seq<Fact>, t: Triple, n: nat, at: int, facts: seq<Fact>, starts: set<int>)
    requires n < |kept| && WindowsOf(kept, t) && Gathered(kept, n, at, facts, starts)
    ensures Retraction(KeyOf(kept[n])) !in facts
  {
    var r := Retraction(KeyOf(kept[n]));
    if r in facts {
      var i :| 0 <= i < n && Contains(KeyOf(kept[i]), at) &&
        (r == Retraction(KeyOf(kept[i])) || (kept[i].from < at && r == Truncated(KeyOf(kept[i]), at)));
      assert false;
    }
  }

  lemma TruncationSeen(kept: seq<Fact>, t: Triple, n: nat, at: int, facts: seq<Fact>, starts: set<int>, from: int)
    requires n <= |kept| && WindowsOf(kept, t) && Gathered(kept, n, at, facts, starts)
    ensures Truncated(Window(t, from, at), at) in facts <==> from in starts
  {
    var f := Truncated(Window(t, from, at), at);
    if from in starts {
      var i :| 0 <= i < n && Contains(KeyOf(kept[i]), at) && kept[i].from < at && kept[i].from == from;
      assert FromWindows(kept, n, at, f);
    }
    if f in facts {
      var i :| 0 <= i < n && Contains(KeyOf(kept[i]), at) &&
        (f == Retraction(KeyOf(kept[i])) || (kept[i].from < at && f == Truncated(KeyOf(kept[i]), at)));
      assert kept[i].from == from;
    }
  }

  /** What the next containing window adds: its retraction, and its truncation unless one with that start was emitted. */
  function Added(w: Window, at: int, starts: set<int>): seq<Fact> {
    [Retraction(w)] + if w.from < at && w.from !in starts then [Truncated(w, at)] else []
  }

  lemma GatherStep(kept: seq<Fact>, t: Triple, n: nat, at: int, facts: seq<Fact>, starts: set<int>)
    requires n < |kept| && WindowsOf(kept, t) && Gathered(kept, n, at, facts, starts) && Contains(KeyOf(kept[n]), at)
    ensures var w := KeyOf(kept[n]);
            Gathered(kept, n + 1, at, facts + Added(w, at, starts), if w.from < at then starts + {w.from} else starts)
  {
    var w := KeyOf(kept[n]);
    var more := facts + Added(w, at, starts);
    RetractionIsNew(kept, t, n, at, facts, starts);
    TruncationSeen(kept, t, n, at, facts, starts, w.from);
    assert Truncated(w, at) == Truncated(Window(t, w.from, at), at);
    forall f
      ensures f in more <==> FromWindows(kept, n + 1, at, f)
    {
      if FromWindows(kept, n, at, f) {
        assert FromWindows(kept, n + 1, at, f);
      }
    }
    GatherDistinct(facts, w, at, starts);
  }

  lemma GatherDistinct(facts: seq<Fact>, w: Window, at: int, starts: set<int>)
    requires Distinct(facts) && Retraction(w) !in facts
    requires w.from < at && w.from !in starts ==> Truncated(w, at) !in facts
    ensures Distinct(facts + Added(w, at, starts))
  {
    DistinctSnoc(facts, Retraction(w));
    if w.from < at && w.from !in starts {
      DistinctSnoc(facts + [Retraction(w)], Truncated(w, at));
      assert facts + Added(w, at, starts) == facts + [Retraction(w)] + [Truncated(w, at)];
    } else {
      assert facts + Added(w, at, starts) == facts + [Retraction(w)];
    }
  }

  /** One turn of `materialize_closure`'s loop over triples. */
  method CloseTriple(log: seq<Fact>, t: Triple, at: int) returns (facts: seq<Fact>, closedAny: bool)
    ensures forall f :: f in facts <==> InClosure(log, t, at, f)
    ensures Distinct(facts)
    ensures closedAny <==> Closing(log, t, at)
    ensures closedAny <==> facts != []
  {
    hide Net, Gathered, WindowsOf, NetView;
    var history := FactsOf(log, t);
    var kept := NetAssertedFacts(history);
    KeptAreNet(log, t, history, kept);
    facts, closedAny := [], false;
    var starts: set<int> := {};
    GatherNothing(kept, at);
    for i := 0 to |kept|
      invariant Gathered(kept, i, at, facts, starts)
      invariant closedAny <==> facts != []
    {
      var w := KeyOf(kept[i]);
      if Contains(w, at) {
        GatherStep(kept, t, i, at, facts, starts);
        facts := facts + Added(w, at, starts);
        if w.from < at {
          starts := starts + {w.from};
        }
        closedAny := true;
      } else {
        GatherSkip(kept, i, at, facts, starts);
      }
    }
    GatheredIsClosure(log, t, at, kept, facts, starts);
  }

  /** The net view of a triple's history lists exactly the triple's windows in force. */
  lemma KeptAreNet(log: seq<Fact>, t: Triple, history: seq<Fact>, kept: seq<Fact>)
    requires history == FactsOf(log, t) && NetView(history, kept)
    ensures WindowsOf(kept, t)
    ensures forall w: Window :: w.triple == t ==> (Net(log, w) <==> exists i :: 0 <= i < |kept| && KeyOf(kept[i]) == w)
  {
    forall i | 0 <= i < |kept|
      ensures kept[i].triple == t
    {
      assert kept[i] in kept;
    }
    forall w: Window | w.triple == t
      ensures Net(log, w) <==> exists i :: 0 <= i < |kept| && KeyOf(kept[i]) == w
    {
      NetIsLocal(history, log, w);
      if Net(log, w) {
        var f :| f in kept && KeyOf(f) == w;
        var i :| 0 <= i < |kept| && kept[i] == f;
      }
    }
  }

  lemma GatheredIsClosure(log: seq<Fact>, t: Triple, at: int, kept: seq<Fact>, facts: seq<Fact>, starts: set<int>)
    requires WindowsOf(kept, t) && Gathered(kept, |kept|, at, facts, starts)
    requires forall w: Window :: w.triple == t ==> (Net(log, w) <==> exists i :: 0 <= i < |kept| && KeyOf(kept[i]) == w)
    ensures Distinct(facts)
    ensures forall f :: f in facts <==> InClosure(log, t, at, f)
    ensures facts != [] <==> Closing(log, t, at)
  {
    hide Net;
    forall f
      ensures f in facts <==> InClosure(log, t, at, f)
    {
      if FromWindows(kept, |kept|, at, f) {
        var i :| 0 <= i < |kept| && Contains(KeyOf(kept[i]), at) &&
          (f == Retraction(KeyOf(kept[i])) || (kept[i].from < at && f == Truncated(KeyOf(kept[i]), at)));
        assert Closes(log, KeyOf(kept[i]), at);
      }
    }
    if facts != [] {
      assert InClosure(log, t, at, facts[0]);
    }
    forall w | Closes(log, w, at) && w.triple == t
      ensures facts != []
    {
      assert InClosure(log, t, at, Retraction(w));
      assert Retraction(w) in facts;
    }
  }

  ghost function ClosingAmong(log: seq<Fact>, triples: seq<Triple>, at: int): set<Triple> {
    set t | t in triples && Closing(log, t, at)
  }

  lemma ClosingMore(log: seq<Fact>, triples: seq<Triple>, t: Triple, at: int)
    requires t !in triples
    ensures ClosingAmong(log, triples + [t], at) == ClosingAmong(log, triples, at) + (if Closing(log, t, at) then {t} else {})
    ensures |ClosingAmong(log, triples + [t], at)| == |ClosingAmong(log, triples, at)| + (if Closing(log, t, at) then 1 else 0)
  {
    hide Closing;
    assert ClosingAmong(log, triples + [t], at) == ClosingAmong(log, triples, at) + (if Closing(log, t, at) then {t} else {});
  }

  lemma ClosureMore(log: seq<Fact>, triples: seq<Triple>, t: Triple, at: int, facts: seq<Fact>, more: seq<Fact>)
    requires t !in triples && Distinct(facts) && Distinct(more)
    requires forall f :: f in facts <==> Closure(log, triples, at, f)
    requires forall f :: f in more <==> InClosure(log, t, at, f)
    ensures forall f :: f in facts + more <==> Closure(log, triples + [t], at, f)
    ensures Distinct(facts + more)
  {
    hide Net;
    forall f
      ensures f in more ==> f.triple == t && f !in facts
      ensures f in facts + more <==> Closure(log, triples + [t], at, f)
    {
    }
    forall i, j | 0 <= i < j < |facts + more|
      ensures (facts + more)[i] != (facts + more)[j]
    {
      if i < |facts| <= j {
        assert more[j - |facts|] in more && facts[i] in facts;
      }
    }
  }

  /** `materialize_closure`: the batch, and the number of triples it closes. */
  method MaterializeClosure(log: seq<Fact>, triples: seq<Triple>, at: int) returns (facts: seq<Fact>, closed: nat)
    requires Distinct(triples)
    ensures forall f :: f in facts <==> Closure(log, triples, at, f)
    ensures Distinct(facts)
    ensures closed == |ClosingAmong(log, triples, at)|
    ensures facts == [] <==> closed == 0
  {
    hide InClosure, Closing;
    facts, closed := [], 0;
    for i := 0 to |triples|
      invariant forall f :: f in facts <==> Closure(log, triples[..i], at, f)
      invariant Distinct(facts)
      invariant closed == |ClosingAmong(log, triples[..i], at)|
      invariant facts == [] <==> closed == 0
    {
      var t := triples[i];
      assert t !in triples[..i];
      assert triples[..i + 1] == triples[..i] + [t];
      var more, closedAny := CloseTriple(log, t, at);
      ClosureMore(log, triples[..i], t, at, facts, more);
      ClosingMore(log, triples[..i], t, at);
      facts := facts + more;
      if closedAny {
        closed := closed + 1;
      }
    }
    assert triples[..|triples|] == triples;
  }

  // ── What the batch does to the ledger ──────────────────────────────────────

  /** `after` is the log with a stamped closure batch of `triples` at `at` appended. */
  ghost predicate Forgotten(log: seq<Fact>, triples: seq<Triple>, at: int, tx: nat, now: nat, after: seq<Fact>) {
    && tx > 0
    && (forall f :: f in log ==> f.txCount < tx)
    && exists facts :: after == log + Restamp(facts, tx, now) && forall f :: f in facts <==> Closure(log, triples, at, f)
  }

  /** Membership in the log after the batch. */
  lemma AfterHas(log: seq<Fact>, triples: seq<Triple>, at: int, tx: nat, now: nat, after: seq<Fact>, g: Fact)
    requires Forgotten(log, triples, at, tx, now, after)
    ensures g in after <==> g in log || (g.txCount == tx && g.txId == now && Closure(log, triples, at, g.(txCount := 0, txId := 0)))
  {
    hide Closure;
    var facts :| after == log + Restamp(facts, tx, now) && forall f :: f in facts <==> Closure(log, triples, at, f);
    var plain := g.(txCount := 0, txId := 0);
    var batch := Restamp(facts, tx, now);
    if g in batch {
      var i :| 0 <= i < |batch| && batch[i] == g;
      assert facts[i] in facts;
      assert facts[i] == plain by {
        ClosureUnstamped(log, triples, at, facts[i]);
      }
    }
    if g.txCount == tx && g.txId == now && plain in facts {
      var i :| 0 <= i < |facts| && facts[i] == plain;
      assert batch[i] == g;
    }
  }

  lemma ClosureUnstamped(log: seq<Fact>, triples: seq<Triple>, at: int, f: Fact)
    requires Closure(log, triples, at, f)
    ensures f.txCount == 0 && f.txId == 0
  {}

  ghost predicate ReassertedBy(log: seq<Fact>, w: Window, at: int) {
    w.to == at && w.from < at && exists v :: Closes(log, v, at) && v.triple == w.triple && v.from == w.from
  }

  /** The closure hits the sentinel window of the triple. */
  ghost predicate HitsSentinel(log: seq<Fact>, t: Triple, at: int) {
    Closes(log, Sentinel(t), at)
  }

  /** A fact added by the batch is the retraction of a closed window or the truncation of one. */
  lemma AddedFact(log: seq<Fact>, triples: seq<Triple>, at: int, tx: nat, now: nat, after: seq<Fact>, g: Fact)
    requires Forgotten(log, triples, at, tx, now, after) && g in after && g !in log
    ensures g.txCount == tx && g.triple in triples
    ensures !g.asserted ==> Closes(log, KeyOf(g), at)
    ensures g.asserted ==> ReassertedBy(log, KeyOf(g), at)
  {
    hide Net;
    AfterHas(log, triples, at, tx, now, after, g);
  }

  /** Every closed window of a named triple is retracted at the new count. */
  lemma ClosedIsRetracted(log: seq<Fact>, triples: seq<Triple>, at: int, tx: nat, now: nat, after: seq<Fact>, w: Window)
    requires Forgotten(log, triples, at, tx, now, after) && w.triple in triples && Closes(log, w, at)
    ensures Fact(w.triple, now, tx, w.from, w.to, false) in after
  {
    hide Net;
    AfterHas(log, triples, at, tx, now, after, Fact(w.triple, now, tx, w.from, w.to, false));
    assert InClosure(log, w.triple, at, Retraction(w));
  }

  lemma TruncationIsAsserted(log: seq<Fact>, triples: seq<Triple>, at: int, tx: nat, now: nat, after: seq<Fact>, w: Window)
    requires Forgotten(log, triples, at, tx, now, after) && w.triple in triples && ReassertedBy(log, w, at)
    ensures Fact(w.triple, now, tx, w.from, w.to, true) in after
  {
    hide Net;
    var v :| Closes(log, v, at) && v.triple == w.triple && v.from == w.from;
    AfterHas(log, triples, at, tx, now, after, Fact(w.triple, now, tx, w.from, w.to, true));
    assert InClosure(log, w.triple, at, Truncated(v, at));
  }

  lemma CountsAfter(log: seq<Fact>, triples: seq<Triple>, at: int, tx: nat, now: nat, after: seq<Fact>)
    requires Forgotten(log, triples, at, tx, now, after)
    ensures forall g :: g in after ==> g.txCount <= tx
    ensures forall g :: g in log ==> g in after
  {
    forall g | g in after
      ensures g.txCount <= tx
    {
      if g !in log {
        AddedFact(log, triples, at, tx, now, after, g);
      }
    }
  }

  lemma ClosedIsGone(log: seq<Fact>, triples: seq<Triple>, at: int, tx: nat, now: nat, after: seq<Fact>, w: Window)
    requires Forgotten(log, triples, at, tx, now, after) && w.triple in triples && Closes(log, w, at)
    ensures !Net(after, w)
  {
    hide Forgotten, Closes;
    ClosedIsRetracted(log, triples, at, tx, now, after, w);
    CountsAfter(log, triples, at, tx, now, after);
    assert Cancels(Fact(w.triple, now, tx, w.from, w.to, false), w);
  }

  /** No retraction of the batch applies to a window that is not closed. */
  lemma NotCancelled(log: seq<Fact>, triples: seq<Triple>, at: int, tx: nat, now: nat, after: seq<Fact>, w: Window, r: Fact)
    requires Forgotten(log, triples, at, tx, now, after)
    requires !HitsSentinel(log, w.triple, at) && !Closes(log, w, at)
    requires r in after && Cancels(r, w)
    ensures r in log
  {
    hide Forgotten, Net;
    if r !in log {
      AddedFact(log, triples, at, tx, now, after, r);
    }
  }

  lemma TruncationIsNet(log: seq<Fact>, triples: seq<Triple>, at: int, tx: nat, now: nat, after: seq<Fact>, w: Window)
    requires Forgotten(log, triples, at, tx, now, after) && w.triple in triples
    requires !HitsSentinel(log, w.triple, at) && ReassertedBy(log, w, at)
    ensures Net(after, w)
  {
    hide Closure;
    TruncationIsAsserted(log, triples, at, tx, now, after, w);
    var a := Fact(w.triple, now, tx, w.from, w.to, true);
    forall r | r in after && Cancels(r, w)
      ensures r.txCount < tx
    {
      NotCancelled(log, triples, at, tx, now, after, w, r);
    }
    assert Upholds(after, a, w);
  }

  lemma OthersStay(log: seq<Fact>, triples: seq<Triple>, at: int, tx: nat, now: nat, after: seq<Fact>, w: Window)
    requires Forgotten(log, triples, at, tx, now, after)
    requires !HitsSentinel(log, w.triple, at) && !Closes(log, w, at) && !ReassertedBy(log, w, at)
    ensures Net(after, w) <==> Net(log, w)
  {
    hide Forgotten, HitsSentinel, Closes, ReassertedBy;
    CountsAfter(log, triples, at, tx, now, after);
    if Net(log, w) {
      var a :| Upholds(log, a, w);
      forall r | r in after && Cancels(r, w)
        ensures r.txCount < a.txCount
      {
        NotCancelled(log, triples, at, tx, now, after, w, r);
      }
      assert Upholds(after, a, w);
    }
    if Net(after, w) {
      var a :| Upholds(after, a, w);
      if a !in log {
        AddedFact(log, triples, at, tx, now, after, a);
      }
      assert Upholds(log, a, w);
    }
  }

  /** Without the sentinel: closed windows go, their truncations come, the rest stay. */
  lemma NetAfterClosure(log: seq<Fact>, triples: seq<Triple>, at: int, tx: nat, now: nat, after: seq<Fact>, w: Window)
    requires Forgotten(log, triples, at, tx, now, after)
    requires w.triple in triples && !HitsSentinel(log, w.triple, at)
    ensures Net(after, w) <==> (Net(log, w) && !Contains(w, at)) || ReassertedBy(log, w, at)
  {
    if Closes(log, w, at) {
      ClosedIsGone(log, triples, at, tx, now, after, w);
    } else if ReassertedBy(log, w, at) {
      TruncationIsNet(log, triples, at, tx, now, after, w);
    } else {
      OthersStay(log, triples, at, tx, now, after, w);
    }
  }

  /** The sentinel's scoped retraction reads as an unscoped one: nothing of the triple survives. */
  lemma SentinelWipes(log: seq<Fact>, triples: seq<Triple>, at: int, tx: nat, now: nat, after: seq<Fact>, w: Window)
    requires Forgotten(log, triples, at, tx, now, after)
    requires w.triple in triples && HitsSentinel(log, w.triple, at)
    ensures !Net(after, w)
  {
    hide Forgotten, Closes;
    ClosedIsRetracted(log, triples, at, tx, now, after, Sentinel(w.triple));
    CountsAfter(log, triples, at, tx, now, after);
    assert Cancels(Fact(w.triple, now, tx, RETRACT_ALL_FROM, FOREVER, false), w);
  }

  /** Triples the batch does not name keep their windows. */
  lemma OthersUntouched(log: seq<Fact>, triples: seq<Triple>, at: int, tx: nat, now: nat, after: seq<Fact>, w: Window)
    requires Forgotten(log, triples, at, tx, now, after) && w.triple !in triples
    ensures Net(after, w) <==> Net(log, w)
  {
    hide Forgotten;
    CountsAfter(log, triples, at, tx, now, after);
    forall f: Fact | f.triple == w.triple && f in after
      ensures f in log
    {
      if f !in log {
        AddedFact(log, triples, at, tx, now, after, f);
      }
    }
    NetIsLocal(log, after, w);
  }

  // ── Correctness of the closure ─────────────────────────────────────────────

  /** What forgetting a triple at `at` promises. */
  ghost predicate ClosedExactly(before: seq<Fact>, after: seq<Fact>, t: Triple, at: int) {
    && (forall w :: Net(after, w) && w.triple == t ==> !Contains(w, at))
    && (forall i :: i < at ==> (Visible(after, t, i) <==> Visible(before, t, i)))
    && (forall i :: i >= at ==> (Visible(after, t, i) <==> VisibleLater(before, t, at, i)))
  }

  /** Visible at `i` through a window that starts after `at`. */
  ghost predicate VisibleLater(log: seq<Fact>, t: Triple, at: int, i: int) {
    exists w :: Net(log, w) && w.triple == t && w.from > at && Contains(w, i)
  }

  /** The closure does not hit the sentinel, or every window of any extent starts exactly at the closure time. */
  ghost predicate Closable(log: seq<Fact>, t: Triple, at: int) {
    HitsSentinel(log, t, at) ==> forall w :: Net(log, w) && w.triple == t && w.from < w.to ==> w.from == at
  }

  lemma PastUnchanged(log: seq<Fact>, triples: seq<Triple>, at: int, tx: nat, now: nat, after: seq<Fact>, t: Triple, i: int)
    requires Forgotten(log, triples, at, tx, now, after)
    requires t in triples && !HitsSentinel(log, t, at) && i < at
    ensures Visible(after, t, i) <==> Visible(log, t, i)
  {
    hide Forgotten, Net;
    if Visible(log, t, i) {
      var w :| Net(log, w) && w.triple == t && Contains(w, i);
      var kept := if Contains(w, at) then Window(t, w.from, at) else w;
      NetAfterClosure(log, triples, at, tx, now, after, kept);
      assert Closes(log, w, at) ==> ReassertedBy(log, kept, at);
      assert Net(after, kept) && Contains(kept, i);
    }
    if Visible(after, t, i) {
      var w :| Net(after, w) && w.triple == t && Contains(w, i);
      NetAfterClosure(log, triples, at, tx, now, after, w);
      if ReassertedBy(log, w, at) {
        var v :| Closes(log, v, at) && v.triple == t && v.from == w.from;
        assert Contains(v, i);
      }
    }
  }

  lemma FutureIsLater(log: seq<Fact>, triples: seq<Triple>, at: int, tx: nat, now: nat, after: seq<Fact>, t: Triple, i: int)
    requires Forgotten(log, triples, at, tx, now, after)
    requires t in triples && !HitsSentinel(log, t, at) && i >= at
    ensures Visible(after, t, i) <==> VisibleLater(log, t, at, i)
  {
    hide Forgotten, Net;
    if VisibleLater(log, t, at, i) {
      var w :| Net(log, w) && w.triple == t && w.from > at && Contains(w, i);
      NetAfterClosure(log, triples, at, tx, now, after, w);
    }
    if Visible(after, t, i) {
      var w :| Net(after, w) && w.triple == t && Contains(w, i);
      NetAfterClosure(log, triples, at, tx, now, after, w);
    }
  }

  /** After any forget, with or without the sentinel, no window of a named triple contains the closure time. */
  lemma NothingContainsClosureTime(log: seq<Fact>, triples: seq<Triple>, at: int, tx: nat, now: nat, after: seq<Fact>, w: Window)
    requires Forgotten(log, triples, at, tx, now, after) && w.triple in triples && Net(after, w)
    ensures !Contains(w, at)
  {
    hide Forgotten, Net;
    if HitsSentinel(log, w.triple, at) {
      SentinelWipes(log, triples, at, tx, now, after, w);
    } else {
      NetAfterClosure(log, triples, at, tx, now, after, w);
    }
  }

  lemma WipedIsExact(log: seq<Fact>, triples: seq<Triple>, at: int, tx: nat, now: nat, after: seq<Fact>, t: Triple)
    requires Forgotten(log, triples, at, tx, now, after) && t in triples && HitsSentinel(log, t, at)
    ensures ClosedExactly(log, after, t, at) <==> Closable(log, t, at)
  {
    hide Forgotten, Net, HitsSentinel;
    forall w: Window | w.triple == t
      ensures !Net(after, w)
    {
      SentinelWipes(log, triples, at, tx, now, after, w);
    }
    assert forall i :: !Visible(after, t, i);
    if ClosedExactly(log, after, t, at) {
      forall w | Net(log, w) && w.triple == t && w.from < w.to
        ensures w.from == at
      {
        assert Contains(w, w.from);
        assert w.from < at ==> Visible(log, t, w.from);
        assert w.from > at ==> VisibleLater(log, t, at, w.from);
      }
    }
    if Closable(log, t, at) {
      forall w, i | Net(log, w) && w.triple == t && Contains(w, i)
        ensures w.from == at
      {}
    }
  }

  /** Forgetting closes exactly the right windows of every named triple, if and only if the triple is closable. */
  lemma ForgetIsExact(log: seq<Fact>, triples: seq<Triple>, at: int, tx: nat, now: nat, after: seq<Fact>, t: Triple)
    requires Forgotten(log, triples, at, tx, now, after) && t in triples
    ensures ClosedExactly(log, after, t, at) <==> Closable(log, t, at)
  {
    hide Forgotten, Visible, VisibleLater, Net, HitsSentinel;
    if HitsSentinel(log, t, at) {
      WipedIsExact(log, triples, at, tx, now, after, t);
    } else {
      forall w | Net(after, w) && w.triple == t
        ensures !Contains(w, at)
      {
        NothingContainsClosureTime(log, triples, at, tx, now, after, w);
      }
      forall i | i < at
        ensures Visible(after, t, i) <==> Visible(log, t, i)
      {
        PastUnchanged(log, triples, at, tx, now, after, t, i);
      }
      forall i | i >= at
        ensures Visible(after, t, i) <==> VisibleLater(log, t, at, i)
      {
        FutureIsLater(log, triples, at, tx, now, after, t, i);
      }
    }
  }

  /** A second forget of the same triples at the same time finds nothing to write. */
  lemma ForgetIsIdempotent(log: seq<Fact>, triples: seq<Triple>, at: int, tx: nat, now: nat, after: seq<Fact>)
    requires Forgotten(log, triples, at, tx, now, after)
    ensures forall f :: !Closure(after, triples, at, f)
  {
    hide Forgotten, Net;
    forall f
      ensures !Closure(after, triples, at, f)
    {
      if Closure(after, triples, at, f) {
        var w :| Closes(after, w, at) && w.triple == f.triple && (f == Retraction(w) || (w.from < at && f == Truncated(w, at)));
        NothingContainsClosureTime(log, triples, at, tx, now, after, w);
      }
    }
  }

  /** Every earlier transaction-time state is what it was. */
  lemma ForgetKeepsHistory(log: seq<Fact>, triples: seq<Triple>, at: int, tx: nat, now: nat, after: seq<Fact>, n: nat)
    requires Forgotten(log, triples, at, tx, now, after) && n < tx
    ensures AsOf(after, n) == AsOf(log, n)
  {
    hide Closure;
    var facts :| after == log + Restamp(facts, tx, now) && forall f :: f in facts <==> Closure(log, triples, at, f);
    AsOfConcat(log, Restamp(facts, tx, now), n);
    AsOfNone(Restamp(facts, tx, now), n);
  }

  /** No window is both retracted and re-asserted by a batch, so the order of its facts does not matter. */
  lemma BatchKeysAreDisjoint(log: seq<Fact>, triples: seq<Triple>, at: int, r: Fact, a: Fact)
    requires Closure(log, triples, at, r) && Closure(log, triples, at, a) && !r.asserted && a.asserted
    ensures KeyOf(r) != KeyOf(a)
  {
    hide Net;
  }

  /**
   The promise fails for a triple asserted from the reserved start without end: forgetting it hides its past too.
   No command and no closure writes such a fact; only a file made by hand could hold it.
   */
  lemma SentinelForgetHidesThePast(t: Triple, at: int, now: nat)
    requires RETRACT_ALL_FROM < at < FOREVER
    ensures var log := [Fact(t, 0, 1, RETRACT_ALL_FROM, FOREVER, true)];
            var facts := [Retraction(Sentinel(t)), Truncated(Sentinel(t), at)];
            var after := log + Restamp(facts, 2, now);
            && Forgotten(log, [t], at, 2, now, after)
            && Visible(log, t, RETRACT_ALL_FROM) && !Visible(after, t, RETRACT_ALL_FROM)
            && !ClosedExactly(log, after, t, at)
  {
    var a := Fact(t, 0, 1, RETRACT_ALL_FROM, FOREVER, true);
    var log := [a];
    var facts := [Retraction(Sentinel(t)), Truncated(Sentinel(t), at)];
    var after := log + Restamp(facts, 2, now);
    assert Upholds(log, a, Sentinel(t));
    assert Closes(log, Sentinel(t), at);
    forall f
      ensures f in facts <==> Closure(log, [t], at, f)
    {
      assert forall w :: Net(log, w) ==> w == Sentinel(t);
    }
    assert Forgotten(log, [t], at, 2, now, after);
    assert Contains(Sentinel(t), RETRACT_ALL_FROM);
    forall w: Window | w.triple == t
      ensures !Net(after, w)
    {
      SentinelWipes(log, [t], at, 2, now, after, w);
    }
  }
}
