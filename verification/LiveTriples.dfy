/**
 Which triples are live inside a write transaction and after its commit, when retractions are
 unscoped and assertions may leave their start to the transaction time.
 */
module LiveTriples {
  import opened Ledger
  import opened Staging

  ghost predicate AssertsIn(cmds: seq<seq<Fact>>, k: nat, t: Triple) {
    exists f :: InCommand(cmds, k, f) && f.asserted && f.triple == t
  }

  ghost predicate RetractsIn(cmds: seq<seq<Fact>>, k: nat, t: Triple) {
    exists f :: InCommand(cmds, k, f) && !f.asserted && f.triple == t
  }

  /** Retractions name no window: the form `(retract ...)` takes without valid-time bounds. */
  ghost predicate UnscopedOnly(cmds: seq<seq<Fact>>) {
    forall k: nat, f :: InCommand(cmds, k, f) && !f.asserted ==> Unscoped(f)
  }

  /** Command `i` asserts the triple and no command from `i` on retracts it. */
  ghost predicate LastWord(cmds: seq<seq<Fact>>, i: nat, t: Triple) {
    AssertsIn(cmds, i, t) && forall k: nat :: k >= i ==> !RetractsIn(cmds, k, t)
  }

  ghost predicate Retracted(cmds: seq<seq<Fact>>, t: Triple) {
    exists k: nat :: RetractsIn(cmds, k, t)
  }

  /** The triple is retracted, and asserted in a command after the last one that retracts it. */
  ghost predicate RevivesTriple(cmds: seq<seq<Fact>>, t: Triple) {
    Retracted(cmds, t) && exists i: nat :: LastWord(cmds, i, t)
  }

  /** A stamped fact of the transaction keeps its triple and its kind, and carries the new counts. */
  lemma InsideFact(log: seq<Fact>, cmds: seq<seq<Fact>>, ids: seq<nat>, count: nat, g: Fact) returns (k: nat, f: Fact)
    requires Views(log, cmds, ids, count) && g in ReadInside(log, cmds, ids, count) && g !in log
    ensures InCommand(cmds, k, f) && g == Stamp(f, count + k, ids[k])
  {
    InsideHas(log, cmds, ids, count, g);
    k, f :| StagedFrom(cmds, ids, count, k, f, g);
  }

  lemma FactInside(log: seq<Fact>, cmds: seq<seq<Fact>>, ids: seq<nat>, count: nat, k: nat, f: Fact)
    requires Views(log, cmds, ids, count) && InCommand(cmds, k, f)
    ensures Stamp(f, count + k, ids[k]) in ReadInside(log, cmds, ids, count)
  {
    var g := Stamp(f, count + k, ids[k]);
    InsideHas(log, cmds, ids, count, g);
    assert StagedFrom(cmds, ids, count, k, f, g);
  }

  lemma CommittedFact(log: seq<Fact>, cmds: seq<seq<Fact>>, count: nat, now: nat, g: Fact) returns (k: nat, f: Fact)
    requires g in AfterCommit(log, cmds, count, now) && g !in log
    ensures InCommand(cmds, k, f) && g == Stamp(f, count, now)
  {
    CommitHas(log, cmds, count, now, g);
    k, f :| CommittedFrom(cmds, count, now, k, f, g);
  }

  lemma FactCommitted(log: seq<Fact>, cmds: seq<seq<Fact>>, count: nat, now: nat, k: nat, f: Fact)
    requires InCommand(cmds, k, f)
    ensures Stamp(f, count, now) in AfterCommit(log, cmds, count, now)
  {
    var g := Stamp(f, count, now);
    CommitHas(log, cmds, count, now, g);
    assert CommittedFrom(cmds, count, now, k, f, g);
  }

  lemma NewInside(log: seq<Fact>, cmds: seq<seq<Fact>>, ids: seq<nat>, count: nat, g: Fact)
    requires Views(log, cmds, ids, count) && g in ReadInside(log, cmds, ids, count) && g !in log
    ensures !g.asserted ==> Retracted(cmds, g.triple)
  {
    var k, f := InsideFact(log, cmds, ids, count, g);
    assert !g.asserted ==> RetractsIn(cmds, k, g.triple);
  }

  lemma NewCommitted(log: seq<Fact>, cmds: seq<seq<Fact>>, count: nat, now: nat, g: Fact)
    requires g in AfterCommit(log, cmds, count, now) && g !in log
    ensures if g.asserted then exists i: nat :: AssertsIn(cmds, i, g.triple) else Retracted(cmds, g.triple)
  {
    var k, f := CommittedFact(log, cmds, count, now, g);
    assert if g.asserted then AssertsIn(cmds, k, g.triple) else RetractsIn(cmds, k, g.triple);
  }

  // ── Inside ─────────────────────────────────────────────────────────────────

  lemma LastWordLives(log: seq<Fact>, cmds: seq<seq<Fact>>, ids: seq<nat>, count: nat, t: Triple, i: nat)
    requires Views(log, cmds, ids, count) && LastWord(cmds, i, t)
    ensures Live(ReadInside(log, cmds, ids, count), t)
  {
    hide ReadInside;
    var f :| InCommand(cmds, i, f) && f.asserted && f.triple == t;
    var a, view := Stamp(f, count + i, ids[i]), ReadInside(log, cmds, ids, count);
    FactInside(log, cmds, ids, count, i, f);
    forall r | r in view && !r.asserted && r.triple == t
      ensures r.txCount < a.txCount
    {
      if r !in log {
        var k, x := InsideFact(log, cmds, ids, count, r);
        assert RetractsIn(cmds, k, t);
      }
    }
    AssertedIsLive(view, a);
  }

  lemma UntouchedLives(log: seq<Fact>, view: seq<Fact>, t: Triple)
    requires Live(log, t) && (forall f :: f in log ==> f in view) && forall r :: r in view && !r.asserted && r.triple == t ==> r in log
    ensures Live(view, t)
  {
    var w :| Net(log, w) && w.triple == t;
    var a :| Upholds(log, a, w);
    assert Upholds(view, a, w);
    assert Net(view, w);
  }

  lemma InsideLives(log: seq<Fact>, cmds: seq<seq<Fact>>, ids: seq<nat>, count: nat, t: Triple)
    requires Views(log, cmds, ids, count) && UnscopedOnly(cmds) && Live(ReadInside(log, cmds, ids, count), t)
    ensures (exists i: nat :: LastWord(cmds, i, t)) || (Live(log, t) && !Retracted(cmds, t))
  {
    hide ReadInside;
    var view := ReadInside(log, cmds, ids, count);
    var w :| Net(view, w) && w.triple == t;
    var a :| Upholds(view, a, w);
    if a in log {
      forall k: nat
        ensures !RetractsIn(cmds, k, t)
      {
        if f :| InCommand(cmds, k, f) && !f.asserted && f.triple == t {
          FactInside(log, cmds, ids, count, k, f);
          assert false;
        }
      }
      forall r | r in log && Cancels(r, w)
        ensures r.txCount < a.txCount
      {
        assert r in view by { InsideHas(log, cmds, ids, count, r); }
      }
      assert Upholds(log, a, w);
      assert Net(log, w);
    } else {
      var i, f := InsideFact(log, cmds, ids, count, a);
      assert AssertsIn(cmds, i, t);
      forall k: nat | k >= i
        ensures !RetractsIn(cmds, k, t)
      {
        if x :| InCommand(cmds, k, x) && !x.asserted && x.triple == t {
          FactInside(log, cmds, ids, count, k, x);
          assert false;
        }
      }
      assert LastWord(cmds, i, t);
    }
  }

  lemma LiveInside(log: seq<Fact>, cmds: seq<seq<Fact>>, ids: seq<nat>, count: nat, t: Triple)
    requires Views(log, cmds, ids, count) && UnscopedOnly(cmds)
    ensures Live(ReadInside(log, cmds, ids, count), t) <==>
            (exists i: nat :: LastWord(cmds, i, t)) || (Live(log, t) && !Retracted(cmds, t))
  {
    hide ReadInside, Live, LastWord;
    var view := ReadInside(log, cmds, ids, count);
    if Live(view, t) {
      InsideLives(log, cmds, ids, count, t);
    }
    if i: nat :| LastWord(cmds, i, t) {
      LastWordLives(log, cmds, ids, count, t, i);
    } else if Live(log, t) && !Retracted(cmds, t) {
      forall f | f in log
        ensures f in view
      {
        InsideHas(log, cmds, ids, count, f);
      }
      forall r | r in view && !r.asserted && r.triple == t
        ensures r in log
      {
        if r !in log {
          NewInside(log, cmds, ids, count, r);
        }
      }
      UntouchedLives(log, view, t);
    }
  }

  // ── After the commit ───────────────────────────────────────────────────────

  lemma RetractedIsDead(log: seq<Fact>, cmds: seq<seq<Fact>>, ids: seq<nat>, count: nat, now: nat, t: Triple)
    requires Views(log, cmds, ids, count) && UnscopedOnly(cmds) && Retracted(cmds, t)
    ensures !Live(AfterCommit(log, cmds, count, now), t)
  {
    hide AfterCommit;
    var view := AfterCommit(log, cmds, count, now);
    var k: nat :| RetractsIn(cmds, k, t);
    var x :| InCommand(cmds, k, x) && !x.asserted && x.triple == t;
    FactCommitted(log, cmds, count, now, k, x);
    var r := Stamp(x, count, now);
    forall w: Window, a: Fact | w.triple == t
      ensures !Upholds(view, a, w)
    {
      assert Cancels(r, w) && r in view;
      if a in view && a !in log {
        var j, f := CommittedFact(log, cmds, count, now, a);
      }
    }
  }

  lemma LiveAfter(log: seq<Fact>, cmds: seq<seq<Fact>>, ids: seq<nat>, count: nat, now: nat, t: Triple)
    requires Views(log, cmds, ids, count) && UnscopedOnly(cmds)
    ensures Live(AfterCommit(log, cmds, count, now), t) <==>
            !Retracted(cmds, t) && (Live(log, t) || exists i: nat :: AssertsIn(cmds, i, t))
  {
    hide AfterCommit;
    var view := AfterCommit(log, cmds, count, now);
    if Retracted(cmds, t) {
      RetractedIsDead(log, cmds, ids, count, now, t);
    } else {
      forall r | r in view && !r.asserted && r.triple == t
        ensures r in log
      {
        if r !in log {
          NewCommitted(log, cmds, count, now, r);
        }
      }
      forall f | f in log
        ensures f in view
      {
        CommitHas(log, cmds, count, now, f);
      }
      if i: nat :| AssertsIn(cmds, i, t) {
        var f :| InCommand(cmds, i, f) && f.asserted && f.triple == t;
        FactCommitted(log, cmds, count, now, i, f);
        AssertedIsLive(view, Stamp(f, count, now));
      } else if Live(log, t) {
        UntouchedLives(log, view, t);
      } else {
        NotNewlyLive(log, cmds, count, now, t);
      }
    }
  }

  lemma NotNewlyLive(log: seq<Fact>, cmds: seq<seq<Fact>>, count: nat, now: nat, t: Triple)
    requires !Live(log, t) && !exists i: nat :: AssertsIn(cmds, i, t)
    ensures !Live(AfterCommit(log, cmds, count, now), t)
  {
    hide AfterCommit;
    var view := AfterCommit(log, cmds, count, now);
    forall w: Window, a: Fact | w.triple == t
      ensures !Upholds(view, a, w)
    {
      if a in view && a.asserted && KeyOf(a) == w {
        if a in log {
          assert !Net(log, w);
          assert !Upholds(log, a, w);
          forall r | r in log
            ensures r in view
          {
            CommitHas(log, cmds, count, now, r);
          }
        } else {
          NewCommitted(log, cmds, count, now, a);
        }
      }
    }
  }

  // ── The comparison ─────────────────────────────────────────────────────────

  /** One triple: live in both or in neither, unless the transaction revives it. */
  lemma TripleAgrees(log: seq<Fact>, cmds: seq<seq<Fact>>, ids: seq<nat>, count: nat, now: nat, t: Triple)
    requires Views(log, cmds, ids, count) && UnscopedOnly(cmds)
    ensures (Live(ReadInside(log, cmds, ids, count), t) <==> Live(AfterCommit(log, cmds, count, now), t)) <==> !RevivesTriple(cmds, t)
  {
    hide ReadInside, AfterCommit, Live;
    LiveInside(log, cmds, ids, count, t);
    LiveAfter(log, cmds, ids, count, now, t);
    if !Retracted(cmds, t) {
      if i: nat :| AssertsIn(cmds, i, t) {
        assert LastWord(cmds, i, t);
      }
    }
  }

  /**
   With unscoped retractions and any starts, the read inside and the commit agree on every live triple
   if and only if no triple is asserted in a command after the last one that retracts it.
   */
  lemma LiveTriplesAgreeIffNoneRevives(log: seq<Fact>, cmds: seq<seq<Fact>>, ids: seq<nat>, count: nat, now: nat)
    requires Views(log, cmds, ids, count) && UnscopedOnly(cmds)
    ensures (forall t :: Live(ReadInside(log, cmds, ids, count), t) <==> Live(AfterCommit(log, cmds, count, now), t)) <==>
            forall t :: !RevivesTriple(cmds, t)
  {
    hide ReadInside, AfterCommit, Live, RevivesTriple;
    forall t
      ensures (Live(ReadInside(log, cmds, ids, count), t) <==> Live(AfterCommit(log, cmds, count, now), t)) <==> !RevivesTriple(cmds, t)
    {
      TripleAgrees(log, cmds, ids, count, now, t);
    }
  }

  /** Retracting a triple and asserting it again, with any or no start: live until the commit, dead after it. */
  lemma RetractThenAssertVanishes(t: Triple, from: int, ids: seq<nat>, now: nat)
    requires |ids| == 2
    ensures var cmds := [[Fact(t, 0, 0, RETRACT_ALL_FROM, FOREVER, false)], [Fact(t, 0, 0, from, FOREVER, true)]];
            Live(ReadInside([], cmds, ids, 1), t) && !Live(AfterCommit([], cmds, 1, now), t)
  {
    hide ReadInside, AfterCommit, Live;
    var r, a := Fact(t, 0, 0, RETRACT_ALL_FROM, FOREVER, false), Fact(t, 0, 0, from, FOREVER, true);
    var cmds := [[r], [a]];
    assert forall k: nat, f :: InCommand(cmds, k, f) ==> (k == 0 && f == r) || (k == 1 && f == a);
    assert InCommand(cmds, 0, r) && InCommand(cmds, 1, a);
    assert RetractsIn(cmds, 0, t) && AssertsIn(cmds, 1, t);
    assert LastWord(cmds, 1, t);
    LiveInside([], cmds, ids, 1, t);
    LiveAfter([], cmds, ids, 1, now, t);
  }
}
