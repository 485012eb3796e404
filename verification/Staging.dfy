/**
 Explicit transactions: commands are staged one synthetic count apart so that reads inside the
 transaction see them in order, and committed under one count.
 */
module Staging {
  import opened Bytes
  import opened Ledger
  import opened Sequences

  // ── Staged and committed views ─────────────────────────────────────────────

  function Flatten(cmds: seq<seq<Fact>>): seq<Fact> {
    if cmds == [] then [] else cmds[0] + Flatten(cmds[1..])
  }

  /** What a read inside the transaction adds to the committed log. */
  function StageAll(cmds: seq<seq<Fact>>, ids: seq<nat>, count: nat): seq<Fact>
    requires |ids| == |cmds|
  {
    if cmds == [] then [] else StampAll(cmds[0], count, ids[0]) + StageAll(cmds[1..], ids[1..], count + 1)
  }

  ghost predicate InCommand(cmds: seq<seq<Fact>>, k: nat, f: Fact) {
    k < |cmds| && f in cmds[k]
  }

  lemma {:induction false} FlattenHas(cmds: seq<seq<Fact>>, f: Fact)
    ensures f in Flatten(cmds) <==> exists k :: InCommand(cmds, k, f)
  {
    if cmds != [] {
      var rest := cmds[1..];
      FlattenHas(rest, f);
      assert f in Flatten(cmds) <==> f in cmds[0] || f in Flatten(rest);
      hide Flatten;
      if f in cmds[0] {
        assert InCommand(cmds, 0, f);
      }
      if k: nat :| InCommand(rest, k, f) {
        assert InCommand(cmds, k + 1, f);
      }
      if k: nat :| InCommand(cmds, k, f) && k > 0 {
        assert InCommand(rest, k - 1, f);
      }
    }
  }

  lemma StampAllHas(fs: seq<Fact>, count: nat, id: nat, g: Fact)
    ensures g in StampAll(fs, count, id) <==> exists f :: f in fs && g == Stamp(f, count, id)
  {
    var r := StampAll(fs, count, id);
    if g in r {
      var i :| 0 <= i < |r| && r[i] == g;
      assert fs[i] in fs;
    }
    if f :| f in fs && g == Stamp(f, count, id) {
      var i :| 0 <= i < |fs| && fs[i] == f;
      assert r[i] == g;
    }
  }

  ghost predicate StagedFrom(cmds: seq<seq<Fact>>, ids: seq<nat>, count: nat, k: nat, f: Fact, g: Fact)
    requires |ids| == |cmds|
  {
    InCommand(cmds, k, f) && g == Stamp(f, count + k, ids[k])
  }

  lemma {:induction false} StageAllHas(cmds: seq<seq<Fact>>, ids: seq<nat>, count: nat, g: Fact)
    requires |ids| == |cmds|
    ensures g in StageAll(cmds, ids, count) <==> exists k, f :: StagedFrom(cmds, ids, count, k, f, g)
    decreases cmds
  {
    if cmds != [] {
      StampAllHas(cmds[0], count, ids[0], g);
      StageAllHas(cmds[1..], ids[1..], count + 1, g);
      if f :| f in cmds[0] && g == Stamp(f, count, ids[0]) {
        assert StagedFrom(cmds, ids, count, 0, f, g);
      }
      var rest, restIds, next := cmds[1..], ids[1..], count + 1;
      if k: nat, f :| StagedFrom(rest, restIds, next, k, f, g) {
        assert StagedFrom(cmds, ids, count, k + 1, f, g);
      }
      if k: nat, f :| StagedFrom(cmds, ids, count, k, f, g) {
        if k == 0 {
          assert f in cmds[0];
        } else {
          assert StagedFrom(cmds[1..], ids[1..], count + 1, k - 1, f, g);
        }
      }
    }
  }

  /** The committed log, and the two ways a transaction extends it. */
  ghost predicate Views(log: seq<Fact>, cmds: seq<seq<Fact>>, ids: seq<nat>, count: nat) {
    && |ids| == |cmds|
    && count > 0
    && forall f :: f in log ==> f.txCount < count
  }

  function ReadInside(log: seq<Fact>, cmds: seq<seq<Fact>>, ids: seq<nat>, count: nat): seq<Fact>
    requires |ids| == |cmds|
  {
    log + StageAll(cmds, ids, count)
  }

  function AfterCommit(log: seq<Fact>, cmds: seq<seq<Fact>>, count: nat, now: nat): seq<Fact> {
    log + StampAll(Flatten(cmds), count, now)
  }

  lemma InsideHas(log: seq<Fact>, cmds: seq<seq<Fact>>, ids: seq<nat>, count: nat, g: Fact)
    requires |ids| == |cmds|
    ensures g in ReadInside(log, cmds, ids, count) <==> g in log || exists k, f :: StagedFrom(cmds, ids, count, k, f, g)
  {
    StageAllHas(cmds, ids, count, g);
  }

  ghost predicate CommittedFrom(cmds: seq<seq<Fact>>, count: nat, now: nat, k: nat, f: Fact, g: Fact) {
    InCommand(cmds, k, f) && g == Stamp(f, count, now)
  }

  lemma CommitHas(log: seq<Fact>, cmds: seq<seq<Fact>>, count: nat, now: nat, g: Fact)
    ensures g in AfterCommit(log, cmds, count, now) <==> g in log || exists k, f :: CommittedFrom(cmds, count, now, k, f, g)
  {
    StampAllHas(Flatten(cmds), count, now, g);
    if f :| f in Flatten(cmds) && g == Stamp(f, count, now) {
      FlattenHas(cmds, f);
      var k: nat :| InCommand(cmds, k, f);
      assert CommittedFrom(cmds, count, now, k, f, g);
    }
    if k: nat, f :| CommittedFrom(cmds, count, now, k, f, g) {
      FlattenHas(cmds, f);
    }
  }

  // ── When the two views agree ───────────────────────────────────────────────

  /** Every fact names its own start, so a window is the same in both views. */
  ghost predicate Explicit(cmds: seq<seq<Fact>>) {
    forall k: nat, f :: InCommand(cmds, k, f) ==> f.from != USE_TX_TIME
  }

  ghost predicate CancelledIn(cmds: seq<seq<Fact>>, k: nat, w: Window) {
    exists r :: InCommand(cmds, k, r) && Cancels(r, w)
  }

  /** Command `i` asserts a window that an earlier command retracted and none from `i` on retracts. */
  ghost predicate RevivesAt(cmds: seq<seq<Fact>>, i: nat, a: Fact) {
    && InCommand(cmds, i, a) && a.asserted
    && (exists j: nat :: j < i && CancelledIn(cmds, j, KeyOf(a)))
    && (forall k: nat :: k >= i ==> !CancelledIn(cmds, k, KeyOf(a)))
  }

  ghost predicate Revives(cmds: seq<seq<Fact>>) {
    exists i: nat, a :: RevivesAt(cmds, i, a)
  }

  lemma StampExplicit(f: Fact, count: nat, id: nat)
    requires f.from != USE_TX_TIME
    ensures KeyOf(Stamp(f, count, id)) == KeyOf(f)
    ensures forall w :: Cancels(Stamp(f, count, id), w) <==> Cancels(f, w)
  {}

  /** A retraction seen inside the transaction comes from the log or from a command. */
  lemma InsideCancel(log: seq<Fact>, cmds: seq<seq<Fact>>, ids: seq<nat>, count: nat, w: Window, r: Fact)
    requires Views(log, cmds, ids, count) && Explicit(cmds)
    requires r in ReadInside(log, cmds, ids, count) && Cancels(r, w)
    ensures r in log || exists k: nat :: r.txCount == count + k && CancelledIn(cmds, k, w)
  {
    InsideHas(log, cmds, ids, count, r);
    if r !in log {
      var k: nat, f :| StagedFrom(cmds, ids, count, k, f, r);
      StampExplicit(f, count + k, ids[k]);
      assert CancelledIn(cmds, k, w);
    }
  }

  lemma CancelInside(log: seq<Fact>, cmds: seq<seq<Fact>>, ids: seq<nat>, count: nat, w: Window, k: nat) returns (r: Fact)
    requires Views(log, cmds, ids, count) && Explicit(cmds) && CancelledIn(cmds, k, w)
    ensures r in ReadInside(log, cmds, ids, count) && Cancels(r, w) && r.txCount == count + k
  {
    var f :| InCommand(cmds, k, f) && Cancels(f, w);
    r := Stamp(f, count + k, ids[k]);
    StampExplicit(f, count + k, ids[k]);
    assert StagedFrom(cmds, ids, count, k, f, r);
    InsideHas(log, cmds, ids, count, r);
  }

  lemma CommitCancel(log: seq<Fact>, cmds: seq<seq<Fact>>, ids: seq<nat>, count: nat, now: nat, w: Window, r: Fact)
    requires Views(log, cmds, ids, count) && Explicit(cmds)
    requires r in AfterCommit(log, cmds, count, now) && Cancels(r, w)
    ensures r in log || exists k: nat :: CancelledIn(cmds, k, w)
  {
    CommitHas(log, cmds, count, now, r);
    if r !in log {
      var k: nat, f :| CommittedFrom(cmds, count, now, k, f, r);
      StampExplicit(f, count, now);
      assert CancelledIn(cmds, k, w);
    }
  }

  lemma CancelAfterCommit(log: seq<Fact>, cmds: seq<seq<Fact>>, ids: seq<nat>, count: nat, now: nat, w: Window, k: nat) returns (r: Fact)
    requires Views(log, cmds, ids, count) && Explicit(cmds) && CancelledIn(cmds, k, w)
    ensures r in AfterCommit(log, cmds, count, now) && Cancels(r, w) && r.txCount == count
  {
    var f :| InCommand(cmds, k, f) && Cancels(f, w);
    r := Stamp(f, count, now);
    StampExplicit(f, count, now);
    assert CommittedFrom(cmds, count, now, k, f, r);
    CommitHas(log, cmds, count, now, r);
  }

  ghost predicate Uncancelled(cmds: seq<seq<Fact>>, start: nat, w: Window) {
    forall k: nat :: k >= start ==> !CancelledIn(cmds, k, w)
  }

  ghost predicate AssertedIn(cmds: seq<seq<Fact>>, i: nat, w: Window) {
    exists a :: InCommand(cmds, i, a) && a.asserted && KeyOf(a) == w
  }

  /** Inside the transaction a later command overrides an earlier one. */
  ghost predicate NetInside(log: seq<Fact>, cmds: seq<seq<Fact>>, w: Window) {
    || (Net(log, w) && Uncancelled(cmds, 0, w))
    || exists i: nat :: AssertedIn(cmds, i, w) && Uncancelled(cmds, i, w)
  }

  /** Under one count a retraction anywhere in the transaction wins. */
  ghost predicate NetCommitted(log: seq<Fact>, cmds: seq<seq<Fact>>, w: Window) {
    Uncancelled(cmds, 0, w) && (Net(log, w) || exists i: nat :: AssertedIn(cmds, i, w))
  }

  lemma InsideOnlyIf(log: seq<Fact>, cmds: seq<seq<Fact>>, ids: seq<nat>, count: nat, w: Window)
    requires Views(log, cmds, ids, count) && Explicit(cmds) && Net(ReadInside(log, cmds, ids, count), w)
    ensures NetInside(log, cmds, w)
  {
    hide ReadInside, CancelledIn;
    var inside := ReadInside(log, cmds, ids, count);
    var a :| Upholds(inside, a, w);
    forall k: nat | CancelledIn(cmds, k, w)
      ensures count + k < a.txCount
    {
      var r := CancelInside(log, cmds, ids, count, w, k);
    }
    InsideHas(log, cmds, ids, count, a);
    if a in log {
      assert Uncancelled(cmds, 0, w);
      forall r | r in log && Cancels(r, w)
        ensures r.txCount < a.txCount
      {
        InsideHas(log, cmds, ids, count, r);
      }
      assert Upholds(log, a, w);
    } else {
      var i: nat, f :| StagedFrom(cmds, ids, count, i, f, a);
      StampExplicit(f, count + i, ids[i]);
      assert AssertedIn(cmds, i, w) && Uncancelled(cmds, i, w);
    }
  }

  lemma InsideIf(log: seq<Fact>, cmds: seq<seq<Fact>>, ids: seq<nat>, count: nat, w: Window)
    requires Views(log, cmds, ids, count) && Explicit(cmds) && NetInside(log, cmds, w)
    ensures Net(ReadInside(log, cmds, ids, count), w)
  {
    hide ReadInside, CancelledIn;
    var inside := ReadInside(log, cmds, ids, count);
    if Net(log, w) && Uncancelled(cmds, 0, w) {
      var a :| Upholds(log, a, w);
      InsideHas(log, cmds, ids, count, a);
      forall r | r in inside && Cancels(r, w)
        ensures r.txCount < a.txCount
      {
        InsideCancel(log, cmds, ids, count, w, r);
      }
      assert Upholds(inside, a, w);
    } else {
      var i: nat :| AssertedIn(cmds, i, w) && Uncancelled(cmds, i, w);
      var f :| InCommand(cmds, i, f) && f.asserted && KeyOf(f) == w;
      var a := Stamp(f, count + i, ids[i]);
      StampExplicit(f, count + i, ids[i]);
      assert StagedFrom(cmds, ids, count, i, f, a);
      InsideHas(log, cmds, ids, count, a);
      forall r | r in inside && Cancels(r, w)
        ensures r.txCount < a.txCount
      {
        InsideCancel(log, cmds, ids, count, w, r);
      }
      assert Upholds(inside, a, w);
    }
  }

  lemma CommitOnlyIf(log: seq<Fact>, cmds: seq<seq<Fact>>, ids: seq<nat>, count: nat, now: nat, w: Window)
    requires Views(log, cmds, ids, count) && Explicit(cmds) && Net(AfterCommit(log, cmds, count, now), w)
    ensures NetCommitted(log, cmds, w)
  {
    hide AfterCommit, CancelledIn;
    var after := AfterCommit(log, cmds, count, now);
    var a :| Upholds(after, a, w);
    CommitHas(log, cmds, count, now, a);
    forall k: nat
      ensures !CancelledIn(cmds, k, w)
    {
      if CancelledIn(cmds, k, w) {
        var r := CancelAfterCommit(log, cmds, ids, count, now, w, k);
      }
    }
    if a in log {
      forall r | r in log && Cancels(r, w)
        ensures r.txCount < a.txCount
      {
        CommitHas(log, cmds, count, now, r);
      }
      assert Upholds(log, a, w);
    } else {
      var i: nat, f :| CommittedFrom(cmds, count, now, i, f, a);
      StampExplicit(f, count, now);
      assert AssertedIn(cmds, i, w);
    }
  }

  lemma CommitIf(log: seq<Fact>, cmds: seq<seq<Fact>>, ids: seq<nat>, count: nat, now: nat, w: Window)
    requires Views(log, cmds, ids, count) && Explicit(cmds) && NetCommitted(log, cmds, w)
    ensures Net(AfterCommit(log, cmds, count, now), w)
  {
    hide AfterCommit, CancelledIn;
    var after := AfterCommit(log, cmds, count, now);
    var a: Fact;
    if Net(log, w) {
      a :| Upholds(log, a, w);
    } else {
      var i: nat :| AssertedIn(cmds, i, w);
      var f :| InCommand(cmds, i, f) && f.asserted && KeyOf(f) == w;
      a := Stamp(f, count, now);
      StampExplicit(f, count, now);
      assert CommittedFrom(cmds, count, now, i, f, a);
    }
    CommitHas(log, cmds, count, now, a);
    forall r | r in after && Cancels(r, w)
      ensures r.txCount < a.txCount
    {
      CommitCancel(log, cmds, ids, count, now, w, r);
    }
    assert Upholds(after, a, w);
  }

  /**
   With explicit starts, reads inside a transaction and reads after its commit show the same windows
   if and only if no command revives a window an earlier command of the transaction retracted.
   */
  lemma ViewsAgreeIffNothingRevives(log: seq<Fact>, cmds: seq<seq<Fact>>, ids: seq<nat>, count: nat, now: nat)
    requires Views(log, cmds, ids, count) && Explicit(cmds)
    ensures (forall w :: Net(ReadInside(log, cmds, ids, count), w) <==> Net(AfterCommit(log, cmds, count, now), w)) <==> !Revives(cmds)
  {
    hide Net, ReadInside, AfterCommit, Explicit, CancelledIn;
    forall w
      ensures Net(ReadInside(log, cmds, ids, count), w) <==> NetInside(log, cmds, w)
      ensures Net(AfterCommit(log, cmds, count, now), w) <==> NetCommitted(log, cmds, w)
    {
      ViewsOfWindow(log, cmds, ids, count, now, w);
    }
    forall w
      ensures !Revives(cmds) ==> (NetInside(log, cmds, w) <==> NetCommitted(log, cmds, w))
    {
      Compare(log, cmds, w);
    }
    if i: nat, a :| RevivesAt(cmds, i, a) {
      var w := KeyOf(a);
      assert AssertedIn(cmds, i, w) && Uncancelled(cmds, i, w);
      assert NetInside(log, cmds, w) && !NetCommitted(log, cmds, w);
    }
  }

  lemma ViewsOfWindow(log: seq<Fact>, cmds: seq<seq<Fact>>, ids: seq<nat>, count: nat, now: nat, w: Window)
    requires Views(log, cmds, ids, count) && Explicit(cmds)
    ensures Net(ReadInside(log, cmds, ids, count), w) <==> NetInside(log, cmds, w)
    ensures Net(AfterCommit(log, cmds, count, now), w) <==> NetCommitted(log, cmds, w)
  {
    hide Net, NetInside, NetCommitted, ReadInside, AfterCommit, Explicit;
    if Net(ReadInside(log, cmds, ids, count), w) {
      InsideOnlyIf(log, cmds, ids, count, w);
    }
    if NetInside(log, cmds, w) {
      InsideIf(log, cmds, ids, count, w);
    }
    if Net(AfterCommit(log, cmds, count, now), w) {
      CommitOnlyIf(log, cmds, ids, count, now, w);
    }
    if NetCommitted(log, cmds, w) {
      CommitIf(log, cmds, ids, count, now, w);
    }
  }

  /** Committed windows are always among those read inside; the rest were revived. */
  lemma Compare(log: seq<Fact>, cmds: seq<seq<Fact>>, w: Window)
    ensures NetCommitted(log, cmds, w) ==> NetInside(log, cmds, w)
    ensures !Revives(cmds) && NetInside(log, cmds, w) ==> NetCommitted(log, cmds, w)
  {
    hide Net, CancelledIn;
    if !Revives(cmds) && NetInside(log, cmds, w) && !(Net(log, w) && Uncancelled(cmds, 0, w)) {
      var i: nat :| AssertedIn(cmds, i, w) && Uncancelled(cmds, i, w);
      var a :| InCommand(cmds, i, a) && a.asserted && KeyOf(a) == w;
      assert !RevivesAt(cmds, i, a);
      assert Uncancelled(cmds, 0, w);
    }
  }

  // ── Transactions that name each triple once ────────────────────────────────

  /** No triple is named twice in the batch. */
  ghost predicate NoRepeat(facts: seq<Fact>) {
    forall i, j :: 0 <= i < j < |facts| ==> facts[i].triple != facts[j].triple
  }

  /** Scoped retractions name their own start; assertions may leave it to the transaction time. */
  ghost predicate StartsNamed(facts: seq<Fact>) {
    forall i :: 0 <= i < |facts| && !facts[i].asserted ==> facts[i].from != USE_TX_TIME
  }

  lemma OneFactPerTriple(facts: seq<Fact>, f: Fact, g: Fact)
    requires NoRepeat(facts) && f in facts && g in facts && f.triple == g.triple
    ensures f == g
  {}

  /** A log extended by one assertion newer than all of it keeps the triple live. */
  lemma AssertedIsLive(view: seq<Fact>, a: Fact)
    requires a in view && a.asserted && a.txCount > 0
    requires forall r :: r in view && !r.asserted && r.triple == a.triple ==> r.txCount < a.txCount
    ensures Live(view, a.triple)
  {
    assert Upholds(view, a, KeyOf(a));
    assert Net(view, KeyOf(a));
  }

  /** Extending by one retraction newer than all of it removes exactly the windows it cancels. */
  lemma RetractedNet(log: seq<Fact>, view: seq<Fact>, x: Fact, w: Window)
    requires !x.asserted && x.triple == w.triple && forall f :: f in log ==> f.txCount < x.txCount
    requires forall f: Fact :: f.triple == w.triple ==> (f in view <==> f in log || f == x)
    ensures Net(view, w) <==> Net(log, w) && !Cancels(x, w)
  {
    if Net(log, w) && !Cancels(x, w) {
      var a :| Upholds(log, a, w);
      assert Upholds(view, a, w);
    }
    if Net(view, w) {
      var a :| Upholds(view, a, w);
      assert Upholds(log, a, w);
    }
  }

  /** The facts of one triple in each view: the log's, and at most one stamped fact. */
  lemma ViewsOfTriple(log: seq<Fact>, cmds: seq<seq<Fact>>, ids: seq<nat>, count: nat, now: nat, k: nat, f: Fact)
    requires |ids| == |cmds| && NoRepeat(Flatten(cmds)) && InCommand(cmds, k, f)
    ensures forall g: Fact :: g.triple == f.triple ==>
              (g in AfterCommit(log, cmds, count, now) <==> g in log || g == Stamp(f, count, now))
    ensures exists j: nat :: j < |ids| && forall g: Fact :: g.triple == f.triple ==>
              (g in ReadInside(log, cmds, ids, count) <==> g in log || g == Stamp(f, count + j, ids[j]))
  {
    hide ReadInside, AfterCommit;
    FlattenHas(cmds, f);
    forall g: Fact | g.triple == f.triple
      ensures g in AfterCommit(log, cmds, count, now) <==> g in log || g == Stamp(f, count, now)
    {
      CommitHas(log, cmds, count, now, g);
      if i: nat, h :| CommittedFrom(cmds, count, now, i, h, g) {
        FlattenHas(cmds, h);
        OneFactPerTriple(Flatten(cmds), f, h);
      }
      if g == Stamp(f, count, now) {
        assert CommittedFrom(cmds, count, now, k, f, g);
      }
    }
    forall g: Fact | g.triple == f.triple
      ensures g in ReadInside(log, cmds, ids, count) <==> g in log || g == Stamp(f, count + k, ids[k])
    {
      InsideHas(log, cmds, ids, count, g);
      if i: nat, h :| StagedFrom(cmds, ids, count, i, h, g) {
        FlattenHas(cmds, h);
        OneFactPerTriple(Flatten(cmds), f, h);
        OneCommandPerFact(cmds, i, k, f);
      }
      if g == Stamp(f, count + k, ids[k]) {
        assert StagedFrom(cmds, ids, count, k, f, g);
      }
    }
  }

  lemma NotInBoth(a: seq<Fact>, b: seq<Fact>, f: Fact)
    requires NoRepeat(a + b) && f in a
    ensures f !in b
  {
    var x :| 0 <= x < |a| && a[x] == f;
    assert (a + b)[x] == f;
    forall y | 0 <= y < |b|
      ensures b[y] != f
    {
      assert (a + b)[|a| + y] == b[y];
    }
  }

  /** A batch without repeats names a fact in one command only. */
  lemma {:induction false} OneCommandPerFact(cmds: seq<seq<Fact>>, i: nat, k: nat, f: Fact)
    requires NoRepeat(Flatten(cmds)) && InCommand(cmds, i, f) && InCommand(cmds, k, f)
    ensures i == k
  {
    if i == 0 && k == 0 {
    } else {
      var all, rest := Flatten(cmds), Flatten(cmds[1..]);
      assert all == cmds[0] + rest;
      assert NoRepeat(rest) by {
        assert forall x :: 0 <= x < |rest| ==> rest[x] == all[|cmds[0]| + x];
      }
      if i > 0 && k > 0 {
        assert InCommand(cmds[1..], i - 1, f) && InCommand(cmds[1..], k - 1, f);
        OneCommandPerFact(cmds[1..], i - 1, k - 1, f);
      } else {
        var later := if i > 0 then i else k;
        assert InCommand(cmds[1..], later - 1, f);
        FlattenHas(cmds[1..], f);
        NotInBoth(cmds[0], rest, f);
      }
    }
  }

  /** The one fact a transaction holds for a triple decides the triple alike in both views. */
  lemma NamedTripleAgrees(log: seq<Fact>, cmds: seq<seq<Fact>>, ids: seq<nat>, count: nat, now: nat, k: nat, f: Fact)
    requires Views(log, cmds, ids, count) && NoRepeat(Flatten(cmds)) && StartsNamed(Flatten(cmds)) && InCommand(cmds, k, f)
    ensures Live(ReadInside(log, cmds, ids, count), f.triple) <==> Live(AfterCommit(log, cmds, count, now), f.triple)
  {
    hide ReadInside, AfterCommit;
    var t := f.triple;
    var inside, after := ReadInside(log, cmds, ids, count), AfterCommit(log, cmds, count, now);
    ViewsOfTriple(log, cmds, ids, count, now, k, f);
    var j: nat :| j < |ids| && forall g: Fact :: g.triple == t ==> (g in inside <==> g in log || g == Stamp(f, count + j, ids[j]));
    var x, y := Stamp(f, count + j, ids[j]), Stamp(f, count, now);
    if f.asserted {
      AssertedIsLive(inside, x);
      AssertedIsLive(after, y);
    } else {
      FlattenHas(cmds, f);
      assert f.from != USE_TX_TIME;
      hide Net;
      forall w: Window | w.triple == t
        ensures Net(inside, w) <==> Net(after, w)
      {
        RetractedNet(log, inside, x, w);
        RetractedNet(log, after, y, w);
        assert Cancels(x, w) <==> Cancels(y, w);
      }
    }
  }

  /**
   For a transaction that names each triple once and gives scoped retractions their start, the triples
   live in a read inside it are exactly those live after the commit.
   */
  lemma SingleNamingAgrees(log: seq<Fact>, cmds: seq<seq<Fact>>, ids: seq<nat>, count: nat, now: nat, t: Triple)
    requires Views(log, cmds, ids, count) && NoRepeat(Flatten(cmds)) && StartsNamed(Flatten(cmds))
    ensures Live(ReadInside(log, cmds, ids, count), t) <==> Live(AfterCommit(log, cmds, count, now), t)
  {
    hide ReadInside, AfterCommit, NoRepeat, StartsNamed, Net;
    if k: nat, f :| InCommand(cmds, k, f) && f.triple == t {
      NamedTripleAgrees(log, cmds, ids, count, now, k, f);
    } else {
      var inside, after := ReadInside(log, cmds, ids, count), AfterCommit(log, cmds, count, now);
      forall g: Fact | g.triple == t
        ensures g in inside <==> g in after
      {
        InsideHas(log, cmds, ids, count, g);
        CommitHas(log, cmds, count, now, g);
      }
      forall w: Window | w.triple == t
        ensures Net(inside, w) <==> Net(after, w)
      {
        NetIsLocal(inside, after, w);
      }
    }
  }

  /** The facts of a batch take effect together: their order changes no window. */
  lemma BatchOrderIsIrrelevant(log: seq<Fact>, batch: seq<Fact>, shuffled: seq<Fact>, count: nat, now: nat, w: Window)
    requires multiset(batch) == multiset(shuffled)
    ensures Net(log + StampAll(batch, count, now), w) <==> Net(log + StampAll(shuffled, count, now), w)
  {
    var a, b := log + StampAll(batch, count, now), log + StampAll(shuffled, count, now);
    forall g
      ensures g in a <==> g in b
    {
      StampAllHas(batch, count, now, g);
      StampAllHas(shuffled, count, now, g);
      assert forall f :: f in batch <==> f in multiset(batch);
      assert forall f :: f in shuffled <==> f in multiset(shuffled);
    }
    NetIgnoresOrder(a, b, w);
  }

  // ── Atomic multi-command writes ────────────────────────────────────────────

  const MAX_COMMANDS: nat := 256
  const MAX_FACTS: nat := 262_144
  const MAX_SOURCE_BYTES: nat := 64 * 1024 * 1024
  const MAX_TOKENS: nat := MAX_FACTS * 8

  lemma RepeatSnoc(facts: seq<Fact>, f: Fact)
    requires NoRepeat(facts)
    ensures NoRepeat(facts + [f]) <==> forall i :: 0 <= i < |facts| ==> facts[i].triple != f.triple
  {
    var all := facts + [f];
    if NoRepeat(all) {
      assert forall i :: 0 <= i < |facts| ==> all[i] == facts[i] && all[i].triple != all[|facts|].triple;
    }
  }

  /** The repeated-fact check of one command: how many of its facts are accepted before a repeat. */
  method AcceptCommand(seen: set<Triple>, command: seq<Fact>, ghost facts: seq<Fact>) returns (ok: bool, now: set<Triple>)
    requires NoRepeat(facts) && forall t :: t in seen <==> exists i :: 0 <= i < |facts| && facts[i].triple == t
    ensures ok <==> NoRepeat(facts + command)
    ensures ok ==> forall t :: t in now <==> exists i :: 0 <= i < |facts + command| && (facts + command)[i].triple == t
  {
    now, ok := seen, true;
    assert facts + command[..0] == facts;
    for k := 0 to |command|
      invariant ok && NoRepeat(facts + command[..k])
      invariant forall t :: t in now <==> exists i :: 0 <= i < |facts + command[..k]| && (facts + command[..k])[i].triple == t
    {
      var f := command[k];
      RepeatSnoc(facts + command[..k], f);
      assert facts + command[..k + 1] == facts + command[..k] + [f];
      if f.triple in now {
        PrefixRepeats(facts + command[..k + 1], facts + command);
        return false, now;
      }
      var before, grown := facts + command[..k], facts + command[..k + 1];
      forall t
        ensures t in now + {f.triple} <==> exists i :: 0 <= i < |grown| && grown[i].triple == t
      {
        SeenMore(before, f, t);
      }
      now := now + {f.triple};
    }
    assert command[..|command|] == command;
  }

  lemma SeenMore(facts: seq<Fact>, f: Fact, t: Triple)
    ensures (exists i :: 0 <= i < |facts + [f]| && (facts + [f])[i].triple == t) <==>
            (exists i :: 0 <= i < |facts| && facts[i].triple == t) || f.triple == t
  {
    var all := facts + [f];
    if i :| 0 <= i < |facts| && facts[i].triple == t {
      assert all[i].triple == t;
    }
    assert all[|facts|].triple == f.triple;
  }

  lemma PrefixRepeats(part: seq<Fact>, whole: seq<Fact>)
    requires part <= whole && !NoRepeat(part)
    ensures !NoRepeat(whole)
  {
    var i, j :| 0 <= i < j < |part| && part[i].triple == part[j].triple;
    assert whole[i].triple == whole[j].triple;
  }

  lemma {:induction false} FlattenSnoc(cmds: seq<seq<Fact>>, command: seq<Fact>)
    ensures Flatten(cmds + [command]) == Flatten(cmds) + command
  {
    if cmds == [] {
      assert cmds + [command] == [command];
      assert [command][1..] == [];
    } else {
      FlattenSnoc(cmds[1..], command);
      assert (cmds + [command])[1..] == cmds[1..] + [command];
      assert cmds[0] + (Flatten(cmds[1..]) + command) == cmds[0] + Flatten(cmds[1..]) + command;
    }
  }

  /** Every prefix of the flattened commands is a prefix of the whole. */
  lemma {:induction false} FlattenPrefix(cmds: seq<seq<Fact>>, n: nat)
    requires n <= |cmds|
    ensures Flatten(cmds[..n]) <= Flatten(cmds)
  {
    if n > 0 {
      FlattenPrefix(cmds[1..], n - 1);
      assert cmds[..n][1..] == cmds[1..][..n - 1];
    }
  }

  /** What a command parses to: one of the two write forms with its facts, or none for anything else. */
  datatype Parsed = Parsed(facts: seq<Fact>, isRetract: bool)

  /** A command text as `executeAtomic` measures it before and after parsing. */
  datatype Command = Command(bytes: nat, vectors: nat, tokens: nat, parsed: Option<Parsed>)

  datatype AtomicWrite = AtomicWrite(facts: seq<Fact>, commands: nat, transacted: nat, retracted: nat)

  function SourceBytes(c: Command): nat { c.bytes }

  function Vectors(c: Command): nat { c.vectors }

  function Tokens(c: Command): nat { c.tokens }

  function FactsOf(c: Command): seq<Fact> {
    if c.parsed.Some? then c.parsed.value.facts else []
  }

  function TransactedFacts(c: Command): nat {
    if c.parsed.Some? && !c.parsed.value.isRetract then |FactsOf(c)| else 0
  }

  function RetractedFacts(c: Command): nat {
    if c.parsed.Some? && c.parsed.value.isRetract then |FactsOf(c)| else 0
  }

  function Total(cs: seq<Command>, measure: Command -> nat): nat {
    if cs == [] then 0 else measure(cs[0]) + Total(cs[1..], measure)
  }

  function AllFacts(cs: seq<Command>): (r: seq<seq<Fact>>)
    ensures |r| == |cs| && forall i :: 0 <= i < |cs| ==> r[i] == FactsOf(cs[i])
  {
    seq(|cs|, i requires 0 <= i < |cs| => FactsOf(cs[i]))
  }

  lemma {:induction false} TotalSnoc(cs: seq<Command>, k: nat, measure: Command -> nat)
    requires k < |cs|
    ensures Total(cs[..k + 1], measure) == Total(cs[..k], measure) + measure(cs[k])
  {
    if k > 0 {
      TotalSnoc(cs[1..], k - 1, measure);
      assert cs[..k + 1][1..] == cs[1..][..k] && cs[..k][1..] == cs[1..][..k - 1];
    } else {
      assert cs[..1][1..] == [];
    }
  }

  lemma {:induction false} TotalPrefix(cs: seq<Command>, k: nat, measure: Command -> nat)
    requires k <= |cs|
    ensures Total(cs[..k], measure) <= Total(cs, measure)
  {
    if k > 0 {
      TotalPrefix(cs[1..], k - 1, measure);
      assert cs[..k][1..] == cs[1..][..k - 1];
    }
  }

  /** What the limits allow before anything is parsed. */
  predicate Measured(cs: seq<Command>) {
    && Total(cs, SourceBytes) <= MAX_SOURCE_BYTES
    && Total(cs, Vectors) <= MAX_FACTS
    && Total(cs, Tokens) <= MAX_TOKENS
  }

  /** What `executeAtomic` accepts. */
  ghost predicate Acceptable(cs: seq<Command>) {
    && 1 <= |cs| <= MAX_COMMANDS
    && Measured(cs)
    && (forall i :: 0 <= i < |cs| ==> cs[i].parsed.Some?)
    && 1 <= |Flatten(AllFacts(cs))| <= MAX_FACTS
    && NoRepeat(Flatten(AllFacts(cs)))
  }

  lemma CommandFacts(cs: seq<Command>, k: nat)
    requires k < |cs|
    ensures Flatten(AllFacts(cs[..k + 1])) == Flatten(AllFacts(cs[..k])) + FactsOf(cs[k])
    ensures Flatten(AllFacts(cs[..k + 1])) <= Flatten(AllFacts(cs))
  {
    assert AllFacts(cs[..k + 1]) == AllFacts(cs[..k]) + [FactsOf(cs[k])];
    FlattenSnoc(AllFacts(cs[..k]), FactsOf(cs[k]));
    assert AllFacts(cs[..k + 1]) == AllFacts(cs)[..k + 1];
    FlattenPrefix(AllFacts(cs), k + 1);
  }

  lemma CommandTotals(cs: seq<Command>, k: nat, measure: Command -> nat)
    requires k < |cs|
    ensures Total(cs[..k + 1], measure) == Total(cs[..k], measure) + measure(cs[k]) <= Total(cs, measure)
  {
    TotalSnoc(cs, k, measure);
    TotalPrefix(cs, k + 1, measure);
  }

  /** Every materialized fact was transacted or retracted. */
  lemma {:induction false} CountsAddUp(cs: seq<Command>)
    ensures Total(cs, TransactedFacts) + Total(cs, RetractedFacts) == |Flatten(AllFacts(cs))|
  {
    if cs != [] {
      CountsAddUp(cs[1..]);
      assert AllFacts(cs)[1..] == AllFacts(cs[1..]);
    }
  }

  lemma NoCommandYet(cs: seq<Command>)
    ensures Flatten(AllFacts(cs[..0])) == [] && NoRepeat([])
    ensures Total(cs[..0], Vectors) == Total(cs[..0], Tokens) == Total(cs[..0], TransactedFacts) == Total(cs[..0], RetractedFacts) == 0
  {
    assert cs[..0] == [];
  }

  /** `materialize_atomic_write_commands`: measure, parse, refuse repeats, and count. */
  method MaterializeAtomicWrite(cs: seq<Command>) returns (r: Result<AtomicWrite>)
    ensures r.Ok? <==> Acceptable(cs)
    ensures r.Ok? ==> r.value.facts == Flatten(AllFacts(cs)) && r.value.commands == |cs|
    ensures r.Ok? ==> r.value.transacted == Total(cs, TransactedFacts) && r.value.retracted == Total(cs, RetractedFacts)
    ensures r.Ok? ==> r.value.transacted + r.value.retracted == |r.value.facts|
  {
    hide Total, Flatten, NoRepeat, AllFacts;
    if cs == [] || |cs| > MAX_COMMANDS {
      return Err("command count");
    }
    if Total(cs, SourceBytes) > MAX_SOURCE_BYTES {
      return Err("source bytes");
    }
    var facts: seq<Fact>, seen: set<Triple> := [], {};
    var vectors, tokens, transacted, retracted := 0, 0, 0, 0;
    NoCommandYet(cs);
    for k := 0 to |cs|
      invariant facts == Flatten(AllFacts(cs[..k])) && NoRepeat(facts) && |facts| <= MAX_FACTS
      invariant forall t :: t in seen <==> exists i :: 0 <= i < |facts| && facts[i].triple == t
      invariant vectors == Total(cs[..k], Vectors) <= MAX_FACTS && tokens == Total(cs[..k], Tokens) <= MAX_TOKENS
      invariant transacted == Total(cs[..k], TransactedFacts) && retracted == Total(cs[..k], RetractedFacts)
      invariant forall i :: 0 <= i < k ==> cs[i].parsed.Some?
    {
      CommandFacts(cs, k);
      CommandTotals(cs, k, Vectors);
      CommandTotals(cs, k, Tokens);
      CommandTotals(cs, k, TransactedFacts);
      CommandTotals(cs, k, RetractedFacts);
      vectors := vectors + cs[k].vectors;
      if vectors > MAX_FACTS {
        return Err("fact count before parsing");
      }
      tokens := tokens + cs[k].tokens;
      if tokens > MAX_TOKENS {
        return Err("token count");
      }
      if cs[k].parsed.None? {
        return Err("not a write command");
      }
      var command := cs[k].parsed.value;
      if |facts| + |command.facts| > MAX_FACTS {
        return Err("fact count");
      }
      var ok, now := AcceptCommand(seen, command.facts, facts);
      if !ok {
        PrefixRepeats(facts + command.facts, Flatten(AllFacts(cs)));
        return Err("repeated entity/attribute/value");
      }
      if command.isRetract {
        retracted := retracted + |command.facts|;
      } else {
        transacted := transacted + |command.facts|;
      }
      facts, seen := facts + command.facts, now;
    }
    assert cs[..|cs|] == cs;
    if facts == [] {
      return Err("no facts");
    }
    CountsAddUp(cs);
    r := Ok(AtomicWrite(facts, |cs|, transacted, retracted));
  }

  // ── The transaction object ─────────────────────────────────────────────────

  /** The staged facts before sentinel starts are resolved. */
  function MarkAll(cmds: seq<seq<Fact>>, ids: seq<nat>, count: nat): seq<Fact>
    requires |ids| == |cmds|
  {
    if cmds == [] then [] else Restamp(cmds[0], count, ids[0]) + MarkAll(cmds[1..], ids[1..], count + 1)
  }

  /** Resolving each staged fact by its own staged time. */
  function ResolveAll(fs: seq<Fact>): (r: seq<Fact>)
    ensures |r| == |fs|
    ensures forall i :: 0 <= i < |fs| ==> r[i] == Stamp(fs[i], fs[i].txCount, fs[i].txId)
  {
    seq(|fs|, i requires 0 <= i < |fs| => Stamp(fs[i], fs[i].txCount, fs[i].txId))
  }

  lemma {:induction false} ResolveMarked(cmds: seq<seq<Fact>>, ids: seq<nat>, count: nat)
    requires |ids| == |cmds|
    ensures ResolveAll(MarkAll(cmds, ids, count)) == StageAll(cmds, ids, count)
    decreases cmds
  {
    if cmds != [] {
      ResolveMarked(cmds[1..], ids[1..], count + 1);
      var first, rest := Restamp(cmds[0], count, ids[0]), MarkAll(cmds[1..], ids[1..], count + 1);
      assert ResolveAll(first + rest) == ResolveAll(first) + ResolveAll(rest);
      assert ResolveAll(first) == StampAll(cmds[0], count, ids[0]);
    }
  }

  lemma {:induction false} StampMarked(cmds: seq<seq<Fact>>, ids: seq<nat>, count: nat, tx: nat, now: nat)
    requires |ids| == |cmds|
    ensures StampAll(MarkAll(cmds, ids, count), tx, now) == StampAll(Flatten(cmds), tx, now)
    decreases cmds
  {
    if cmds != [] {
      StampMarked(cmds[1..], ids[1..], count + 1, tx, now);
      var first, rest := Restamp(cmds[0], count, ids[0]), MarkAll(cmds[1..], ids[1..], count + 1);
      assert StampAll(first + rest, tx, now) == StampAll(first, tx, now) + StampAll(rest, tx, now);
      assert StampAll(cmds[0] + Flatten(cmds[1..]), tx, now) == StampAll(cmds[0], tx, now) + StampAll(Flatten(cmds[1..]), tx, now);
      assert StampAll(first, tx, now) == StampAll(cmds[0], tx, now);
    }
  }

  lemma {:induction false} MarkSnoc(cmds: seq<seq<Fact>>, ids: seq<nat>, count: nat, command: seq<Fact>, id: nat)
    requires |ids| == |cmds|
    ensures MarkAll(cmds + [command], ids + [id], count) == MarkAll(cmds, ids, count) + Restamp(command, count + |cmds|, id)
    decreases cmds
  {
    if cmds == [] {
      assert cmds + [command] == [command] && ids + [id] == [id];
      assert [command][1..] == [] && [id][1..] == [];
    } else {
      MarkSnoc(cmds[1..], ids[1..], count + 1, command, id);
      assert (cmds + [command])[1..] == cmds[1..] + [command] && (ids + [id])[1..] == ids[1..] + [id];
    }
  }

  /** `WriteTransaction`: holds the write lock, so the committed log does not move under it. */
  class WriteTransaction {
    const log: seq<Fact>
    const counter: nat
    var pendingFacts: seq<Fact>
    var nextCount: nat
    var nextId: nat
    ghost var cmds: seq<seq<Fact>>
    ghost var ids: seq<nat>

    ghost predicate Valid()
      reads this
    {
      && |ids| == |cmds|
      && nextCount == counter + 1 + |cmds|
      && pendingFacts == MarkAll(cmds, ids, counter + 1)
      && (forall i :: 0 <= i < |ids| ==> ids[i] < nextId)
      && (forall i, j :: 0 <= i < j < |ids| ==> ids[i] < ids[j])
    }

    /** `begin_write`. */
    constructor (log: seq<Fact>, counter: nat, now: nat)
      ensures Valid() && this.log == log && this.counter == counter && cmds == []
    {
      this.log, this.counter := log, counter;
      pendingFacts, nextCount, nextId := [], counter + 1, now;
      cmds, ids := [], [];
    }

    /** `stage_pending_facts`: one synthetic count per command, times strictly increasing. */
    method Stage(facts: seq<Fact>, now: nat)
      requires Valid()
      modifies this
      ensures Valid() && cmds == old(cmds) + [facts] && |ids| == |cmds| && ids[..|ids| - 1] == old(ids)
      ensures ids[|ids| - 1] == if now < old(nextId) then old(nextId) else now
    {
      var id := if now < nextId then nextId else now;
      MarkSnoc(cmds, ids, counter + 1, facts, id);
      pendingFacts := pendingFacts + Restamp(facts, nextCount, id);
      cmds, ids := cmds + [facts], ids + [id];
      nextId, nextCount := id + 1, nextCount + 1;
    }

    /** `merged_query_facts`: what a query inside the transaction runs over. */
    method MergedQueryFacts() returns (merged: seq<Fact>)
      requires Valid()
      ensures merged == ReadInside(log, cmds, ids, counter + 1)
    {
      ResolveMarked(cmds, ids, counter + 1);
      merged := log + ResolveAll(pendingFacts);
    }

    /** `commit` up to the WAL write: every staged fact under one count and one time. */
    method Commit(now: nat) returns (stamped: seq<Fact>)
      requires Valid()
      modifies this
      ensures log + stamped == AfterCommit(log, old(cmds), counter + 1, now)
      ensures pendingFacts == []
    {
      StampMarked(cmds, ids, counter + 1, counter + 1, now);
      stamped := StampAll(pendingFacts, counter + 1, now);
      pendingFacts := [];
    }
  }
}
