/**
 The append-only fact ledger: facts, valid-time windows, retraction semantics and
 transaction-time snapshots.

 A log is a sequence of facts. Nothing is ever removed from it; which windows are in force
 is decided by transaction counts alone.
 */
module Ledger {
  import opened Sequences

  /** `i64::MIN`: an assertion without an explicit start, replaced by the transaction time. */
  const USE_TX_TIME: int := -0x8000_0000_0000_0000
  /** `i64::MIN + 1`: with an open end, marks a retraction of every window of a triple. */
  const RETRACT_ALL_FROM: int := -0x7FFF_FFFF_FFFF_FFFF
  /** `i64::MAX`: an open-ended window. */
  const FOREVER: int := 0x7FFF_FFFF_FFFF_FFFF

  /** Stored values; floats enter by their canonical bits, which is how the ledger compares them. */
  datatype Value =
    | Text(text: string)
    | Integer(number: int)
    | Float(bits: nat)
    | Boolean(truth: bool)
    | Ref(target: nat)
    | Keyword(name: string)
    | Null

  datatype Triple = Triple(entity: nat, attribute: string, value: Value)

  datatype Fact = Fact(triple: Triple, txId: nat, txCount: nat, from: int, to: int, asserted: bool)

  /** One exact valid-time interval `[from, to)` of a triple. */
  datatype Window = Window(triple: Triple, from: int, to: int)

  function KeyOf(f: Fact): Window {
    Window(f.triple, f.from, f.to)
  }

  /** A retraction that cancels every window of its triple. */
  predicate Unscoped(f: Fact) {
    !f.asserted && f.from == RETRACT_ALL_FROM && f.to == FOREVER
  }

  /** Retraction `f` applies to window `w`. */
  predicate Cancels(f: Fact, w: Window) {
    && !f.asserted
    && f.triple == w.triple
    && (Unscoped(f) || KeyOf(f) == w)
  }

  predicate Contains(w: Window, at: int) {
    w.from <= at < w.to
  }

  /** Fact `a` of the log asserts `w` and is newer than every retraction of `w`. */
  ghost predicate Upholds(log: seq<Fact>, a: Fact, w: Window) {
    && a in log
    && a.asserted
    && KeyOf(a) == w
    && a.txCount > 0
    && forall r :: r in log && Cancels(r, w) ==> r.txCount < a.txCount
  }

  /** Window `w` is in force: some assertion of it is newer than every retraction of it. */
  ghost predicate Net(log: seq<Fact>, w: Window) {
    exists a :: Upholds(log, a, w)
  }

  ghost predicate Visible(log: seq<Fact>, t: Triple, at: int) {
    exists w :: Net(log, w) && w.triple == t && Contains(w, at)
  }

  /** Some window of the triple is in force, whatever its extent. */
  ghost predicate Live(log: seq<Fact>, t: Triple) {
    exists w :: Net(log, w) && w.triple == t
  }

  ghost predicate SameFacts(a: seq<Fact>, b: seq<Fact>) {
    forall f :: f in a <==> f in b
  }

  /** Only which facts a log holds matters, not their order or multiplicity. */
  lemma NetIgnoresOrder(a: seq<Fact>, b: seq<Fact>, w: Window)
    requires SameFacts(a, b)
    ensures Net(a, w) == Net(b, w)
  {
    if Net(a, w) {
      var f :| Upholds(a, f, w);
      assert Upholds(b, f, w);
    }
    if Net(b, w) {
      var f :| Upholds(b, f, w);
      assert Upholds(a, f, w);
    }
  }

  ghost predicate SameFactsOf(a: seq<Fact>, b: seq<Fact>, t: Triple) {
    forall f: Fact :: f.triple == t ==> (f in a <==> f in b)
  }

  /** The windows of a triple depend only on the facts of that triple. */
  lemma NetIsLocal(a: seq<Fact>, b: seq<Fact>, w: Window)
    requires SameFactsOf(a, b, w.triple)
    ensures Net(a, w) == Net(b, w)
  {
    if Net(a, w) {
      var f :| Upholds(a, f, w);
      assert Upholds(b, f, w);
    }
    if Net(b, w) {
      var f :| Upholds(b, f, w);
      assert Upholds(a, f, w);
    }
  }

  // ── Transaction-time snapshots ─────────────────────────────────────────────

  /** `:as-of n` keeps the facts with `tx_count <= n`. */
  function AsOf(log: seq<Fact>, n: nat): (s: seq<Fact>)
    ensures forall f :: f in s <==> f in log && f.txCount <= n
  {
    if log == [] then []
    else
      (if log[0].txCount <= n then [log[0]] else []) + AsOf(log[1..], n)
  }

  lemma {:induction false} AsOfConcat(a: seq<Fact>, b: seq<Fact>, n: nat)
    ensures AsOf(a + b, n) == AsOf(a, n) + AsOf(b, n)
  {
    if a == [] {
      assert a + b == b;
    } else {
      AsOfConcat(a[1..], b, n);
      assert (a + b)[1..] == a[1..] + b;
      Regroup(if a[0].txCount <= n then [a[0]] else [], AsOf(a[1..], n), AsOf(b, n));
    }
  }

  lemma {:induction false} AsOfNone(log: seq<Fact>, n: nat)
    requires forall f :: f in log ==> f.txCount > n
    ensures AsOf(log, n) == []
  {
    if log != [] {
      AsOfNone(log[1..], n);
    }
  }

  lemma {:induction false} AsOfAll(log: seq<Fact>, n: nat)
    requires forall f :: f in log ==> f.txCount <= n
    ensures AsOf(log, n) == log
  {
    if log != [] {
      AsOfAll(log[1..], n);
    }
  }

  // ── Stamping and loading ───────────────────────────────────────────────────

  /** Stamping replaces the count and time, and a start left open by the writer. */
  function Stamp(f: Fact, txCount: nat, txId: nat): Fact {
    f.(txCount := txCount, txId := txId, from := if f.from == USE_TX_TIME then txId else f.from)
  }

  /** Count and time alone: windows stay as they are, sentinel starts included. */
  function Restamp(fs: seq<Fact>, tx: nat, now: nat): (r: seq<Fact>)
    ensures |r| == |fs|
    ensures forall i :: 0 <= i < |fs| ==> r[i] == fs[i].(txCount := tx, txId := now)
  {
    seq(|fs|, i requires 0 <= i < |fs| => fs[i].(txCount := tx, txId := now))
  }

  function StampAll(fs: seq<Fact>, txCount: nat, txId: nat): (r: seq<Fact>)
    ensures |r| == |fs|
    ensures forall i :: 0 <= i < |fs| ==> r[i] == Stamp(fs[i], txCount, txId)
  {
    seq(|fs|, i requires 0 <= i < |fs| => Stamp(fs[i], txCount, txId))
  }

  /** `load_fact` ignores a fact the pending log already holds. */
  function Load(log: seq<Fact>, f: Fact): seq<Fact> {
    if f in log then log else log + [f]
  }

  function LoadAll(log: seq<Fact>, fs: seq<Fact>): seq<Fact>
    decreases fs
  {
    if fs == [] then log else LoadAll(Load(log, fs[0]), fs[1..])
  }

  // ── The net-asserted view ──────────────────────────────────────────────────

  function RaiseMax<K>(m: map<K, nat>, k: K, n: nat): map<K, nat> {
    if k in m && m[k] >= n then m else m[k := n]
  }

  function Lookup<K>(m: map<K, nat>, k: K): nat {
    if k in m then m[k] else 0
  }

  ghost predicate UnscopedMaxima(fs: seq<Fact>, m: map<Triple, nat>) {
    && (forall f :: f in fs && Unscoped(f) ==> f.triple in m && f.txCount <= m[f.triple])
    && (forall t :: t in m ==> exists f :: f in fs && Unscoped(f) && f.triple == t && f.txCount == m[t])
  }

  ghost predicate ScopedMaxima(fs: seq<Fact>, m: map<Window, nat>) {
    && (forall f :: f in fs && !f.asserted && !Unscoped(f) ==> KeyOf(f) in m && f.txCount <= m[KeyOf(f)])
    && (forall w :: w in m ==> exists f :: f in fs && !f.asserted && !Unscoped(f) && KeyOf(f) == w && f.txCount == m[w])
  }

  /** `m` names, for every asserted window of the first `n` facts, one of its newest assertions. */
  ghost predicate Winners(fs: seq<Fact>, n: nat, m: map<Window, nat>)
    requires n <= |fs|
  {
    && (forall w :: w in m ==> m[w] < n && fs[m[w]].asserted && KeyOf(fs[m[w]]) == w)
    && (forall i :: 0 <= i < n && fs[i].asserted ==> KeyOf(fs[i]) in m && fs[i].txCount <= fs[m[KeyOf(fs[i])]].txCount)
  }

  lemma UnscopedMaximaStep(fs: seq<Fact>, m: map<Triple, nat>, f: Fact)
    requires UnscopedMaxima(fs, m)
    ensures UnscopedMaxima(fs + [f], NextUnscoped(m, f))
  {
    var m' := NextUnscoped(m, f);
    forall t | t in m'
      ensures exists g :: g in fs + [f] && Unscoped(g) && g.triple == t && g.txCount == m'[t]
    {
      if t in m && m[t] == m'[t] {
        var g :| g in fs && Unscoped(g) && g.triple == t && g.txCount == m[t];
        assert g in fs + [f];
      } else {
        assert f in fs + [f];
      }
    }
  }

  lemma ScopedMaximaStep(fs: seq<Fact>, m: map<Window, nat>, f: Fact)
    requires ScopedMaxima(fs, m)
    ensures ScopedMaxima(fs + [f], NextScoped(m, f))
  {
    var m' := NextScoped(m, f);
    forall w | w in m'
      ensures exists g :: g in fs + [f] && !g.asserted && !Unscoped(g) && KeyOf(g) == w && g.txCount == m'[w]
    {
      if w in m && m[w] == m'[w] {
        var g :| g in fs && !g.asserted && !Unscoped(g) && KeyOf(g) == w && g.txCount == m[w];
        assert g in fs + [f];
      } else {
        assert f in fs + [f];
      }
    }
  }

  /** What the three tables decide about one assertion is whether it is upheld. */
  lemma TablesDecide(fs: seq<Fact>, unscoped: map<Triple, nat>, scoped: map<Window, nat>, a: Fact)
    requires UnscopedMaxima(fs, unscoped) && ScopedMaxima(fs, scoped)
    requires a in fs && a.asserted
    ensures Upholds(fs, a, KeyOf(a)) <==>
            a.txCount > Lookup(unscoped, a.triple) && a.txCount > Lookup(scoped, KeyOf(a))
  {
    var w := KeyOf(a);
    if a.triple in unscoped {
      var r :| r in fs && Unscoped(r) && r.triple == a.triple && r.txCount == unscoped[a.triple];
      assert Cancels(r, w);
    }
    if w in scoped {
      var r :| r in fs && !r.asserted && !Unscoped(r) && KeyOf(r) == w && r.txCount == scoped[w];
      assert Cancels(r, w);
    }
  }

  ghost predicate Tables(fs: seq<Fact>, n: nat, unscoped: map<Triple, nat>, scoped: map<Window, nat>, byWindow: map<Window, nat>)
  {
    && n <= |fs|
    && UnscopedMaxima(fs[..n], unscoped)
    && ScopedMaxima(fs[..n], scoped)
    && Winners(fs, n, byWindow)
  }

  function NextUnscoped(m: map<Triple, nat>, f: Fact): map<Triple, nat> {
    if Unscoped(f) then RaiseMax(m, f.triple, f.txCount) else m
  }

  function NextScoped(m: map<Window, nat>, f: Fact): map<Window, nat> {
    if !f.asserted && !Unscoped(f) then RaiseMax(m, KeyOf(f), f.txCount) else m
  }

  function NextWinner(fs: seq<Fact>, n: nat, m: map<Window, nat>): map<Window, nat>
    requires n < |fs| && Winners(fs, n, m)
  {
    var f := fs[n];
    if f.asserted && (KeyOf(f) !in m || f.txCount > fs[m[KeyOf(f)]].txCount) then m[KeyOf(f) := n] else m
  }

  lemma WinnersStep(fs: seq<Fact>, n: nat, m: map<Window, nat>)
    requires n < |fs| && Winners(fs, n, m)
    ensures Winners(fs, n + 1, NextWinner(fs, n, m))
  {}

  lemma TablesStep(fs: seq<Fact>, n: nat, unscoped: map<Triple, nat>, scoped: map<Window, nat>, byWindow: map<Window, nat>)
    requires n < |fs| && Tables(fs, n, unscoped, scoped, byWindow)
    ensures Tables(fs, n + 1, NextUnscoped(unscoped, fs[n]), NextScoped(scoped, fs[n]), NextWinner(fs, n, byWindow))
  {
    hide UnscopedMaxima, ScopedMaxima, Winners, NextUnscoped, NextScoped, NextWinner;
    UnscopedMaximaStep(fs[..n], unscoped, fs[n]);
    ScopedMaximaStep(fs[..n], scoped, fs[n]);
    WinnersStep(fs, n, byWindow);
    assert fs[..n + 1] == fs[..n] + [fs[n]];
  }

  /** `kept` holds one representative, of the highest count, for every window in force. */
  ghost predicate NetView(facts: seq<Fact>, kept: seq<Fact>) {
    && (forall w :: Net(facts, w) <==> exists f :: f in kept && KeyOf(f) == w)
    && (forall i, j :: 0 <= i < j < |kept| ==> KeyOf(kept[i]) != KeyOf(kept[j]))
    && (forall f, a :: f in kept && a in facts && a.asserted && KeyOf(a) == KeyOf(f) ==> a.txCount <= f.txCount)
    && (forall f :: f in kept ==> Upholds(facts, f, KeyOf(f)))
  }

  /** First pass of `net_asserted_facts`: the three tables. */
  method BuildTables(facts: seq<Fact>)
    returns (unscoped: map<Triple, nat>, scoped: map<Window, nat>, byWindow: map<Window, nat>)
    ensures Tables(facts, |facts|, unscoped, scoped, byWindow)
  {
    unscoped, scoped, byWindow := map[], map[], map[];
    for index := 0 to |facts|
      invariant Tables(facts, index, unscoped, scoped, byWindow)
    {
      TablesStep(facts, index, unscoped, scoped, byWindow);
      byWindow := NextWinner(facts, index, byWindow);
      unscoped := NextUnscoped(unscoped, facts[index]);
      scoped := NextScoped(scoped, facts[index]);
    }
  }

  /** `net_asserted_facts`: the windows in force, each by its newest assertion, in log order. */
  method NetAssertedFacts(facts: seq<Fact>) returns (kept: seq<Fact>)
    ensures NetView(facts, kept)
  {
    var unscoped, scoped, byWindow := BuildTables(facts);
    kept := [];
    ghost var origin: seq<nat> := [];
    for index := 0 to |facts|
      invariant Selected(facts, unscoped, scoped, byWindow, index, kept, origin)
    {
      SelectedStep(facts, unscoped, scoped, byWindow, index, kept, origin);
      if Keeps(facts, unscoped, scoped, byWindow, index) {
        kept, origin := kept + [facts[index]], origin + [index];
      }
    }
    SelectedIsNetView(facts, unscoped, scoped, byWindow, kept, origin);
  }

  predicate Keeps(facts: seq<Fact>, unscoped: map<Triple, nat>, scoped: map<Window, nat>, byWindow: map<Window, nat>, i: nat)
    requires i < |facts|
  {
    var f := facts[i];
    && f.asserted
    && KeyOf(f) in byWindow && byWindow[KeyOf(f)] == i
    && f.txCount > Lookup(unscoped, f.triple)
    && f.txCount > Lookup(scoped, KeyOf(f))
  }

  /** `kept` lists, in log order, exactly the kept facts among the first `n`; `origin` says where from. */
  ghost predicate Selected(facts: seq<Fact>, unscoped: map<Triple, nat>, scoped: map<Window, nat>, byWindow: map<Window, nat>,
                           n: nat, kept: seq<Fact>, origin: seq<nat>)
  {
    && n <= |facts|
    && |origin| == |kept|
    && (forall k :: 0 <= k < |kept| ==> origin[k] < n && kept[k] == facts[origin[k]]
                                        && Keeps(facts, unscoped, scoped, byWindow, origin[k]))
    && (forall i, j :: 0 <= i < j < |origin| ==> origin[i] < origin[j])
    && (forall i :: 0 <= i < n && Keeps(facts, unscoped, scoped, byWindow, i) ==> i in origin)
  }

  lemma SelectedStep(facts: seq<Fact>, unscoped: map<Triple, nat>, scoped: map<Window, nat>, byWindow: map<Window, nat>,
                     n: nat, kept: seq<Fact>, origin: seq<nat>)
    requires n < |facts| && Selected(facts, unscoped, scoped, byWindow, n, kept, origin)
    ensures if Keeps(facts, unscoped, scoped, byWindow, n)
            then Selected(facts, unscoped, scoped, byWindow, n + 1, kept + [facts[n]], origin + [n])
            else Selected(facts, unscoped, scoped, byWindow, n + 1, kept, origin)
  {
    assert n in origin + [n];
    assert forall i :: i in origin ==> i in origin + [n];
  }

  lemma KeptWindows(facts: seq<Fact>, unscoped: map<Triple, nat>, scoped: map<Window, nat>, byWindow: map<Window, nat>,
                    kept: seq<Fact>, origin: seq<nat>, w: Window)
    requires Tables(facts, |facts|, unscoped, scoped, byWindow)
    requires Selected(facts, unscoped, scoped, byWindow, |facts|, kept, origin)
    ensures Net(facts, w) <==> exists f :: f in kept && KeyOf(f) == w
  {
    hide Net, UnscopedMaxima, ScopedMaxima;
    assert facts[..|facts|] == facts;
    SurvivorsAreNet(facts, unscoped, scoped, byWindow, w);
    if Net(facts, w) {
      var k :| 0 <= k < |origin| && origin[k] == byWindow[w];
      assert kept[k] in kept;
    }
  }

  lemma SelectedIsNetView(facts: seq<Fact>, unscoped: map<Triple, nat>, scoped: map<Window, nat>, byWindow: map<Window, nat>,
                          kept: seq<Fact>, origin: seq<nat>)
    requires Tables(facts, |facts|, unscoped, scoped, byWindow)
    requires Selected(facts, unscoped, scoped, byWindow, |facts|, kept, origin)
    ensures NetView(facts, kept)
  {
    hide Net, UnscopedMaxima, ScopedMaxima, Upholds;
    assert facts[..|facts|] == facts;
    forall w
      ensures Net(facts, w) <==> exists f :: f in kept && KeyOf(f) == w
    {
      KeptWindows(facts, unscoped, scoped, byWindow, kept, origin, w);
    }
    forall f | f in kept
      ensures Upholds(facts, f, KeyOf(f))
    {
      TablesDecide(facts, unscoped, scoped, f);
    }
    forall f, a | f in kept && a in facts && a.asserted && KeyOf(a) == KeyOf(f)
      ensures a.txCount <= f.txCount
    {
      var i :| 0 <= i < |facts| && facts[i] == a;
      assert facts[i].txCount <= facts[byWindow[KeyOf(a)]].txCount;
    }
  }

  lemma SurvivorsAreNet(facts: seq<Fact>, unscoped: map<Triple, nat>, scoped: map<Window, nat>, byWindow: map<Window, nat>, w: Window)
    requires UnscopedMaxima(facts, unscoped) && ScopedMaxima(facts, scoped) && Winners(facts, |facts|, byWindow)
    ensures Net(facts, w) <==> w in byWindow && Keeps(facts, unscoped, scoped, byWindow, byWindow[w])
  {
    forall a | Upholds(facts, a, w)
      ensures w in byWindow && Upholds(facts, facts[byWindow[w]], w)
    {
      var i :| 0 <= i < |facts| && facts[i] == a;
      assert facts[i].asserted;
    }
    if w in byWindow {
      TablesDecide(facts, unscoped, scoped, facts[byWindow[w]]);
    }
  }
}
