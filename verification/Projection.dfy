/**
 Persisted projections and the resident tail above them: an image of one attribute at an older
 transaction, plus replacement rows for every entity touched since.
 */
module Projection {
  import opened Bytes
  import opened Ledger
  import opened Diff
  import opened DiffScan
  import opened Sequences
  import opened Aggregates
  import opened Groups
  import opened Cursors

  const TAIL_MAX_FACTS: nat := 65_536
  const TAIL_MAX_HISTORY: nat := 65_536
  const TAIL_MAX_REPLACEMENTS: nat := 65_536

  /** The publication an image belongs to. */
  datatype Identity = Identity(base: nat, manifest: nat, txCount: nat)

  /** Which rows an image or an overlay stands for. */
  datatype Subject = Subject(identity: Identity, attribute: string, floor: int)

  /** Replacement rows, by entity in id order. */
  datatype Overlay = Overlay(subject: Subject, txCount: nat, replacements: seq<EntityGroup>)

  // ── What images and overlays promise ───────────────────────────────────────

  /** The windows are those in force of one entity that end past the floor, each listed once. */
  ghost predicate ListsPast(log: seq<Fact>, e: nat, attribute: string, floor: int, windows: seq<Interval>) {
    && Distinct(windows)
    && forall i: Interval :: i in windows <==> i.to > floor && Net(log, Window(Triple(e, attribute, i.value), i.from, i.to))
  }

  /** An image built at its identity's transaction. */
  ghost predicate Faithful(log: seq<Fact>, subject: Subject, image: seq<EntityGroup>) {
    && InOrder(image)
    && forall e: nat :: ListsPast(AsOf(log, subject.identity.txCount), e, subject.attribute, subject.floor, WindowsIn(image, e))
  }

  /** The image keeps the windows that end past its floor. */
  function Floored(groups: seq<EntityGroup>, floor: int): (r: seq<EntityGroup>)
    ensures |r| == |groups|
    ensures forall i :: 0 <= i < |r| ==> r[i] == EntityGroup(groups[i].entity, PastFloor(groups[i].windows, floor))
  {
    seq(|groups|, i requires 0 <= i < |groups| => EntityGroup(groups[i].entity, PastFloor(groups[i].windows, floor)))
  }

  /** The image was built by the attribute cursor over an index of the log at its transaction. */
  ghost predicate Built(log: seq<Fact>, subject: Subject, image: seq<EntityGroup>) {
    exists index :: Indexes(index, AsOf(log, subject.identity.txCount))
                    && image == Floored(Listing(index, subject.identity.txCount, subject.attribute, 0), subject.floor)
  }

  lemma {:induction false} FlooredLookup(groups: seq<EntityGroup>, floor: int, e: nat)
    ensures WindowsIn(Floored(groups, floor), e) == PastFloor(WindowsIn(groups, e), floor)
  {
    if groups != [] {
      FlooredLookup(groups[1..], floor, e);
      assert Floored(groups, floor)[1..] == Floored(groups[1..], floor);
    }
  }

  lemma AsOfTwice(log: seq<Fact>, n: nat, m: nat)
    requires n <= m
    ensures forall f :: f in AsOf(AsOf(log, m), n) <==> f in AsOf(log, n)
  {}

  /** An image built where nothing strays holds exactly the attribute's windows past its floor. */
  lemma BuiltIsFaithful(log: seq<Fact>, subject: Subject, image: seq<EntityGroup>)
    requires subject.attribute != "" && Built(log, subject, image)
    requires StrayFree(AsOf(log, subject.identity.txCount), subject.attribute)
    ensures Faithful(log, subject, image)
  {
    hide Listing, Stray, Indexes, Net;
    var n, a := subject.identity.txCount, subject.attribute;
    var index :| Indexes(index, AsOf(log, n)) && image == Floored(Listing(index, n, a, 0), subject.floor);
    var groups := Listing(index, n, a, 0);
    AsOfTwice(log, n, n);
    StrayFreeIsServed(index, AsOf(log, n), n, a, 0);
    forall e: nat
      ensures ListsPast(AsOf(log, n), e, a, subject.floor, WindowsIn(image, e))
    {
      FlooredLookup(groups, subject.floor, e);
      assert ListsAll(AsOf(AsOf(log, n), n), e, a, WindowsIn(groups, e));
      PastFloorLists(log, n, e, a, subject.floor, WindowsIn(groups, e));
    }
  }

  lemma PastFloorLists(log: seq<Fact>, n: nat, e: nat, attribute: string, floor: int, windows: seq<Interval>)
    requires ListsAll(AsOf(AsOf(log, n), n), e, attribute, windows)
    ensures ListsPast(AsOf(log, n), e, attribute, floor, PastFloor(windows, floor))
  {
    hide Net;
    AsOfTwice(log, n, n);
    PastFloorDistinct(windows, floor);
    forall i: Interval
      ensures Net(AsOf(AsOf(log, n), n), Window(Triple(e, attribute, i.value), i.from, i.to)) <==>
              Net(AsOf(log, n), Window(Triple(e, attribute, i.value), i.from, i.to))
    {
      NetIgnoresOrder(AsOf(AsOf(log, n), n), AsOf(log, n), Window(Triple(e, attribute, i.value), i.from, i.to));
    }
  }

  lemma EarlierIsStrayFree(log: seq<Fact>, n: nat, m: nat, attribute: string)
    requires n <= m && StrayFree(AsOf(log, m), attribute)
    ensures StrayFree(AsOf(log, n), attribute)
  {
    hide Stray;
  }

  /** Some fact of the entity's attribute was written after `since` and no later than `upTo`. */
  ghost predicate Touched(log: seq<Fact>, attribute: string, since: nat, upTo: nat, e: nat) {
    exists f :: f in log && f.triple.entity == e && f.triple.attribute == attribute && since < f.txCount <= upTo
  }

  /** The overlay replaces every entity touched since the image, by its windows at the overlay's transaction. */
  ghost predicate Current(log: seq<Fact>, o: Overlay) {
    && o.subject.identity.txCount <= o.txCount
    && InOrder(o.replacements)
    && (forall e: nat :: Touched(log, o.subject.attribute, o.subject.identity.txCount, o.txCount, e) ==> WindowsFor(o.replacements, e).Some?)
    && (forall e: nat :: WindowsFor(o.replacements, e).Some? ==>
          ListsPast(AsOf(log, o.txCount), e, o.subject.attribute, o.subject.floor, WindowsFor(o.replacements, e).value))
  }

  function EmptyOverlay(subject: Subject): Overlay {
    Overlay(subject, subject.identity.txCount, [])
  }

  lemma EmptyIsCurrent(log: seq<Fact>, subject: Subject)
    ensures Current(log, EmptyOverlay(subject))
  {}

  /** An entity nobody touched has the same windows at both transactions. */
  lemma UntouchedWindows(log: seq<Fact>, attribute: string, since: nat, upTo: nat, e: nat, w: Window)
    requires since <= upTo && !Touched(log, attribute, since, upTo, e) && w.triple.entity == e && w.triple.attribute == attribute
    ensures Net(AsOf(log, since), w) == Net(AsOf(log, upTo), w)
  {
    NetIsLocal(AsOf(log, since), AsOf(log, upTo), w);
  }

  lemma UntouchedLists(log: seq<Fact>, attribute: string, since: nat, upTo: nat, e: nat, floor: int, windows: seq<Interval>)
    requires since <= upTo && !Touched(log, attribute, since, upTo, e)
    requires ListsPast(AsOf(log, since), e, attribute, floor, windows)
    ensures ListsPast(AsOf(log, upTo), e, attribute, floor, windows)
  {
    hide Net, AsOf, Touched;
    forall i: Interval
      ensures i in windows <==> i.to > floor && Net(AsOf(log, upTo), Window(Triple(e, attribute, i.value), i.from, i.to))
    {
      UntouchedWindows(log, attribute, since, upTo, e, Window(Triple(e, attribute, i.value), i.from, i.to));
    }
  }

  /** Later transactions do not disturb an overlay. */
  lemma OverlaySurvivesWrites(log: seq<Fact>, more: seq<Fact>, o: Overlay)
    requires Current(log, o) && forall f :: f in more ==> f.txCount > o.txCount
    ensures Current(log + more, o)
  {
    hide Net;
    AsOfConcat(log, more, o.txCount);
    AsOfNone(more, o.txCount);
    assert AsOf(log, o.txCount) + [] == AsOf(log, o.txCount);
    forall e: nat | Touched(log + more, o.subject.attribute, o.subject.identity.txCount, o.txCount, e)
      ensures Touched(log, o.subject.attribute, o.subject.identity.txCount, o.txCount, e)
    {}
  }

  // ── Rows at an instant ─────────────────────────────────────────────────────

  function HitsAt(e: nat, windows: seq<Interval>, at: int): seq<Hit> {
    if windows == [] then []
    else (if At(windows[0], at) then [Hit(e, windows[0].value)] else []) + HitsAt(e, windows[1..], at)
  }

  function HitsOf(groups: seq<EntityGroup>, at: int): seq<Hit> {
    if groups == [] then [] else HitsAt(groups[0].entity, groups[0].windows, at) + HitsOf(groups[1..], at)
  }

  /** Base rows that the overlay does not replace. */
  function Kept(hits: seq<Hit>, replacements: seq<EntityGroup>): seq<Hit> {
    if hits == [] then []
    else
      var n := |hits| - 1;
      Kept(hits[..n], replacements) + if WindowsFor(replacements, hits[n].entity).Some? then [] else [hits[n]]
  }

  ghost function Showing(windows: seq<Interval>, v: Value, at: int): set<Interval> {
    set i | i in windows && i.value == v && At(i, at)
  }

  lemma HeadIsFresh(windows: seq<Interval>)
    requires Distinct(windows) && windows != []
    ensures Distinct(windows[1..]) && windows[0] !in windows[1..]
    ensures forall w :: w in windows <==> w == windows[0] || w in windows[1..]
  {
    var rest := windows[1..];
    assert forall i :: 0 <= i < |rest| ==> rest[i] == windows[i + 1];
    assert windows == [windows[0]] + rest;
  }

  lemma ShowingOneMore(windows: seq<Interval>, v: Value, at: int)
    requires Distinct(windows) && windows != []
    ensures |Showing(windows, v, at)| == |Showing(windows[1..], v, at)| + if windows[0].value == v && At(windows[0], at) then 1 else 0
  {
    hide Distinct;
    HeadIsFresh(windows);
    var w, rest := windows[0], windows[1..];
    if w.value == v && At(w, at) {
      assert Showing(windows, v, at) == Showing(rest, v, at) + {w};
    } else {
      assert Showing(windows, v, at) == Showing(rest, v, at);
    }
  }

  /** A distinct listing yields a row once for each of its windows that shows the value. */
  lemma {:induction false} HitCount(e: nat, windows: seq<Interval>, at: int, h: Hit)
    requires Distinct(windows)
    ensures multiset(HitsAt(e, windows, at))[h] == if h.entity == e then |Showing(windows, h.value, at)| else 0
  {
    if windows == [] {
      assert Showing(windows, h.value, at) == {};
    } else {
      hide Showing, Distinct;
      HeadIsFresh(windows);
      ShowingOneMore(windows, h.value, at);
      HitCount(e, windows[1..], at, h);
    }
  }

  lemma {:induction false} GroupsCount(groups: seq<EntityGroup>, at: int, h: Hit)
    requires InOrder(groups) && forall i :: 0 <= i < |groups| ==> Distinct(groups[i].windows)
    ensures multiset(HitsOf(groups, at))[h] == |Showing(WindowsIn(groups, h.entity), h.value, at)|
  {
    if groups == [] {
      assert Showing([], h.value, at) == {};
    } else {
      var g, rest := groups[0], groups[1..];
      GroupsCount(rest, at, h);
      HitCount(g.entity, g.windows, at, h);
      if g.entity == h.entity {
        LookupMissing(rest, h.entity);
        assert Showing([], h.value, at) == {};
      }
    }
  }

  lemma {:induction false} KeptCount(hits: seq<Hit>, replacements: seq<EntityGroup>, h: Hit)
    ensures multiset(Kept(hits, replacements))[h] == if WindowsFor(replacements, h.entity).Some? then 0 else multiset(hits)[h]
  {
    if hits != [] {
      KeptCount(hits[..|hits| - 1], replacements, h);
      assert hits == hits[..|hits| - 1] + [hits[|hits| - 1]];
    }
  }

  /** A listing past the floor shows, at any later instant, what the full listing shows. */
  lemma SameShowing(log: seq<Fact>, e: nat, attribute: string, floor: int, past: seq<Interval>, all: seq<Interval>, v: Value, at: int)
    requires ListsPast(log, e, attribute, floor, past) && ListsAll(log, e, attribute, all) && floor <= at
    ensures Showing(past, v, at) == Showing(all, v, at)
  {
    hide Net;
    assert forall i :: i in Showing(past, v, at) <==> i in Showing(all, v, at);
  }

  /**
   Replacing the touched entities' image rows by overlay rows gives the ledger's rows: nothing lost,
   nothing counted twice.
   */
  lemma RoutedRowsAreLedgerRows(log: seq<Fact>, subject: Subject, image: seq<EntityGroup>, o: Overlay, ledger: seq<EntityGroup>, at: int)
    requires Faithful(log, subject, image) && Current(log, o) && o.subject == subject
    requires Served(log, o.txCount, subject.attribute, 0, ledger) && subject.floor <= at
    ensures multiset(Kept(HitsOf(image, at), o.replacements) + HitsOf(o.replacements, at)) == multiset(HitsOf(ledger, at))
  {
    hide Faithful, Current, HitsOf, Kept, Served;
    var base, over, whole := Kept(HitsOf(image, at), o.replacements), HitsOf(o.replacements, at), HitsOf(ledger, at);
    forall h
      ensures multiset(base)[h] + multiset(over)[h] == multiset(whole)[h]
    {
      OneRow(log, subject, image, o, ledger, at, h);
    }
    assert multiset(base + over) == multiset(base) + multiset(over);
  }

  lemma FaithfulCounts(log: seq<Fact>, subject: Subject, image: seq<EntityGroup>, at: int, h: Hit)
    requires Faithful(log, subject, image)
    ensures multiset(HitsOf(image, at))[h] == |Showing(WindowsIn(image, h.entity), h.value, at)|
  {
    hide HitsOf, Net, Showing;
    forall i | 0 <= i < |image|
      ensures Distinct(image[i].windows)
    {
      LookupAt(image, i);
      assert WindowsIn(image, image[i].entity) == image[i].windows;
    }
    GroupsCount(image, at, h);
  }

  lemma ServedCounts(log: seq<Fact>, n: nat, attribute: string, ledger: seq<EntityGroup>, at: int, h: Hit)
    requires Served(log, n, attribute, 0, ledger)
    ensures multiset(HitsOf(ledger, at))[h] == |Showing(WindowsIn(ledger, h.entity), h.value, at)|
  {
    hide HitsOf, Lists, Showing;
    forall i | 0 <= i < |ledger|
      ensures Distinct(ledger[i].windows)
    {
      LookupAt(ledger, i);
      assert WindowsIn(ledger, ledger[i].entity) == ledger[i].windows;
    }
    GroupsCount(ledger, at, h);
  }

  lemma CurrentCounts(log: seq<Fact>, o: Overlay, at: int, h: Hit)
    requires Current(log, o)
    ensures multiset(HitsOf(o.replacements, at))[h] == |Showing(WindowsIn(o.replacements, h.entity), h.value, at)|
  {
    hide HitsOf, Net, Showing;
    forall i | 0 <= i < |o.replacements|
      ensures Distinct(o.replacements[i].windows)
    {
      LookupAt(o.replacements, i);
    }
    GroupsCount(o.replacements, at, h);
  }

  lemma OneRow(log: seq<Fact>, subject: Subject, image: seq<EntityGroup>, o: Overlay, ledger: seq<EntityGroup>, at: int, h: Hit)
    requires Faithful(log, subject, image) && Current(log, o) && o.subject == subject
    requires Served(log, o.txCount, subject.attribute, 0, ledger) && subject.floor <= at
    ensures multiset(Kept(HitsOf(image, at), o.replacements))[h] + multiset(HitsOf(o.replacements, at))[h] == multiset(HitsOf(ledger, at))[h]
  {
    hide HitsOf, Kept, ListsPast, ListsAll, Touched, AsOf;
    var e, a := h.entity, subject.attribute;
    KeptCount(HitsOf(image, at), o.replacements, h);
    FaithfulCounts(log, subject, image, at, h);
    CurrentCounts(log, o, at, h);
    ServedCounts(log, o.txCount, a, ledger, at, h);
    var truth := AsOf(log, o.txCount);
    assert ListsAll(truth, e, a, WindowsIn(ledger, e));
    if WindowsFor(o.replacements, e).Some? {
      SameShowing(truth, e, a, subject.floor, WindowsIn(o.replacements, e), WindowsIn(ledger, e), h.value, at);
    } else {
      UntouchedLists(log, a, subject.identity.txCount, o.txCount, e, subject.floor, WindowsIn(image, e));
      SameShowing(truth, e, a, subject.floor, WindowsIn(image, e), WindowsIn(ledger, e), h.value, at);
      assert Showing([], h.value, at) == {};
    }
  }

  // ── Refreshing the resident tail ───────────────────────────────────────────

  function PastFloor(windows: seq<Interval>, floor: int): (r: seq<Interval>)
    ensures forall i :: i in r <==> i in windows && i.to > floor
  {
    if windows == [] then []
    else (if windows[0].to > floor then [windows[0]] else []) + PastFloor(windows[1..], floor)
  }

  lemma {:induction false} PastFloorDistinct(windows: seq<Interval>, floor: int)
    requires Distinct(windows)
    ensures Distinct(PastFloor(windows, floor))
  {
    if windows != [] {
      assert forall i, j :: 0 <= i < j < |windows| - 1 ==> windows[1..][i] == windows[i + 1] && windows[1..][j] == windows[j + 1];
      PastFloorDistinct(windows[1..], floor);
      assert windows[0] !in windows[1..];
    }
  }

  /** What the entity cursor delivers for each entity at a transaction. */
  ghost predicate Exact(log: seq<Fact>, n: nat, attribute: string, exact: nat -> seq<Interval>) {
    forall e: nat :: ListsAll(AsOf(log, n), e, attribute, exact(e))
  }

  /** The entity cursor over an index. */
  function Reader(index: Index, n: nat, attribute: string): nat -> seq<Interval> {
    (e: nat) => EntityWindows(Held(index), n, e, attribute)
  }

  /** Over an index of the log, the entity cursor reads what it should, whatever other attributes the log holds. */
  lemma ReaderIsExact(index: Index, log: seq<Fact>, n: nat, attribute: string)
    requires Indexes(index, log)
    ensures Exact(log, n, attribute, Reader(index, n, attribute))
  {
    hide EntityWindows, ListsAll, Indexes;
    forall e: nat
      ensures ListsAll(AsOf(log, n), e, attribute, Reader(index, n, attribute)(e))
    {
      EntityWindowsAreTheLogs(index, log, n, e, attribute);
      EntityCursorIsExact(log, n, e, attribute);
    }
  }

  /** What a refresh reads for one touched entity. */
  function Replacement(exact: nat -> seq<Interval>, floor: int, e: nat): EntityGroup {
    EntityGroup(e, PastFloor(exact(e), floor))
  }

  lemma ReplacementLists(log: seq<Fact>, txCount: nat, subject: Subject, exact: nat -> seq<Interval>, e: nat)
    requires Exact(log, txCount, subject.attribute, exact)
    ensures ListsPast(AsOf(log, txCount), e, subject.attribute, subject.floor, Replacement(exact, subject.floor, e).windows)
  {
    hide Net, AsOf;
    assert ListsAll(AsOf(log, txCount), e, subject.attribute, exact(e));
    PastFloorDistinct(exact(e), subject.floor);
  }

  /** Put a replacement for each touched entity. */
  function Installed(replacements: seq<EntityGroup>, touched: seq<nat>, exact: nat -> seq<Interval>, floor: int): seq<EntityGroup> {
    if touched == [] then replacements
    else
      var n := |touched| - 1;
      Put(Installed(replacements, touched[..n], exact, floor), Replacement(exact, floor, touched[n]))
  }

  lemma {:induction false} InstalledFinds(replacements: seq<EntityGroup>, touched: seq<nat>, exact: nat -> seq<Interval>, floor: int, e: nat)
    requires InOrder(replacements)
    ensures var r := Installed(replacements, touched, exact, floor);
            && InOrder(r)
            && WindowsFor(r, e) == if e in touched then Some(Replacement(exact, floor, e).windows) else WindowsFor(replacements, e)
  {
    if touched != [] {
      var n := |touched| - 1;
      InstalledFinds(replacements, touched[..n], exact, floor, e);
      var front, g := Installed(replacements, touched[..n], exact, floor), Replacement(exact, floor, touched[n]);
      PutKeepsOrder(front, g, -1);
      PutFinds(front, g, e);
      assert touched == touched[..n] + [touched[n]];
    }
  }

  ghost predicate TouchedList(log: seq<Fact>, attribute: string, since: nat, upTo: nat, touched: seq<nat>) {
    forall e: nat :: e in touched <==> Touched(log, attribute, since, upTo, e)
  }

  /** Replacing what was touched since the overlay brings it to the target transaction. */
  lemma InstalledIsCurrent(log: seq<Fact>, o: Overlay, target: nat, touched: seq<nat>, exact: nat -> seq<Interval>)
    requires Current(log, o) && o.txCount <= target && Exact(log, target, o.subject.attribute, exact)
    requires TouchedList(log, o.subject.attribute, o.txCount, target, touched)
    ensures Current(log, Overlay(o.subject, target, Installed(o.replacements, touched, exact, o.subject.floor)))
  {
    hide ListsPast, Installed, Exact, AsOf, Replacement;
    var sub := o.subject;
    var r := Installed(o.replacements, touched, exact, sub.floor);
    InstalledFinds(o.replacements, touched, exact, sub.floor, 0);
    forall e: nat
      ensures Touched(log, sub.attribute, sub.identity.txCount, target, e) ==> WindowsFor(r, e).Some?
      ensures WindowsFor(r, e).Some? ==> ListsPast(AsOf(log, target), e, sub.attribute, sub.floor, WindowsFor(r, e).value)
    {
      InstalledFinds(o.replacements, touched, exact, sub.floor, e);
      if e in touched {
        ReplacementLists(log, target, sub, exact, e);
      } else if WindowsFor(o.replacements, e).Some? {
        UntouchedLists(log, sub.attribute, o.txCount, target, e, sub.floor, WindowsFor(o.replacements, e).value);
      } else {
        assert !Touched(log, sub.attribute, o.txCount, target, e);
        assert !Touched(log, sub.attribute, sub.identity.txCount, o.txCount, e);
      }
    }
  }

  datatype Refresh = Refreshed(overlay: Overlay, work: nat) | OverBudget

  /** What storage may do to a refresh: cost per entity, size of the result, a publication in between. */
  datatype TailIo = TailIo(entries: nat -> nat, tooManyBytes: bool, moved: bool)

  /** The facts of any attribute written after `since` and up to `target`. */
  function TailCount(log: seq<Fact>, since: nat, target: nat): nat {
    if log == [] then 0
    else TailCount(log[..|log| - 1], since, target) + if since < log[|log| - 1].txCount <= target then 1 else 0
  }

  lemma {:induction false} TailCountPrefix(log: seq<Fact>, i: nat, since: nat, target: nat)
    requires i <= |log|
    ensures TailCount(log[..i], since, target) <= TailCount(log, since, target)
    ensures i > 0 ==> TailCount(log[..i], since, target) == TailCount(log[..i - 1], since, target) + if since < log[i - 1].txCount <= target then 1 else 0
    decreases |log|
  {
    assert i > 0 ==> log[..i][..i - 1] == log[..i - 1];
    if i < |log| {
      TailCountPrefix(log[..|log| - 1], i, since, target);
      assert log[..|log| - 1][..i] == log[..i];
    } else {
      assert log[..i] == log;
    }
  }

  /** The entities of the attribute written after `since` and up to `target`; none if there are too many tail facts. */
  method TouchedSince(log: seq<Fact>, attribute: string, since: nat, target: nat) returns (touched: Option<seq<nat>>, tailFacts: nat)
    ensures touched.Some? ==> TouchedList(log, attribute, since, target, touched.value)
    ensures touched.Some? ==> |touched.value| <= tailFacts == TailCount(log, since, target) <= TAIL_MAX_FACTS
    ensures touched.None? <==> TailCount(log, since, target) > TAIL_MAX_FACTS
  {
    var found: seq<nat> := [];
    tailFacts := 0;
    for i := 0 to |log|
      invariant TouchedList(log[..i], attribute, since, target, found)
      invariant |found| <= tailFacts == TailCount(log[..i], since, target) <= TAIL_MAX_FACTS
    {
      var f := log[i];
      assert log[..i + 1] == log[..i] + [f];
      TailCountPrefix(log, i + 1, since, target);
      ghost var was := found;
      if since < f.txCount <= target {
        tailFacts := tailFacts + 1;
        if tailFacts > TAIL_MAX_FACTS {
          return None, tailFacts;
        }
        if f.triple.attribute == attribute && f.triple.entity !in found {
          found := found + [f.triple.entity];
        }
      }
      TouchedStep(log[..i], f, attribute, since, target, was, found);
    }
    assert log[..|log|] == log;
    touched := Some(found);
  }

  lemma TouchedStep(log: seq<Fact>, f: Fact, attribute: string, since: nat, target: nat, was: seq<nat>, found: seq<nat>)
    requires TouchedList(log, attribute, since, target, was)
    requires var hit := since < f.txCount <= target && f.triple.attribute == attribute;
             found == if hit && f.triple.entity !in was then was + [f.triple.entity] else was
    ensures TouchedList(log + [f], attribute, since, target, found)
  {
    forall e: nat
      ensures e in found <==> Touched(log + [f], attribute, since, target, e)
    {
      var hit := since < f.txCount <= target && f.triple.attribute == attribute;
      if Touched(log, attribute, since, target, e) {
        var g :| g in log && g.triple.entity == e && g.triple.attribute == attribute && since < g.txCount <= target;
        assert g in log + [f];
      }
      if hit && e == f.triple.entity {
        assert f in log + [f];
      }
    }
  }

  /** `refresh_current_projection_tail_overlay`. */
  method RefreshOverlay(log: seq<Fact>, o: Overlay, target: nat, counter: nat, exact: nat -> seq<Interval>, io: TailIo)
    returns (r: Result<Refresh>)
    requires Current(log, o) && Exact(log, target, o.subject.attribute, exact)
    ensures r.Ok? && r.value.Refreshed? ==>
              Current(log, r.value.overlay) && r.value.overlay.subject == o.subject && r.value.overlay.txCount == target
    ensures r.Err? ==> o.txCount > target || (o.txCount < target && (target != counter || io.moved))
    ensures o.txCount > target ==> r.Err?
    ensures r.Ok? && r.value.OverBudget? && (forall e :: io.entries(e) == 0) && !io.tooManyBytes ==>
              TailCount(log, o.txCount, target) + |o.replacements| > TAIL_MAX_REPLACEMENTS
  {
    hide Current, Exact, TouchedList;
    if o.txCount > target {
      return Err("resident tail is ahead of the read view");
    }
    if o.txCount == target {
      return Ok(Refreshed(o, 0));
    }
    if target != counter {
      return Err("resident tail requires the current read watermark");
    }
    var touched, tailFacts := TouchedSince(log, o.subject.attribute, o.txCount, target);
    if touched.None? {
      return Ok(OverBudget);
    }
    if io.moved {
      return Err("publication changed while reading the resident tail");
    }
    var history: nat := 0;
    var next := o.replacements;
    for i := 0 to |touched.value|
      invariant next == Installed(o.replacements, touched.value[..i], exact, o.subject.floor)
      invariant |next| <= |o.replacements| + i
      invariant (forall e :: io.entries(e) == 0) ==> history == 0
    {
      var e := touched.value[i];
      if history >= TAIL_MAX_HISTORY || history + io.entries(e) > TAIL_MAX_HISTORY {
        return Ok(OverBudget);
      }
      history := history + io.entries(e);
      PutGrows(next, Replacement(exact, o.subject.floor, e));
      next := Put(next, Replacement(exact, o.subject.floor, e));
      assert touched.value[..i + 1][..i] == touched.value[..i];
    }
    if |next| > TAIL_MAX_REPLACEMENTS || io.tooManyBytes {
      return Ok(OverBudget);
    }
    assert touched.value[..|touched.value|] == touched.value;
    InstalledIsCurrent(log, o, target, touched.value, exact);
    return Ok(Refreshed(Overlay(o.subject, target, next), tailFacts + history));
  }

  /** The one resident overlay, and the last request that was over budget. */
  class TailCache {
    var overlay: Option<Overlay>
    var rejected: Option<(Subject, nat)>

    ghost predicate Valid(log: seq<Fact>)
      reads this
    {
      overlay.Some? ==> Current(log, overlay.value)
    }

    constructor ()
      ensures Valid([]) && overlay == None && rejected == None
    {
      overlay, rejected := None, None;
    }

    /** `prepare`: the resident overlay brought to the target, or a refusal that is remembered. */
    method Prepare(log: seq<Fact>, subject: Subject, target: nat, counter: nat, exact: nat -> seq<Interval>, io: TailIo)
      returns (r: Result<Refresh>)
      requires Valid(log) && Exact(log, target, subject.attribute, exact)
      modifies this
      ensures Valid(log)
      ensures r.Ok? && r.value.Refreshed? ==>
                Current(log, r.value.overlay) && r.value.overlay.subject == subject && r.value.overlay.txCount == target
                && overlay == Some(r.value.overlay)
      ensures r.Ok? && r.value.OverBudget? ==> rejected == Some((subject, target)) && overlay == old(overlay)
      ensures r.Err? ==> overlay == old(overlay) && rejected == old(rejected)
      ensures old(rejected) == Some((subject, target)) ==> r == Ok(OverBudget)
      ensures old(rejected) != Some((subject, target)) && old(overlay).Some? && old(overlay).value.subject == subject && old(overlay).value.txCount == target ==>
                r == Ok(Refreshed(old(overlay).value, 0))
      ensures r.Err? ==> target != counter || io.moved || (old(overlay).Some? && old(overlay).value.subject == subject && old(overlay).value.txCount > target)
                         || subject.identity.txCount > target
    {
      hide Current, Exact;
      if rejected == Some((subject, target)) {
        return Ok(OverBudget);
      }
      if overlay.Some? && overlay.value.subject == subject && overlay.value.txCount == target {
        return Ok(Refreshed(overlay.value, 0));
      }
      EmptyIsCurrent(log, subject);
      var next := if overlay.Some? && overlay.value.subject == subject then overlay.value else EmptyOverlay(subject);
      r := RefreshOverlay(log, next, target, counter, exact, io);
      if r.Err? {
        return;
      }
      if r.value.OverBudget? {
        rejected := Some((subject, target));
        return;
      }
      overlay, rejected := Some(r.value.overlay), None;
    }
  }
}
