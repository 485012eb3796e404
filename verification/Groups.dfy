/** Windows grouped by entity, in id order: what cursors deliver and images hold. */
module Groups {
  import opened Bytes
  import opened Ledger
  import opened Diff
  import opened Sequences

  datatype EntityGroup = EntityGroup(entity: nat, windows: seq<Interval>)

  ghost predicate InOrder(groups: seq<EntityGroup>) {
    forall i, j :: 0 <= i < j < |groups| ==> groups[i].entity < groups[j].entity
  }

  function WindowsFor(groups: seq<EntityGroup>, e: nat): Option<seq<Interval>> {
    if groups == [] then None
    else if groups[0].entity == e then Some(groups[0].windows)
    else WindowsFor(groups[1..], e)
  }

  /** The windows held for an entity, none if it has no group. */
  function WindowsIn(groups: seq<EntityGroup>, e: nat): seq<Interval> {
    if WindowsFor(groups, e).Some? then WindowsFor(groups, e).value else []
  }

  function Put(groups: seq<EntityGroup>, g: EntityGroup): seq<EntityGroup> {
    if groups == [] || g.entity < groups[0].entity then [g] + groups
    else if groups[0].entity == g.entity then [g] + groups[1..]
    else [groups[0]] + Put(groups[1..], g)
  }

  lemma {:induction false} LookupMissing(groups: seq<EntityGroup>, e: nat)
    requires forall i :: 0 <= i < |groups| ==> groups[i].entity != e
    ensures WindowsFor(groups, e) == None
  {
    if groups != [] {
      LookupMissing(groups[1..], e);
    }
  }

  lemma {:induction false} LookupAt(groups: seq<EntityGroup>, i: nat)
    requires InOrder(groups) && i < |groups|
    ensures WindowsFor(groups, groups[i].entity) == Some(groups[i].windows)
  {
    if i > 0 {
      LookupAt(groups[1..], i - 1);
    }
  }

  lemma {:induction false} LookupFound(groups: seq<EntityGroup>, e: nat)
    requires WindowsFor(groups, e).Some?
    ensures exists i :: 0 <= i < |groups| && groups[i] == EntityGroup(e, WindowsFor(groups, e).value)
  {
    if groups[0].entity != e {
      LookupFound(groups[1..], e);
      var i :| 0 <= i < |groups[1..]| && groups[1..][i] == EntityGroup(e, WindowsFor(groups, e).value);
      assert groups[i + 1] == groups[1..][i];
    }
  }

  lemma {:induction false} LookupSnoc(groups: seq<EntityGroup>, g: EntityGroup, e: nat)
    ensures WindowsFor(groups + [g], e) ==
            if WindowsFor(groups, e).Some? then WindowsFor(groups, e) else if g.entity == e then Some(g.windows) else None
  {
    if groups == [] {
      assert [g][1..] == [] && groups + [g] == [g];
    } else {
      LookupSnoc(groups[1..], g, e);
      assert (groups + [g])[1..] == groups[1..] + [g];
    }
  }

  /** Groups in order are determined by what they hold for each entity. */
  lemma {:induction false} OrderedUnique(a: seq<EntityGroup>, b: seq<EntityGroup>)
    requires InOrder(a) && InOrder(b) && forall e: nat :: WindowsFor(a, e) == WindowsFor(b, e)
    ensures a == b
  {
    if a == [] || b == [] {
      if a != [] {
        assert WindowsFor(a, a[0].entity).Some?;
        assert false;
      }
      if b != [] {
        assert WindowsFor(b, b[0].entity).Some?;
        assert false;
      }
    } else {
      SameHead(a, b);
      forall e: nat
        ensures WindowsFor(a[1..], e) == WindowsFor(b[1..], e)
      {
        if e == a[0].entity {
          LookupMissing(a[1..], e);
          LookupMissing(b[1..], e);
        } else {
          assert WindowsFor(a, e) == WindowsFor(b, e);
        }
      }
      OrderedUnique(a[1..], b[1..]);
      assert a == [a[0]] + a[1..] && b == [b[0]] + b[1..];
    }
  }

  lemma SameHead(a: seq<EntityGroup>, b: seq<EntityGroup>)
    requires InOrder(a) && InOrder(b) && a != [] && b != [] && forall e: nat :: WindowsFor(a, e) == WindowsFor(b, e)
    ensures a[0] == b[0]
  {
    var x, y := a[0].entity, b[0].entity;
    assert WindowsFor(a, x) == Some(a[0].windows) && WindowsFor(b, y) == Some(b[0].windows);
    if x < y {
      LookupMissing(b, x);
    } else if y < x {
      LookupMissing(a, y);
    }
  }

  lemma {:induction false} PutKeepsOrder(groups: seq<EntityGroup>, g: EntityGroup, low: int)
    requires InOrder(groups) && low < g.entity && forall i :: 0 <= i < |groups| ==> low < groups[i].entity
    ensures InOrder(Put(groups, g)) && forall i :: 0 <= i < |Put(groups, g)| ==> low < Put(groups, g)[i].entity
  {
    if groups != [] && groups[0].entity < g.entity {
      PutKeepsOrder(groups[1..], g, groups[0].entity);
    }
  }

  lemma {:induction false} PutGrows(groups: seq<EntityGroup>, g: EntityGroup)
    ensures |Put(groups, g)| <= |groups| + 1
  {
    if groups != [] {
      PutGrows(groups[1..], g);
    }
  }

  lemma {:induction false} PutFinds(groups: seq<EntityGroup>, g: EntityGroup, e: nat)
    requires InOrder(groups)
    ensures WindowsFor(Put(groups, g), e) == if e == g.entity then Some(g.windows) else WindowsFor(groups, e)
  {
    if groups != [] && groups[0].entity < g.entity {
      PutFinds(groups[1..], g, e);
      var tail := Put(groups[1..], g);
      assert ([groups[0]] + tail)[1..] == tail;
    } else if groups != [] && groups[0].entity == g.entity {
      assert ([g] + groups[1..])[1..] == groups[1..];
    } else {
      assert ([g] + groups)[1..] == groups;
    }
  }

  // ── Resuming after an entity ───────────────────────────────────────────────

  /** The number of groups up to and including `last`. */
  function StartAfter(groups: seq<EntityGroup>, last: nat): (n: nat)
    ensures n <= |groups|
  {
    if groups == [] || groups[0].entity > last then 0 else 1 + StartAfter(groups[1..], last)
  }

  lemma {:induction false} StartAfterGroup(groups: seq<EntityGroup>, k: nat)
    requires InOrder(groups) && k < |groups|
    ensures StartAfter(groups, groups[k].entity) == k + 1
  {
    if k == 0 {
      assert |groups| > 1 ==> groups[1..][0].entity > groups[0].entity;
    } else {
      StartAfterGroup(groups[1..], k - 1);
    }
  }

  lemma {:induction false} LookupAfter(groups: seq<EntityGroup>, last: nat, e: nat)
    requires InOrder(groups)
    ensures WindowsFor(groups[StartAfter(groups, last)..], e) == if e <= last then None else WindowsFor(groups, e)
  {
    if groups == [] {
    } else if groups[0].entity > last {
      assert groups[0..] == groups;
      if e <= last {
        LookupMissing(groups, e);
      }
    } else {
      LookupAfter(groups[1..], last, e);
      var n := StartAfter(groups[1..], last);
      assert groups[1 + n..] == groups[1..][n..];
    }
  }
}
