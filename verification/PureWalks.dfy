/** When the range takes in entries of one attribute only, every stepped walk reads what one uninterrupted walk reads. */
module PureWalks {
  import opened Bytes
  import opened Ledger
  import opened Orders
  import opened Sequences
  import opened Groups
  import opened Cursors
  import opened Walks

  ghost predicate OnlyHolds(entries: seq<Fact>, attribute: string, only: string) {
    forall f :: f in entries && InRange(attribute, f.triple.attribute) ==> f.triple.attribute == only
  }

  /** The index is in key order, holds each fact once, and has entries of one attribute only in the range, at any transaction. */
  ghost predicate Pure(index: Index, attribute: string, only: string) {
    && KeyOrdered(index.base) && KeyOrdered(index.delta) && KeyOrdered(index.pending) && Apiece(index)
    && OnlyHolds(Held(index), attribute, only)
  }

  lemma IndexIsPure(index: Index, log: seq<Fact>, attribute: string)
    requires Indexes(index, log) && StrayFree(log, attribute)
    ensures Pure(index, attribute, attribute)
  {
    hide KeyOrdered, InRange;
  }

  lemma SuffixAsymmetric()
    ensures Asymmetric(SuffixLess)
  {
    hide SuffixLess;
    forall f, g | SuffixLess(f, g)
      ensures !SuffixLess(g, f)
    {
      SuffixIsAsymmetric(f, g);
    }
  }

  // ── The committed side is in order ─────────────────────────────────────────

  lemma {:induction false} RangeAscends(entries: seq<Fact>, attribute: string, only: string, start: Start)
    requires KeyOrdered(entries) && OnlyHolds(entries, attribute, only)
    ensures Ascends(Range(entries, attribute, start), SuffixLess)
    ensures forall f :: f in Range(entries, attribute, start) ==> f.triple.attribute == only
  {
    hide Ascends, SuffixLess, AtOrPast, InRange;
    if entries == [] {
      NothingAscends();
    } else {
      var f, rest := entries[0], Range(entries[1..], attribute, start);
      assert entries == [f] + entries[1..];
      AscendsTail(entries, KeyLess);
      RangeAscends(entries[1..], attribute, only, start);
      if InSpan(f, attribute, start) {
        forall g | g in rest
          ensures SuffixLess(f, g)
        {
          assert KeyLess(f, g);
          NotBeforeItself(only);
        }
        AscendsCons(f, rest, SuffixLess);
      } else {
        assert [] + rest == rest;
      }
    }
  }

  lemma NothingAscends()
    ensures Ascends([], SuffixLess)
  {}

  ghost predicate Comparable(a: seq<Fact>, b: seq<Fact>) {
    forall x, y :: x in a && y in b ==> SuffixLess(x, y) || SuffixLess(y, x)
  }

  lemma {:induction false} MergeAscends(a: seq<Fact>, b: seq<Fact>)
    requires Ascends(a, SuffixLess) && Ascends(b, SuffixLess) && Comparable(a, b)
    ensures Ascends(Merge(a, b), SuffixLess)
    decreases |a| + |b|
  {
    hide Ascends, SuffixLess;
    if a != [] && b != [] {
      AscendsTail(a, SuffixLess);
      AscendsTail(b, SuffixLess);
      assert a == [a[0]] + a[1..] && b == [b[0]] + b[1..];
      if SuffixLess(b[0], a[0]) {
        MergeAscends(a, b[1..]);
        BelowBoth(b[0], a, b[1..]);
        AscendsCons(b[0], Merge(a, b[1..]), SuffixLess);
      } else {
        assert SuffixLess(a[0], b[0]);
        MergeAscends(a[1..], b);
        BelowBoth(a[0], b, a[1..]);
        AscendsCons(a[0], Merge(a[1..], b), SuffixLess);
      }
    }
  }

  lemma BelowBoth(x: Fact, s: seq<Fact>, t: seq<Fact>)
    requires s != [] && SuffixLess(x, s[0]) && (forall y :: y in s[1..] ==> SuffixLess(s[0], y)) && forall y :: y in t ==> SuffixLess(x, y)
    ensures forall y :: y in s || y in t ==> SuffixLess(x, y)
  {
    hide SuffixLess;
    assert s == [s[0]] + s[1..];
    forall y | y in s[1..]
      ensures SuffixLess(x, y)
    {
      SuffixIsTransitive(x, s[0], y);
    }
  }

  /** Different facts of one attribute differ in the rest of their keys. */
  lemma OneAttribute(a: seq<Fact>, b: seq<Fact>, attribute: string)
    requires forall f :: f in a || f in b ==> f.triple.attribute == attribute
    requires forall f :: f in a ==> f !in b
    ensures Comparable(a, b)
  {
    hide SuffixLess;
    forall x, y | x in a && y in b
      ensures SuffixLess(x, y) || SuffixLess(y, x)
    {
      SuffixIsTotal(x, y);
      if SameSuffix(x, y) {
        assert x == y;
      }
    }
  }

  lemma CommittedAscends(index: Index, attribute: string, only: string, start: Start)
    requires Pure(index, attribute, only)
    ensures Ascends(Committed(index, attribute, start), SuffixLess)
  {
    hide Ascends, SuffixLess, AtOrPast, InRange, Comparable;
    var a, b := Range(index.base, attribute, start), Range(index.delta, attribute, start);
    RangeAscends(index.base, attribute, only, start);
    RangeAscends(index.delta, attribute, only, start);
    OneAttribute(a, b, only);
    MergeAscends(a, b);
  }

  lemma {:induction false} PastAscends(entries: seq<Fact>, last: Option<Fact>)
    requires Ascends(entries, SuffixLess)
    ensures Ascends(Past(entries, last), SuffixLess)
  {
    hide Ascends, PastLast;
    if entries == [] {
      NothingAscends();
    } else {
      AscendsTail(entries, SuffixLess);
      PastAscends(entries[1..], last);
      if PastLast(entries[0], last) {
        AscendsCons(entries[0], Past(entries[1..], last), SuffixLess);
      } else {
        assert [] + Past(entries[1..], last) == Past(entries[1..], last);
      }
    }
  }

  // ── Resuming is exact ──────────────────────────────────────────────────────

  lemma RestAscends(s: seq<Fact>, i: nat)
    requires Ascends(s, SuffixLess) && i <= |s|
    ensures Ascends(s[i..], SuffixLess)
  {
    assert forall k :: 0 <= k < |s| - i ==> s[i..][k] == s[i + k];
  }

  /** The members from position `i` on are those past the one before. */
  lemma RestIsPast(s: seq<Fact>, i: nat, f: Fact)
    requires Ascends(s, SuffixLess) && 0 < i <= |s|
    ensures f in s[i..] <==> f in s && SuffixLess(s[i - 1], f)
  {
    hide SuffixLess;
    SuffixAsymmetric();
    SuffixNotLessItself(s[i - 1]);
    if f in s && SuffixLess(s[i - 1], f) {
      var k :| 0 <= k < |s| && s[k] == f;
      assert k >= i;
      assert s[i..][k - i] == f;
    }
    if f in s[i..] {
      var k :| 0 <= k < |s| - i && s[i..][k] == f;
      assert s[i + k] == f;
    }
  }

  /** The cursor's start is the first entity or a key it has read. */
  ghost predicate StartedBy(start: Start, from: nat, a: seq<Fact>, i: nat)
    requires i <= |a|
  {
    match start
    case FromEntity(e) => e == from
    case FromKey(key) => exists k :: 0 <= k < i && a[k] == key
  }

  /** After reading `i` committed entries, the resumed range holds exactly the others. */
  lemma ResumesExactly(index: Index, attribute: string, only: string, from: nat, start: Start, i: nat)
    requires Pure(index, attribute, only) && 0 < i <= |Committed(index, attribute, FromEntity(from))|
    requires StartedBy(start, from, Committed(index, attribute, FromEntity(from)), i)
    ensures var a := Committed(index, attribute, FromEntity(from)); Past(Committed(index, attribute, start), Some(a[i - 1])) == a[i..]
  {
    hide Ascends, SuffixLess, InRange, Pure, Committed;
    var a := Committed(index, attribute, FromEntity(from));
    var resumed := Past(Committed(index, attribute, start), Some(a[i - 1]));
    CommittedAscends(index, attribute, only, FromEntity(from));
    CommittedAscends(index, attribute, only, start);
    PastAscends(Committed(index, attribute, start), Some(a[i - 1]));
    RestAscends(a, i);
    forall f
      ensures f in resumed <==> f in a[i..]
    {
      RestIsPast(a, i, f);
      if SuffixLess(a[i - 1], f) {
        SameSelection(index, attribute, only, from, start, i, f);
      }
    }
    SuffixAsymmetric();
    AscendsUnique(resumed, a[i..], SuffixLess);
  }

  lemma SameSelection(index: Index, attribute: string, only: string, from: nat, start: Start, i: nat, f: Fact)
    requires Pure(index, attribute, only) && 0 < i <= |Committed(index, attribute, FromEntity(from))|
    requires StartedBy(start, from, Committed(index, attribute, FromEntity(from)), i)
    requires SuffixLess(Committed(index, attribute, FromEntity(from))[i - 1], f)
    ensures f in Committed(index, attribute, start) <==> f in Committed(index, attribute, FromEntity(from))
  {
    hide TimesLess, InRange, Pure;
    var a := Committed(index, attribute, FromEntity(from));
    assert a[i - 1] in a;
    PureSelection(index, attribute, only, FromEntity(from), a[i - 1]);
    if start.FromKey? && f.triple.attribute == attribute {
      var k :| 0 <= k < i && a[k] == start.key;
      CommittedAscends(index, attribute, only, FromEntity(from));
      if k < i - 1 {
        SuffixIsTransitive(a[k], a[i - 1], f);
      }
      SuffixIsAsymmetric(start.key, f);
      if f in index.base || f in index.delta {
        AttributeAlone(index, attribute, only, f);
      }
    }
  }

  lemma PureSelection(index: Index, attribute: string, only: string, start: Start, f: Fact)
    requires Pure(index, attribute, only) && f in Committed(index, attribute, start)
    ensures f.triple.attribute == only && (only == attribute ==> AtOrPast(f, start))
  {
    hide InRange, SuffixLess, KeyOrdered;
    assert f in Held(index);
  }

  /** An entry of the queried attribute in range means that the range holds nothing else. */
  lemma AttributeAlone(index: Index, attribute: string, only: string, f: Fact)
    requires Pure(index, attribute, only) && (f in index.base || f in index.delta) && f.triple.attribute == attribute
    ensures InRange(attribute, attribute) ==> only == attribute
  {
    hide InRange, KeyOrdered;
    assert f in Held(index);
  }

  // ── Every split reads the same ─────────────────────────────────────────────

  lemma PortionHead(a: seq<Fact>, b: seq<Fact>, max: nat)
    requires max > 0 && (a != [] || b != [])
    ensures var p := Portioned(a, b, max);
            if b != [] && (a == [] || SuffixLess(b[0], a[0]))
            then var rest := Portioned(a, b[1..], max - 1); p == Portion([b[0]] + rest.entries, rest.committed, rest.pending + 1)
            else var rest := Portioned(a[1..], b, max - 1); p == Portion([a[0]] + rest.entries, rest.committed + 1, rest.pending)
  {
    hide SuffixLess;
  }

  lemma PortionOfNothing(a: seq<Fact>, b: seq<Fact>, max: nat)
    requires max == 0 || (a == [] && b == [])
    ensures Portioned(a, b, max) == Portion([], 0, 0)
  {}

  /** A portion and the rest of the two streams make up the whole. */
  lemma {:induction false} PortionMerges(a: seq<Fact>, b: seq<Fact>, max: nat)
    ensures var p := Portioned(a, b, max); Merge(a, b) == p.entries + Merge(a[p.committed..], b[p.pending..])
    decreases |a| + |b|
  {
    hide SuffixLess, Portioned, Merge;
    if max == 0 || (a == [] && b == []) {
      PortionOfNothing(a, b, max);
      assert a[0..] == a && b[0..] == b && [] + Merge(a, b) == Merge(a, b);
    } else {
      PortionHead(a, b, max);
      MergeHead(a, b);
      if b != [] && (a == [] || SuffixLess(b[0], a[0])) {
        PortionMerges(a, b[1..], max - 1);
        var rest := Portioned(a, b[1..], max - 1);
        RestOfRest(b, 1, rest.pending);
        Regroup([b[0]], rest.entries, Merge(a[rest.committed..], b[1..][rest.pending..]));
      } else {
        PortionMerges(a[1..], b, max - 1);
        var rest := Portioned(a[1..], b, max - 1);
        RestOfRest(a, 1, rest.committed);
        Regroup([a[0]], rest.entries, Merge(a[1..][rest.committed..], b[rest.pending..]));
      }
    }
  }

  lemma MergeHead(a: seq<Fact>, b: seq<Fact>)
    requires a != [] || b != []
    ensures Merge(a, b) == if b != [] && (a == [] || SuffixLess(b[0], a[0])) then [b[0]] + Merge(a, b[1..]) else [a[0]] + Merge(a[1..], b)
  {
    hide SuffixLess;
    if a == [] {
      assert b == [b[0]] + b[1..];
      assert Merge([], b[1..]) == b[1..];
    } else if b == [] {
      assert a == [a[0]] + a[1..];
    }
  }

  /** The cursor has read `i` committed entries of the uninterrupted walk and everything that comes with them. */
  ghost predicate OnTrack(src: Source, cur: Cursor, read: seq<Fact>, i: nat) {
    var a, b := Committed(src.index, src.attribute, FromEntity(src.from)), PendingOf(src);
    && Within(src, cur) && i <= |a|
    && read + Merge(a[i..], b[cur.position..]) == Walked(src.index, src.attribute, src.from)
    && CommittedAhead(src, cur) == a[i..]
    && cur.last == (if i == 0 then None else Some(a[i - 1]))
    && StartedBy(cur.start, src.from, a, i)
    && (cur.committedDone ==> i == |a|)
    && (cur.done ==> i == |a| && cur.position == |b|)
  }

  lemma StartsOnTrack(src: Source)
    ensures OnTrack(src, NewCursor(src), [], 0)
  {
    hide Range, Committed;
    var a, b := Committed(src.index, src.attribute, FromEntity(src.from)), PendingOf(src);
    assert a[0..] == a && b[0..] == b && [] + Merge(a, b) == Merge(a, b);
    PastNothing(a);
  }

  /** Where the next step starts, and the last entry read, are entries of the uninterrupted walk. */
  lemma NextOnTrack(src: Source, cur: Cursor, stop: Stop, read: seq<Fact>, i: nat)
    requires OnTrack(src, cur, read, i) && !cur.done
    ensures var a, k := Committed(src.index, src.attribute, FromEntity(src.from)), i + PortionOf(src, cur, stop).committed;
            && k <= |a|
            && LastRead(src, cur, stop) == (if k == 0 then None else Some(a[k - 1]))
            && StartedBy(NextStart(src, cur, stop), src.from, a, k)
            && (Settles(src, cur, stop) ==> k == |a|)
  {
    hide Portioned, Past, Range, Committed, SuffixLess;
    var a, p := Committed(src.index, src.attribute, FromEntity(src.from)), PortionOf(src, cur, stop);
    var k := i + p.committed;
    if p.committed > 0 {
      assert CommittedAhead(src, cur)[p.committed - 1] == a[k - 1];
    }
    SettledIsAll(CommittedAhead(src, cur), PendingAhead(src, cur), Allowance(stop));
  }

  lemma {:induction false} SettledIsAll(a: seq<Fact>, b: seq<Fact>, max: nat)
    ensures max > 0 && Portioned(a, b, max - 1).committed == |a| ==> Portioned(a, b, max).committed == |a|
    decreases |a| + |b|
  {
    hide SuffixLess;
    if max > 1 && (a != [] || b != []) {
      if b != [] && (a == [] || SuffixLess(b[0], a[0])) {
        SettledIsAll(a, b[1..], max - 1);
      } else {
        SettledIsAll(a[1..], b, max - 1);
      }
    }
  }

  /** What a step reads, and what is then left to read, make up what was left before. */
  lemma TrackReads(src: Source, cur: Cursor, stop: Stop, read: seq<Fact>, i: nat)
    requires OnTrack(src, cur, read, i) && !cur.done && i + PortionOf(src, cur, stop).committed <= |Committed(src.index, src.attribute, FromEntity(src.from))|
    ensures var a, b, p := Committed(src.index, src.attribute, FromEntity(src.from)), PendingOf(src), PortionOf(src, cur, stop);
            (read + p.entries) + Merge(a[i + p.committed..], b[cur.position + p.pending..]) == Walked(src.index, src.attribute, src.from)
  {
    hide Portioned, Past, Range, Committed, SuffixLess, Merge, Walked;
    var a, b, p := Committed(src.index, src.attribute, FromEntity(src.from)), PendingOf(src), PortionOf(src, cur, stop);
    PortionMerges(a[i..], b[cur.position..], Allowance(stop));
    RestOfRest(a, i, p.committed);
    RestOfRest(b, cur.position, p.pending);
    Regroup(read, p.entries, Merge(a[i + p.committed..], b[cur.position + p.pending..]));
  }

  /** The committed side ahead of the next step is the rest of the uninterrupted walk's. */
  lemma TrackAhead(src: Source, only: string, cur: Cursor, stop: Stop, read: seq<Fact>, i: nat)
    requires Pure(src.index, src.attribute, only) && OnTrack(src, cur, read, i) && !cur.done
    ensures var a, k := Committed(src.index, src.attribute, FromEntity(src.from)), i + PortionOf(src, cur, stop).committed;
            k <= |a| && CommittedAhead(src, NextCursor(src, cur, stop)) == a[k..]
  {
    hide Portioned, Past, Range, Committed, SuffixLess, Pure, Reduces, NextStart, LastRead, Settles, Merge, Walked, Completes;
    var a := Committed(src.index, src.attribute, FromEntity(src.from));
    var k, next := i + PortionOf(src, cur, stop).committed, NextCursor(src, cur, stop);
    NextOnTrack(src, cur, stop, read, i);
    if Settles(src, cur, stop) {
      assert a[k..] == [];
    } else if k == 0 {
      NothingRead(src, cur, stop);
      assert CommittedAhead(src, next) == CommittedAhead(src, cur);
    } else {
      ResumesExactly(src.index, src.attribute, only, src.from, next.start, k);
    }
  }

  lemma StaysOnTrack(src: Source, only: string, cur: Cursor, stop: Stop, read: seq<Fact>, i: nat)
    requires Pure(src.index, src.attribute, only) && OnTrack(src, cur, read, i) && !cur.done
    ensures OnTrack(src, NextCursor(src, cur, stop), read + Reads(src, cur, stop), i + PortionOf(src, cur, stop).committed)
  {
    hide Portioned, Past, Range, Committed, CommittedAhead, SuffixLess, Pure, Reduces, NextStart, LastRead, Settles, Merge, Walked, StartedBy;
    NextOnTrack(src, cur, stop, read, i);
    TrackReads(src, cur, stop, read, i);
    TrackAhead(src, only, cur, stop, read, i);
  }

  lemma NothingRead(src: Source, cur: Cursor, stop: Stop)
    requires Within(src, cur) && PortionOf(src, cur, stop).committed == 0 && cur.last.None?
    ensures NextStart(src, cur, stop) == cur.start && LastRead(src, cur, stop) == cur.last
    ensures cur.committedDone ==> Settles(src, cur, stop)
  {
    hide Portioned, CommittedAhead;
  }

  lemma {:induction false} KeepsTrack(src: Source, only: string, plan: Plan, k: nat) returns (i: nat)
    requires Pure(src.index, src.attribute, only)
    ensures OnTrack(src, CursorAt(src, plan, k), ReadAt(src, plan, k), i)
  {
    hide OnTrack, Pure, NextCursor, Reads, NewCursor, Within, PortionOf;
    if k == 0 {
      StartsOnTrack(src);
      i := 0;
    } else {
      var cur, stop := CursorAt(src, plan, k - 1), StopAt(plan, k - 1);
      i := KeepsTrack(src, only, plan, k - 1);
      if cur.done {
        DoneStep(src, cur, stop);
        assert ReadAt(src, plan, k - 1) + [] == ReadAt(src, plan, k - 1);
      } else {
        StaysOnTrack(src, only, cur, stop, ReadAt(src, plan, k - 1), i);
        i := i + PortionOf(src, cur, stop).committed;
      }
    }
  }

  lemma TrackEnds(src: Source, cur: Cursor, read: seq<Fact>, i: nat)
    requires OnTrack(src, cur, read, i) && cur.done
    ensures read == Walked(src.index, src.attribute, src.from)
  {
    hide Committed, Range, CommittedAhead;
    var a, b := Committed(src.index, src.attribute, FromEntity(src.from)), PendingOf(src);
    assert a[i..] == [] && b[cur.position..] == [] && read + [] == read;
  }

  /** When the range takes in one attribute only, every plan reads exactly what one uninterrupted walk reads. */
  lemma EverySplitReadsTheSame(src: Source, only: string, plan: Plan)
    requires Pure(src.index, src.attribute, only) && plan.size > 0
    ensures WholeWalk(src, plan) == Walked(src.index, src.attribute, src.from)
    ensures WalkListing(src, plan) == Listing(src.index, src.n, src.attribute, src.from)
  {
    hide OnTrack, Pure, CursorAt, ReadAt, Horizon, Walked;
    var i := KeepsTrack(src, only, plan, Horizon(src, plan));
    WalkEnds(src, plan);
    TrackEnds(src, CursorAt(src, plan, Horizon(src, plan)), WholeWalk(src, plan), i);
  }

  // ── A walk that never yields ───────────────────────────────────────────────

  lemma {:induction false} MergeLength(a: seq<Fact>, b: seq<Fact>)
    ensures |Merge(a, b)| == |a| + |b|
    decreases |a| + |b|
  {
    hide SuffixLess;
    if a != [] && b != [] {
      if SuffixLess(b[0], a[0]) {
        MergeLength(a, b[1..]);
      } else {
        MergeLength(a[1..], b);
      }
    }
  }

  /** With budget for every entry, the first step reads what the uninterrupted walk reads and completes. */
  lemma FirstStepReadsAll(src: Source, max: nat)
    requires max > |Held(src.index)|
    ensures Reads(src, NewCursor(src), Budget(max)) == Walked(src.index, src.attribute, src.from)
    ensures Completes(src, NewCursor(src), Budget(max))
  {
    hide Range, Merge, SuffixLess, Past, Portioned;
    var cur, start := NewCursor(src), FromEntity(src.from);
    var a, b := Committed(src.index, src.attribute, start), PendingOf(src);
    RangeShrinks(src.index.base, src.attribute, start);
    RangeShrinks(src.index.delta, src.attribute, start);
    RangeShrinks(src.index.pending, src.attribute, start);
    MergeLength(Range(src.index.base, src.attribute, start), Range(src.index.delta, src.attribute, start));
    PastNothing(a);
    assert PendingAhead(src, cur) == b;
    PortionFills(a, b, max);
    PortionFills(a, b, max - 1);
    PortionMerges(a, b, max);
    assert a[|a|..] == [] && b[|b|..] == [];
    NothingMerges(Portioned(a, b, max).entries);
    PortionOfAll(a, b, max - 1);
  }

  lemma NothingMerges(s: seq<Fact>)
    ensures s + Merge([], []) == s
  {}

  lemma {:induction false} PortionOfAll(a: seq<Fact>, b: seq<Fact>, max: nat)
    requires |a| + |b| <= max
    ensures Portioned(a, b, max).committed == |a| && Portioned(a, b, max).pending == |b|
    decreases |a| + |b|
  {
    hide SuffixLess;
    if max > 0 && (a != [] || b != []) {
      if b != [] && (a == [] || SuffixLess(b[0], a[0])) {
        PortionOfAll(a, b[1..], max - 1);
      } else {
        PortionOfAll(a[1..], b, max - 1);
      }
    }
  }

  /** A walk that never yields is the uninterrupted walk, whatever strays into the range. */
  lemma OneStepReadsAll(src: Source, plan: Plan)
    requires plan.stops == [] && plan.size > |Held(src.index)|
    ensures WholeWalk(src, plan) == Walked(src.index, src.attribute, src.from)
    ensures WalkListing(src, plan) == Listing(src.index, src.n, src.attribute, src.from)
  {
    hide Walked, Reads, Completes, Reduces, NextStart, LastRead, Settles, PortionOf, Held;
    FirstStepReadsAll(src, plan.size);
    FirstStep(src, plan);
    StaysDone(src, plan, 1, Horizon(src, plan));
  }

  lemma FirstStep(src: Source, plan: Plan)
    requires plan.stops == []
    ensures CursorAt(src, plan, 1).done <==> Completes(src, NewCursor(src), Budget(plan.size))
    ensures ReadAt(src, plan, 1) == Reads(src, NewCursor(src), Budget(plan.size))
  {
    hide Completes, Reads, Reduces, NextStart, LastRead, Settles, PortionOf;
    assert CursorAt(src, plan, 0) == NewCursor(src);
    assert ReadAt(src, plan, 0) == [] && [] + Reads(src, NewCursor(src), Budget(plan.size)) == Reads(src, NewCursor(src), Budget(plan.size));
  }

  // ── What stepped walks serve ───────────────────────────────────────────────

  /** Every walk over every log of these attributes, at every transaction and however its steps split, serves the attribute exactly. */
  ghost predicate WalksAlwaysServe(attributes: set<string>, attribute: string) {
    forall index: Index, log: seq<Fact>, n: nat, from: nat, plan: Plan ::
      Indexes(index, log) && (forall f :: f in log ==> f.triple.attribute in attributes) && plan.size > 0 ==>
        Served(log, n, attribute, from, WalkListing(Source(index, attribute, from, n), plan))
  }

  /** Stepped walks over some attributes serve one exactly, if and only if none of the others strays into its range. */
  lemma WalksServeIffNothingStrays(attributes: set<string>, attribute: string)
    requires attribute != ""
    ensures WalksAlwaysServe(attributes, attribute) <==> forall other :: other in attributes ==> !Stray(attribute, other)
  {
    hide Served, WalkListing, Listing, InRange, Indexes;
    if other :| other in attributes && Stray(attribute, other) {
      var f := Fact(Triple(0, other, Null), 0, 1, 0, 1, true);
      StrayIsServed(f, 1, attribute, 0);
      StrayIsWrong(f, attribute);
      OneStepReadsAll(Source(Alone(f), attribute, 0, 1), Plan([], 2));
      assert forall g :: g in [f] ==> g.triple.attribute in attributes;
      assert !Served([f], 1, attribute, 0, WalkListing(Source(Alone(f), attribute, 0, 1), Plan([], 2)));
    } else {
      forall index: Index, log: seq<Fact>, n: nat, from: nat, plan: Plan
        | Indexes(index, log) && (forall f :: f in log ==> f.triple.attribute in attributes) && plan.size > 0
        ensures Served(log, n, attribute, from, WalkListing(Source(index, attribute, from, n), plan))
      {
        PureIsServed(index, log, n, attribute, from, plan);
      }
    }
  }

  /** When nothing in the log strays, at any transaction, every stepped walk serves exactly the queried attribute. */
  lemma PureIsServed(index: Index, log: seq<Fact>, n: nat, attribute: string, from: nat, plan: Plan)
    requires attribute != "" && Indexes(index, log) && StrayFree(log, attribute) && plan.size > 0
    ensures Served(log, n, attribute, from, WalkListing(Source(index, attribute, from, n), plan))
  {
    hide Served, WalkListing, Listing, InRange, Indexes, Pure;
    IndexIsPure(index, log, attribute);
    EverySplitReadsTheSame(Source(index, attribute, from, n), attribute, plan);
    StrayFreeIsServed(index, log, n, attribute, from);
  }
}
