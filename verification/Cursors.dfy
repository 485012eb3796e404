/**
 The two storage cursors: the attribute cursor, which walks a range of the attribute index, and the
 entity cursor, which reads one entity's attribute. What a range takes in is decided by key order.
 */
module Cursors {
  import opened Bytes
  import opened Ledger
  import opened Orders
  import opened Diff
  import opened Sequences
  import opened Groups

  /** The largest 128-bit entity id. */
  const ENTITY_MAX: nat := U64_LIMIT * U64_LIMIT - 1

  // ── Key ranges ─────────────────────────────────────────────────────────────

  /** The last byte of the character's UTF-8 form is the largest of its kind, so one more is not UTF-8. */
  predicate LastOfItsKind(c: char) {
    c as int == 0x7F || (c as int >= 0x80 && c as int % 64 == 63)
  }

  function Successor(c: char): char
    requires !LastOfItsKind(c)
  {
    (c as int + 1) as char
  }

  /** `next_string_prefix`: the text with its last byte incremented, if that is text. */
  function NextPrefix(s: string): Option<string> {
    if s == "" || LastOfItsKind(s[|s| - 1]) then None else Some(s[..|s| - 1] + [Successor(s[|s| - 1])])
  }

  /** What the attribute cursor's range takes in: from the attribute up to its next prefix, or to the end if there is none. */
  predicate InRange(attribute: string, other: string) {
    !Before(other, attribute) && (NextPrefix(attribute).Some? ==> Before(other, NextPrefix(attribute).value))
  }

  /** The entity cursor's range ends at the attribute followed by a zero byte. */
  predicate InExactRange(attribute: string, other: string) {
    !Before(other, attribute) && Before(other, attribute + "\0")
  }

  lemma NextPrefixTail(s: string)
    requires |s| > 1 && NextPrefix(s).Some?
    ensures NextPrefix(s[1..]).Some? && NextPrefix(s).value[0] == s[0] && NextPrefix(s).value[1..] == NextPrefix(s[1..]).value
  {
    var t := s[1..];
    assert t[|t| - 1] == s[|s| - 1];
    assert s[..|s| - 1] == [s[0]] + t[..|t| - 1];
  }

  /** A bounded range holds exactly the attributes that extend the queried one. */
  lemma {:induction false} RangeIsPrefix(attribute: string, other: string)
    requires NextPrefix(attribute).Some?
    ensures InRange(attribute, other) <==> attribute <= other
  {
    var next := NextPrefix(attribute).value;
    if |attribute| == 1 {
      assert next == [Successor(attribute[0])];
      assert attribute[1..] == "" && next[1..] == "";
      if other != "" {
        assert !Before(other[1..], attribute[1..]) && !Before(other[1..], next[1..]);
        assert Before(other, next) <==> other[0] <= attribute[0];
        assert attribute <= other <==> attribute[0] == other[0];
      }
    } else {
      NextPrefixTail(attribute);
      if other != "" && other[0] == attribute[0] {
        RangeIsPrefix(attribute[1..], other[1..]);
        assert attribute <= other <==> attribute[1..] <= other[1..] by {
          assert attribute == [attribute[0]] + attribute[1..] && other == [other[0]] + other[1..];
        }
      }
    }
  }

  lemma {:induction false} ExactRange(attribute: string, other: string)
    ensures InExactRange(attribute, other) <==> other == attribute
  {
    if attribute == "" {
      assert attribute + "\0" == "\0";
      if other != "" {
        assert !Before(other[1..], "\0"[1..]);
      }
    } else {
      assert (attribute + "\0")[1..] == attribute[1..] + "\0";
      if other != "" && other[0] == attribute[0] {
        ExactRange(attribute[1..], other[1..]);
        assert other == attribute <==> other[1..] == attribute[1..] by {
          assert attribute == [attribute[0]] + attribute[1..] && other == [other[0]] + other[1..];
        }
      }
    }
  }

  lemma RangeHoldsItself(attribute: string)
    requires attribute != ""
    ensures InRange(attribute, attribute)
  {
    NotBeforeItself(attribute);
    if NextPrefix(attribute).Some? {
      RangeIsPrefix(attribute, attribute);
    }
  }

  /** Another attribute whose facts the range takes in. */
  predicate Stray(attribute: string, other: string) {
    other != attribute && InRange(attribute, other)
  }

  lemma StrayComesAfter(attribute: string, other: string)
    requires Stray(attribute, other)
    ensures Before(attribute, other)
  {
    hide NextPrefix;
    BeforeIsTotal(attribute, other);
  }

  ghost predicate StrayFree(facts: seq<Fact>, attribute: string) {
    forall f :: f in facts ==> !Stray(attribute, f.triple.attribute)
  }

  // ── The attribute index ────────────────────────────────────────────────────

  /** The committed base and delta, and what is pending, each in key order. */
  datatype Index = Index(base: seq<Fact>, delta: seq<Fact>, pending: seq<Fact>)

  /** The order of index keys: the attribute, then the rest. */
  predicate KeyLess(f: Fact, g: Fact) {
    || Before(f.triple.attribute, g.triple.attribute)
    || (f.triple.attribute == g.triple.attribute && SuffixLess(f, g))
  }

  ghost predicate KeyOrdered(entries: seq<Fact>) {
    Ascends(entries, KeyLess)
  }

  function Held(index: Index): seq<Fact> {
    index.base + index.delta + index.pending
  }

  /** No fact is stored twice. */
  ghost predicate Apiece(index: Index) {
    && (forall f :: f in index.base ==> f !in index.delta && f !in index.pending)
    && (forall f :: f in index.delta ==> f !in index.pending)
  }

  /** The index holds the log's facts. */
  ghost predicate Indexes(index: Index, log: seq<Fact>) {
    && KeyOrdered(index.base) && KeyOrdered(index.delta) && KeyOrdered(index.pending) && Apiece(index)
    && (forall f :: f in log <==> f in Held(index))
    && (forall f :: f in log ==> f.triple.entity <= ENTITY_MAX)
  }

  /** Where a range starts within the queried attribute: at an entity, or at the rest of a key. */
  datatype Start = FromEntity(entity: nat) | FromKey(key: Fact)

  predicate AtOrPast(f: Fact, start: Start) {
    match start
    case FromEntity(e) => f.triple.entity >= e
    case FromKey(key) => !SuffixLess(f, key)
  }

  /** The key lies at or past the start key, whose attribute is the queried one, and before the end key. */
  predicate InSpan(f: Fact, attribute: string, start: Start) {
    InRange(attribute, f.triple.attribute) && (f.triple.attribute == attribute ==> AtOrPast(f, start))
  }

  function Range(entries: seq<Fact>, attribute: string, start: Start): (r: seq<Fact>)
    ensures forall f :: f in r <==> f in entries && InSpan(f, attribute, start)
  {
    if entries == [] then []
    else (if InSpan(entries[0], attribute, start) then [entries[0]] else []) + Range(entries[1..], attribute, start)
  }

  lemma {:induction false} RangeAll(entries: seq<Fact>, attribute: string, start: Start)
    requires forall i :: 0 <= i < |entries| ==> InSpan(entries[i], attribute, start)
    ensures Range(entries, attribute, start) == entries
  {
    hide InSpan;
    if entries != [] {
      RangeAll(entries[1..], attribute, start);
      assert entries == [entries[0]] + entries[1..];
    }
  }

  /** Two streams interleaved: an entry of the second goes first when its key, without the attribute, is smaller. */
  function Merge(a: seq<Fact>, b: seq<Fact>): (r: seq<Fact>)
    ensures forall f :: f in r <==> f in a || f in b
    decreases |a| + |b|
  {
    if b == [] then a
    else if a == [] then b
    else if SuffixLess(b[0], a[0]) then [b[0]] + Merge(a, b[1..])
    else [a[0]] + Merge(a[1..], b)
  }

  /** The committed entries of a range: base and delta, interleaved. */
  function Committed(index: Index, attribute: string, start: Start): (r: seq<Fact>)
    ensures forall f :: f in r <==> (f in index.base || f in index.delta) && InSpan(f, attribute, start)
  {
    Merge(Range(index.base, attribute, start), Range(index.delta, attribute, start))
  }

  /** What one uninterrupted walk reads from the start entity on, committed and pending interleaved. */
  function Walked(index: Index, attribute: string, from: nat): (r: seq<Fact>)
    ensures forall f :: f in r <==> f in Held(index) && InSpan(f, attribute, FromEntity(from))
  {
    Merge(Committed(index, attribute, FromEntity(from)), Range(index.pending, attribute, FromEntity(from)))
  }

  /** The entries of that walk that are visible at a transaction. */
  function Entries(index: Index, n: nat, attribute: string, from: nat): (r: seq<Fact>)
    ensures forall f :: f in r <==> f in Held(index) && InSpan(f, attribute, FromEntity(from)) && f.txCount <= n
  {
    AsOf(Walked(index, attribute, from), n)
  }

  // ── One entity's windows ───────────────────────────────────────────────────

  function IntervalOf(f: Fact): Interval {
    Interval(f.triple.value, f.from, f.to)
  }

  predicate CancelsInterval(r: Fact, i: Interval) {
    !r.asserted && r.triple.value == i.value && (Unscoped(r) || IntervalOf(r) == i)
  }

  predicate UpholdsInterval(run: seq<Fact>, a: Fact, i: Interval) {
    && a in run && a.asserted && IntervalOf(a) == i && a.txCount > 0
    && forall r :: r in run && CancelsInterval(r, i) ==> r.txCount < a.txCount
  }

  /** In force among a run of entries, whatever attributes they have: the reducer sees values and windows only. */
  predicate NetAny(run: seq<Fact>, i: Interval) {
    exists a :: a in run && UpholdsInterval(run, a, i)
  }

  predicate Less(i: Interval, j: Interval) {
    || ValueLess(i.value, j.value)
    || (i.value == j.value && (i.from < j.from || (i.from == j.from && i.to < j.to)))
  }

  lemma LessIsTransitive(i: Interval, j: Interval, k: Interval)
    requires Less(i, j) && Less(j, k)
    ensures Less(i, k)
  {
    hide ValueLess;
    if ValueLess(i.value, j.value) && ValueLess(j.value, k.value) {
      ValueLessIsTransitive(i.value, j.value, k.value);
    }
  }

  lemma LessIsTotal(i: Interval, j: Interval)
    ensures i == j || Less(i, j) || Less(j, i)
  {
    hide ValueLess;
    ValueLessIsTotal(i.value, j.value);
  }

  lemma NotLessItself(i: Interval)
    ensures !Less(i, i)
  {
    hide ValueLess;
    ValueNotLessItself(i.value);
  }

  lemma LessIsAsymmetric()
    ensures Asymmetric(Less)
  {
    hide Less;
    forall i, j | Less(i, j)
      ensures !Less(j, i)
    {
      if Less(j, i) {
        LessIsTransitive(i, j, i);
        NotLessItself(i);
      }
    }
  }

  ghost predicate Canonical(windows: seq<Interval>) {
    Ascends(windows, Less)
  }

  function Insert(windows: seq<Interval>, i: Interval): (r: seq<Interval>)
    ensures forall x :: x in r <==> x == i || x in windows
  {
    if windows == [] || Less(i, windows[0]) then [i] + windows
    else if windows[0] == i then windows
    else [windows[0]] + Insert(windows[1..], i)
  }

  lemma {:induction false} InsertKeepsOrder(windows: seq<Interval>, i: Interval)
    requires Canonical(windows)
    ensures Canonical(Insert(windows, i))
  {
    hide Less;
    if windows == [] {
      AscendsCons(i, [], Less);
    } else {
      AscendsTail(windows, Less);
      if Less(i, windows[0]) {
        forall x | x in windows
          ensures Less(i, x)
        {
          assert windows == [windows[0]] + windows[1..];
          if x != windows[0] {
            LessIsTransitive(i, windows[0], x);
          }
        }
        AscendsCons(i, windows, Less);
      } else if windows[0] != i {
        InsertKeepsOrder(windows[1..], i);
        LessIsTotal(i, windows[0]);
        AscendsCons(windows[0], Insert(windows[1..], i), Less);
      }
    }
  }

  function FlushUpTo(run: seq<Fact>, k: nat): seq<Interval>
    requires k <= |run|
  {
    if k == 0 then []
    else
      var windows, f := FlushUpTo(run, k - 1), run[k - 1];
      if f.asserted && NetAny(run, IntervalOf(f)) then Insert(windows, IntervalOf(f)) else windows
  }

  /** What the cursor emits for a run of entries: its windows in force, in canonical order. */
  function Flush(run: seq<Fact>): seq<Interval> {
    FlushUpTo(run, |run|)
  }

  ghost predicate AssertedUpTo(run: seq<Fact>, k: nat, i: Interval)
    requires k <= |run|
  {
    exists j :: 0 <= j < k && run[j].asserted && IntervalOf(run[j]) == i
  }

  lemma AssertedOneMore(run: seq<Fact>, k: nat, i: Interval)
    requires 0 < k <= |run|
    ensures AssertedUpTo(run, k, i) <==> AssertedUpTo(run, k - 1, i) || (run[k - 1].asserted && IntervalOf(run[k - 1]) == i)
  {}

  lemma {:induction false} FlushUpToLists(run: seq<Fact>, k: nat, i: Interval)
    requires k <= |run|
    ensures Canonical(FlushUpTo(run, k))
    ensures i in FlushUpTo(run, k) <==> NetAny(run, i) && AssertedUpTo(run, k, i)
  {
    if k > 0 {
      hide NetAny, Canonical, AssertedUpTo, Insert;
      FlushUpToLists(run, k - 1, i);
      InsertKeepsOrder(FlushUpTo(run, k - 1), IntervalOf(run[k - 1]));
      AssertedOneMore(run, k, i);
    }
  }

  lemma FlushLists(run: seq<Fact>, i: Interval)
    ensures Canonical(Flush(run))
    ensures i in Flush(run) <==> NetAny(run, i)
  {
    FlushUpToLists(run, |run|, i);
  }

  lemma CanonicalDistinct(windows: seq<Interval>)
    requires Canonical(windows)
    ensures Distinct(windows)
  {
    LessIsAsymmetric();
  }

  /** What a run emits depends on which entries it holds only. */
  lemma FlushIgnoresOrder(a: seq<Fact>, b: seq<Fact>)
    requires forall f :: f in a <==> f in b
    ensures Flush(a) == Flush(b)
  {
    hide Flush, Canonical;
    forall i
      ensures i in Flush(a) <==> i in Flush(b)
    {
      FlushLists(a, i);
      FlushLists(b, i);
      SameNet(a, b, i);
    }
    FlushLists(a, Interval(Null, 0, 0));
    FlushLists(b, Interval(Null, 0, 0));
    LessIsAsymmetric();
    AscendsUnique(Flush(a), Flush(b), Less);
  }

  lemma SameNet(a: seq<Fact>, b: seq<Fact>, i: Interval)
    requires forall f :: f in a <==> f in b
    ensures NetAny(a, i) <==> NetAny(b, i)
  {
    if NetAny(a, i) {
      var f :| f in a && UpholdsInterval(a, f, i);
      assert UpholdsInterval(b, f, i);
    }
    if NetAny(b, i) {
      var f :| f in b && UpholdsInterval(b, f, i);
      assert UpholdsInterval(a, f, i);
    }
  }

  /** Exactly the windows of one entity's attribute in force, each once. */
  ghost predicate ListsAll(log: seq<Fact>, e: nat, attribute: string, windows: seq<Interval>) {
    Distinct(windows) && Lists(log, e, attribute, windows)
  }

  /** The run holds exactly the facts of one entity's attribute. */
  ghost predicate RunOf(log: seq<Fact>, e: nat, attribute: string, run: seq<Fact>) {
    forall f :: f in run <==> f in log && f.triple.entity == e && f.triple.attribute == attribute
  }

  lemma RunNet(log: seq<Fact>, e: nat, attribute: string, run: seq<Fact>, i: Interval)
    requires RunOf(log, e, attribute, run)
    ensures NetAny(run, i) <==> Net(log, Window(Triple(e, attribute, i.value), i.from, i.to))
  {
    var w := Window(Triple(e, attribute, i.value), i.from, i.to);
    if NetAny(run, i) {
      var a :| a in run && UpholdsInterval(run, a, i);
      assert a.triple == w.triple;
      assert Upholds(log, a, w);
    }
    if Net(log, w) {
      var a :| Upholds(log, a, w);
      assert UpholdsInterval(run, a, i);
    }
  }

  lemma RunFlushes(log: seq<Fact>, e: nat, attribute: string, run: seq<Fact>)
    requires RunOf(log, e, attribute, run)
    ensures ListsAll(log, e, attribute, Flush(run))
  {
    hide Flush, Canonical, NetAny, Net;
    var windows := Flush(run);
    forall i: Interval
      ensures i in windows <==> Net(log, Window(Triple(e, attribute, i.value), i.from, i.to))
    {
      FlushLists(run, i);
      RunNet(log, e, attribute, run, i);
    }
    FlushLists(run, Interval(Null, 0, 0));
    CanonicalDistinct(windows);
  }

  // ── The entity cursor ──────────────────────────────────────────────────────

  function ExactEntries(entries: seq<Fact>, n: nat, e: nat, attribute: string): (r: seq<Fact>)
    ensures forall f :: f in r <==> f in entries && f.txCount <= n && f.triple.entity == e && InExactRange(attribute, f.triple.attribute)
  {
    if entries == [] then []
    else
      var f := entries[0];
      (if f.txCount <= n && f.triple.entity == e && InExactRange(attribute, f.triple.attribute) then [f] else [])
      + ExactEntries(entries[1..], n, e, attribute)
  }

  function EntityWindows(log: seq<Fact>, n: nat, e: nat, attribute: string): seq<Interval> {
    Flush(ExactEntries(log, n, e, attribute))
  }

  /** The entity cursor serves exactly the queried attribute, for every log. */
  lemma EntityCursorIsExact(log: seq<Fact>, n: nat, e: nat, attribute: string)
    ensures ListsAll(AsOf(log, n), e, attribute, EntityWindows(log, n, e, attribute))
  {
    hide Flush;
    var run := ExactEntries(log, n, e, attribute);
    forall f
      ensures f in run <==> f in AsOf(log, n) && f.triple.entity == e && f.triple.attribute == attribute
    {
      ExactRange(attribute, f.triple.attribute);
    }
    RunFlushes(AsOf(log, n), e, attribute, run);
  }

  /** The entity cursor reads the index; what it delivers depends on which facts that holds. */
  lemma EntityWindowsAreTheLogs(index: Index, log: seq<Fact>, n: nat, e: nat, attribute: string)
    requires Indexes(index, log)
    ensures EntityWindows(Held(index), n, e, attribute) == EntityWindows(log, n, e, attribute)
  {
    hide Flush, InExactRange;
    FlushIgnoresOrder(ExactEntries(Held(index), n, e, attribute), ExactEntries(log, n, e, attribute));
  }

  // ── The attribute cursor ───────────────────────────────────────────────────

  /** Maximal stretches of entries of one entity. */
  function RunsOf(entries: seq<Fact>): (runs: seq<seq<Fact>>)
    ensures forall k :: 0 <= k < |runs| ==> runs[k] != []
    ensures runs == [] <==> entries == []
  {
    if entries == [] then []
    else
      var front, f := RunsOf(entries[..|entries| - 1]), entries[|entries| - 1];
      if front != [] && front[|front| - 1][0].triple.entity == f.triple.entity
      then front[..|front| - 1] + [front[|front| - 1] + [f]]
      else front + [[f]]
  }

  function EntityOf(run: seq<Fact>): nat
    requires run != []
  {
    run[0].triple.entity
  }

  /** The groups a consumer sees: what each run emits, adjacent emissions of one entity joined. */
  function GroupsFrom(runs: seq<seq<Fact>>): seq<EntityGroup>
    requires forall k :: 0 <= k < |runs| ==> runs[k] != []
  {
    if runs == [] then []
    else
      var front, run := GroupsFrom(runs[..|runs| - 1]), runs[|runs| - 1];
      Joined(front, EntityGroup(EntityOf(run), Flush(run)))
  }

  function Joined(groups: seq<EntityGroup>, g: EntityGroup): seq<EntityGroup> {
    var n := |groups| - 1;
    if g.windows == [] then groups
    else if groups != [] && groups[n].entity == g.entity then groups[..n] + [EntityGroup(g.entity, groups[n].windows + g.windows)]
    else groups + [g]
  }

  /** Everything the attribute cursor delivers from a start entity on. */
  function Listing(index: Index, n: nat, attribute: string, from: nat): seq<EntityGroup> {
    GroupsFrom(RunsOf(Entries(index, n, attribute, from)))
  }

  /** Neighbours differ and no group is empty. */
  ghost predicate Apart(groups: seq<EntityGroup>) {
    && (forall i :: 0 <= i < |groups| ==> groups[i].windows != [])
    && (forall i :: 0 <= i < |groups| - 1 ==> groups[i].entity != groups[i + 1].entity)
  }

  lemma JoinedIsApart(groups: seq<EntityGroup>, g: EntityGroup)
    requires Apart(groups)
    ensures Apart(Joined(groups, g))
  {}

  lemma {:induction false} GroupsAreApart(runs: seq<seq<Fact>>)
    requires forall k :: 0 <= k < |runs| ==> runs[k] != []
    ensures Apart(GroupsFrom(runs))
  {
    hide Flush, Apart, Joined;
    if runs == [] {
      NoGroupsAreApart();
    } else {
      var front, run := runs[..|runs| - 1], runs[|runs| - 1];
      GroupsAreApart(front);
      JoinedIsApart(GroupsFrom(front), EntityGroup(EntityOf(run), Flush(run)));
    }
  }

  lemma NoGroupsAreApart()
    ensures Apart([])
  {}

  function OfEntity(entries: seq<Fact>, e: nat): (r: seq<Fact>)
    ensures forall f :: f in r <==> f in entries && f.triple.entity == e
  {
    if entries == [] then []
    else
      var n := |entries| - 1;
      assert entries == entries[..n] + [entries[n]];
      OfEntity(entries[..n], e) + if entries[n].triple.entity == e then [entries[n]] else []
  }

  ghost predicate EntitySorted(entries: seq<Fact>) {
    forall i, j :: 0 <= i < j < |entries| ==> entries[i].triple.entity <= entries[j].triple.entity
  }

  ghost predicate RunsAscend(runs: seq<seq<Fact>>) {
    && (forall k :: 0 <= k < |runs| ==> runs[k] != [])
    && (forall j, k :: 0 <= j < k < |runs| ==> EntityOf(runs[j]) < EntityOf(runs[k]))
  }

  ghost predicate HasRun(runs: seq<seq<Fact>>, e: nat)
    requires forall k :: 0 <= k < |runs| ==> runs[k] != []
  {
    exists k :: 0 <= k < |runs| && EntityOf(runs[k]) == e
  }

  ghost predicate EndsWith(entries: seq<Fact>, runs: seq<seq<Fact>>)
    requires forall k :: 0 <= k < |runs| ==> runs[k] != []
  {
    runs != [] ==> entries != [] && EntityOf(runs[|runs| - 1]) == entries[|entries| - 1].triple.entity
  }

  /** One run per entity, holding all of the entity's entries; the last run is the last entry's. */
  ghost predicate RunPerEntity(entries: seq<Fact>, runs: seq<seq<Fact>>) {
    && RunsAscend(runs)
    && EndsWith(entries, runs)
    && (forall k :: 0 <= k < |runs| ==> runs[k] == OfEntity(entries, EntityOf(runs[k])))
    && (forall e: nat :: OfEntity(entries, e) != [] ==> HasRun(runs, e))
  }

  function Extended(runs: seq<seq<Fact>>, f: Fact): seq<seq<Fact>>
    requires forall k :: 0 <= k < |runs| ==> runs[k] != []
  {
    var m := |runs| - 1;
    if runs != [] && EntityOf(runs[m]) == f.triple.entity then runs[..m] + [runs[m] + [f]] else runs + [[f]]
  }

  lemma {:induction false} SortedRuns(entries: seq<Fact>)
    requires EntitySorted(entries)
    ensures RunPerEntity(entries, RunsOf(entries))
  {
    if entries != [] {
      hide RunPerEntity, EntitySorted, RunsOf, Extended;
      var n := |entries| - 1;
      var front := entries[..n];
      SortedFront(entries);
      SortedRuns(front);
      assert entries == front + [entries[n]];
      RunsStep(front, RunsOf(front), entries[n]);
      RunsUnfold(entries);
    } else {
      NoRuns();
    }
  }

  lemma RunsUnfold(entries: seq<Fact>)
    requires entries != []
    ensures RunsOf(entries) == Extended(RunsOf(entries[..|entries| - 1]), entries[|entries| - 1])
  {}

  lemma NoRuns()
    ensures RunPerEntity([], RunsOf([]))
  {}

  lemma SortedFront(entries: seq<Fact>)
    requires EntitySorted(entries) && entries != []
    ensures EntitySorted(entries[..|entries| - 1])
    ensures forall f :: f in entries[..|entries| - 1] ==> f.triple.entity <= entries[|entries| - 1].triple.entity
  {}

  lemma OfEntitySnoc(entries: seq<Fact>, f: Fact, e: nat)
    ensures OfEntity(entries + [f], e) == OfEntity(entries, e) + if f.triple.entity == e then [f] else []
  {
    assert (entries + [f])[..|entries|] == entries;
  }

  lemma NoneOf(entries: seq<Fact>, e: nat)
    requires forall f :: f in entries ==> f.triple.entity < e
    ensures OfEntity(entries, e) == []
  {
    NoMembers(OfEntity(entries, e));
  }

  lemma StepAscends(entries: seq<Fact>, runs: seq<seq<Fact>>, f: Fact)
    requires RunsAscend(runs) && EndsWith(entries, runs) && EntitySorted(entries + [f])
    ensures RunsAscend(Extended(runs, f)) && EndsWith(entries + [f], Extended(runs, f))
  {
    if runs != [] {
      NotBelowLast(entries, f);
      hide EntitySorted;
      var m := |runs| - 1;
      if EntityOf(runs[m]) == f.triple.entity {
        assert EntityOf(runs[m] + [f]) == EntityOf(runs[m]);
      }
    }
  }

  lemma NotBelowLast(entries: seq<Fact>, f: Fact)
    requires EntitySorted(entries + [f]) && entries != []
    ensures entries[|entries| - 1].triple.entity <= f.triple.entity
  {
    var whole := entries + [f];
    assert whole[|entries| - 1].triple.entity <= whole[|entries|].triple.entity;
  }

  lemma StepHolds(entries: seq<Fact>, runs: seq<seq<Fact>>, f: Fact, k: nat)
    requires RunPerEntity(entries, runs) && EntitySorted(entries + [f]) && (runs == [] <==> entries == [])
    requires k < |Extended(runs, f)| && RunsAscend(Extended(runs, f)) && EndsWith(entries + [f], Extended(runs, f))
    ensures var more := Extended(runs, f); more[k] == OfEntity(entries + [f], EntityOf(more[k]))
  {
    hide OfEntity, HasRun;
    var more := Extended(runs, f);
    OfEntitySnoc(entries, f, EntityOf(more[k]));
    if k < |more| - 1 {
      assert more[k] == runs[k] && runs[k] + [] == runs[k];
    } else if runs == [] || EntityOf(runs[|runs| - 1]) != f.triple.entity {
      NewRun(entries, f);
    }
  }

  lemma StepCovers(entries: seq<Fact>, runs: seq<seq<Fact>>, f: Fact, e: nat)
    requires RunsAscend(runs) && (OfEntity(entries, e) != [] ==> HasRun(runs, e)) && OfEntity(entries + [f], e) != []
    ensures HasRun(Extended(runs, f), e)
  {
    hide OfEntity;
    var more := Extended(runs, f);
    OfEntitySnoc(entries, f, e);
    if e == f.triple.entity {
      assert EntityOf(more[|more| - 1]) == e;
    } else {
      assert OfEntity(entries, e) + [] == OfEntity(entries, e);
      var k :| 0 <= k < |runs| && EntityOf(runs[k]) == e;
      assert EntityOf(more[k]) == e;
    }
  }

  lemma RunsStep(entries: seq<Fact>, runs: seq<seq<Fact>>, f: Fact)
    requires RunPerEntity(entries, runs) && EntitySorted(entries + [f]) && (runs == [] <==> entries == [])
    ensures RunPerEntity(entries + [f], Extended(runs, f))
  {
    hide OfEntity, EntitySorted, Extended, HasRun, EndsWith;
    var whole, more := entries + [f], Extended(runs, f);
    StepAscends(entries, runs, f);
    forall k | 0 <= k < |more|
      ensures more[k] == OfEntity(whole, EntityOf(more[k]))
    {
      StepHolds(entries, runs, f, k);
    }
    forall e: nat | OfEntity(whole, e) != []
      ensures HasRun(more, e)
    {
      StepCovers(entries, runs, f, e);
    }
  }

  lemma AllBelow(entries: seq<Fact>, f: Fact, i: nat)
    requires EntitySorted(entries + [f]) && i < |entries| && entries[|entries| - 1].triple.entity != f.triple.entity
    ensures entries[i].triple.entity < f.triple.entity
  {
    NotBelowLast(entries, f);
    var whole, n := entries + [f], |entries| - 1;
    assert i == n || whole[i].triple.entity <= whole[n].triple.entity;
  }

  lemma NewRun(entries: seq<Fact>, f: Fact)
    requires EntitySorted(entries + [f]) && (entries == [] || entries[|entries| - 1].triple.entity != f.triple.entity)
    ensures OfEntity(entries, f.triple.entity) + [f] == [f]
  {
    hide EntitySorted, OfEntity;
    forall i | 0 <= i < |entries|
      ensures entries[i].triple.entity < f.triple.entity
    {
      AllBelow(entries, f, i);
    }
    NoneOf(entries, f.triple.entity);
  }

  /** What the groups of ascending runs hold for an entity. */
  ghost function EmittedBy(runs: seq<seq<Fact>>, k: nat): Option<seq<Interval>>
    requires k < |runs|
  {
    if Flush(runs[k]) == [] then None else Some(Flush(runs[k]))
  }

  /** In order, none past the last run, and each run's entity holds what the run emits. */
  ghost predicate HoldRuns(groups: seq<EntityGroup>, runs: seq<seq<Fact>>)
    requires RunsAscend(runs)
  {
    && InOrder(groups)
    && (forall i :: 0 <= i < |groups| ==> runs != [] && groups[i].entity <= EntityOf(runs[|runs| - 1]))
    && (forall k :: 0 <= k < |runs| ==> WindowsFor(groups, EntityOf(runs[k])) == EmittedBy(runs, k))
    && (forall e: nat :: WindowsFor(groups, e).Some? ==> HasRun(runs, e))
  }

  lemma RunsFront(runs: seq<seq<Fact>>)
    requires RunsAscend(runs) && runs != []
    ensures RunsAscend(runs[..|runs| - 1])
    ensures forall k :: 0 <= k < |runs| ==> runs[k] != []
  {}

  lemma {:induction false} AscendingGroups(runs: seq<seq<Fact>>)
    requires RunsAscend(runs)
    ensures HoldRuns(GroupsFrom(runs), runs)
  {
    hide Flush, HoldRuns, RunsAscend;
    if runs == [] {
      NoGroups();
    } else {
      var m := |runs| - 1;
      RunsFront(runs);
      AscendingGroups(runs[..m]);
      assert runs == runs[..m] + [runs[m]];
      OneMoreRun(GroupsFrom(runs[..m]), runs[..m], runs[m]);
    }
  }

  lemma NoGroups()
    ensures HoldRuns(GroupsFrom([]), [])
  {}

  lemma JoinedLookup(groups: seq<EntityGroup>, g: EntityGroup, e: nat)
    requires InOrder(groups) && forall i :: 0 <= i < |groups| ==> groups[i].entity < g.entity
    ensures InOrder(Joined(groups, g))
    ensures WindowsFor(Joined(groups, g), e) == if e != g.entity then WindowsFor(groups, e) else if g.windows == [] then None else Some(g.windows)
    ensures forall i :: 0 <= i < |Joined(groups, g)| ==> Joined(groups, g)[i].entity <= g.entity
  {
    LookupMissing(groups, g.entity);
    LookupSnoc(groups, g, e);
  }

  lemma OneMoreRun(groups: seq<EntityGroup>, runs: seq<seq<Fact>>, run: seq<Fact>)
    requires RunsAscend(runs) && RunsAscend(runs + [run]) && HoldRuns(groups, runs) && run != []
    ensures HoldRuns(Joined(groups, EntityGroup(EntityOf(run), Flush(run))), runs + [run])
  {
    hide Flush, Joined, WindowsFor;
    var g, more := EntityGroup(EntityOf(run), Flush(run)), runs + [run];
    var joined := Joined(groups, g);
    forall k | 0 <= k < |runs|
      ensures EntityOf(runs[k]) < g.entity
    {
      assert more[k] == runs[k] && more[|runs|] == run;
    }
    JoinedLookup(groups, g, g.entity);
    forall k | 0 <= k < |more|
      ensures WindowsFor(joined, EntityOf(more[k])) == EmittedBy(more, k)
    {
      JoinedLookup(groups, g, EntityOf(more[k]));
      assert k < |runs| ==> more[k] == runs[k];
    }
    forall e: nat | WindowsFor(joined, e).Some?
      ensures HasRun(more, e)
    {
      JoinedLookup(groups, g, e);
      if e == g.entity {
        assert EntityOf(more[|runs|]) == e;
      } else {
        var k :| 0 <= k < |runs| && EntityOf(runs[k]) == e;
        assert EntityOf(more[k]) == e;
      }
    }
  }

  lemma SortedLookup(entries: seq<Fact>, e: nat)
    requires EntitySorted(entries)
    ensures InOrder(GroupsFrom(RunsOf(entries)))
    ensures var windows := Flush(OfEntity(entries, e));
            WindowsFor(GroupsFrom(RunsOf(entries)), e) == if windows == [] then None else Some(windows)
  {
    hide Flush, GroupsFrom, EntitySorted, RunsOf, OfEntity;
    var runs := RunsOf(entries);
    SortedRuns(entries);
    AscendingGroups(runs);
    if HasRun(runs, e) {
      var k :| 0 <= k < |runs| && EntityOf(runs[k]) == e;
      assert WindowsFor(GroupsFrom(runs), EntityOf(runs[k])) == EmittedBy(runs, k);
    } else {
      NothingEmitted();
    }
  }

  lemma NothingEmitted()
    ensures Flush([]) == []
  {}

  // ── What the attribute cursor serves ───────────────────────────────────────

  /** The entries of the queried attribute visible at a transaction, in place. */
  function Pick(entries: seq<Fact>, attribute: string, n: nat): (r: seq<Fact>)
    ensures forall f :: f in r <==> f in entries && f.triple.attribute == attribute && f.txCount <= n
  {
    if entries == [] then []
    else (if entries[0].triple.attribute == attribute && entries[0].txCount <= n then [entries[0]] else []) + Pick(entries[1..], attribute, n)
  }

  lemma {:induction false} AsOfIsPick(entries: seq<Fact>, attribute: string, n: nat)
    requires forall f :: f in AsOf(entries, n) ==> f.triple.attribute == attribute
    ensures AsOf(entries, n) == Pick(entries, attribute, n)
  {
    if entries != [] {
      assert forall f :: f in AsOf(entries[1..], n) ==> f in AsOf(entries, n);
      AsOfIsPick(entries[1..], attribute, n);
    }
  }

  /** Every entry comes at or before each later entry of the queried attribute. */
  ghost predicate Leads(entries: seq<Fact>, attribute: string) {
    forall i, j :: 0 <= i < j < |entries| && entries[j].triple.attribute == attribute ==> !SuffixLess(entries[j], entries[i])
  }

  /** The entry comes at or before every one of the attribute's. */
  ghost predicate LeadsAll(f: Fact, entries: seq<Fact>, attribute: string) {
    forall g :: g in entries && g.triple.attribute == attribute ==> !SuffixLess(g, f)
  }

  lemma LeadsTail(entries: seq<Fact>, attribute: string)
    requires Leads(entries, attribute) && entries != []
    ensures Leads(entries[1..], attribute) && LeadsAll(entries[0], entries[1..], attribute)
  {
    hide SuffixLess;
    var rest := entries[1..];
    assert forall i :: 0 <= i < |rest| ==> rest[i] == entries[i + 1];
  }

  lemma LeadsCons(f: Fact, entries: seq<Fact>, attribute: string)
    requires Leads(entries, attribute) && LeadsAll(f, entries, attribute)
    ensures Leads([f] + entries, attribute)
  {
    hide SuffixLess;
    assert forall i :: 0 <= i < |entries| ==> entries[i] in entries;
  }

  lemma NoneLead(attribute: string)
    ensures Leads([], attribute)
  {}

  lemma SortedCons(f: Fact, entries: seq<Fact>)
    requires EntitySorted(entries) && forall g :: g in entries ==> f.triple.entity <= g.triple.entity
    ensures EntitySorted([f] + entries)
  {
    assert forall i :: 0 <= i < |entries| ==> entries[i] in entries;
  }

  lemma {:induction false} PickSorted(entries: seq<Fact>, attribute: string, n: nat)
    requires Leads(entries, attribute)
    ensures EntitySorted(Pick(entries, attribute, n))
  {
    hide TimesLess;
    if entries != [] {
      LeadsTail(entries, attribute);
      PickSorted(entries[1..], attribute, n);
      SortedCons(entries[0], Pick(entries[1..], attribute, n));
      assert [] + Pick(entries[1..], attribute, n) == Pick(entries[1..], attribute, n);
    }
  }

  /** What goes before a head goes before all that the head leads. */
  lemma LeadsThrough(f: Fact, entries: seq<Fact>, attribute: string)
    requires entries != [] && !SuffixLess(entries[0], f) && LeadsAll(entries[0], entries[1..], attribute)
    ensures LeadsAll(f, entries, attribute)
  {
    hide SuffixLess;
    forall g | g in entries && g.triple.attribute == attribute
      ensures !SuffixLess(g, f)
    {
      assert entries == [entries[0]] + entries[1..];
      if g in entries[1..] {
        SuffixAtMost(f, entries[0], g);
      }
    }
  }

  /** Interleaving keeps the queried attribute's entries in order, whatever else is among them. */
  lemma {:induction false} MergeLeads(a: seq<Fact>, b: seq<Fact>, attribute: string)
    requires Leads(a, attribute) && Leads(b, attribute)
    ensures Leads(Merge(a, b), attribute)
    decreases |a| + |b|
  {
    hide Leads, LeadsAll, SuffixLess;
    if a != [] && b != [] {
      LeadsTail(a, attribute);
      LeadsTail(b, attribute);
      if SuffixLess(b[0], a[0]) {
        MergeLeads(a, b[1..], attribute);
        SuffixIsAsymmetric(b[0], a[0]);
        LeadsThrough(b[0], a, attribute);
        LeadsBoth(b[0], a, b[1..], Merge(a, b[1..]), attribute);
        LeadsCons(b[0], Merge(a, b[1..]), attribute);
      } else {
        MergeLeads(a[1..], b, attribute);
        LeadsThrough(a[0], b, attribute);
        LeadsBoth(a[0], a[1..], b, Merge(a[1..], b), attribute);
        LeadsCons(a[0], Merge(a[1..], b), attribute);
      }
    }
  }

  lemma LeadsBoth(f: Fact, a: seq<Fact>, b: seq<Fact>, merged: seq<Fact>, attribute: string)
    requires LeadsAll(f, a, attribute) && LeadsAll(f, b, attribute) && forall g :: g in merged <==> g in a || g in b
    ensures LeadsAll(f, merged, attribute)
  {
    hide SuffixLess;
  }

  /** Nothing in range comes before the queried attribute's entries in key order. */
  lemma {:induction false} RangeLeads(entries: seq<Fact>, attribute: string, start: Start)
    requires KeyOrdered(entries)
    ensures Leads(Range(entries, attribute, start), attribute)
  {
    hide Ascends, Leads, Before, SuffixLess, AtOrPast, NextPrefix;
    if entries == [] {
      NoneLead(attribute);
    } else {
      var f, rest := entries[0], Range(entries[1..], attribute, start);
      AscendsTail(entries, KeyLess);
      RangeLeads(entries[1..], attribute, start);
      if InSpan(f, attribute, start) {
        forall g | g in rest && g.triple.attribute == attribute
          ensures !SuffixLess(g, f)
        {
          assert KeyLess(f, g);
          SuffixIsAsymmetric(f, g);
        }
        LeadsCons(f, rest, attribute);
      } else {
        assert [] + rest == rest;
      }
    }
  }

  lemma WalkedLeads(index: Index, attribute: string, from: nat)
    requires KeyOrdered(index.base) && KeyOrdered(index.delta) && KeyOrdered(index.pending)
    ensures Leads(Walked(index, attribute, from), attribute)
  {
    hide KeyOrdered, Leads, InSpan;
    var start := FromEntity(from);
    RangeLeads(index.base, attribute, start);
    RangeLeads(index.delta, attribute, start);
    RangeLeads(index.pending, attribute, start);
    MergeLeads(Range(index.base, attribute, start), Range(index.delta, attribute, start), attribute);
    MergeLeads(Committed(index, attribute, start), Range(index.pending, attribute, start), attribute);
  }

  /** When nothing strays at the transaction, the cursor's entries are the attribute's, in entity order. */
  lemma EntriesSorted(index: Index, log: seq<Fact>, n: nat, attribute: string, from: nat)
    requires Indexes(index, log) && StrayFree(AsOf(log, n), attribute)
    ensures EntitySorted(Entries(index, n, attribute, from))
    ensures forall f :: f in Entries(index, n, attribute, from) ==> f.triple.attribute == attribute
  {
    hide EntitySorted, KeyOrdered, Leads, InRange, Apiece, Walked, Held;
    WalkedLeads(index, attribute, from);
    PickSorted(Walked(index, attribute, from), attribute, n);
    AsOfIsPick(Walked(index, attribute, from), attribute, n);
  }

  /** The listing holds, for each entity from the start on, exactly its windows in force. */
  ghost predicate Served(log: seq<Fact>, n: nat, attribute: string, from: nat, listing: seq<EntityGroup>) {
    && InOrder(listing)
    && (forall e: nat :: if e < from then WindowsFor(listing, e) == None else ListsAll(AsOf(log, n), e, attribute, WindowsIn(listing, e)))
  }

  lemma ListingWindows(index: Index, log: seq<Fact>, n: nat, attribute: string, from: nat, e: nat)
    requires attribute != "" && Indexes(index, log) && StrayFree(AsOf(log, n), attribute)
    ensures var windows := EntityWindows(log, n, e, attribute);
            WindowsFor(Listing(index, n, attribute, from), e) == if e < from || windows == [] then None else Some(windows)
  {
    hide Flush, GroupsFrom, EntitySorted, InRange, InExactRange;
    var entries := Entries(index, n, attribute, from);
    EntriesSorted(index, log, n, attribute, from);
    SortedLookup(entries, e);
    var run := OfEntity(entries, e);
    if e < from {
      NoMembers(run);
      NothingEmitted();
    } else {
      var exact := ExactEntries(log, n, e, attribute);
      forall f
        ensures f in run <==> f in exact
      {
        ExactRange(attribute, f.triple.attribute);
        RangeHoldsItself(attribute);
      }
      FlushIgnoresOrder(run, exact);
    }
  }

  /** When nothing strays at the transaction, the attribute cursor serves exactly the queried attribute. */
  lemma StrayFreeIsServed(index: Index, log: seq<Fact>, n: nat, attribute: string, from: nat)
    requires attribute != "" && Indexes(index, log) && StrayFree(AsOf(log, n), attribute)
    ensures Served(log, n, attribute, from, Listing(index, n, attribute, from))
  {
    hide Listing, EntityWindows, ListsAll, InRange, Entries;
    var listing := Listing(index, n, attribute, from);
    ListingInOrder(index, log, n, attribute, from);
    forall e: nat
      ensures if e < from then WindowsFor(listing, e) == None else ListsAll(AsOf(log, n), e, attribute, WindowsIn(listing, e))
    {
      ListingWindows(index, log, n, attribute, from, e);
      EntityCursorIsExact(log, n, e, attribute);
    }
  }

  lemma ListingInOrder(index: Index, log: seq<Fact>, n: nat, attribute: string, from: nat)
    requires Indexes(index, log) && StrayFree(AsOf(log, n), attribute)
    ensures InOrder(Listing(index, n, attribute, from))
  {
    hide Flush, GroupsFrom, EntitySorted, InRange;
    EntriesSorted(index, log, n, attribute, from);
    SortedLookup(Entries(index, n, attribute, from), 0);
  }

  /** Starting after an entity delivers what the full listing holds past it. */
  lemma ListingResumes(index: Index, log: seq<Fact>, n: nat, attribute: string, last: nat)
    requires attribute != "" && Indexes(index, log) && StrayFree(AsOf(log, n), attribute)
    ensures var whole := Listing(index, n, attribute, 0);
            Listing(index, n, attribute, last + 1) == whole[StartAfter(whole, last)..]
  {
    hide Listing, EntityWindows, InRange;
    var whole, rest := Listing(index, n, attribute, 0), Listing(index, n, attribute, last + 1);
    ListingInOrder(index, log, n, attribute, 0);
    ListingInOrder(index, log, n, attribute, last + 1);
    forall e: nat
      ensures WindowsFor(rest, e) == WindowsFor(whole[StartAfter(whole, last)..], e)
    {
      ListingWindows(index, log, n, attribute, 0, e);
      ListingWindows(index, log, n, attribute, last + 1, e);
      LookupAfter(whole, last, e);
    }
    OrderedUnique(rest, whole[StartAfter(whole, last)..]);
  }

  // ── When something strays ──────────────────────────────────────────────────

  /** A log of one fact, all of it committed. */
  function Alone(f: Fact): Index {
    Index([f], [], [])
  }

  lemma AloneWalked(f: Fact, attribute: string, from: nat)
    requires Stray(attribute, f.triple.attribute)
    ensures Walked(Alone(f), attribute, from) == [f]
  {
    hide InRange;
    var start := FromEntity(from);
    assert [f][1..] == [];
    assert Range([], attribute, start) == [];
    assert Range([f], attribute, start) == [f] + [];
  }

  lemma AloneEntries(f: Fact, n: nat, attribute: string, from: nat)
    requires f.triple.entity <= ENTITY_MAX
    ensures Indexes(Alone(f), [f])
    ensures f.txCount <= n && Stray(attribute, f.triple.attribute) ==> Entries(Alone(f), n, attribute, from) == [f]
  {
    hide InRange, Walked;
    assert Held(Alone(f)) == [f];
    if f.txCount <= n && Stray(attribute, f.triple.attribute) {
      AloneWalked(f, attribute, from);
      assert [f][1..] == [];
      assert AsOf([f], n) == [f] + [];
    }
  }

  lemma AloneRuns(f: Fact)
    ensures RunsOf([f]) == [[f]]
  {
    assert [f][..0] == [];
  }

  lemma AloneGroups(f: Fact)
    ensures GroupsFrom([[f]]) == Joined([], EntityGroup(f.triple.entity, Flush([f])))
  {
    assert [[f]][..0] == [];
  }

  lemma AloneFlush(f: Fact)
    requires f.txCount > 0
    ensures Flush([f]) == if f.asserted then [IntervalOf(f)] else []
  {
    assert [f][0] in [f];
    if f.asserted {
      assert UpholdsInterval([f], f, IntervalOf(f));
    }
    assert FlushUpTo([f], 0) == [];
  }

  /** A lone fact of a straying attribute is served under the queried one, however far on the cursor starts. */
  lemma StrayIsServed(f: Fact, n: nat, attribute: string, from: nat)
    requires 0 < f.txCount <= n && f.triple.entity <= ENTITY_MAX && Stray(attribute, f.triple.attribute)
    ensures Indexes(Alone(f), [f])
    ensures Listing(Alone(f), n, attribute, from) ==
            if f.asserted then [EntityGroup(f.triple.entity, [IntervalOf(f)])] else []
  {
    hide Entries, RunsOf, GroupsFrom, Flush, Indexes, InRange;
    AloneEntries(f, n, attribute, from);
    AloneRuns(f);
    AloneGroups(f);
    AloneFlush(f);
  }

  /** Every log over these attributes is served exactly, at every transaction. */
  ghost predicate AlwaysServed(attributes: set<string>, attribute: string) {
    forall index: Index, log: seq<Fact>, n: nat ::
      Indexes(index, log) && (forall f :: f in log ==> f.triple.attribute in attributes) ==>
        Served(log, n, attribute, 0, Listing(index, n, attribute, 0))
  }

  /** The attribute cursor serves every log over some attributes exactly, if and only if none of them strays into its range. */
  lemma ServedIffNothingStrays(attributes: set<string>, attribute: string)
    requires attribute != ""
    ensures AlwaysServed(attributes, attribute) <==> forall other :: other in attributes ==> !Stray(attribute, other)
  {
    hide Served, Listing, InRange, Indexes;
    if other :| other in attributes && Stray(attribute, other) {
      var f := Fact(Triple(0, other, Null), 0, 1, 0, 1, true);
      StrayIsServed(f, 1, attribute, 0);
      StrayIsWrong(f, attribute);
      assert forall g :: g in [f] ==> g.triple.attribute in attributes;
      assert !Served([f], 1, attribute, 0, Listing(Alone(f), 1, attribute, 0));
    } else {
      forall index: Index, log: seq<Fact>, n: nat | Indexes(index, log) && forall f :: f in log ==> f.triple.attribute in attributes
        ensures Served(log, n, attribute, 0, Listing(index, n, attribute, 0))
      {
        StrayFreeIsServed(index, log, n, attribute, 0);
      }
    }
  }

  lemma StrayIsWrong(f: Fact, attribute: string)
    requires f.asserted && f.txCount == 1 && f.triple.attribute != attribute
    ensures !Served([f], 1, attribute, 0, [EntityGroup(f.triple.entity, [IntervalOf(f)])])
  {
    var listing, i := [EntityGroup(f.triple.entity, [IntervalOf(f)])], IntervalOf(f);
    assert WindowsIn(listing, f.triple.entity) == [i];
    var w := Window(Triple(f.triple.entity, attribute, i.value), i.from, i.to);
    assert !Net(AsOf([f], 1), w);
    assert i in [i];
  }

  /** A log can hold a straying fact and still be served exactly: a retraction of nothing shows nothing. */
  lemma StrayCanBeHarmless(f: Fact, attribute: string)
    requires !f.asserted && f.txCount == 1 && f.triple.entity <= ENTITY_MAX && Stray(attribute, f.triple.attribute)
    ensures !StrayFree(AsOf([f], 1), attribute)
    ensures Served([f], 1, attribute, 0, Listing(Alone(f), 1, attribute, 0))
  {
    hide Listing, InRange;
    StrayIsServed(f, 1, attribute, 0);
    assert f in [f];
    forall e: nat, i: Interval
      ensures !Net(AsOf([f], 1), Window(Triple(e, attribute, i.value), i.from, i.to))
    {}
  }
}
