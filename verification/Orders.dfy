/** The orders the indexes keep: byte order of text and of encoded values, and the order of index keys. */
module Orders {
  import opened Ledger
  import opened Sequences

  // ── Text and values ────────────────────────────────────────────────────────

  /** Byte order of UTF-8 text, which is the order of code points. */
  predicate Before(a: string, b: string) {
    b != "" && (a == "" || a[0] < b[0] || (a[0] == b[0] && Before(a[1..], b[1..])))
  }

  lemma {:induction false} NotBeforeItself(a: string)
    ensures !Before(a, a)
  {
    if a != "" {
      NotBeforeItself(a[1..]);
    }
  }

  lemma {:induction false} BeforeIsTotal(a: string, b: string)
    ensures a == b || Before(a, b) || Before(b, a)
  {
    if a != "" && b != "" && a[0] == b[0] {
      BeforeIsTotal(a[1..], b[1..]);
      assert a == [a[0]] + a[1..] && b == [b[0]] + b[1..];
    }
  }

  lemma {:induction false} BeforeIsTransitive(a: string, b: string, c: string)
    requires Before(a, b) && Before(b, c)
    ensures Before(a, c)
  {
    if a != "" && a[0] == b[0] && b[0] == c[0] {
      BeforeIsTransitive(a[1..], b[1..], c[1..]);
    }
  }

  /** The leading byte of an encoded value. */
  function Tag(v: Value): nat {
    match v
    case Null => 0
    case Boolean(_) => 1
    case Integer(_) => 2
    case Float(_) => 3
    case Text(_) => 4
    case Keyword(_) => 5
    case Ref(_) => 6
  }

  /** Order within one kind of value: integers, floats and references are encoded so that bytes compare as numbers do. */
  predicate SameKindLess(v: Value, w: Value)
    requires Tag(v) == Tag(w)
  {
    match v
    case Null => false
    case Boolean(truth) => !truth && w.truth
    case Integer(number) => number < w.number
    case Float(bits) => bits < w.bits
    case Text(text) => Before(text, w.text)
    case Keyword(name) => Before(name, w.name)
    case Ref(target) => target < w.target
  }

  /** The order of encoded values: the leading byte, then the rest. */
  predicate ValueLess(v: Value, w: Value) {
    Tag(v) < Tag(w) || (Tag(v) == Tag(w) && SameKindLess(v, w))
  }

  lemma ValueNotLessItself(v: Value)
    ensures !ValueLess(v, v)
  {
    match v
    case Text(text) => NotBeforeItself(text);
    case Keyword(name) => NotBeforeItself(name);
    case _ =>
  }

  lemma ValueLessIsTotal(v: Value, w: Value)
    ensures v == w || ValueLess(v, w) || ValueLess(w, v)
  {
    hide Before;
    if Tag(v) == Tag(w) {
      match v
      case Text(text) => BeforeIsTotal(text, w.text);
      case Keyword(name) => BeforeIsTotal(name, w.name);
      case _ =>
    }
  }

  lemma ValueLessIsTransitive(v: Value, w: Value, x: Value)
    requires ValueLess(v, w) && ValueLess(w, x)
    ensures ValueLess(v, x)
  {
    hide Before;
    if Tag(v) == Tag(w) == Tag(x) {
      match v
      case Text(text) => BeforeIsTransitive(text, w.text, x.text);
      case Keyword(name) => BeforeIsTransitive(name, w.name, x.name);
      case _ =>
    }
  }

  // ── Index entries without their attribute ──────────────────────────────────

  /** What is left to compare when entity, window and transaction count agree. */
  predicate RestLess(f: Fact, g: Fact) {
    || ValueLess(f.triple.value, g.triple.value)
    || (f.triple.value == g.triple.value && (f.txId < g.txId || (f.txId == g.txId && !f.asserted && g.asserted)))
  }

  predicate TimesLess(f: Fact, g: Fact) {
    || f.from < g.from
    || (f.from == g.from && (f.to < g.to || (f.to == g.to && (f.txCount < g.txCount || (f.txCount == g.txCount && RestLess(f, g))))))
  }

  /** The order of index keys without their first part, the attribute. */
  predicate SuffixLess(f: Fact, g: Fact) {
    f.triple.entity < g.triple.entity || (f.triple.entity == g.triple.entity && TimesLess(f, g))
  }

  /** Keys that agree on everything but the attribute. */
  predicate SameSuffix(f: Fact, g: Fact) {
    f == g.(triple := Triple(g.triple.entity, f.triple.attribute, g.triple.value))
  }

  lemma RestIsTransitive(f: Fact, g: Fact, h: Fact)
    requires RestLess(f, g) && RestLess(g, h)
    ensures RestLess(f, h)
  {
    hide ValueLess;
    if ValueLess(f.triple.value, g.triple.value) && ValueLess(g.triple.value, h.triple.value) {
      ValueLessIsTransitive(f.triple.value, g.triple.value, h.triple.value);
    }
  }

  lemma SuffixIsTransitive(f: Fact, g: Fact, h: Fact)
    requires SuffixLess(f, g) && SuffixLess(g, h)
    ensures SuffixLess(f, h)
  {
    hide RestLess;
    if RestLess(f, g) && RestLess(g, h) {
      RestIsTransitive(f, g, h);
    }
  }

  lemma SuffixNotLessItself(f: Fact)
    ensures !SuffixLess(f, f)
  {
    ValueNotLessItself(f.triple.value);
  }

  lemma SuffixIsAsymmetric(f: Fact, g: Fact)
    requires SuffixLess(f, g)
    ensures !SuffixLess(g, f)
  {
    hide SuffixLess;
    if SuffixLess(g, f) {
      SuffixIsTransitive(f, g, f);
      SuffixNotLessItself(f);
    }
  }

  lemma SuffixIsTotal(f: Fact, g: Fact)
    ensures SuffixLess(f, g) || SuffixLess(g, f) || SameSuffix(f, g)
  {
    hide ValueLess;
    ValueLessIsTotal(f.triple.value, g.triple.value);
  }

  /** Not past `g` and `g` not past `h`: then not past `h`. */
  lemma SuffixAtMost(f: Fact, g: Fact, h: Fact)
    requires !SuffixLess(g, f) && !SuffixLess(h, g)
    ensures !SuffixLess(h, f)
  {
    hide SuffixLess, SameSuffix;
    if SuffixLess(h, f) {
      SuffixIsTotal(f, g);
      if SuffixLess(f, g) {
        SuffixIsTransitive(h, f, g);
      } else {
        SameSuffixCompares(f, g, h);
      }
    }
  }

  lemma SameSuffixCompares(f: Fact, g: Fact, h: Fact)
    requires SameSuffix(f, g)
    ensures SuffixLess(h, f) <==> SuffixLess(h, g)
    ensures SuffixLess(f, h) <==> SuffixLess(g, h)
  {
    hide ValueLess;
  }
}
