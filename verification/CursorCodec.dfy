/** Continuation tokens: a checksummed JSON payload in hexadecimal, and the pages that hand them out. */
module CursorCodec {
  import opened Bytes
  import opened Ledger
  import opened DiffScan
  import opened DiffPages
  import opened Walks

  const MAX_TOKEN_BYTES: nat := 8 * 1024 * 1024

  // ── Hexadecimal ────────────────────────────────────────────────────────────

  /** A lower-case digit. */
  function Digit(n: nat): Byte
    requires n < 16
  {
    if n < 10 then 48 + n else 97 + (n - 10)
  }

  function Nibble(b: Byte): (n: Option<nat>)
    ensures n.Some? ==> n.value < 16
  {
    if 48 <= b <= 57 then Some(b - 48)
    else if 97 <= b <= 102 then Some(b - 97 + 10)
    else if 65 <= b <= 70 then Some(b - 65 + 10)
    else None
  }

  /** The two digits of a byte. */
  function Spelled(b: Byte): (pair: seq<Byte>)
    ensures |pair| == 2
  {
    [Digit(b / 16), Digit(b % 16)]
  }

  function Hex(bytes: seq<Byte>): (text: seq<Byte>)
    ensures |text| == 2 * |bytes|
  {
    if bytes == [] then []
    else
      var n := |bytes| - 1;
      Hex(bytes[..n]) + Spelled(bytes[n])
  }

  /** Pairs of hexadecimal digits, in either case. */
  function Unhex(text: seq<Byte>): Option<seq<Byte>>
    requires |text| % 2 == 0
  {
    if text == [] then Some([])
    else
      var n := |text| - 2;
      var front, high, low := Unhex(text[..n]), Nibble(text[n]), Nibble(text[n + 1]);
      if front.None? || high.None? || low.None? then None else Some(front.value + [high.value * 16 + low.value])
  }

  /** One byte, spelled and read back. */
  lemma PairRoundTrip(b: Byte)
    ensures Nibble(Spelled(b)[0]) == Some(b / 16) && Nibble(Spelled(b)[1]) == Some(b % 16) && b / 16 * 16 + b % 16 == b
  {}

  lemma OnePairMore(text: seq<Byte>, pair: seq<Byte>)
    requires |text| % 2 == 0 && |pair| == 2
    ensures |text + pair| % 2 == 0 && (text + pair)[..|text|] == text && (text + pair)[|text|] == pair[0] && (text + pair)[|text| + 1] == pair[1]
  {}

  /** The digits of a byte behind an even text add that byte. */
  lemma UnhexSpelled(text: seq<Byte>, b: Byte, bytes: seq<Byte>)
    requires |text| % 2 == 0 && Unhex(text) == Some(bytes)
    ensures |text + Spelled(b)| % 2 == 0 && Unhex(text + Spelled(b)) == Some(bytes + [b])
  {
    hide Nibble, Spelled;
    PairRoundTrip(b);
    OnePairMore(text, Spelled(b));
  }

  lemma HexIsEven(bytes: seq<Byte>)
    ensures |Hex(bytes)| % 2 == 0
  {
    hide Hex;
    assert |Hex(bytes)| == 2 * |bytes|;
  }

  lemma HexUnfolds(bytes: seq<Byte>)
    ensures bytes == [] ==> Hex(bytes) == []
    ensures bytes != [] ==> Hex(bytes) == Hex(bytes[..|bytes| - 1]) + Spelled(bytes[|bytes| - 1])
  {
    hide Spelled;
  }

  lemma {:induction false} HexRoundTrip(bytes: seq<Byte>)
    ensures |Hex(bytes)| % 2 == 0 && Unhex(Hex(bytes)) == Some(bytes)
  {
    hide Hex, Spelled;
    HexUnfolds(bytes);
    HexIsEven(bytes);
    if bytes != [] {
      hide Unhex;
      var n := |bytes| - 1;
      HexRoundTrip(bytes[..n]);
      UnhexSpelled(Hex(bytes[..n]), bytes[n], bytes[..n]);
      assert bytes == bytes[..n] + [bytes[n]];
    }
  }

  function Lower(text: seq<Byte>): (r: seq<Byte>)
    ensures |r| == |text|
  {
    seq(|text|, i requires 0 <= i < |text| => if 65 <= text[i] <= 70 then text[i] + 32 else text[i])
  }

  /** Case does not matter to the decoder. */
  lemma {:induction false} UnhexLower(text: seq<Byte>)
    requires |text| % 2 == 0
    ensures Unhex(Lower(text)) == Unhex(text)
  {
    if text != [] {
      var n := |text| - 2;
      UnhexLower(text[..n]);
      assert Lower(text)[..n] == Lower(text[..n]);
    }
  }

  lemma DigitOf(b: Byte)
    requires Nibble(b).Some?
    ensures Digit(Nibble(b).value) == if 65 <= b <= 70 then b + 32 else b
  {}

  lemma HexSnoc(front: seq<Byte>, high: nat, low: nat)
    requires high < 16 && low < 16
    ensures Hex(front + [high * 16 + low]) == Hex(front) + [Digit(high), Digit(low)]
  {
    var b: Byte := high * 16 + low;
    assert b / 16 == high && b % 16 == low;
    assert (front + [b])[..|front|] == front;
  }

  lemma {:induction false} UnhexSpells(text: seq<Byte>)
    requires |text| % 2 == 0 && Unhex(text).Some?
    ensures Lower(text) == Hex(Unhex(text).value)
  {
    hide Hex, Digit, Nibble;
    if text != [] {
      var n := |text| - 2;
      UnhexSpells(text[..n]);
      DigitOf(text[n]);
      DigitOf(text[n + 1]);
      HexSnoc(Unhex(text[..n]).value, Nibble(text[n]).value, Nibble(text[n + 1]).value);
      assert Lower(text) == Lower(text[..n]) + [Lower(text)[n], Lower(text)[n + 1]];
    } else {
      HexRoundTrip([]);
    }
  }

  /** The only texts that decode to some bytes are the encodings of those bytes, in either case of each digit. */
  lemma UnhexIsExact(text: seq<Byte>, bytes: seq<Byte>)
    requires |text| % 2 == 0
    ensures Unhex(text) == Some(bytes) <==> Lower(text) == Hex(bytes)
  {
    hide Unhex, Hex;
    UnhexLower(text);
    HexRoundTrip(bytes);
    if Unhex(text) == Some(bytes) {
      UnhexSpells(text);
    }
  }

  /** The decoder's loop over digit pairs. */
  method ParseHex(text: seq<Byte>) returns (r: Option<seq<Byte>>)
    requires |text| % 2 == 0
    ensures r == Unhex(text)
  {
    var bytes: seq<Byte> := [];
    var i := 0;
    while i < |text|
      invariant i % 2 == 0 && i <= |text|
      invariant Unhex(text[..i]) == Some(bytes)
    {
      var high, low := Nibble(text[i]), Nibble(text[i + 1]);
      assert text[..i + 2][..i] == text[..i];
      if high.None? || low.None? {
        UnhexFailsOnward(text, i + 2);
        return None;
      }
      bytes := bytes + [high.value * 16 + low.value];
      i := i + 2;
    }
    assert text[..|text|] == text;
    r := Some(bytes);
  }

  lemma {:induction false} UnhexFailsOnward(text: seq<Byte>, i: nat)
    requires |text| % 2 == 0 && i % 2 == 0 && i <= |text| && Unhex(text[..i]) == None
    ensures Unhex(text) == None
    decreases |text|
  {
    if i == |text| {
      assert text[..i] == text;
    } else {
      assert text[..|text| - 2][..i] == text[..i];
      UnhexFailsOnward(text[..|text| - 2], i);
    }
  }

  // ── Tokens ─────────────────────────────────────────────────────────────────

  /** `to_be_bytes` of a checksum. */
  function ToBE(n: nat): (b: seq<Byte>)
    ensures |b| == 4
  {
    [n / 16777216 % 256, n / 65536 % 256, n / 256 % 256, n % 256]
  }

  function FromBE(b: seq<Byte>): nat
    requires |b| == 4
  {
    16777216 * b[0] as int + 65536 * b[1] as int + 256 * b[2] as int + b[3] as int
  }

  lemma BERoundTrip(n: nat)
    requires n < U32_LIMIT
    ensures FromBE(ToBE(n)) == n
  {
    var a, b, c := n / 256, n / 65536, n / 16777216;
    assert n == 256 * a + n % 256;
    assert a == 256 * b + a % 256;
    assert b == 256 * c + b % 256;
    assert c % 256 == c;
  }

  /** The JSON form of a versioned cursor, and the checksum over it. */
  datatype Wire<!C> = Wire(write: (nat, C) -> seq<Byte>, read: seq<Byte> -> Option<(nat, C)>, crc: seq<Byte> -> nat)

  ghost predicate Sound<C(!new)>(w: Wire<C>) {
    && (forall v: nat, c :: w.read(w.write(v, c)) == Some((v, c)))
    && (forall payload :: w.crc(payload) < U32_LIMIT)
  }

  function EncodeToken<C>(w: Wire<C>, c: C): seq<Byte> {
    var payload := w.write(1, c);
    Hex(ToBE(w.crc(payload) % U32_LIMIT) + payload)
  }

  function DecodeToken<C>(w: Wire<C>, token: seq<Byte>): Result<C> {
    if token == [] || |token| % 2 != 0 || |token| > MAX_TOKEN_BYTES then Err("malformed or oversized")
    else
      var bytes := Unhex(token);
      if bytes.None? then Err("non-hex bytes")
      else if |bytes.value| < 4 then Err("malformed")
      else if w.crc(bytes.value[4..]) != FromBE(bytes.value[..4]) then Err("checksum mismatch")
      else
        var wire := w.read(bytes.value[4..]);
        if wire.None? then Err("malformed")
        else if wire.value.0 != 1 then Err("version")
        else Ok(wire.value.1)
  }

  /** A token decodes back to its cursor exactly when it fits the decoder's limit. */
  lemma TokenRoundTrip<C(!new)>(w: Wire<C>, c: C)
    requires Sound(w)
    ensures DecodeToken(w, EncodeToken(w, c)) == Ok(c) <==> 2 * (4 + |w.write(1, c)|) <= MAX_TOKEN_BYTES
    ensures DecodeToken(w, EncodeToken(w, c)).Err? || DecodeToken(w, EncodeToken(w, c)) == Ok(c)
    ensures |EncodeToken(w, c)| == 2 * (4 + |w.write(1, c)|)
  {
    hide Hex, Unhex, ToBE, FromBE;
    var payload := w.write(1, c);
    var sum := ToBE(w.crc(payload));
    HexRoundTrip(sum + payload);
    BERoundTrip(w.crc(payload));
    assert (sum + payload)[..4] == sum && (sum + payload)[4..] == payload;
  }

  /** Anything accepted is a checksummed version-1 payload, spelled in either case. */
  lemma AcceptedTokens<C(!new)>(w: Wire<C>, token: seq<Byte>, c: C)
    requires Sound(w) && DecodeToken(w, token) == Ok(c)
    ensures exists payload :: w.read(payload) == Some((1, c)) && Lower(token) == Hex(ToBE(w.crc(payload)) + payload)
  {
    hide Hex, Unhex;
    var bytes := Unhex(token).value;
    var sum, payload := bytes[..4], bytes[4..];
    BEUnique(sum);
    assert sum + payload == bytes;
    UnhexIsExact(token, bytes);
    assert w.read(payload) == Some((1, c));
  }

  lemma BEUnique(b: seq<Byte>)
    requires |b| == 4
    ensures ToBE(FromBE(b)) == b
  {
    var x := FromBE(b);
    assert x / 256 == 65536 * b[0] as int + 256 * b[1] as int + b[2] as int;
    assert x / 65536 == 256 * b[0] as int + b[1] as int;
    assert x / 16777216 == b[0];
  }

  // ── History pages ──────────────────────────────────────────────────────────

  /** A position in the entity-attribute-value-time index. */
  datatype IndexKey = IndexKey(entity: nat, attribute: string, position: nat)

  datatype HistoryCursor = HistoryCursor(entity: nat, attribute: string, txCount: nat, lastKey: IndexKey)

  /** One row with the key a continuation would resume after. */
  datatype HistoryItem = HistoryItem(record: Fact, resumeKey: IndexKey)

  datatype HistoryPage = HistoryPage(facts: seq<Fact>, next: Option<HistoryCursor>)

  function Records(items: seq<HistoryItem>): (r: seq<Fact>)
    ensures |r| == |items| && forall i :: 0 <= i < |r| ==> r[i] == items[i].record
  {
    seq(|items|, i requires 0 <= i < |items| => items[i].record)
  }

  /** `finish_entity_attribute_history_page`, for at most one item more than the limit. */
  method FinishHistoryPage(w: Wire<HistoryCursor>, encodedLength: seq<Fact> -> nat, entity: nat, attribute: string, txCount: nat, limit: nat,
                           items: seq<HistoryItem>)
    returns (r: Result<HistoryPage>)
    requires Sound(w)
    requires 0 < limit && |items| <= limit + 1
    ensures r.Ok? ==> r.value.facts == Records(items)[..if |items| > limit then limit else |items|]
    ensures r.Ok? ==> (r.value.next.Some? <==> |items| > limit)
    ensures r.Ok? && r.value.next.Some? ==>
              && r.value.next.value == HistoryCursor(entity, attribute, txCount, items[limit - 1].resumeKey)
              && DecodeToken(w, EncodeToken(w, r.value.next.value)) == Ok(r.value.next.value)
    ensures r.Ok? <==> encodedLength(Records(items)[..if |items| > limit then limit else |items|])
                       + (if |items| > limit then |EncodeToken(w, HistoryCursor(entity, attribute, txCount, items[limit - 1].resumeKey))| else 0)
                       <= MAX_TOKEN_BYTES
  {
    var kept, next := items, None;
    if |items| > limit {
      kept := items[..|items| - 1];
      next := Some(HistoryCursor(entity, attribute, txCount, kept[|kept| - 1].resumeKey));
      TokenRoundTrip(w, next.value);
    }
    var facts := Records(kept);
    assert facts == Records(items)[..|kept|];
    var continuation := if next.Some? then |EncodeToken(w, next.value)| else 0;
    if encodedLength(facts) + continuation > MAX_TOKEN_BYTES {
      return Err("result was rejected without truncation");
    }
    r := Ok(HistoryPage(facts, next));
  }

  // ── Diff continuations ─────────────────────────────────────────────────────

  /** The parser's cap on a keyword, in bytes. */
  const MAX_KEYWORD: nat := 1024

  function IdsIn(scope: CursorScope): nat {
    if scope.EntitySet? then |scope.entities| else 1
  }

  /** JSON spells fixed fields, at most six bytes per character of the attribute, and each id in a fixed width. */
  ghost predicate Compact(w: Wire<DiffCursor>) {
    forall c: DiffCursor :: |w.write(1, c)| <= 1024 + 6 * |c.attribute| + 64 * IdsIn(c.scope)
  }

  /** Every continuation of a page for a storable attribute decodes back to itself. */
  lemma DiffContinuationsDecode(w: Wire<DiffCursor>, store: Store, anyValidTime: bool, request: Request, plan: Plan, end: nat, page: Page)
    requires Sound(w) && Compact(w) && |request.q.attribute| <= MAX_KEYWORD
    requires Accepted(anyValidTime, store.txCount, request) && Answers(store, request, plan, end, page) && page.next.Some?
    ensures DecodeToken(w, EncodeToken(w, page.next.value)) == Ok(page.next.value)
  {
    hide RowsRange, ScopeGroups;
    var c := page.next.value;
    assert IdsIn(c.scope) <= MAX_IDS;
    assert |w.write(1, c)| <= 1024 + 6 * |c.attribute| + 64 * IdsIn(c.scope);
    TokenRoundTrip(w, c);
  }
}
