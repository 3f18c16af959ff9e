/** Cross rates (internal/rates/cross.go) and the two providers' choice of symbols and reading of
    replies (internal/rates/exchangeratesapi/provider.go, internal/rates/frankfurter/provider.go).
    Prices are real numbers. */
module Cross {
  import opened Wrappers
  import opened Domain

  datatype PriceError = MissingRate | BadRate | ApiError | NoSuccess | NoRates

  type Table = map<string, real>

  // ---------- CrossPrice ----------

  /** `m` holds the upper-cased keys of `vs`; where keys collide, one of their values, as the
      iteration order decides. */
  ghost predicate Loaded(vs: Table, m: Table) {
    && (forall c :: c in vs ==> ToUpper(c) in m)
    && (forall u :: u in m ==> exists c :: c in vs && ToUpper(c) == u && vs[c] == m[u])
  }

  ghost predicate UpperDistinct(vs: Table) {
    forall c, d :: c in vs && d in vs && ToUpper(c) == ToUpper(d) ==> c == d
  }

  function Anchored(anchor: string, m: Table): Table {
    if anchor == "" then m else m[ToUpper(anchor) := 1.0]
  }

  function Priced(m: Table, pair: Pair): Result<real, PriceError> {
    if pair.base !in m || pair.quote !in m then Failure(MissingRate)
    else if m[pair.base] <= 0.0 || m[pair.quote] <= 0.0 then Failure(BadRate)
    else Success(m[pair.quote] / m[pair.base])
  }

  method CrossPrice(anchor: string, vs: Table, pair: Pair) returns (r: Result<real, PriceError>)
    ensures exists m :: Loaded(vs, m) && r == Priced(Anchored(anchor, m), pair)
  {
    hide ToUpper;
    var m: Table := map[];
    var todo := vs.Keys;
    while todo != {}
      invariant todo <= vs.Keys
      invariant forall c :: c in vs && c !in todo ==> ToUpper(c) in m
      invariant forall u :: u in m ==> exists c :: c in vs && ToUpper(c) == u && vs[c] == m[u]
      decreases todo
    {
      var c :| c in todo;
      m := m[ToUpper(c) := vs[c]];
      todo := todo - {c};
    }
    assert Loaded(vs, m);
    ghost var loaded := m;
    if anchor != "" {
      m := m[ToUpper(anchor) := 1.0];
    }
    assert m == Anchored(anchor, loaded);
    if pair.base !in m || pair.quote !in m {
      return Failure(MissingRate);
    }
    var base, quote := m[pair.base], m[pair.quote];
    if base <= 0.0 || quote <= 0.0 {
      return Failure(BadRate);
    }
    return Success(quote / base);
  }

  // ---------- when the order of reading matters ----------

  /** The values the finished table may hold for a currency, over all orders of reading: the anchor's
      is one, and otherwise that of any key that is the currency in some letter case. */
  ghost predicate Candidate(anchor: string, vs: Table, currency: string, v: real) {
    if anchor != "" && ToUpper(anchor) == currency then v == 1.0
    else exists c :: c in vs && ToUpper(c) == currency && vs[c] == v
  }

  /** For every reading order the price of the reply, or the error, is the same. */
  ghost predicate Determined(anchor: string, vs: Table, pair: Pair) {
    forall m, m' :: Loaded(vs, m) && Loaded(vs, m') ==>
      Priced(Anchored(anchor, m), pair) == Priced(Anchored(anchor, m'), pair)
  }

  ghost predicate NoValue(anchor: string, vs: Table, currency: string) {
    forall v :: !Candidate(anchor, vs, currency, v)
  }

  ghost predicate OnlyBad(anchor: string, vs: Table, currency: string) {
    forall v :: Candidate(anchor, vs, currency, v) ==> v <= 0.0
  }

  ghost predicate OneValue(anchor: string, vs: Table, currency: string) {
    forall v, w :: Candidate(anchor, vs, currency, v) && Candidate(anchor, vs, currency, w) ==> v == w
  }

  /** The result of CrossPrice is a function of its input exactly when a side has no value at all, or
      a side has bad values only, or each side has one value only. */
  lemma DeterminedExactly(anchor: string, vs: Table, pair: Pair)
    requires pair.base != pair.quote
    ensures Determined(anchor, vs, pair) <==>
      || NoValue(anchor, vs, pair.base) || NoValue(anchor, vs, pair.quote)
      || OnlyBad(anchor, vs, pair.base) || OnlyBad(anchor, vs, pair.quote)
      || (OneValue(anchor, vs, pair.base) && OneValue(anchor, vs, pair.quote))
  {
    hide ToUpper, Candidate, Loaded, Anchored, Priced;
    if !NoValue(anchor, vs, pair.base) && !NoValue(anchor, vs, pair.quote)
      && !OnlyBad(anchor, vs, pair.base) && !OnlyBad(anchor, vs, pair.quote) {
      var b :| Candidate(anchor, vs, pair.base, b) && b > 0.0;
      var q :| Candidate(anchor, vs, pair.quote, q) && q > 0.0;
      if !OneValue(anchor, vs, pair.base) {
        var b' :| Candidate(anchor, vs, pair.base, b') && b' != b;
        PricesDiffer(b, q, b', q);
        Disagree(anchor, vs, pair, b, q, b', q);
      } else if !OneValue(anchor, vs, pair.quote) {
        var q' :| Candidate(anchor, vs, pair.quote, q') && q' != q;
        PricesDiffer(b, q, b, q');
        Disagree(anchor, vs, pair, b, q, b, q');
      }
    }
    if !Determined(anchor, vs, pair) {
      var m, m' :| Loaded(vs, m) && Loaded(vs, m')
        && Priced(Anchored(anchor, m), pair) != Priced(Anchored(anchor, m'), pair);
      ReadsCandidates(anchor, vs, m, pair);
      ReadsCandidates(anchor, vs, m', pair);
    }
  }

  /** The price of two values. */
  function Ratio(base: real, quote: real): Result<real, PriceError> {
    if base <= 0.0 || quote <= 0.0 then Failure(BadRate) else Success(quote / base)
  }

  lemma PricesDiffer(b: real, q: real, b': real, q': real)
    requires b > 0.0 && q > 0.0 && ((b' == b && q' != q) || (b' != b && q' == q))
    ensures Ratio(b, q) != Ratio(b', q')
  {
  }

  /** Some reading orders give these two pairs of values. */
  lemma Disagree(anchor: string, vs: Table, pair: Pair, b: real, q: real, b': real, q': real)
    requires pair.base != pair.quote && Ratio(b, q) != Ratio(b', q')
    requires Candidate(anchor, vs, pair.base, b) && Candidate(anchor, vs, pair.quote, q)
    requires Candidate(anchor, vs, pair.base, b') && Candidate(anchor, vs, pair.quote, q')
    ensures !Determined(anchor, vs, pair)
  {
    hide Candidate, Loaded, Anchored, Priced;
    var m := Chosen(anchor, vs, pair, b, q);
    var m' := Chosen(anchor, vs, pair, b', q');
    assert Priced(Anchored(anchor, m), pair) != Priced(Anchored(anchor, m'), pair);
  }

  lemma Chosen(anchor: string, vs: Table, pair: Pair, b: real, q: real) returns (m: Table)
    requires pair.base != pair.quote
    requires Candidate(anchor, vs, pair.base, b) && Candidate(anchor, vs, pair.quote, q)
    ensures Loaded(vs, m) && Priced(Anchored(anchor, m), pair) == Ratio(b, q)
  {
    hide ToUpper;
    m := SomeLoaded(vs);
    if !(anchor != "" && ToUpper(anchor) == pair.base) {
      m := m[pair.base := b];
      assert Loaded(vs, m);
    }
    if !(anchor != "" && ToUpper(anchor) == pair.quote) {
      m := m[pair.quote := q];
      assert Loaded(vs, m);
    }
  }

  lemma ReadsCandidates(anchor: string, vs: Table, m: Table, pair: Pair)
    requires Loaded(vs, m)
    ensures var a, base, quote := Anchored(anchor, m), pair.base, pair.quote;
      && (base in a <==> !NoValue(anchor, vs, base)) && (base in a ==> Candidate(anchor, vs, base, a[base]))
      && (quote in a <==> !NoValue(anchor, vs, quote)) && (quote in a ==> Candidate(anchor, vs, quote, a[quote]))
      && Priced(a, pair) == if base in a && quote in a then Ratio(a[base], a[quote]) else Failure(MissingRate)
  {
    hide ToUpper;
    OneCandidate(anchor, vs, m, pair.base);
    OneCandidate(anchor, vs, m, pair.quote);
  }

  lemma OneCandidate(anchor: string, vs: Table, m: Table, currency: string)
    requires Loaded(vs, m)
    ensures var a := Anchored(anchor, m);
      && (currency in a <==> !NoValue(anchor, vs, currency))
      && (currency in a ==> Candidate(anchor, vs, currency, a[currency]))
  {
    hide ToUpper;
    var a := Anchored(anchor, m);
    if currency in a {
      assert Candidate(anchor, vs, currency, a[currency]);
    }
  }

  lemma SomeLoaded(vs: Table) returns (m: Table)
    ensures Loaded(vs, m)
  {
    var keys := set c | c in vs :: ToUpper(c);
    m := map u | u in keys :: (var c :| c in vs && ToUpper(c) == u; vs[c]);
  }

  /** A reply of which CrossPrice makes one price or another: "usd" and "USD" with different rates. */
  lemma SomePriceIsNotDetermined()
    ensures !Determined("EUR", map["usd" := 1.0, "USD" := 2.0], Pair("EUR", "USD"))
  {
    var vs: Table := map["usd" := 1.0, "USD" := 2.0];
    assert ToUpper("usd") == "USD" && ToUpper("USD") == "USD" && ToUpper("EUR") == "EUR";
    hide ToUpper;
    assert vs["usd"] == 1.0 && vs["USD"] == 2.0;
    PricesDiffer(1.0, 1.0, 1.0, 2.0);
    Disagree("EUR", vs, Pair("EUR", "USD"), 1.0, 1.0, 1.0, 2.0);
  }

  // ---------- honest replies ----------

  /** A table of positive prices against some common unit, keyed by currency code. */
  ghost predicate Prices(t: Table) {
    forall c :: c in t ==> t[c] > 0.0 && ToUpper(c) == c
  }

  /** A reply that quotes every listed currency of the table against its base, in any letter case. */
  ghost predicate Honest(t: Table, base: string, rates: Table) {
    && Prices(t) && ToUpper(base) in t && UpperDistinct(rates)
    && forall c :: c in rates ==> ToUpper(c) in t && rates[c] == t[ToUpper(c)] / t[ToUpper(base)]
  }

  ghost predicate Covers(base: string, rates: Table, currency: string) {
    ToUpper(base) == currency || exists c :: c in rates && ToUpper(c) == currency
  }

  lemma Cancel(x: real, y: real, a: real)
    requires x > 0.0 && y > 0.0 && a > 0.0
    ensures x / a > 0.0 && (x / a) / (y / a) == x / y && a / a == 1.0
  {
    var p, q := x / a, y / a;
    assert p * a == x && q * a == y;
    Positive(p, a);
    Positive(q, a);
    assert (p / q) * q == p;
    assert (p / q) * y == (p / q) * (q * a) == ((p / q) * q) * a == x;
  }

  lemma Positive(p: real, a: real)
    requires a > 0.0 && p * a > 0.0
    ensures p > 0.0
  {
  }

  /** What an anchored honest reply knows of a currency it covers. */
  lemma HonestEntry(t: Table, base: string, rates: Table, m: Table, currency: string)
    requires Honest(t, base, rates) && Loaded(rates, m) && base != "" && currency in t
    ensures var a := Anchored(base, m);
      && (currency in a <==> Covers(base, rates, currency))
      && (currency in a ==> a[currency] == t[currency] / t[ToUpper(base)])
  {
    hide ToUpper;
    var a := Anchored(base, m);
    if currency == ToUpper(base) {
      Cancel(t[currency], t[currency], t[currency]);
    } else if currency in a {
      var c :| c in rates && ToUpper(c) == currency && rates[c] == m[currency];
    }
  }

  /** From any honest reply with any base the price comes out as T[quote] / T[base], exactly when
      the reply covers both sides; otherwise the error says a rate is missing. */
  lemma HonestPrice(t: Table, base: string, rates: Table, m: Table, pair: Pair)
    requires Honest(t, base, rates) && Loaded(rates, m) && base != ""
    requires pair.base in t && pair.quote in t
    ensures Priced(Anchored(base, m), pair) ==
      if Covers(base, rates, pair.base) && Covers(base, rates, pair.quote)
      then Success(t[pair.quote] / t[pair.base]) else Failure(MissingRate)
  {
    hide ToUpper;
    HonestEntry(t, base, rates, m, pair.base);
    HonestEntry(t, base, rates, m, pair.quote);
    Cancel(t[pair.quote], t[pair.base], t[ToUpper(base)]);
    Cancel(t[pair.base], t[pair.quote], t[ToUpper(base)]);
  }

  // ---------- the two providers ----------

  const ANCHOR_CURRENCY := "EUR"

  predicate Before(a: string, b: string) {
    if b == "" then false
    else if a == "" then true
    else a[0] < b[0] || (a[0] == b[0] && Before(a[1..], b[1..]))
  }

  /** `b` continues `a`, or has the later character where they first differ. */
  ghost predicate Earlier(a: string, b: string) {
    || (a < b)
    || exists k: nat :: k < |a| && k < |b| && a[..k] == b[..k] && a[k] < b[k]
  }

  lemma {:induction false} BeforeExactly(a: string, b: string)
    ensures Before(a, b) <==> Earlier(a, b)
  {
    if a != "" && b != "" && a[0] == b[0] {
      BeforeExactly(a[1..], b[1..]);
      EarlierTail(a, b);
    } else if a != "" && b != "" && a[0] < b[0] {
      assert a[..0] == b[..0];
    }
  }

  lemma EarlierTail(a: string, b: string)
    requires a != "" && b != "" && a[0] == b[0]
    ensures Earlier(a, b) <==> Earlier(a[1..], b[1..])
  {
    if Earlier(a, b) {
      EarlierShrinks(a, b);
    }
    if Earlier(a[1..], b[1..]) {
      EarlierGrows(a, b);
    }
  }

  lemma EarlierGrows(a: string, b: string)
    requires a != "" && b != "" && a[0] == b[0] && Earlier(a[1..], b[1..])
    ensures Earlier(a, b)
  {
    var x, y := a[1..], b[1..];
    assert a == [a[0]] + x && b == [b[0]] + y;
    if k: nat :| k < |x| && k < |y| && x[..k] == y[..k] && x[k] < y[k] {
      assert a[..k + 1] == [a[0]] + x[..k] && b[..k + 1] == [b[0]] + y[..k];
      assert a[k + 1] < b[k + 1];
    }
  }

  lemma EarlierShrinks(a: string, b: string)
    requires a != "" && b != "" && a[0] == b[0] && Earlier(a, b)
    ensures Earlier(a[1..], b[1..])
  {
    var x, y := a[1..], b[1..];
    if a < b {
      assert forall i :: 0 <= i < |x| ==> x[i] == a[i + 1] && y[i] == b[i + 1];
    } else {
      var k: nat :| k < |a| && k < |b| && a[..k] == b[..k] && a[k] < b[k];
      assert x[..k - 1] == a[..k][1..] && y[..k - 1] == b[..k][1..];
      assert x[k - 1] < y[k - 1];
    }
  }

  /** The elements of a set, in whatever order iteration yields them. */
  method Members(s: set<string>) returns (r: seq<string>)
    ensures |r| == |s| && forall c :: c in r <==> c in s
    ensures forall i, j :: 0 <= i < j < |r| ==> r[i] != r[j]
  {
    r := [];
    var todo := s;
    while todo != {}
      invariant todo <= s && |r| + |todo| == |s|
      invariant forall c :: c in r <==> c in s && c !in todo
      invariant forall i, j :: 0 <= i < j < |r| ==> r[i] != r[j]
      decreases todo
    {
      var c :| c in todo;
      r := r + [c];
      todo := todo - {c};
    }
  }

  /** Sorting, for the one or two symbols a pair can need. */
  method SortUpToTwo(s: seq<string>) returns (r: seq<string>)
    requires |s| <= 2 && (|s| == 2 ==> s[0] != s[1])
    ensures |r| == |s| && (forall c :: c in r <==> c in s)
    ensures |r| == 2 ==> Earlier(r[0], r[1])
  {
    hide Before, Earlier;
    r := s;
    if |s| == 2 {
      BeforeTotal(s[0], s[1]);
      BeforeExactly(s[0], s[1]);
      BeforeExactly(s[1], s[0]);
      if Before(s[1], s[0]) {
        r := [s[1], s[0]];
        assert r[0] == s[1] && r[1] == s[0];
      }
    }
  }

  lemma {:induction false} BeforeTotal(a: string, b: string)
    requires a != b
    ensures Before(a, b) || Before(b, a)
  {
    if a != "" && b != "" && a[0] == b[0] {
      assert a == [a[0]] + a[1..] && b == [b[0]] + b[1..];
      BeforeTotal(a[1..], b[1..]);
    }
  }

  /** The currencies asked of exchangeratesapi: the sides of the pair without the anchor, each once
      and in order, joined by commas. */
  method PairSymbols(pair: Pair) returns (r: string)
    requires ValidPair(pair)
    ensures var parts := Split(r, ',');
      && (forall c :: c in parts <==> c in {pair.base, pair.quote} && c != ANCHOR_CURRENCY)
      && |parts| == (if pair.base == ANCHOR_CURRENCY || pair.quote == ANCHOR_CURRENCY then 1 else 2)
      && (|parts| == 2 ==> Earlier(parts[0], parts[1]))
  {
    var wanted: set<string> := {};
    if pair.base != ANCHOR_CURRENCY {
      wanted := wanted + {pair.base};
    }
    if pair.quote != ANCHOR_CURRENCY {
      wanted := wanted + {pair.quote};
    }
    hide Split, Join, ValidPair, Earlier;
    SetSize(pair, wanted);
    var symbols := Members(wanted);
    symbols := SortUpToTwo(symbols);
    r := Join(symbols, ',');
    CodesOf(pair);
    JoinSplits(symbols);
  }

  lemma SetSize(pair: Pair, s: set<string>)
    requires ValidPair(pair) && s == {pair.base, pair.quote} - {ANCHOR_CURRENCY}
    ensures |s| == if pair.base == ANCHOR_CURRENCY || pair.quote == ANCHOR_CURRENCY then 1 else 2
  {
    if pair.base == ANCHOR_CURRENCY {
      assert s == {pair.quote};
    } else if pair.quote == ANCHOR_CURRENCY {
      assert s == {pair.base};
    } else {
      assert s == {pair.base, pair.quote};
    }
  }

  lemma JoinSplits(symbols: seq<string>)
    requires 1 <= |symbols| <= 2 && forall c :: c in symbols ==> ',' !in c
    ensures Split(Join(symbols, ','), ',') == symbols
  {
    if |symbols| == 1 {
      SplitOne(symbols[0], ',');
    } else {
      SplitTwo(symbols[0], symbols[1], ',');
      assert symbols[1..] == [symbols[1]];
    }
  }

  /** The decoded body of exchangeratesapi: the error text if there is one. */
  datatype ExchangeReply = ExchangeReply(success: bool, base: string, rates: Table, error: Option<string>)

  datatype FrankfurterReply = FrankfurterReply(base: string, rates: Table)

  method ExchangePrice(lr: ExchangeReply, pair: Pair) returns (r: Result<real, PriceError>)
    ensures lr.error.Some? ==> r == Failure(ApiError)
    ensures lr.error.None? && !lr.success && lr.rates == map[] ==> r == Failure(NoSuccess)
    ensures lr.error.None? && (lr.success || lr.rates != map[]) ==>
      exists m :: Loaded(lr.rates, m) && r == Priced(Anchored(lr.base, m), pair)
  {
    if lr.error.Some? {
      return Failure(ApiError);
    }
    if !lr.success && |lr.rates| == 0 {
      return Failure(NoSuccess);
    }
    r := CrossPrice(lr.base, lr.rates, pair);
  }

  method FrankfurterPrice(lr: FrankfurterReply, pair: Pair) returns (r: Result<real, PriceError>)
    ensures lr.rates == map[] ==> r == Failure(NoRates)
    ensures lr.rates != map[] ==>
      exists m :: Loaded(lr.rates, m) && r == Priced(Anchored(if lr.base == "" then pair.base else lr.base, m), pair)
  {
    if |lr.rates| == 0 {
      return Failure(NoRates);
    }
    var anchor := lr.base;
    if anchor == "" {
      anchor := pair.base;
    }
    r := CrossPrice(anchor, lr.rates, pair);
  }

  /** Switching provider keeps the price: an honest EUR reply listing the requested symbols and an
      honest reply to base = BASE, symbols = QUOTE, with or without the base named, both give
      T[quote] / T[base]. */
  lemma SwitchingKeepsPrice(t: Table, pair: Pair, eur: Table, eurM: Table, own: FrankfurterReply, ownM: Table)
    requires ValidPair(pair) && pair.base in t && pair.quote in t
    requires Honest(t, ANCHOR_CURRENCY, eur) && Loaded(eur, eurM)
    requires forall c :: c in {pair.base, pair.quote} && c != ANCHOR_CURRENCY ==> Covers(ANCHOR_CURRENCY, eur, c)
    requires own.base == "" || own.base == pair.base
    requires Honest(t, pair.base, own.rates) && Loaded(own.rates, ownM) && Covers(pair.base, own.rates, pair.quote)
    ensures Priced(Anchored(ANCHOR_CURRENCY, eurM), pair) == Success(t[pair.quote] / t[pair.base])
    ensures Priced(Anchored(if own.base == "" then pair.base else own.base, ownM), pair)
      == Success(t[pair.quote] / t[pair.base])
  {
    hide ToUpper, Honest, Loaded, Priced, Anchored, ValidPair;
    UpperOfCode(ANCHOR_CURRENCY);
    CodesOf(pair);
    UpperOfCode(pair.base);
    HonestPrice(t, ANCHOR_CURRENCY, eur, eurM, pair);
    HonestPrice(t, pair.base, own.rates, ownM, pair);
  }

  /** What an honest source sends back for the symbols asked of it. */
  function Reply(t: Table, base: string, symbols: set<string>): Table
    requires base in t && t[base] != 0.0 && symbols <= t.Keys
  {
    map c | c in symbols :: t[c] / t[base]
  }

  /** End to end: for every price table and valid pair, the replies to what each provider asks for
      give one and the same price. */
  lemma RepliesAgree(t: Table, pair: Pair)
    requires Prices(t) && ValidPair(pair) && pair.base in t && pair.quote in t && ANCHOR_CURRENCY in t
    ensures var eur := Reply(t, ANCHOR_CURRENCY, {pair.base, pair.quote} - {ANCHOR_CURRENCY});
      Loaded(eur, eur) && Priced(Anchored(ANCHOR_CURRENCY, eur), pair) == Success(t[pair.quote] / t[pair.base])
    ensures var own := Reply(t, pair.base, {pair.quote});
      Loaded(own, own) && Priced(Anchored(pair.base, own), pair) == Success(t[pair.quote] / t[pair.base])
  {
    hide ToUpper, Priced, Anchored, Loaded, Honest, IsCurrencyCode;
    var eur := Reply(t, ANCHOR_CURRENCY, {pair.base, pair.quote} - {ANCHOR_CURRENCY});
    var own := Reply(t, pair.base, {pair.quote});
    ReplyIsHonest(t, ANCHOR_CURRENCY, {pair.base, pair.quote} - {ANCHOR_CURRENCY});
    ReplyIsHonest(t, pair.base, {pair.quote});
    SwitchingKeepsPrice(t, pair, eur, eur, FrankfurterReply(pair.base, own), own);
  }

  lemma ReplyIsHonest(t: Table, base: string, symbols: set<string>)
    requires Prices(t) && base in t && symbols <= t.Keys
    ensures var r := Reply(t, base, symbols);
      && Honest(t, base, r) && Loaded(r, r)
      && forall c :: c in symbols ==> Covers(base, r, c)
  {
    hide ToUpper;
  }

  lemma CodesOf(pair: Pair)
    requires ValidPair(pair)
    ensures IsCurrencyCode(pair.base) && pair.base != "" && ',' !in pair.base && ',' !in pair.quote
  {
  }

  lemma UpperOfCode(c: string)
    requires IsCurrencyCode(c)
    ensures ToUpper(c) == c
  {
  }

  // ---------- algebra of prices ----------

  /** The same rates against another unit. */
  function Reanchored(m: Table, unit: string): Table
    requires unit in m && m[unit] > 0.0
  {
    map c | c in m :: m[c] / m[unit]
  }

  lemma Sign(v: real, u: real)
    requires u > 0.0
    ensures v / u <= 0.0 <==> v <= 0.0
  {
    var p := v / u;
    assert p * u == v;
    if v > 0.0 {
      Positive(p, u);
    }
  }

  /** Whatever table CrossPrice has loaded, dividing all of it by any positive entry changes no result
      of any pair: prices, missing rates and bad rates stay what they were. */
  lemma ReanchorKeepsPrices(m: Table, unit: string, pair: Pair)
    requires unit in m && m[unit] > 0.0
    ensures Priced(Reanchored(m, unit), pair) == Priced(m, pair)
  {
    if pair.base in m && pair.quote in m {
      var b, q, u := m[pair.base], m[pair.quote], m[unit];
      Sign(b, u);
      Sign(q, u);
      if b > 0.0 && q > 0.0 {
        Cancel(q, b, u);
      }
    }
  }

  /** Whatever table CrossPrice has loaded: a pair has a price exactly when its inverse has one, and the
      two multiply to one; where a chain has prices its ends have one, and the prices compose. */
  lemma PricesCompose(m: Table, a: string, b: string, c: string)
    ensures Priced(m, Pair(a, b)).Success? <==> Priced(m, Pair(b, a)).Success?
    ensures Priced(m, Pair(a, b)).Success? ==> Priced(m, Pair(a, b)).value * Priced(m, Pair(b, a)).value == 1.0
    ensures Priced(m, Pair(a, b)).Success? && Priced(m, Pair(b, c)).Success? ==>
      Priced(m, Pair(a, c)).Success?
    ensures Priced(m, Pair(a, b)).Success? && Priced(m, Pair(b, c)).Success? ==>
      Priced(m, Pair(a, b)).value * Priced(m, Pair(b, c)).value == Priced(m, Pair(a, c)).value
  {
    if Priced(m, Pair(a, b)).Success? {
      Chain(m[a], m[b], m[a]);
      assert m[a] / m[a] == 1.0;
      if Priced(m, Pair(b, c)).Success? {
        Chain(m[a], m[b], m[c]);
      }
    }
  }

  /** Two replies about one market, anchored at different currencies and read in any order: whatever
      pairs both give a price, they agree on, and a chain may take its links from either. */
  lemma RepliesCompose(t: Table, base: string, rates: Table, m: Table, base': string, rates': Table, m': Table,
                       a: string, b: string, c: string)
    requires Honest(t, base, rates) && Loaded(rates, m) && base != ""
    requires Honest(t, base', rates') && Loaded(rates', m') && base' != ""
    requires a in t && b in t && c in t
    ensures var first, second := Priced(Anchored(base, m), Pair(a, b)), Priced(Anchored(base', m'), Pair(b, c));
      first.Success? && second.Success? ==>
        && first.value * second.value == t[c] / t[a]
        && (Priced(Anchored(base', m'), Pair(a, b)).Success? ==> Priced(Anchored(base', m'), Pair(a, b)) == first)
  {
    hide ToUpper, Priced, Anchored, Loaded, Honest, Covers;
    HonestValue(t, base, rates, m, Pair(a, b));
    HonestValue(t, base', rates', m', Pair(b, c));
    HonestValue(t, base', rates', m', Pair(a, b));
    Chain(t[a], t[b], t[c]);
  }

  lemma HonestValue(t: Table, base: string, rates: Table, m: Table, pair: Pair)
    requires Honest(t, base, rates) && Loaded(rates, m) && base != "" && pair.base in t && pair.quote in t
    ensures t[pair.base] > 0.0 && t[pair.quote] > 0.0
    ensures var p := Priced(Anchored(base, m), pair);
      p.Success? ==> p == Success(t[pair.quote] / t[pair.base])
  {
    hide ToUpper, Priced, Anchored, Loaded;
    HonestPrice(t, base, rates, m, pair);
  }

  lemma Chain(x: real, y: real, z: real)
    requires x > 0.0 && y > 0.0
    ensures (y / x) * (z / y) == z / x
  {
    var p, q := y / x, z / y;
    assert p * x == y && q * y == z;
    assert (p * q) * x == q * (p * x) == z;
  }
}
