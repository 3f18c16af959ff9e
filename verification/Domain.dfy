/** Currency pairs: parsing, printing, and why the printed form is a safe key
    (internal/domain/pair.go). Strings are sequences of Unicode characters. */
module Domain {
  import opened Wrappers

  datatype Pair = Pair(base: string, quote: string) {
    function ToString(): string {
      base + "/" + quote
    }
  }

  /** The pair of the concrete histories. */
  const EUR_USD := Pair("EUR", "USD")

  datatype PairError = BadFormat | BadCode | SameSides

  // ---------- the string primitives ----------

  /** Unicode white space. */
  predicate IsSpace(c: char) {
    || c == ' ' || '\t' <= c <= '\r' || c == '\U{0085}' || c == '\U{00A0}' || c == '\U{1680}'
    || '\U{2000}' <= c <= '\U{200A}' || c == '\U{2028}' || c == '\U{2029}' || c == '\U{202F}'
    || c == '\U{205F}' || c == '\U{3000}'
  }

  /** Upper-casing as far as a currency code can see it: besides a to z, only the dotless i and the
      long s become a capital Latin letter. What becomes of other letters never matters, because no
      letter but these becomes one of A to Z, a slash or a space. */
  function UpperChar(c: char): char {
    if 'a' <= c <= 'z' then c - 'a' + 'A'
    else if c == '\U{0131}' then 'I'
    else if c == '\U{017F}' then 'S'
    else c
  }

  /** The case of Latin letters. */
  function LowerChar(c: char): char {
    if 'A' <= c <= 'Z' then c - 'A' + 'a' else c
  }

  function ToUpper(s: string): (r: string)
    ensures |r| == |s| && forall i :: 0 <= i < |s| ==> r[i] == UpperChar(s[i])
  {
    seq(|s|, i requires 0 <= i < |s| => UpperChar(s[i]))
  }

  function ToLower(s: string): (r: string)
    ensures |r| == |s| && forall i :: 0 <= i < |s| ==> r[i] == LowerChar(s[i])
  {
    seq(|s|, i requires 0 <= i < |s| => LowerChar(s[i]))
  }

  function TrimLeft(s: string): (r: string)
    ensures |r| <= |s| && r == s[|s| - |r|..]
    ensures r != "" ==> !IsSpace(r[0])
    ensures forall i :: 0 <= i < |s| - |r| ==> IsSpace(s[i])
  {
    if s == "" then ""
    else if IsSpace(s[0]) then TrimLeft(s[1..])
    else s
  }

  function TrimRight(s: string): (r: string)
    ensures |r| <= |s| && r == s[..|r|]
    ensures r != "" ==> !IsSpace(r[|r| - 1])
    ensures forall i :: |r| <= i < |s| ==> IsSpace(s[i])
  {
    if s == "" then ""
    else if IsSpace(s[|s| - 1]) then TrimRight(s[..|s| - 1])
    else s
  }

  function TrimSpace(s: string): string {
    TrimRight(TrimLeft(s))
  }

  /** The pieces of `s` between occurrences of `sep`; always at least one. */
  function Split(s: string, sep: char): (parts: seq<string>)
    ensures |parts| >= 1
    ensures forall i :: 0 <= i < |parts| ==> sep !in parts[i]
    ensures Join(parts, sep) == s
  {
    if s == "" then [""]
    else
      var rest := Split(s[1..], sep);
      if s[0] == sep then [""] + rest
      else
        assert Join([[s[0]] + rest[0]] + rest[1..], sep) == [s[0]] + Join(rest, sep);
        [[s[0]] + rest[0]] + rest[1..]
  }

  function Join(parts: seq<string>, sep: char): string {
    if |parts| == 0 then ""
    else if |parts| == 1 then parts[0]
    else parts[0] + [sep] + Join(parts[1..], sep)
  }

  // ---------- the code ----------

  predicate IsCurrencyCode(s: string) {
    |s| == 3 && forall i :: 0 <= i < |s| ==> 'A' <= s[i] <= 'Z'
  }

  predicate ValidPair(p: Pair) {
    IsCurrencyCode(p.base) && IsCurrencyCode(p.quote) && p.base != p.quote
  }

  function Normalize(s: string): string {
    TrimSpace(ToUpper(s))
  }

  function ParsePair(s: string): (r: Result<Pair, PairError>)
    ensures r.Success? ==> ValidPair(r.value)
  {
    var parts := Split(Normalize(s), '/');
    if |parts| != 2 then Failure(BadFormat)
    else if !IsCurrencyCode(parts[0]) || !IsCurrencyCode(parts[1]) then Failure(BadCode)
    else if parts[0] == parts[1] then Failure(SameSides)
    else Success(Pair(parts[0], parts[1]))
  }

  // ---------- what the code means ----------

  /** A joined pair of separator-free pieces splits back into exactly those pieces. */
  lemma {:induction false} SplitTwo(a: string, b: string, sep: char)
    requires sep !in a && sep !in b
    ensures Split(a + [sep] + b, sep) == [a, b]
  {
    var s := a + [sep] + b;
    if a == "" {
      assert s[1..] == b;
      SplitOne(b, sep);
    } else {
      assert s[1..] == a[1..] + [sep] + b;
      SplitTwo(a[1..], b, sep);
      assert [s[0]] + a[1..] == a;
    }
  }

  lemma {:induction false} SplitOne(b: string, sep: char)
    requires sep !in b
    ensures Split(b, sep) == [b]
  {
    if b != "" {
      SplitOne(b[1..], sep);
      assert [b[0]] + b[1..] == b;
    }
  }

  /** Parsing succeeds with `p` exactly when `p` is a valid pair whose printed form is the
      upper-cased, trimmed input. */
  lemma ParseExact(s: string, p: Pair)
    ensures ParsePair(s) == Success(p) <==> ValidPair(p) && Normalize(s) == p.ToString()
  {
    var n := Normalize(s);
    var parts := Split(n, '/');
    if ParsePair(s) == Success(p) {
      assert parts == [p.base, p.quote];
      assert Join(parts, '/') == p.base + ['/'] + Join([p.quote], '/');
    }
    if ValidPair(p) && n == p.ToString() {
      SplitTwo(p.base, p.quote, '/');
      assert n == p.base + ['/'] + p.quote;
    }
  }

  /** Which error an input gets, read off its normal form: the wrong number of slashes, a side that is
      no currency code, or two equal sides, asked in this order. */
  lemma ParseErrors(s: string)
    ensures ParsePair(s) == Failure(BadFormat) <==> !exists a, b :: Sides(Normalize(s), a, b)
    ensures ParsePair(s) == Failure(BadCode) <==>
      exists a, b :: Sides(Normalize(s), a, b) && !(IsCurrencyCode(a) && IsCurrencyCode(b))
    ensures ParsePair(s) == Failure(SameSides) <==>
      exists a :: Sides(Normalize(s), a, a) && IsCurrencyCode(a)
  {
    hide Normalize, IsCurrencyCode;
    var n := Normalize(s);
    var parts := Split(n, '/');
    if |parts| == 2 {
      assert parts == [parts[0], parts[1]];
      assert Join(parts, '/') == parts[0] + ['/'] + Join([parts[1]], '/');
      assert Sides(n, parts[0], parts[1]);
    }
    forall a, b | Sides(n, a, b) ensures parts == [a, b] {
      SplitTwo(a, b, '/');
    }
  }

  /** The text is two slash-free sides with a slash between them. */
  ghost predicate Sides(text: string, a: string, b: string) {
    text == a + ['/'] + b && '/' !in a && '/' !in b
  }

  /** Every printed valid pair is its own normal form. */
  lemma PrintedIsNormal(p: Pair)
    requires ValidPair(p)
    ensures Normalize(p.ToString()) == p.ToString()
  {
    var s := p.ToString();
    assert forall i :: 0 <= i < |s| ==> UpperChar(s[i]) == s[i];
    assert ToUpper(s) == s;
    assert !IsSpace(s[0]) && !IsSpace(s[|s| - 1]);
  }

  /** Printing then parsing gives the pair back. */
  lemma RoundTrip(p: Pair)
    requires ValidPair(p)
    ensures ParsePair(p.ToString()) == Success(p)
  {
    PrintedIsNormal(p);
    ParseExact(p.ToString(), p);
  }

  /** Two valid pairs never share a printed form: cache entries and pending rows stay apart. */
  lemma ToStringInjective(p: Pair, q: Pair)
    requires ValidPair(p) && ValidPair(q) && p.ToString() == q.ToString()
    ensures p == q
  {
    RoundTrip(p);
    RoundTrip(q);
  }

  /** Printing after parsing is idempotent: it yields the normal form, which parses to itself. */
  lemma PrintAfterParse(s: string)
    requires ParsePair(s).Success?
    ensures var t := ParsePair(s).value.ToString();
      t == Normalize(s) && ParsePair(t) == ParsePair(s) && ParsePair(t).value.ToString() == t
  {
    var p := ParsePair(s).value;
    ParseExact(s, p);
    RoundTrip(p);
  }

  /** Trimming does not see white space put around the text. */
  lemma TrimAround(pre: string, s: string, post: string)
    requires forall i :: 0 <= i < |pre| ==> IsSpace(pre[i])
    requires forall i :: 0 <= i < |post| ==> IsSpace(post[i])
    ensures TrimSpace(pre + s + post) == TrimSpace(s)
  {
    hide IsSpace, TrimLeft, TrimRight;
    var t, core := pre + s + post, TrimSpace(s);
    var cut := |s| - |TrimLeft(s)|;
    assert core == s[cut..cut + |core|];
    assert t[|pre| + cut..|pre| + cut + |core|] == core;
    forall i | 0 <= i < |pre| + cut || |pre| + cut + |core| <= i < |t| ensures IsSpace(t[i]) {
      if |pre| <= i < |pre| + |s| {
        assert t[i] == s[i - |pre|];
        assert i - |pre| >= cut ==> s[i - |pre|] == TrimLeft(s)[i - |pre| - cut];
      }
    }
    TrimUnique(t, |pre| + cut, core);
  }

  /** The trimmed text is the only core with white space on both sides and none at its ends. */
  lemma TrimUnique(s: string, from: nat, core: string)
    requires from + |core| <= |s| && core == s[from..from + |core|]
    requires core != "" ==> !IsSpace(core[0]) && !IsSpace(core[|core| - 1])
    requires forall i :: 0 <= i < from || from + |core| <= i < |s| ==> IsSpace(s[i])
    ensures TrimSpace(s) == core
  {
    var left := TrimLeft(s);
    var cut := |s| - |left|;
    assert left != "" ==> left[0] == s[cut];
    if core != "" {
      assert core[0] == s[from] && core[|core| - 1] == s[from + |core| - 1];
      assert cut == from;
      var right := TrimRight(left);
      assert left[|core| - 1] == s[from + |core| - 1];
      assert right[|right| - 1] == s[from + |right| - 1];
    }
  }

  /** Which characters become a given capital letter when upper-cased: itself, its small letter, and for
      I and S one more each. */
  lemma CapitalsExactly(c: char, capital: char)
    requires 'A' <= capital <= 'Z'
    ensures UpperChar(c) == capital <==>
      || c == capital || c == capital - 'A' + 'a'
      || (capital == 'I' && c == '\U{0131}') || (capital == 'S' && c == '\U{017F}')
  {
  }

  lemma SameLetter(c: char, d: char)
    requires LowerChar(c) == LowerChar(d)
    ensures UpperChar(c) == UpperChar(d)
  {
    assert 'a' <= c <= 'z' ==> c - 'a' + 'A' <= 'Z';
  }

  /** The case of Latin letters and surrounding white space do not change the outcome of parsing. */
  lemma ParseInsensitive(pre: string, s: string, t: string, post: string)
    requires forall i :: 0 <= i < |pre| ==> IsSpace(pre[i])
    requires forall i :: 0 <= i < |post| ==> IsSpace(post[i])
    requires ToLower(t) == ToLower(s)
    ensures ParsePair(pre + t + post) == ParsePair(s)
  {
    assert |t| == |ToLower(t)| == |s|;
    forall i | 0 <= i < |s| ensures UpperChar(t[i]) == UpperChar(s[i]) {
      assert ToLower(t)[i] == ToLower(s)[i];
      SameLetter(t[i], s[i]);
    }
    assert ToUpper(t) == ToUpper(s);
    UpperConcat(pre + t, post);
    UpperConcat(pre, t);
    TrimAround(ToUpper(pre), ToUpper(s), ToUpper(post));
  }

  lemma UpperConcat(a: string, b: string)
    ensures ToUpper(a + b) == ToUpper(a) + ToUpper(b)
  {
  }
}
