/** Texts as the database receives them: bytes in UTF-8 (RFC 3629), which a text column refuses when
    they are malformed or hold a NUL, and what cutting them at a byte count does
    (internal/storage/postgres/storage.go:142-149, 257-262). */
module Utf8 {
  import opened Wrappers

  type Byte = x: int | 0 <= x < 256
  type Bytes = seq<Byte>

  /** The six lowest bits, in a continuation byte. */
  function Low(v: nat): Byte {
    0x80 + v % 64
  }

  function EncodeChar(c: char): (r: Bytes)
    ensures 1 <= |r| <= 4
  {
    var v: nat := c as int;
    if v < 0x80 then [v]
    else if v < 0x800 then [0xC0 + v / 64, Low(v)]
    else if v < 0x10000 then [0xE0 + v / 64 / 64, Low(v / 64), Low(v)]
    else [0xF0 + v / 64 / 64 / 64, Low(v / 64 / 64), Low(v / 64), Low(v)]
  }

  function Encode(s: string): Bytes {
    if s == "" then [] else EncodeChar(s[0]) + Encode(s[1..])
  }

  predicate Continues(b: Bytes, i: nat) {
    i < |b| && 0x80 <= b[i] < 0xC0
  }

  /** Six more bits. */
  function Extend(v: int, low: Byte): int {
    v * 64 + (low as int - 0x80)
  }

  /** A code point encoded in `n` bytes, unless it has a shorter form or is a surrogate. */
  function Checked(v: int, least: nat, n: nat): Option<(char, nat)> {
    if v < least || 0xD800 <= v < 0xE000 || v > 0x10FFFF then None else Some((v as char, n))
  }

  /** The first character and its length. */
  function DecodeOne(b: Bytes): (r: Option<(char, nat)>)
    requires b != []
    ensures r.Some? ==> 1 <= r.value.1 <= |b|
  {
    if b[0] < 0x80 then Some((b[0] as char, 1))
    else if 0xC0 <= b[0] < 0xE0 && Continues(b, 1) then
      Checked(Extend(b[0] - 0xC0, b[1]), 0x80, 2)
    else if 0xE0 <= b[0] < 0xF0 && Continues(b, 1) && Continues(b, 2) then
      Checked(Extend(Extend(b[0] - 0xE0, b[1]), b[2]), 0x800, 3)
    else if 0xF0 <= b[0] < 0xF8 && Continues(b, 1) && Continues(b, 2) && Continues(b, 3) then
      Checked(Extend(Extend(Extend(b[0] - 0xF0, b[1]), b[2]), b[3]), 0x10000, 4)
    else None
  }

  function Decode(b: Bytes): Option<string>
    decreases |b|
  {
    if b == [] then Some("")
    else
      var first := DecodeOne(b);
      if first.None? then None
      else
        var rest := Decode(b[first.value.1..]);
        if rest.None? then None else Some([first.value.0] + rest.value)
  }

  /** What a text column takes. */
  predicate Storable(b: Bytes) {
    Decode(b).Some? && 0 !in b
  }

  // ---------- decoding undoes encoding, and the other way round ----------

  lemma ExtendLow(v: nat)
    ensures Extend(v / 64, Low(v)) == v && 0x80 <= Low(v) < 0xC0
  {
  }

  lemma LowExtend(v: nat, low: Byte)
    requires 0x80 <= low < 0xC0
    ensures Extend(v, low) >= 0 && Extend(v, low) / 64 == v && Low(Extend(v, low)) == low
  {
  }

  lemma OneThere(c: char, rest: Bytes)
    ensures DecodeOne(EncodeChar(c) + rest) == Some((c, |EncodeChar(c)|))
  {
    hide Extend, Low;
    var v: nat := c as int;
    ExtendLow(v);
    ExtendLow(v / 64);
    ExtendLow(v / 64 / 64);
  }

  lemma OneBack(b: Bytes)
    requires b != [] && DecodeOne(b).Some?
    ensures var (c, n) := DecodeOne(b).value; EncodeChar(c) == b[..n]
  {
    hide Extend, Low;
    var (c, n) := DecodeOne(b).value;
    if n == 2 {
      LowExtend(b[0] - 0xC0, b[1]);
    } else if n == 3 {
      LowExtend(b[0] - 0xE0, b[1]);
      LowExtend(Extend(b[0] - 0xE0, b[1]), b[2]);
    } else if n == 4 {
      LowExtend(b[0] - 0xF0, b[1]);
      LowExtend(Extend(b[0] - 0xF0, b[1]), b[2]);
      LowExtend(Extend(Extend(b[0] - 0xF0, b[1]), b[2]), b[3]);
    }
  }

  lemma {:induction false} DecodeEncode(s: string)
    ensures Decode(Encode(s)) == Some(s)
  {
    hide EncodeChar, DecodeOne;
    if s != "" {
      OneThere(s[0], Encode(s[1..]));
      assert Encode(s)[|EncodeChar(s[0])|..] == Encode(s[1..]);
      DecodeEncode(s[1..]);
      assert [s[0]] + s[1..] == s;
    }
  }

  lemma {:induction false} EncodeDecode(b: Bytes)
    requires Decode(b).Some?
    ensures Encode(Decode(b).value) == b
    decreases |b|
  {
    hide EncodeChar, DecodeOne;
    if b != [] {
      OneBack(b);
      var (c, n) := DecodeOne(b).value;
      EncodeDecode(b[n..]);
      var s := Decode(b).value;
      assert s[0] == c && s[1..] == Decode(b[n..]).value;
      assert b[..n] + b[n..] == b;
    }
  }

  /** Bytes are well formed exactly when they are the encoding of some text, and of one only. */
  lemma DecodeExact(b: Bytes, s: string)
    ensures Decode(b) == Some(s) <==> Encode(s) == b
  {
    DecodeEncode(s);
    if Decode(b).Some? {
      EncodeDecode(b);
    }
  }

  // ---------- cutting ----------

  /** The first `n` bytes, or all of them. */
  function Cut(b: Bytes, n: nat): (r: Bytes)
    ensures r <= b && |r| <= n && (|r| < n ==> r == b)
  {
    if |b| <= n then b else b[..n]
  }

  /** The cut falls between two characters. */
  ghost predicate OnBoundary(s: string, n: nat) {
    exists k: nat :: k <= |s| && |Encode(s[..k])| == n
  }

  lemma {:induction false} EncodeConcat(s: string, t: string)
    ensures Encode(s + t) == Encode(s) + Encode(t)
  {
    hide EncodeChar;
    if s == "" {
      assert s + t == t;
    } else {
      assert (s + t)[1..] == s[1..] + t;
      EncodeConcat(s[1..], t);
    }
  }

  /** A text whose encoding starts another's is a prefix of it. */
  lemma {:induction false} PrefixOfEncoding(p: string, s: string)
    requires Encode(p) <= Encode(s)
    ensures p <= s
  {
    hide EncodeChar, DecodeOne;
    if p != "" {
      assert s != "" by {
        assert |EncodeChar(p[0])| >= 1;
      }
      var tail := Encode(s)[|EncodeChar(p[0])|..];
      assert Encode(s) == EncodeChar(p[0]) + tail by {
        assert Encode(s)[..|EncodeChar(p[0])|] == Encode(p)[..|EncodeChar(p[0])|];
      }
      OneThere(p[0], tail);
      OneThere(s[0], Encode(s[1..]));
      assert tail == Encode(s[1..]);
      assert Encode(p[1..]) == Encode(p)[|EncodeChar(p[0])|..];
      PrefixOfEncoding(p[1..], s[1..]);
    }
  }

  /** A well-formed text cut at `n` bytes stays well formed exactly when it was short enough or the
      cut falls on a character boundary. */
  lemma CutExactly(s: string, n: nat)
    ensures Decode(Cut(Encode(s), n)).Some? <==> |Encode(s)| <= n || OnBoundary(s, n)
  {
    hide Encode, Decode;
    DecodeEncode(s);
    var b := Cut(Encode(s), n);
    if |Encode(s)| > n {
      if Decode(b).Some? {
        var p := Decode(b).value;
        EncodeDecode(b);
        PrefixOfEncoding(p, s);
        assert s[..|p|] == p;
      }
      if OnBoundary(s, n) {
        var k: nat :| k <= |s| && |Encode(s[..k])| == n;
        assert s[..k] + s[k..] == s;
        EncodeConcat(s[..k], s[k..]);
        DecodeEncode(s[..k]);
      }
    }
  }

  lemma {:induction false} NulFree(s: string)
    ensures 0 in Encode(s) <==> '\0' in s
  {
    if s != "" {
      assert 0 in EncodeChar(s[0]) <==> s[0] == '\0';
      NulFree(s[1..]);
    }
  }

  /** For a well-formed reason without NUL: the database takes its cut text exactly when the reason was short
      enough or the cut falls between two characters. */
  lemma TextStorableExactly(s: string, n: nat)
    requires '\0' !in s
    ensures Storable(Cut(Encode(s), n)) <==> |Encode(s)| <= n || OnBoundary(s, n)
  {
    hide Encode, Decode;
    CutExactly(s, n);
    NulFree(s);
  }

  // ---------- any bytes at all ----------

  /** Read character by character from its start, `b` is well formed and free of NUL up to byte `n`,
      and a character ends there. */
  predicate WalksTo(b: Bytes, n: nat)
    decreases n
  {
    n == 0 || (b != [] && DecodeOne(b).Some?
      && var (c, k) := DecodeOne(b).value; c != '\0' && k <= n && WalksTo(b[k..], n - k))
  }

  lemma OneOfPrefix(b: Bytes, m: nat)
    requires 0 < m <= |b|
    ensures var whole := DecodeOne(b);
      DecodeOne(b[..m]) == if whole.Some? && whole.value.1 <= m then whole else None
  {
    hide Checked;
    assert forall i :: 0 <= i < m ==> b[..m][i] == b[i];
    if DecodeOne(b).Some? {
      CheckedLength(b);
    }
  }

  lemma CheckedLength(b: Bytes)
    requires b != [] && DecodeOne(b).Some?
    ensures DecodeOne(b).value.1 ==
      if b[0] < 0x80 then 1 else if b[0] < 0xE0 then 2 else if b[0] < 0xF0 then 3 else 4
  {
  }

  lemma NulFirst(b: Bytes)
    requires b != [] && DecodeOne(b).Some?
    ensures var (c, k) := DecodeOne(b).value; 0 in b[..k] <==> c == '\0'
  {
    var (c, k) := DecodeOne(b).value;
    OneBack(b);
    assert 0 in EncodeChar(c) <==> c == '\0';
  }

  lemma {:induction false} PrefixStorable(b: Bytes, m: nat)
    requires m <= |b|
    ensures Storable(b[..m]) <==> WalksTo(b, m)
    decreases m
  {
    hide DecodeOne, EncodeChar;
    if m > 0 {
      var p := b[..m];
      OneOfPrefix(b, m);
      if DecodeOne(p).Some? {
        var (c, k) := DecodeOne(p).value;
        NulFirst(b);
        assert b[..k] == p[..k] && p == p[..k] + p[k..];
        assert p[k..] == b[k..][..m - k];
        PrefixStorable(b[k..], m - k);
      }
    }
  }

  /** For any bytes, malformed ones included: the database takes the cut text exactly when reading the
      reason from its start comes, without a malformed character or a NUL, to the very place of the
      cut, or of the end if that comes first. */
  lemma StorableExactly(b: Bytes, n: nat)
    ensures Storable(Cut(b, n)) <==> WalksTo(b, if |b| <= n then |b| else n)
  {
    hide Decode, DecodeOne, WalksTo;
    var m := if |b| <= n then |b| else n;
    assert Cut(b, n) == b[..m];
    PrefixStorable(b, m);
  }

  /** Refused texts exist: 250 two-byte letters behind one ASCII letter are cut in half. */
  lemma SomeCutsAreRefused()
    ensures !Storable(Cut(Encode("a" + seq(250, _ => '\U{0416}')), 500))
  {
    var s := "a" + seq(250, _ => '\U{0416}');
    NulFree(s);
    CutExactly(s, 500);
    forall k: nat | k <= |s| ensures |Encode(s[..k])| == if k == 0 then 0 else 2 * k - 1 {
      OddLength(s, k);
    }
    assert s[..251] == s;
  }

  lemma {:induction false} OddLength(s: string, k: nat)
    requires k <= |s| && (forall i :: 0 < i < |s| ==> s[i] == '\U{0416}') && (|s| > 0 ==> s[0] == 'a')
    ensures |Encode(s[..k])| == if k == 0 then 0 else 2 * k - 1
  {
    if k > 0 {
      OddLength(s, k - 1);
      assert s[..k] == s[..k - 1] + [s[k - 1]];
      EncodeConcat(s[..k - 1], [s[k - 1]]);
      assert Encode([s[k - 1]]) == EncodeChar(s[k - 1]);
    }
  }

  /** One character of each width, as the standard encodes it. */
  lemma SomeEncodings()
    ensures EncodeChar('k') == [0x6B] && EncodeChar('\U{0416}') == [0xD0, 0x96]
    ensures EncodeChar('\U{20AC}') == [0xE2, 0x82, 0xAC]
    ensures EncodeChar('\U{01F600}') == [0xF0, 0x9F, 0x98, 0x80]
  {
  }
}
