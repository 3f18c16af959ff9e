/** Counters and the lock-free sum of provider seconds (internal/metrics/metrics.go:37-53, 69-79,
    126-143). Sums are real numbers, counters unbounded. */
module Metrics {

  // ---------- printed keys ----------

  function HexDigit(n: nat): char
    requires n < 16
  {
    "0123456789abcdef"[n]
  }

  /** The lowest `count` hexadecimal digits of `v`. */
  function Hex(v: nat, count: nat): (r: string)
    ensures |r| == count
  {
    if count == 0 then "" else Hex(v / 16, count - 1) + [HexDigit(v % 16)]
  }

  /** One character inside a quoted Go string. `plain` are the characters outside ASCII that the
      language prints as they are; the others are escaped by their number. */
  function Escaped(plain: set<char>, c: char): (r: string)
    ensures r != "" && r[0] != '"'
  {
    var v := c as int;
    if c == '"' || c == '\\' then ['\\', c]
    else if ' ' <= c < '\U{007F}' then [c]
    else if c == '\U{0007}' then "\\a"
    else if c == '\U{0008}' then "\\b"
    else if c == '\U{000C}' then "\\f"
    else if c == '\n' then "\\n"
    else if c == '\r' then "\\r"
    else if c == '\t' then "\\t"
    else if c == '\U{000B}' then "\\v"
    else if v < 0x80 then "\\x" + Hex(v, 2)
    else if c in plain then [c]
    else if v < 0x10000 then "\\u" + Hex(v, 4)
    else "\\U" + Hex(v, 8)
  }

  /** The rest of a quoted text behind its opening quote. */
  function Quoted(plain: set<char>, s: string): string {
    if s == "" then "\"" else Escaped(plain, s[0]) + Quoted(plain, s[1..])
  }

  /** One value per label: missing ones are empty, surplus ones are ignored. */
  function ValueOf(values: seq<string>, i: nat): string {
    if i < |values| then values[i] else ""
  }

  function Part(plain: set<char>, name: string, value: string): string {
    name + "=\"" + Quoted(plain, value)
  }

  /** The labels from `i` on. */
  function PrintFrom(plain: set<char>, names: seq<string>, values: seq<string>, i: nat): string
    requires i <= |names|
    decreases |names| - i
  {
    if i == |names| then ""
    else
      (if i > 0 then "," else "") + Part(plain, names[i], ValueOf(values, i))
      + PrintFrom(plain, names, values, i + 1)
  }

  /** The text that identifies a counter: name="value" for every label, joined by commas. */
  function LabelKey(plain: set<char>, names: seq<string>, values: seq<string>): string {
    PrintFrom(plain, names, values, 0)
  }

  function HexValue(d: char): int {
    if '0' <= d <= '9' then d as int - '0' as int else d as int - 'a' as int + 10
  }

  function Number(digits: string): int {
    if digits == "" then 0 else Number(digits[..|digits| - 1]) * 16 + HexValue(digits[|digits| - 1])
  }

  function Pow16(n: nat): nat {
    if n == 0 then 1 else 16 * Pow16(n - 1)
  }

  lemma {:induction false} HexBack(v: nat, count: nat)
    requires v < Pow16(count)
    ensures Number(Hex(v, count)) == v
  {
    if count > 0 {
      var r := Hex(v, count);
      HexBack(v / 16, count - 1);
      assert r[..count - 1] == Hex(v / 16, count - 1);
      DigitBack(v % 16);
    }
  }

  lemma DigitBack(n: nat)
    requires n < 16
    ensures HexValue(HexDigit(n)) == n
  {
  }

  /** How many digits follow a backslash and this letter. */
  function Digits(letter: char): nat {
    if letter == 'x' then 2 else if letter == 'u' then 4 else if letter == 'U' then 8 else 0
  }

  /** Which character an escape starts with, and how long the escape is. */
  function Read(s: string): (int, nat)
    requires s != ""
  {
    if s[0] != '\\' || |s| < 2 then (s[0] as int, 1)
    else if s[1] == '"' || s[1] == '\\' then (s[1] as int, 2)
    else if s[1] == 'a' then (7, 2)
    else if s[1] == 'b' then (8, 2)
    else if s[1] == 'f' then (12, 2)
    else if s[1] == 'n' then (10, 2)
    else if s[1] == 'r' then (13, 2)
    else if s[1] == 't' then (9, 2)
    else if s[1] == 'v' then (11, 2)
    else if |s| < 2 + Digits(s[1]) then (0, 1)
    else (Number(s[2..2 + Digits(s[1])]), 2 + Digits(s[1]))
  }

  lemma NumberReads(letter: char, v: nat, x: string)
    requires letter in "xuU" && v < Pow16(Digits(letter))
    ensures Read(['\\', letter] + Hex(v, Digits(letter)) + x) == (v, 2 + Digits(letter))
  {
    hide Number, Hex;
    var n := Digits(letter);
    var s := ['\\', letter] + Hex(v, n) + x;
    assert s[0] == '\\' && s[1] == letter && s[2..2 + n] == Hex(v, n);
    HexBack(v, n);
  }

  lemma ReadsBack(plain: set<char>, c: char, x: string)
    ensures Read(Escaped(plain, c) + x) == (c as int, |Escaped(plain, c)|)
  {
    hide Hex, Number;
    var v: nat := c as int;
    var e := Escaped(plain, c);
    var s := e + x;
    assert s[0] == e[0];
    if |e| >= 2 {
      assert s[1] == e[1];
    }
    Powers();
    if |e| == 4 {
      NumberReads('x', v, x);
    } else if |e| == 6 {
      NumberReads('u', v, x);
    } else if |e| == 10 {
      NumberReads('U', v, x);
    }
  }

  lemma Powers()
    ensures Pow16(2) == 0x100 && Pow16(4) == 0x10000 && Pow16(8) == 0x1_0000_0000
  {
    assert Pow16(3) == 0x1000 && Pow16(5) == 0x10_0000 && Pow16(6) == 0x100_0000 && Pow16(7) == 0x1000_0000;
  }

  /** No escape is the beginning of another. */
  lemma EscapedApart(plain: set<char>, c: char, d: char, x: string, y: string)
    requires Escaped(plain, c) + x == Escaped(plain, d) + y
    ensures c == d && x == y
  {
    hide Escaped, Read;
    ReadsBack(plain, c, x);
    ReadsBack(plain, d, y);
    var m, n := |Escaped(plain, c)|, |Escaped(plain, d)|;
    assert (Escaped(plain, c) + x)[m..] == x && (Escaped(plain, d) + y)[n..] == y;
  }

  /** A quoted text ends itself: nothing behind it can be taken for a part of it. */
  lemma {:induction false} QuotedApart(plain: set<char>, v: string, w: string, x: string, y: string)
    requires Quoted(plain, v) + x == Quoted(plain, w) + y
    ensures v == w && x == y
  {
    hide Escaped;
    if v == "" || w == "" {
      assert (Quoted(plain, v) + x)[0] == Quoted(plain, v)[0] && (Quoted(plain, w) + y)[0] == Quoted(plain, w)[0];
      assert v == "" && w == "";
      assert (Quoted(plain, v) + x)[1..] == x && (Quoted(plain, w) + y)[1..] == y;
    } else {
      assert Quoted(plain, v) + x == Escaped(plain, v[0]) + (Quoted(plain, v[1..]) + x);
      assert Quoted(plain, w) + y == Escaped(plain, w[0]) + (Quoted(plain, w[1..]) + y);
      EscapedApart(plain, v[0], w[0], Quoted(plain, v[1..]) + x, Quoted(plain, w[1..]) + y);
      QuotedApart(plain, v[1..], w[1..], x, y);
      assert v == [v[0]] + v[1..] && w == [w[0]] + w[1..];
    }
  }

  function Head(names: seq<string>, i: nat): string
    requires i < |names|
  {
    (if i > 0 then "," else "") + names[i] + "=\""
  }

  lemma PrintedParts(plain: set<char>, names: seq<string>, values: seq<string>, i: nat)
    requires i < |names|
    ensures PrintFrom(plain, names, values, i)
      == Head(names, i) + (Quoted(plain, ValueOf(values, i)) + PrintFrom(plain, names, values, i + 1))
  {
    hide Quoted, ValueOf;
  }

  lemma SameTail(head: string, x: string, y: string)
    requires head + x == head + y
    ensures x == y
  {
    assert (head + x)[|head|..] == x && (head + y)[|head|..] == y;
  }

  lemma {:induction false} PrintedApart(plain: set<char>, names: seq<string>, a: seq<string>, b: seq<string>, i: nat)
    requires i <= |names|
    ensures PrintFrom(plain, names, a, i) == PrintFrom(plain, names, b, i)
      <==> forall k :: i <= k < |names| ==> ValueOf(a, k) == ValueOf(b, k)
    decreases |names| - i
  {
    hide Quoted, ValueOf, Head;
    if i < |names| {
      PrintedApart(plain, names, a, b, i + 1);
      PrintedParts(plain, names, a, i);
      PrintedParts(plain, names, b, i);
      hide PrintFrom;
      if PrintFrom(plain, names, a, i) == PrintFrom(plain, names, b, i) {
        var va, vb := ValueOf(a, i), ValueOf(b, i);
        var ra, rb := PrintFrom(plain, names, a, i + 1), PrintFrom(plain, names, b, i + 1);
        SameTail(Head(names, i), Quoted(plain, va) + ra, Quoted(plain, vb) + rb);
        QuotedApart(plain, va, vb, ra, rb);
      }
    }
  }

  /** Two observations share a counter exactly when they agree on the value of every label, whatever
      quotes, commas or line breaks the values hold. */
  lemma LabelKeyExactly(plain: set<char>, names: seq<string>, a: seq<string>, b: seq<string>)
    ensures LabelKey(plain, names, a) == LabelKey(plain, names, b)
      <==> forall k :: 0 <= k < |names| ==>
             (if k < |a| then a[k] else "") == (if k < |b| then b[k] else "")
  {
    PrintedApart(plain, names, a, b, 0);
    assert forall k :: 0 <= k < |names| ==> ValueOf(a, k) == if k < |a| then a[k] else "";
    assert forall k :: 0 <= k < |names| ==> ValueOf(b, k) == if k < |b| then b[k] else "";
  }

  /** A key as it is printed: names, quotes, an escaped quote, a comma, and a missing value. */
  lemma SomeKey()
    ensures LabelKey({}, ["provider", "result"], ["e\"b"]) == "provider=\"e\\\"b\",result=\"\""
  {
    assert Quoted({}, "b") == "b\"" by { assert "b"[1..] == ""; }
    assert Quoted({}, "\"b") == "\\\"b\"" by { assert "\"b"[1..] == "b"; }
    assert Quoted({}, "e\"b") == "e\\\"b\"" by { assert "e\"b"[1..] == "\"b"; }
    assert Quoted({}, "") == "\"";
  }

  // ---------- the objects ----------

  /** `keys` lists the domain of `values`, each key once. */
  ghost predicate KeysMatch(keys: seq<string>, values: map<string, nat>) {
    && (forall i, j :: 0 <= i < j < |keys| ==> keys[i] != keys[j])
    && (forall k :: k in keys <==> k in values)
  }

  class CounterVec {
    const plain: set<char>
    const labels: seq<string>
    var keys: seq<string>
    var values: map<string, nat>

    constructor (plain: set<char>, labels: seq<string>)
      ensures this.plain == plain && this.labels == labels && keys == [] && values == map[]
    {
      this.plain, this.labels, keys, values := plain, labels, [], map[];
    }

    /** Finds or creates the counter, then adds one to it. */
    method Inc(labelValues: seq<string>)
      requires KeysMatch(keys, values)
      modifies this
      ensures KeysMatch(keys, values) && old(keys) <= keys
      ensures var key := LabelKey(plain, labels, labelValues);
        values == old(values)[key := 1 + if key in old(values) then old(values)[key] else 0]
    {
      var key := LabelKey(plain, labels, labelValues);
      if key !in values {
        values := values[key := 0];
        keys := keys + [key];
      }
      values := values[key := values[key] + 1];
    }
  }

  class SecondsSum {
    var sum: real

    constructor ()
      ensures sum == 0.0
    {
      sum := 0.0;
    }

    /** The compare-and-swap loop: `others[k]` is what other goroutines add between the k-th load
        and its swap. The loop retries until a swap succeeds, and nobody's addition is lost. */
    method Add(seconds: real, others: seq<real>) returns (rounds: nat)
      modifies this
      ensures rounds <= |others|
      ensures sum == old(sum) + Total(others[..rounds]) + seconds
      ensures rounds < |others| ==> others[rounds] == 0.0
    {
      rounds := 0;
      while true
        invariant rounds <= |others|
        invariant sum == old(sum) + Total(others[..rounds])
        decreases |others| - rounds
      {
        var loaded := sum;
        if rounds < |others| {
          sum := sum + others[rounds];
        }
        if sum == loaded {
          sum := loaded + seconds;
          return;
        }
        assert others[..rounds + 1][..rounds] == others[..rounds];
        rounds := rounds + 1;
      }
    }
  }

  function Total(xs: seq<real>): real {
    if xs == [] then 0.0 else Total(xs[..|xs| - 1]) + xs[|xs| - 1]
  }

  // ---------- many goroutines inside ObserveProvider ----------

  datatype Obs = Obs(seconds: real, ok: bool)

  function ResultKey(plain: set<char>, provider: string, ok: bool): string {
    LabelKey(plain, ["provider", "result"], [provider, if ok then "ok" else "error"])
  }

  /** Where a goroutine is: nowhere, before the critical section of inc, before its atomic add,
      before the load, before the swap, before the final count. */
  datatype Thread =
    | Outside
    | Labelling(o: Obs)
    | Adding(o: Obs)
    | Loading(o: Obs)
    | Swapping(o: Obs, loaded: real)
    | Counting(o: Obs)

  /** The logs are history: observations begun, added to a result counter, swapped in, finished. */
  datatype State = State(
    plain: set<char>, provider: string, keys: seq<string>, values: map<string, nat>, sum: real, count: nat,
    threads: seq<Thread>,
    begun: seq<Obs>, added: seq<Obs>, swapped: seq<Obs>, finished: seq<Obs>)

  datatype Action = Begin(w: nat, o: Obs) | Step(w: nat)

  predicate Enabled(s: State, a: Action) {
    a.w < |s.threads| && (a.Begin? <==> s.threads[a.w].Outside?)
  }

  function Move(s: State, w: nat, t: Thread): State
    requires w < |s.threads|
  {
    s.(threads := s.threads[w := t])
  }

  function Apply(s: State, a: Action): State
    requires Enabled(s, a)
  {
    match a
    case Begin(w, o) => Move(s, w, Labelling(o)).(begun := s.begun + [o])
    case Step(w) =>
      match s.threads[w]
      case Labelling(o) =>
        var key := ResultKey(s.plain, s.provider, o.ok);
        if key in s.values then Move(s, w, Adding(o))
        else Move(s, w, Adding(o)).(values := s.values[key := 0], keys := s.keys + [key])
      case Adding(o) =>
        var key := ResultKey(s.plain, s.provider, o.ok);
        var before := if key in s.values then s.values[key] else 0;
        Move(s, w, Loading(o)).(values := s.values[key := before + 1], added := s.added + [o])
      case Loading(o) => Move(s, w, Swapping(o, s.sum))
      case Swapping(o, loaded) =>
        if s.sum == loaded then Move(s, w, Counting(o)).(sum := loaded + o.seconds, swapped := s.swapped + [o])
        else Move(s, w, Loading(o))
      case Counting(o) => Move(s, w, Outside).(count := s.count + 1, finished := s.finished + [o])
  }

  ghost predicate Init(s: State) {
    && s.keys == [] && s.values == map[] && s.sum == 0.0 && s.count == 0
    && s.begun == [] && s.added == [] && s.swapped == [] && s.finished == []
    && AllOutside(s.threads)
  }

  ghost predicate AllOutside(threads: seq<Thread>) {
    forall w :: 0 <= w < |threads| ==> threads[w].Outside?
  }

  ghost predicate IsRun(run: seq<State>, acts: seq<Action>) {
    && |run| == |acts| + 1
    && (forall k :: 0 <= k < |acts| ==> Enabled(run[k], acts[k]) && run[k + 1] == Apply(run[k], acts[k]))
  }

  // ---------- weights of logs ----------

  function Weigh(log: seq<Obs>, f: Obs -> real): real {
    if log == [] then 0.0 else Weigh(log[..|log| - 1], f) + f(log[|log| - 1])
  }

  function Seconds(o: Obs): real { o.seconds }

  function Is(ok: bool): Obs -> real {
    (o: Obs) => if o.ok == ok then 1.0 else 0.0
  }

  function One(o: Obs): real { 1.0 }

  lemma WeighAppend(log: seq<Obs>, o: Obs, f: Obs -> real)
    ensures Weigh(log + [o], f) == Weigh(log, f) + f(o)
  {
    assert (log + [o])[..|log|] == log;
  }

  function Without(log: seq<Obs>, i: nat): seq<Obs>
    requires i < |log|
  {
    log[..i] + log[i + 1..]
  }

  lemma RemoveOne(log: seq<Obs>, i: nat)
    requires i < |log|
    ensures multiset(Without(log, i)) == multiset(log) - multiset{log[i]}
  {
    assert log == log[..i] + [log[i]] + log[i + 1..];
  }

  lemma {:induction false} WeighOut(log: seq<Obs>, i: nat, f: Obs -> real)
    requires i < |log|
    ensures Weigh(log, f) == Weigh(Without(log, i), f) + f(log[i])
    decreases |log|
  {
    var last := |log| - 1;
    var init := log[..last];
    if i == last {
      assert Without(log, i) == init;
    } else {
      WeighOut(init, i, f);
      assert Without(log, i) == Without(init, i) + [log[last]];
      WeighAppend(Without(init, i), log[last], f);
    }
  }

  /** The weight of a log depends on its multiset only. */
  lemma {:induction false} WeighPermutes(a: seq<Obs>, b: seq<Obs>, f: Obs -> real)
    requires multiset(a) == multiset(b)
    ensures Weigh(a, f) == Weigh(b, f)
    decreases |a|
  {
    if a == [] {
      assert |multiset(b)| == 0;
      assert |b| == 0;
    } else {
      var last := |a| - 1;
      assert a == a[..last] + [a[last]];
      assert a[last] in multiset(b);
      var i :| 0 <= i < |b| && b[i] == a[last];
      WeighOut(b, i, f);
      RemoveOne(b, i);
      assert multiset(a[..last]) == multiset(a) - multiset{a[last]};
      WeighPermutes(a[..last], Without(b, i), f);
    }
  }

  // ---------- the invariant ----------

  function Stage(t: Thread): nat {
    match t
    case Outside => 0
    case Labelling(_) => 1
    case Adding(_) => 1
    case Loading(_) => 2
    case Swapping(_, _) => 2
    case Counting(_) => 3
  }

  /** How many goroutines are at a stage with this observation. */
  function At(threads: seq<Thread>, stage: nat, x: Obs): nat
    requires stage > 0
  {
    if threads == [] then 0 else Own(threads[0], stage, x) + At(threads[1..], stage, x)
  }

  function Own(t: Thread, stage: nat, x: Obs): nat
    requires stage > 0
  {
    if Stage(t) == stage && t.o == x then 1 else 0
  }

  lemma {:induction false} AtUpdate(threads: seq<Thread>, w: nat, t: Thread, stage: nat, x: Obs)
    requires w < |threads| && stage > 0
    ensures At(threads[w := t], stage, x) + Own(threads[w], stage, x) == At(threads, stage, x) + Own(t, stage, x)
  {
    hide Own;
    var changed := threads[w := t];
    if w == 0 {
      assert changed[1..] == threads[1..];
    } else {
      AtUpdate(threads[1..], w - 1, t, stage, x);
      assert changed[1..] == threads[1..][w - 1 := t] && changed[0] == threads[0];
    }
  }

  lemma {:induction false} AtNone(threads: seq<Thread>, stage: nat, x: Obs)
    requires stage > 0 && AllOutside(threads)
    ensures At(threads, stage, x) == 0
  {
    if threads != [] {
      AtNone(threads[1..], stage, x);
    }
  }

  /** Each log is the next one plus the observations in between. */
  ghost predicate LogsOk(s: State) {
    forall x :: LogOk(s, x)
  }

  function Count(log: seq<Obs>, x: Obs): nat {
    multiset(log)[x]
  }

  ghost predicate LogOk(s: State, x: Obs) {
    && Count(s.begun, x) == Count(s.added, x) + At(s.threads, 1, x)
    && Count(s.added, x) == Count(s.swapped, x) + At(s.threads, 2, x)
    && Count(s.swapped, x) == Count(s.finished, x) + At(s.threads, 3, x)
  }

  function Counter(values: map<string, nat>, key: string): nat {
    if key in values then values[key] else 0
  }

  /** Both counters hold the number of observations added to them; `keys` lists exactly the
      counters that exist, each once; a goroutine about to add has found or created its counter. */
  ghost predicate CountersOk(plain: set<char>, provider: string, keys: seq<string>, values: map<string, nat>,
                             added: seq<Obs>) {
    && KeysMatch(keys, values)
    && (forall k :: k in values ==> k == ResultKey(plain, provider, true) || k == ResultKey(plain, provider, false))
    && Counter(values, ResultKey(plain, provider, true)) as real == Weigh(added, Is(true))
    && Counter(values, ResultKey(plain, provider, false)) as real == Weigh(added, Is(false))
  }

  ghost predicate AddersOk(plain: set<char>, provider: string, values: map<string, nat>, threads: seq<Thread>) {
    forall w :: 0 <= w < |threads| && threads[w].Adding? ==> ResultKey(plain, provider, threads[w].o.ok) in values
  }

  ghost predicate TotalsOk(s: State) {
    && s.sum == Weigh(s.swapped, Seconds) && s.count == |s.finished|
    && CountersOk(s.plain, s.provider, s.keys, s.values, s.added) && AddersOk(s.plain, s.provider, s.values, s.threads)
  }

  lemma Append(log: seq<Obs>, o: Obs, x: Obs)
    ensures Count(log + [o], x) == Count(log, x) + if o == x then 1 else 0
  {
  }

  lemma LogStep(s: State, a: Action, x: Obs)
    requires LogOk(s, x) && Enabled(s, a)
    ensures LogOk(Apply(s, a), x)
  {
    hide At, ResultKey, Count;
    var to := Apply(s, a).threads[a.w];
    AtUpdate(s.threads, a.w, to, 1, x);
    AtUpdate(s.threads, a.w, to, 2, x);
    AtUpdate(s.threads, a.w, to, 3, x);
    if a.Begin? {
      Append(s.begun, a.o, x);
    } else {
      match s.threads[a.w] {
        case Adding(o) => Append(s.added, o, x);
        case Swapping(o, _) => Append(s.swapped, o, x);
        case Counting(o) => Append(s.finished, o, x);
        case _ =>
      }
    }
  }

  lemma ResultKeys(plain: set<char>, provider: string)
    ensures ResultKey(plain, provider, true) == LabelKey(plain, ["provider", "result"], [provider, "ok"])
    ensures ResultKey(plain, provider, false) == LabelKey(plain, ["provider", "result"], [provider, "error"])
  {
    hide LabelKey;
  }

  lemma KeysDiffer(plain: set<char>, provider: string)
    ensures ResultKey(plain, provider, true) != ResultKey(plain, provider, false)
  {
    var names, ok, bad := ["provider", "result"], [provider, "ok"], [provider, "error"];
    LabelKeyExactly(plain, names, ok, bad);
    assert ValueOf(ok, 1) != ValueOf(bad, 1);
  }

  lemma NewCounter(plain: set<char>, provider: string, keys: seq<string>, values: map<string, nat>,
                   added: seq<Obs>, ok: bool)
    requires CountersOk(plain, provider, keys, values, added) && ResultKey(plain, provider, ok) !in values
    ensures var key := ResultKey(plain, provider, ok);
      CountersOk(plain, provider, keys + [key], values[key := 0], added)
  {
    hide ResultKey, Weigh;
    KeysDiffer(plain, provider);
  }

  lemma CounterGoesUp(plain: set<char>, provider: string, keys: seq<string>, values: map<string, nat>,
                      added: seq<Obs>, o: Obs)
    requires CountersOk(plain, provider, keys, values, added) && ResultKey(plain, provider, o.ok) in values
    ensures var key := ResultKey(plain, provider, o.ok);
      CountersOk(plain, provider, keys, values[key := values[key] + 1], added + [o])
  {
    hide ResultKey, Weigh;
    KeysDiffer(plain, provider);
    WeighAppend(added, o, Is(true));
    WeighAppend(added, o, Is(false));
  }

  lemma TotalsStep(s: State, a: Action)
    requires TotalsOk(s) && Enabled(s, a)
    ensures TotalsOk(Apply(s, a))
  {
    hide ResultKey, Weigh, CountersOk;
    if a.Step? {
      match s.threads[a.w] {
        case Labelling(o) =>
          if ResultKey(s.plain, s.provider, o.ok) !in s.values {
            NewCounter(s.plain, s.provider, s.keys, s.values, s.added, o.ok);
          }
        case Adding(o) => CounterGoesUp(s.plain, s.provider, s.keys, s.values, s.added, o);
        case Swapping(o, _) => WeighAppend(s.swapped, o, Seconds);
        case _ =>
      }
    }
  }

  lemma {:induction false} Reachable(run: seq<State>, acts: seq<Action>, n: nat)
    requires IsRun(run, acts) && Init(run[0]) && n < |run|
    ensures LogsOk(run[n]) && TotalsOk(run[n])
  {
    hide Apply, Enabled, TotalsOk, LogOk;
    if n == 0 {
      Start(run[0]);
    } else {
      Reachable(run, acts, n - 1);
      TotalsStep(run[n - 1], acts[n - 1]);
      forall x ensures LogOk(run[n], x) {
        LogStep(run[n - 1], acts[n - 1], x);
      }
    }
  }

  lemma Start(s: State)
    requires Init(s)
    ensures LogsOk(s) && TotalsOk(s)
  {
    forall x ensures LogOk(s, x) {
      AtNone(s.threads, 1, x);
      AtNone(s.threads, 2, x);
      AtNone(s.threads, 3, x);
    }
  }

  /** At every instant, in every interleaving, the sum is the total of the durations whose swap
      succeeded: none is lost, none counts twice. */
  lemma SumIsSwapped(run: seq<State>, acts: seq<Action>, n: nat)
    requires IsRun(run, acts) && Init(run[0]) && n < |run|
    ensures run[n].sum == Weigh(run[n].swapped, Seconds) && KeysMatch(run[n].keys, run[n].values)
  {
    hide Apply, Enabled, LogsOk;
    Reachable(run, acts, n);
  }

  /** When no goroutine is inside, sum, count and both counters agree with the observations made. */
  lemma QuiescentTotals(run: seq<State>, acts: seq<Action>, n: nat)
    requires IsRun(run, acts) && Init(run[0]) && n < |run| && AllOutside(run[n].threads)
    ensures var s, names := run[n], ["provider", "result"];
      && s.sum == Weigh(s.begun, Seconds)
      && s.count as real == Weigh(s.begun, One)
      && Counter(s.values, LabelKey(s.plain, names, [s.provider, "ok"])) as real == Weigh(s.begun, Is(true))
      && Counter(s.values, LabelKey(s.plain, names, [s.provider, "error"])) as real == Weigh(s.begun, Is(false))
  {
    hide Apply, Enabled, ResultKey, Weigh, LabelKey;
    Reachable(run, acts, n);
    var s := run[n];
    ResultKeys(s.plain, s.provider);
    SameLogs(s);
    WeighPermutes(s.begun, s.swapped, Seconds);
    WeighPermutes(s.begun, s.finished, One);
    CountOnes(s.finished);
    WeighPermutes(s.begun, s.added, Is(true));
    WeighPermutes(s.begun, s.added, Is(false));
  }

  lemma SameLogs(s: State)
    requires LogsOk(s) && AllOutside(s.threads)
    ensures multiset(s.begun) == multiset(s.added) == multiset(s.swapped) == multiset(s.finished)
  {
    forall x ensures multiset(s.begun)[x] == multiset(s.added)[x] == multiset(s.swapped)[x] == multiset(s.finished)[x] {
      assert LogOk(s, x);
      AtNone(s.threads, 1, x);
      AtNone(s.threads, 2, x);
      AtNone(s.threads, 3, x);
    }
  }

  lemma {:induction false} CountOnes(log: seq<Obs>)
    ensures Weigh(log, One) == |log| as real
  {
    if log != [] {
      CountOnes(log[..|log| - 1]);
    }
  }
}
