/** How many rows can be pending at once (internal/service/service.go:115-121, 264). */
module Bounds {
  import opened Domain
  import opened Requests
  import opened Storage
  import opened System
  import opened Invariants
  import opened Guarantees

  // ---------- pending rows name supported currencies ----------

  ghost predicate PendingSupported(cfg: Config, rows: seq<Row>) {
    forall i :: 0 <= i < |rows| && rows[i].status == Pending ==> Supported(cfg, rows[i].pair)
  }

  lemma EvolvedSupported(cfg: Config, rows: seq<Row>, rows': seq<Row>)
    requires PendingSupported(cfg, rows) && Evolves(rows, rows')
    requires forall i :: |rows| <= i < |rows'| ==> Supported(cfg, rows'[i].pair)
    ensures PendingSupported(cfg, rows')
  {
    hide Supported;
    forall i | 0 <= i < |rows'| && rows'[i].status == Pending ensures Supported(cfg, rows'[i].pair) {
      if i < |rows| {
        assert RowEvolves(rows[i], rows'[i]);
      }
    }
  }

  /** The service only creates rows for pairs it supports. */
  lemma SupportedStep(s: State, a: Action)
    requires TableInv(s) && Enabled(s, a) && PendingSupported(s.cfg, s.db.rows)
    ensures PendingSupported(s.cfg, Apply(s, a).db.rows)
  {
    hide CallStep, WriteDb, WritePool, TableOk, ParsePair, Supported, IsListing, CallOk;
    Untouched(s, a);
    TableStep(s, a);
    if a.Query? {
      StatementKeeps(s.db.rows, s.callers[a.c].call, a.fault, a.dbNow);
      EvolvedSupported(s.cfg, s.db.rows, Apply(s, a).db.rows);
    } else if a.Write? {
      WriteKeepsTable(s.db, s.pool.workers[a.w], a.fault, a.dbNow);
      EvolvedSupported(s.cfg, s.db.rows, Apply(s, a).db.rows);
    }
  }

  lemma {:induction false} SupportedForever(run: seq<State>, acts: seq<Action>, k: nat)
    requires Starts(run, acts) && k < |run| && PendingSupported(run[0].cfg, run[0].db.rows)
    ensures PendingSupported(run[k].cfg, run[k].db.rows)
  {
    hide Init, Enabled, Apply, TableInv, HeldInv, Conserved, LifeInv, ExitInv, PublishedInv, PendingSupported;
    if k > 0 {
      SupportedForever(run, acts, k - 1);
      Reachable(run, acts, k - 1);
      SupportedStep(run[k - 1], acts[k - 1]);
      Untouched(run[k - 1], acts[k - 1]);
    }
  }

  // ---------- counting ----------

  function PendingIds(rows: seq<Row>): set<nat> {
    set id: nat | id < |rows| && rows[id].status == Pending
  }

  function TextOf(base: string, quote: string): string {
    Pair(base, quote).ToString()
  }

  function Texts(bases: set<string>, quotes: set<string>): set<string> {
    set b, q | b in bases && q in quotes && b != q :: TextOf(b, q)
  }

  /** An image is at most as large as its source, and as large when nothing collides. */
  lemma {:induction false} ImageSize<A, B>(source: set<A>, f: A -> B, image: set<B>)
    requires forall a :: a in source ==> f(a) in image
    requires forall b :: b in image ==> exists a :: a in source && f(a) == b
    ensures |image| <= |source|
    ensures (forall a, a' :: a in source && a' in source && a != a' ==> f(a) != f(a')) ==> |image| == |source|
    decreases |source|
  {
    if source == {} {
      assert image == {};
    } else {
      var a :| a in source;
      var rest := source - {a};
      var rest' := set x | x in rest :: f(x);
      ImageSize(rest, f, rest');
      forall b | b in image ensures b in rest' + {f(a)} {
        var a' :| a' in source && f(a') == b;
        assert a' == a || a' in rest;
      }
      assert image == rest' + {f(a)};
    }
  }

  lemma TextsSplit(bases: set<string>, quotes: set<string>, b: string, row: set<string>)
    requires b in bases && row == set q | q in quotes - {b} :: TextOf(b, q)
    ensures Texts(bases, quotes) == Texts(bases - {b}, quotes) + row
  {
    hide TextOf;
    forall text | text in Texts(bases, quotes) ensures text in Texts(bases - {b}, quotes) + row {
      var c, q :| c in bases && q in quotes && c != q && TextOf(c, q) == text;
      assert c == b ==> q in quotes - {b};
    }
  }

  lemma Union<T>(a: set<T>, b: set<T>)
    ensures |a + b| <= |a| + |b|
  {
    assert |a + b| == |a| + |b - a| by {
      assert a + b == a + (b - a);
    }
    Subset(b - a, b);
  }

  lemma {:induction false} TextsSize(bases: set<string>, quotes: set<string>)
    requires bases <= quotes
    ensures |Texts(bases, quotes)| <= |bases| * (|quotes| - 1)
    decreases |bases|
  {
    if bases == {} {
      assert Texts(bases, quotes) == {};
    } else {
      hide TextOf;
      var b :| b in bases;
      TextsSize(bases - {b}, quotes);
      var row := set q | q in quotes - {b} :: TextOf(b, q);
      ImageSize(quotes - {b}, (q: string) => TextOf(b, q), row);
      TextsSplit(bases, quotes, b, row);
      Union(Texts(bases - {b}, quotes), row);
      assert |quotes - {b}| == |quotes| - 1;
      assert |bases| * (|quotes| - 1) == (|bases| - 1) * (|quotes| - 1) + (|quotes| - 1);
    }
  }

  lemma PairsCounted(cfg: Config, rows: seq<Row>)
    requires UniquePending(rows) && PendingSupported(cfg, rows)
    ensures |PendingIds(rows)| <= |cfg.allowed| * (|cfg.allowed| - 1)
  {
    hide TextOf;
    var pending, texts := PendingIds(rows), Texts(cfg.allowed, cfg.allowed);
    var image := set id | id in pending :: rows[id].pair;
    var pairOf := (id: nat) => if id < |rows| then rows[id].pair else "";
    ImageSize(pending, pairOf, image);
    TextsSize(cfg.allowed, cfg.allowed);
    forall text | text in image ensures text in texts {
      var id :| id in pending && rows[id].pair == text;
      SupportedText(cfg, text);
    }
    Subset(image, texts);
  }

  lemma SupportedText(cfg: Config, text: string)
    requires Supported(cfg, text)
    ensures text in Texts(cfg.allowed, cfg.allowed)
  {
    var p: Pair :| ValidPair(p) && p.ToString() == text && p.base in cfg.allowed && p.quote in cfg.allowed;
    assert text == TextOf(p.base, p.quote);
  }

  /** Pending pairs are distinct and have two different supported sides: if that holds of the rows
      found at start, then with n currencies there are never more than n(n - 1) pending rows. */
  lemma PendingBound(run: seq<State>, acts: seq<Action>, k: nat)
    requires Starts(run, acts) && k < |run| && PendingSupported(run[0].cfg, run[0].db.rows)
    ensures var n := |run[k].cfg.allowed|; |PendingIds(run[k].db.rows)| <= n * (n - 1)
  {
    hide Init, Enabled, Apply, HeldInv, Conserved, LifeInv, ExitInv, PublishedInv, PendingSupported;
    Reachable(run, acts, k);
    SupportedForever(run, acts, k);
    assert UniquePending(run[k].db.rows);
    PairsCounted(run[k].cfg, run[k].db.rows);
  }

  lemma {:induction false} Subset<T>(a: set<T>, b: set<T>)
    requires a <= b
    ensures |a| <= |b|
    decreases |a|
  {
    if a != {} {
      var x :| x in a;
      Subset(a - {x}, b - {x});
    }
  }

  function Ids(out: seq<Request>): set<nat> {
    if out == [] then {} else {out[0].id} + Ids(out[1..])
  }

  lemma {:induction false} IdsListed(out: seq<Request>)
    ensures forall id :: id in Ids(out) <==> Listed(out, id)
    ensures (forall j, k :: 0 <= j < k < |out| ==> out[j].id != out[k].id) ==> |Ids(out)| == |out|
  {
    if out != [] {
      hide Listed;
      var rest := out[1..];
      IdsListed(rest);
      forall id: nat ensures Listed(out, id) <==> id == out[0].id || Listed(rest, id) {
        ListedFirst(out, id);
      }
      if forall j, k :: 0 <= j < k < |out| ==> out[j].id != out[k].id {
        FirstIsNew(out);
      }
    }
  }

  lemma ListedFirst(out: seq<Request>, id: nat)
    requires out != []
    ensures Listed(out, id) <==> id == out[0].id || Listed(out[1..], id)
  {
    var rest := out[1..];
    if Listed(rest, id) {
      var k :| 0 <= k < |rest| && rest[k].id == id;
      assert out[k + 1].id == id;
    }
    if Listed(out, id) && id != out[0].id {
      var k :| 0 <= k < |out| && out[k].id == id;
      assert rest[k - 1].id == id;
    }
  }

  lemma FirstIsNew(out: seq<Request>)
    requires out != [] && forall j, k :: 0 <= j < k < |out| ==> out[j].id != out[k].id
    ensures !Listed(out[1..], out[0].id)
    ensures forall j, k :: 0 <= j < k < |out[1..]| ==> out[1..][j].id != out[1..][k].id
  {
    assert forall k :: 0 <= k < |out[1..]| ==> out[1..][k] == out[k + 1];
  }

  /** A listing has as many entries as there are pending rows, up to its limit. */
  lemma ListingSize(rows: seq<Row>, n: nat, out: seq<Request>)
    requires IsListing(rows, n, out)
    ensures |out| == if n <= |PendingIds(rows)| then n else |PendingIds(rows)|
  {
    IdsListed(out);
    var ids := Ids(out);
    hide Ids, PendingIds;
    forall id | id in ids ensures id in PendingIds(rows) {
      ListedPending(rows, n, out, id);
    }
    Subset(ids, PendingIds(rows));
    if |out| < n {
      forall id | id in PendingIds(rows) ensures id in ids {
        PendingListed(rows, n, out, id);
      }
      assert ids == PendingIds(rows);
    }
  }

  lemma ListedPending(rows: seq<Row>, n: nat, out: seq<Request>, id: nat)
    requires IsListing(rows, n, out) && Listed(out, id)
    ensures id in PendingIds(rows)
  {
    var k :| 0 <= k < |out| && out[k].id == id;
    assert Snapshot(rows, out[k]);
  }

  lemma PendingListed(rows: seq<Row>, n: nat, out: seq<Request>, id: nat)
    requires IsListing(rows, n, out) && |out| < n && id in PendingIds(rows)
    ensures Listed(out, id)
  {
    assert IsPendingId(rows, id);
  }

  /** With at most ten supported currencies a resync pass lists every pending row. */
  lemma ResyncNeverTruncates(run: seq<State>, acts: seq<Action>, k: nat, listing: seq<Request>, id: nat)
    requires Starts(run, acts) && k < |run| && |run[k].cfg.allowed| <= 10
    requires PendingSupported(run[0].cfg, run[0].db.rows)
    requires IsListing(run[k].db.rows, RESYNC_LIMIT, listing) && IsPendingId(run[k].db.rows, id)
    ensures Listed(listing, id)
  {
    hide Starts;
    PendingBound(run, acts, k);
    ListingSize(run[k].db.rows, RESYNC_LIMIT, listing);
    var n := |run[k].cfg.allowed|;
    assert n * (n - 1) <= 90 by {
      assert n <= 10;
      if n > 0 { assert n * (n - 1) <= 10 * (n - 1); }
    }
  }
}
