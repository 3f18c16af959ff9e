/** A provider's answer, and the error chains that tell retryable failures from permanent ones
    (internal/rates/provider.go, internal/rates/errors.go). */
module Rates {
  import opened Wrappers
  import opened Domain
  import opened Backoff

  datatype Rate = Rate(pair: Pair, price: real, fetchedAt: int, source: string)

  /** An error chain: fmt.Errorf with one or two %w, and the two error types of errors.go. */
  datatype Err =
    | NoErr
    | ErrTransient
    | CtxErr
    | Message(text: string)
    | Wrapped(text: string, inner: Err)
    | Joined(left: Err, right: Err)
    | TransientError(inner: Err, retryAfter: int)

  function Transient(e: Err, retryAfter: int): Err {
    TransientError(Joined(ErrTransient, e), retryAfter)
  }

  predicate IsRetryable(e: Err) {
    match e
    case ErrTransient => true
    case Wrapped(_, inner) => IsRetryable(inner)
    case Joined(left, right) => IsRetryable(left) || IsRetryable(right)
    case TransientError(inner, _) => IsRetryable(inner)
    case _ => false
  }

  /** The outermost, leftmost transient error of the chain. */
  function FirstTransient(e: Err): Option<int> {
    match e
    case TransientError(_, retryAfter) => Some(retryAfter)
    case Wrapped(_, inner) => FirstTransient(inner)
    case Joined(left, right) =>
      var l := FirstTransient(left);
      if l.Some? then l else FirstTransient(right)
    case _ => None
  }

  /** Every error of the chain, outermost and leftmost first, as errors.Is and errors.As visit them. */
  function Visited(e: Err): seq<Err> {
    [e] + match e
          case Wrapped(_, inner) => Visited(inner)
          case TransientError(inner, _) => Visited(inner)
          case Joined(left, right) => Visited(left) + Visited(right)
          case _ => []
  }

  /** An error is worth a retry exactly when the transient marker is somewhere in its chain. */
  lemma {:induction false} RetryableExactly(e: Err)
    ensures IsRetryable(e) <==> ErrTransient in Visited(e)
  {
    match e {
      case Wrapped(_, inner) => RetryableExactly(inner);
      case TransientError(inner, _) => RetryableExactly(inner);
      case Joined(left, right) =>
        RetryableExactly(left);
        RetryableExactly(right);
      case _ =>
    }
  }

  /** The first transient error visited, if there is one, decides the Retry-After. */
  ghost predicate FirstDelay(chain: seq<Err>, d: Option<int>) {
    match d
    case None => forall i :: 0 <= i < |chain| ==> !chain[i].TransientError?
    case Some(v) => exists i :: 0 <= i < |chain| && chain[i].TransientError? && chain[i].retryAfter == v
                      && forall j :: 0 <= j < i ==> !chain[j].TransientError?
  }

  lemma FirstDelayUnique(chain: seq<Err>, d: Option<int>, d': Option<int>)
    requires FirstDelay(chain, d) && FirstDelay(chain, d')
    ensures d == d'
  {
  }

  lemma FirstDelayConcat(a: seq<Err>, b: seq<Err>, da: Option<int>, db: Option<int>)
    requires FirstDelay(a, da) && FirstDelay(b, db)
    ensures FirstDelay(a + b, if da.Some? then da else db)
  {
    var c := a + b;
    if da.Some? {
      var i :| 0 <= i < |a| && a[i].TransientError? && a[i].retryAfter == da.value
        && forall j :: 0 <= j < i ==> !a[j].TransientError?;
      assert c[i] == a[i];
    } else if db.Some? {
      var i :| 0 <= i < |b| && b[i].TransientError? && b[i].retryAfter == db.value
        && forall j :: 0 <= j < i ==> !b[j].TransientError?;
      assert c[|a| + i] == b[i];
    }
  }

  lemma {:induction false} FirstTransientExactly(e: Err)
    ensures FirstDelay(Visited(e), FirstTransient(e))
  {
    match e {
      case Wrapped(_, inner) =>
        FirstTransientExactly(inner);
        FirstDelayConcat([e], Visited(inner), None, FirstTransient(inner));
      case TransientError(inner, d) => assert Visited(e)[0] == e;
      case Joined(left, right) =>
        FirstTransientExactly(left);
        FirstTransientExactly(right);
        FirstDelayConcat(Visited(left), Visited(right), FirstTransient(left), FirstTransient(right));
        FirstDelayConcat([e], Visited(left) + Visited(right), None, FirstTransient(e));
      case _ =>
    }
  }

  /** The Retry-After an error carries: positive exactly when the first transient error of its chain
      has a positive one, and then that. */
  lemma RetryAfterExactly(e: Err)
    ensures RetryAfterFrom(e) >= 0
    ensures forall d :: d > 0 ==> (RetryAfterFrom(e) == d <==> FirstDelay(Visited(e), Some(d)))
  {
    FirstTransientExactly(e);
    forall d | d > 0 && FirstDelay(Visited(e), Some(d)) ensures RetryAfterFrom(e) == d {
      FirstDelayUnique(Visited(e), Some(d), FirstTransient(e));
    }
  }

  function RetryAfterFrom(e: Err): int {
    match FirstTransient(e)
    case Some(d) => if d > 0 then d else 0
    case None => 0
  }

  /** Wrapped any number of times, a marked error stays retryable and keeps its Retry-After. */
  lemma {:induction false} MarkSurvivesWrapping(e: Err, retryAfter: int, texts: seq<string>)
    ensures var w := WrapAll(Transient(e, retryAfter), texts);
      IsRetryable(w) && RetryAfterFrom(w) == if retryAfter > 0 then retryAfter else 0
  {
    if texts != [] {
      MarkSurvivesWrapping(e, retryAfter, texts[1..]);
    }
  }

  function WrapAll(e: Err, texts: seq<string>): Err {
    if texts == [] then e else Wrapped(texts[0], WrapAll(e, texts[1..]))
  }

  /** Retry-After in whole seconds, multiplied into nanoseconds in 64 bits. */
  function HeaderDelay(secs: int): int {
    if secs > 0 then Wrap(secs * 1_000_000_000) else 0
  }

  /** The multiplication is exact up to 9223372036 seconds and never beyond; no delay comes of a number
      that is not positive. */
  lemma HeaderDelayExact(secs: int)
    requires -TWO_TO_63 <= secs < TWO_TO_63
    ensures secs <= 0 ==> HeaderDelay(secs) == 0
    ensures secs > 0 ==> (HeaderDelay(secs) == secs * 1_000_000_000 <==> secs <= 9_223_372_036)
  {
  }
}
