/**
  The network part of one download: retried attempts against the original host and, after a
  cross-host redirect, retried attempts against the new host with what is left of the redirect limit.
*/
module Download {
  import opened Types
  import opened Retry
  import opened Transport

  /** What one attempt meets: whether the pool gave a connection, and the replies of its leg. */
  datatype Attempt = Attempt(poolError: Option<DownloadError>, replies: seq<Reply>)

  /** One side of the download: where it goes, its redirect limit, and what its attempts meet. */
  datatype Endpoint = Endpoint(uri: Uri, host: string, max: nat, resolve: Resolver, attempts: nat -> Attempt)

  function LegOf(t: Endpoint, i: nat): Leg {
    RunLeg(t.uri, t.host, t.max, t.resolve, t.attempts(i).replies)
  }

  function TryOnce(t: Endpoint, i: nat): Outcome {
    if t.attempts(i).poolError.Some? then Err(t.attempts(i).poolError.value) else LegOf(t, i).outcome
  }

  /** What attempt `i` requests; nothing if the pool gave no connection. */
  function RequestedBy(t: Endpoint, i: nat): seq<Uri> {
    if t.attempts(i).poolError.Some? then [] else LegOf(t, i).requested
  }

  /** What the first `n` attempts request, in order. */
  function RequestedBefore(t: Endpoint, n: nat): seq<Uri> {
    if n == 0 then [] else RequestedBefore(t, n - 1) + RequestedBy(t, n - 1)
  }

  /** The operation the retry loop calls at this endpoint. */
  function Operation(t: Endpoint): nat -> Outcome {
    (i: nat) => TryOnce(t, i)
  }

  // ---------------------------------------------------------------- what attempts are

  /** An attempt without a connection fails with the pool's error; any other is its leg. */
  lemma AttemptIs(t: Endpoint, i: nat)
    ensures match t.attempts(i).poolError
            case Some(e) => TryOnce(t, i) == Err(e)
            case None => Traced(Leg(TryOnce(t, i), RequestedBy(t, i), LegOf(t, i).followed), t.uri, t.host, t.max,
                                t.resolve, t.attempts(i).replies, 0)
  {
    LegTraced(t.uri, t.host, t.max, t.resolve, t.attempts(i).replies);
  }

  /** The attempts before `n` request what each of them requests, one after the other, and nothing else. */
  lemma {:induction false} RequestedIs(t: Endpoint, n: nat, i: nat)
    requires i < n
    ensures RequestedBefore(t, 0) == []
    ensures var mine := if t.attempts(i).poolError.Some? then []
                        else RunLeg(t.uri, t.host, t.max, t.resolve, t.attempts(i).replies).requested;
            && RequestedBefore(t, i) + mine <= RequestedBefore(t, n)
            && (i + 1 == n ==> RequestedBefore(t, i) + mine == RequestedBefore(t, n))
  {
    hide RunLeg;
    if i + 1 < n {
      RequestedIs(t, n - 1, i);
      assert RequestedBefore(t, n - 1) <= RequestedBefore(t, n);
    }
  }

  /** If an attempt gave data, one of its replies was a success with that body. */
  ghost predicate Delivered(t: Endpoint, i: nat, bytes: seq<bv8>) {
    && t.attempts(i).poolError.None?
    && exists j :: 0 <= j < |t.attempts(i).replies| && Delivers(t.attempts(i).replies[j], bytes)
  }

  lemma DataDelivered(t: Endpoint, i: nat, bytes: seq<bv8>)
    requires TryOnce(t, i) == Ok(Data(bytes))
    ensures Delivered(t, i, bytes)
  {
    hide RunLeg;
    LegAnswers(t.uri, t.host, t.max, t.resolve, t.attempts(i).replies);
  }

  // ---------------------------------------------------------------- what attempts request

  lemma AttemptBudget(t: Endpoint, i: nat)
    requires t.max <= 254
    ensures |RequestedBy(t, i)| <= t.max + 1
    ensures TryOnce(t, i).Ok? ==> LegOf(t, i).followed <= t.max && t.attempts(i).poolError.None?
    ensures TryOnce(t, i).Ok? && TryOnce(t, i).value.CrossHost? ==>
              && LegOf(t, i).followed >= 1
              && TryOnce(t, i).value.redirectsRemaining + LegOf(t, i).followed == t.max
              && !OnHost(TryOnce(t, i).value.newUri, t.host)
  {
    LegBudget(t.uri, t.host, t.max, t.resolve, t.attempts(i).replies, 0);
  }

  lemma {:induction false} RequestBudget(t: Endpoint, n: nat)
    requires t.max <= 254
    ensures |RequestedBefore(t, n)| <= n * (t.max + 1)
  {
    if n > 0 {
      AttemptBudget(t, n - 1);
      RequestBudget(t, n - 1);
      assert n * (t.max + 1) == (n - 1) * (t.max + 1) + (t.max + 1);
    }
  }

  /** Attempts at an endpoint request its start URI and, after redirects, URIs of its host. */
  ghost predicate BelongsTo(u: Uri, t: Endpoint) {
    u == t.uri || OnHost(u, t.host)
  }

  lemma {:induction false} RequestsBelong(t: Endpoint, n: nat)
    ensures forall u :: u in RequestedBefore(t, n) ==> BelongsTo(u, t)
  {
    if n > 0 {
      RequestsBelong(t, n - 1);
      SignalCarries(t.uri, t.host, t.max, t.resolve, t.attempts(n - 1).replies, 0);
      assert forall u :: u in LegOf(t, n - 1).requested ==> BelongsTo(u, t);
    }
  }

  /** The arithmetic of the request bound. */
  lemma TwoLegs(calls: nat, calls': nat, r: nat, m: nat, rest: nat, sent: nat, sent': nat)
    requires calls <= r + 1 && calls' <= r + 1 && rest + 1 <= m
    requires sent <= calls * (m + 1) && sent' <= calls' * (rest + 1)
    ensures sent + sent' <= (r + 1) * (2 * m + 1)
  {
    MulMonotone(calls, r + 1, m + 1);
    MulMonotone(calls', r + 1, rest + 1);
    MulMonotone(rest + 1, m, r + 1);
    assert (r + 1) * (2 * m + 1) == (r + 1) * (m + 1) + (r + 1) * m;
  }

  lemma OneLeg(calls: nat, r: nat, m: nat, sent: nat)
    requires calls <= r + 1 && sent <= calls * (m + 1)
    ensures sent <= (r + 1) * (2 * m + 1)
  {
    MulMonotone(calls, r + 1, m + 1);
    MulMonotone(m + 1, 2 * m + 1, r + 1);
  }

  // ---------------------------------------------------------------- the download

  /** Retried attempts at one endpoint stopped at attempt `n`; what they requested and followed in total. */
  ghost predicate Stopped(t: Endpoint, maxRetries: nat, n: nat, requested: seq<Uri>, followed: nat) {
    && StopsAt(Operation(t), maxRetries, n)
    && requested == RequestedBefore(t, n + 1)
    && followed == (if TryOnce(t, n).Ok? then LegOf(t, n).followed else 0)
  }

  /** The sleeps before attempt `n`: after each earlier attempt what its failure asks for, or the backoff. */
  ghost predicate Slept(t: Endpoint, n: nat, base: nat, nanos: nat -> nat, delays: seq<nat>) {
    |delays| == n && forall i :: 0 <= i < n ==> SleepsAfter(TryOnce(t, i), delays[i], i, base, nanos(i))
  }

  method RetryAt(t: Endpoint, maxRetries: nat, base: nat, nanos: nat -> nat)
    returns (last: Outcome, n: nat, requested: seq<Uri>, followed: nat, delays: seq<nat>)
    requires maxRetries < U32 && t.max < U8
    ensures Stopped(t, maxRetries, n, requested, followed) && last == TryOnce(t, n) && n <= maxRetries
    ensures Slept(t, n, base, nanos, delays)
    ensures forall u :: u in requested ==> BelongsTo(u, t)
    ensures last.Ok? && last.value.CrossHost? ==>
              last.value.redirectsRemaining <= t.max && !OnHost(last.value.newUri, t.host)
    ensures t.max <= 254 ==> |requested| <= (n + 1) * (t.max + 1) && followed <= t.max
    ensures t.max <= 254 && last.Ok? && last.value.CrossHost? ==>
              followed >= 1 && last.value.redirectsRemaining + followed == t.max
  {
    var calls;
    last, n, calls, delays := WithRetry(maxRetries, base, Operation(t), nanos);
    if t.max <= 254 {
      AttemptBudget(t, n);
      RequestBudget(t, n + 1);
    }
    SignalCarries(t.uri, t.host, t.max, t.resolve, t.attempts(n).replies, 0);
    RequestsBelong(t, n + 1);
    requested := RequestedBefore(t, n + 1);
    followed := if last.Ok? then LegOf(t, n).followed else 0;
  }

  /** What the second half of a download makes of its last attempt: data, or an error. */
  function CrossHostEnd(last: Outcome): Result<seq<bv8>, DownloadError> {
    match last
    case Err(e) => Err(e)
    case Ok(Data(bytes)) => Ok(bytes)
    case Ok(CrossHost(_, _)) => Err(TooManyRedirects("too many cross-host redirects"))
  }

  /**
    The result of the second half: a body only if the last attempt delivered one, that attempt's error
    as it is, and an error of its own if the host changed once more.
  */
  ghost predicate SecondEnds(last: Outcome, result: Result<seq<bv8>, DownloadError>) {
    match last
    case Ok(Data(bytes)) => result == Ok(bytes)
    case Ok(CrossHost(_, _)) => result.Err? && result.error.TooManyRedirects?
    case Err(e) => result == Err(e)
  }

  method FollowCrossHostRedirect(uri: Uri, remaining: nat, resolve: Resolver, attempts: nat -> Attempt,
                                 maxRetries: nat, base: nat, nanos: nat -> nat)
    returns (result: Result<seq<bv8>, DownloadError>, requested: seq<Uri>, followed: nat, delays: seq<nat>, ghost n: nat)
    requires maxRetries < U32 && remaining < U8
    ensures uri.host.None? ==> result.Err? && result.error.TooManyRedirects? && requested == [] && followed == 0 && delays == []
    ensures uri.host.Some? ==>
              var t := Endpoint(uri, uri.host.value, remaining, resolve, attempts);
              && Stopped(t, maxRetries, n, requested, followed) && SecondEnds(TryOnce(t, n), result)
              && (result.Ok? ==> Delivered(t, n, result.value)) && Slept(t, n, base, nanos, delays)
    ensures uri.host.Some? ==> forall u :: u in requested ==> OnHost(u, uri.host.value)
    ensures n <= maxRetries
    ensures remaining <= 254 ==> |requested| <= (n + 1) * (remaining + 1) && followed <= remaining
  {
    match uri.host {
      case None =>
        n := 0;
        return Err(TooManyRedirects("redirect to URL without host")), [], 0, [], 0;
      case Some(host) =>
        var t := Endpoint(uri, host, remaining, resolve, attempts);
        var last;
        last, n, requested, followed, delays := RetryAt(t, maxRetries, base, nanos);
        result := CrossHostEnd(last);
        if result.Ok? {
          DataDelivered(t, n, result.value);
        }
    }
  }

  /** Everything the code keeps of a finished fetch, and its traffic. */
  datatype Fetched = Fetched(result: Result<seq<bv8>, DownloadError>, retries: nat, requested: seq<Uri>, followed: nat, delays: seq<nat>)

  /**
    A fetch as a specification: attempts at the first endpoint stop at `n`. Data or an error there is
    the result. A cross-host signal is taken up with the limit it carries, at the host it names, by
    attempts that stop at `m`. `retries` counts the first endpoint's attempts only.
  */
  ghost predicate Fetches(t: Endpoint, second: nat -> Attempt, maxRetries: nat, n: nat, m: nat, f: Fetched) {
    && StopsAt(Operation(t), maxRetries, n) && f.retries == n
    && match TryOnce(t, n)
       case Err(e) => f.result == Err(e) && f.requested == RequestedBefore(t, n + 1) && f.followed == 0
       case Ok(Data(bytes)) =>
         f.result == Ok(bytes) && f.requested == RequestedBefore(t, n + 1) && f.followed == LegOf(t, n).followed
       case Ok(CrossHost(uri, remaining)) =>
         if uri.host.None? then
           && f.result.Err? && f.result.error.TooManyRedirects?
           && f.requested == RequestedBefore(t, n + 1) && f.followed == LegOf(t, n).followed
         else
           var t' := Endpoint(uri, uri.host.value, remaining, t.resolve, second);
           && StopsAt(Operation(t'), maxRetries, m)
           && !SameLetters(t'.host, t.host)
           && SecondEnds(TryOnce(t', m), f.result)
           && f.requested == RequestedBefore(t, n + 1) + RequestedBefore(t', m + 1)
           && f.followed == LegOf(t, n).followed + (if TryOnce(t', m).Ok? then LegOf(t', m).followed else 0)
  }

  /** The image was the body of a success reply to the last attempt at the endpoint where the fetch ended. */
  ghost predicate Received(t: Endpoint, second: nat -> Attempt, n: nat, m: nat, bytes: seq<bv8>) {
    match TryOnce(t, n)
    case Ok(Data(_)) => Delivered(t, n, bytes)
    case Ok(CrossHost(uri, remaining)) =>
      uri.host.Some? && Delivered(Endpoint(uri, uri.host.value, remaining, t.resolve, second), m, bytes)
    case Err(_) => false
  }

  /** The sleeps of a fetch: those at the first endpoint, then those at the second if there was one. */
  ghost predicate FetchSlept(t: Endpoint, second: nat -> Attempt, n: nat, m: nat, base: nat, nanos: nat -> nat, nanos': nat -> nat,
                             delays: seq<nat>)
  {
    && n <= |delays| && Slept(t, n, base, nanos, delays[..n])
    && match TryOnce(t, n)
       case Ok(CrossHost(Uri(text, Some(host)), remaining)) =>
         Slept(Endpoint(Uri(text, Some(host)), host, remaining, t.resolve, second), m, base, nanos', delays[n..])
       case _ => |delays| == n
  }

  /** Is `u` on the host that attempt `n` was redirected to? */
  ghost predicate OfSecondHost(u: Uri, t: Endpoint, n: nat) {
    match TryOnce(t, n)
    case Ok(CrossHost(uri, _)) => uri.host.Some? && OnHost(u, uri.host.value)
    case _ => false
  }

  /**
    A fetch requests its own URI, URIs of its host and URIs of the one host it was redirected to.
    With a redirect limit of at most 254, it sends at most (retries + 1) * (2 * limit + 1)
    requests, and the attempts whose outcome it used follow at most `limit` redirects between them.
  */
  method Fetch(t: Endpoint, second: nat -> Attempt, maxRetries: nat, base: nat, nanos: nat -> nat, nanos': nat -> nat)
    returns (f: Fetched, ghost n: nat, ghost m: nat)
    requires maxRetries < U32 && t.max < U8
    ensures Fetches(t, second, maxRetries, n, m, f) && f.retries <= maxRetries
    ensures FetchSlept(t, second, n, m, base, nanos, nanos', f.delays)
    ensures f.result.Ok? ==> Received(t, second, n, m, f.result.value)
    ensures forall u :: u in f.requested ==> BelongsTo(u, t) || OfSecondHost(u, t, n)
    ensures t.max <= 254 ==> |f.requested| <= (maxRetries + 1) * (2 * t.max + 1) && f.followed <= t.max
  {
    hide RequestedBefore, BelongsTo, LegOf, SameLetters, StopsAt, Delivered, Slept;
    var last, retries, requested, followed, delays := RetryAt(t, maxRetries, base, nanos);
    n, m := retries, 0;
    match last {
      case Err(e) =>
        if t.max <= 254 {
          OneLeg(n + 1, maxRetries, t.max, |requested|);
        }
        assert delays[..n] == delays;
        f := Fetched(Err(e), retries, requested, followed, delays);
      case Ok(Data(bytes)) =>
        if t.max <= 254 {
          OneLeg(n + 1, maxRetries, t.max, |requested|);
        }
        DataDelivered(t, n, bytes);
        assert delays[..n] == delays;
        f := Fetched(Ok(bytes), retries, requested, followed, delays);
      case Ok(CrossHost(uri, remaining)) =>
        var result, requested', followed', delays';
        result, requested', followed', delays', m := FollowCrossHostRedirect(uri, remaining, t.resolve, second, maxRetries, base, nanos');
        if t.max <= 254 {
          TwoLegs(n + 1, m + 1, maxRetries, t.max, remaining, |requested|, |requested'|);
        }
        f := Fetched(result, retries, requested + requested', followed + followed', delays + delays');
        assert f.delays[..n] == delays && f.delays[n..] == delays';
    }
  }
}
