/**
  One request leg: a GET with same-host redirects followed on the same connection.

  The server is the sequence of replies it gives before the request timeout; when they run out the
  leg times out. Arithmetic on the redirect counter is that of an unchecked 8-bit integer.
*/
module Transport {
  import opened Types

  const U8 := 256

  /** URIs are opaque except for their host. */
  datatype Uri = Uri(text: string, host: Option<string>)

  datatype Location = Missing | Unreadable(reason: string) | Target(text: string)

  datatype Body = Body(bytes: seq<bv8>, text: string)

  datatype Reply =
    | SendFailed(reason: string)
    | Response(status: nat, location: Location, retryAfterSeconds: Option<nat>, body: Result<Body, string>)

  /** Resolving a Location against the current URI; it fails with a reason. */
  type Resolver = (Uri, string) -> Result<Uri, string>

  datatype TransportResult =
    | Data(bytes: seq<bv8>)
    | CrossHost(newUri: Uri, redirectsRemaining: nat)

  type Outcome = Result<TransportResult, DownloadError>

  /** What one leg did: its outcome, the URIs it requested in order, and the redirects it followed. */
  datatype Leg = Leg(outcome: Outcome, requested: seq<Uri>, followed: nat)

  predicate IsRedirectStatus(status: nat) {
    status == 301 || status == 302 || status == 307 || status == 308
  }

  predicate IsSuccess(status: nat) {
    200 <= status < 300
  }

  predicate EqIgnoreAsciiCase(a: string, b: string) {
    |a| == |b| && forall i :: 0 <= i < |a| ==> LowerAscii(a[i]) == LowerAscii(b[i])
  }

  function HostOr(u: Uri, default: string): string {
    if u.host.Some? then u.host.value else default
  }

  /** Does the leg stay on its connection for this URI? */
  predicate SameHost(u: Uri, host: string) {
    EqIgnoreAsciiCase(HostOr(u, ""), host)
  }

  function Bump8(redirects: nat): nat {
    (redirects + 1) % U8
  }

  /** The end of a leg on a reply that is not a redirect. */
  function FinalOutcome(reply: Reply): Outcome
    requires reply.Response? && !IsRedirectStatus(reply.status)
  {
    match reply.body
    case Err(reason) => Err(ConnectionFailed(reason))
    case Ok(body) =>
      if IsSuccess(reply.status) then Ok(Data(body.bytes))
      else Err(HttpStatus(reply.status, if |body.text| <= 200 then body.text else body.text[..200],
                          if reply.retryAfterSeconds.Some? then Some(1000 * reply.retryAfterSeconds.value) else None))
  }

  /** Where a redirect reply points, once the counter has passed the limit check. */
  function Resolved(current: Uri, location: Location, resolve: Resolver): Result<Uri, DownloadError> {
    match location
    case Missing => Err(ConnectionFailed("redirect response missing Location header"))
    case Unreadable(reason) => Err(ConnectionFailed(reason))
    case Target(text) =>
      match resolve(current, text)
      case Ok(next) => Ok(next)
      case Err(reason) => Err(ConnectionFailed(reason))
  }

  /** The leg from `current` on, `redirects` being the counter's value. */
  function Follow(current: Uri, host: string, max: nat, resolve: Resolver, replies: seq<Reply>, redirects: nat): (leg: Leg)
    decreases |replies|
  {
    if replies == [] then Leg(Err(Timeout), [current], 0)
    else
      var reply := replies[0];
      if reply.SendFailed? then Leg(Err(ConnectionFailed(reply.reason)), [current], 0)
      else if !IsRedirectStatus(reply.status) then Leg(FinalOutcome(reply), [current], 0)
      else
        var count := Bump8(redirects);
        if count > max then Leg(Err(TooManyRedirects("exceeded redirects")), [current], 0)
        else match Resolved(current, reply.location, resolve)
          case Err(e) => Leg(Err(e), [current], 0)
          case Ok(next) =>
            if !SameHost(next, host) then Leg(Ok(CrossHost(next, max - count)), [current], 1)
            else
              var rest := Follow(next, host, max, resolve, replies[1..], count);
              Leg(rest.outcome, [current] + rest.requested, rest.followed + 1)
  }

  function RunLeg(url: Uri, host: string, max: nat, resolve: Resolver, replies: seq<Reply>): Leg {
    Follow(url, host, max, resolve, replies, 0)
  }

  // ---------------------------------------------------------------- what a leg is, reply by reply

  /** The same text up to the case of ASCII letters. */
  ghost predicate SameLetters(a: string, b: string) {
    && |a| == |b|
    && forall i :: 0 <= i < |a| ==>
         || a[i] == b[i]
         || ('A' <= a[i] <= 'Z' && b[i] as int == a[i] as int + 32)
         || ('A' <= b[i] <= 'Z' && a[i] as int == b[i] as int + 32)
  }

  /** Is the URI on this host? A URI without a host counts as one with an empty host. */
  ghost predicate OnHost(u: Uri, host: string) {
    SameLetters(match u.host case Some(h) => h case None => "", host)
  }

  lemma SameHostMeans(u: Uri, host: string)
    ensures SameHost(u, host) <==> OnHost(u, host)
  {
    var a := HostOr(u, "");
    if |a| == |host| {
      forall i | 0 <= i < |a|
        ensures LowerAscii(a[i]) == LowerAscii(host[i]) <==>
                  || a[i] == host[i]
                  || ('A' <= a[i] <= 'Z' && host[i] as int == a[i] as int + 32)
                  || ('A' <= host[i] <= 'Z' && a[i] as int == host[i] as int + 32)
      {
      }
    }
  }

  /** This reply sends a leg on from `u` to `next`. */
  ghost predicate RedirectsTo(reply: Reply, u: Uri, next: Uri, resolve: Resolver) {
    && reply.Response? && reply.status in {301, 302, 307, 308}
    && reply.location.Target? && resolve(u, reply.location.text) == Ok(next)
  }

  /** A success reply with a complete body. */
  ghost predicate Delivers(reply: Reply, bytes: seq<bv8>) {
    reply.Response? && 200 <= reply.status <= 299 && reply.body.Ok? && reply.body.value.bytes == bytes
  }

  /** An error reply, as it is reported: at most 200 characters of text, and Retry-After in milliseconds. */
  ghost predicate Reports(reply: Reply, error: DownloadError) {
    && reply.Response? && reply.status !in {301, 302, 307, 308} && !(200 <= reply.status <= 299)
    && reply.body.Ok? && error.HttpStatus? && error.code == reply.status
    && (var text := reply.body.value.text;
        if |text| <= 200 then error.message == text else |error.message| == 200 && error.message <= text)
    && match reply.retryAfterSeconds
       case Some(seconds) => error.retryAfter == Some(seconds * 1000)
       case None => error.retryAfter == None
  }

  /** What a leg at `u` makes of its last reply, `count` being the counter if that is a redirect. */
  ghost predicate EndsOn(reply: Reply, u: Uri, host: string, count: nat, max: nat, resolve: Resolver, outcome: Outcome) {
    match outcome
    case Ok(Data(bytes)) => Delivers(reply, bytes)
    case Ok(CrossHost(next, left)) => RedirectsTo(reply, u, next, resolve) && !OnHost(next, host) && left + count == max
    case Err(e) =>
      match reply
      case SendFailed(reason) => e == ConnectionFailed(reason)
      case Response(status, location, _, body) =>
        if status !in {301, 302, 307, 308} then (if body.Err? then e == ConnectionFailed(body.error) else Reports(reply, e))
        else if count > max then e.TooManyRedirects?
        else e.ConnectionFailed? && (location.Target? ==> resolve(u, location.text) == Result.Err(e.reason))
  }

  /** From its `i`-th request the leg is sent on to the next one, on its host and within the limit. */
  ghost predicate HopAt(requested: seq<Uri>, i: nat, host: string, max: nat, resolve: Resolver, replies: seq<Reply>, redirects: nat)
    requires i + 1 < |requested| && i < |replies|
  {
    && RedirectsTo(replies[i], requested[i], requested[i + 1], resolve)
    && OnHost(requested[i + 1], host) && (redirects + i + 1) % 256 <= max
  }

  /**
    A leg from `start`, entered with the counter at `redirects`. Every reply but the last is a redirect
    within the limit to the next URI requested, on the leg's host; the last one decides the outcome. If
    the replies run out, that is a timeout.
  */
  ghost predicate Traced(leg: Leg, start: Uri, host: string, max: nat, resolve: Resolver, replies: seq<Reply>, redirects: nat) {
    var n := |leg.requested| - 1;
    && 0 <= n <= |replies| && leg.requested[0] == start
    && (forall i :: 0 <= i < n ==> HopAt(leg.requested, i, host, max, resolve, replies, redirects))
    && leg.followed == (if leg.outcome.Ok? && leg.outcome.value.CrossHost? then n + 1 else n)
    && if n == |replies| then leg.outcome == Err(Timeout)
       else EndsOn(replies[n], leg.requested[n], host, (redirects + n + 1) % 256, max, resolve, leg.outcome)
  }

  lemma {:induction false} FollowTraced(current: Uri, host: string, max: nat, resolve: Resolver, replies: seq<Reply>, redirects: nat)
    ensures Traced(Follow(current, host, max, resolve, replies, redirects), current, host, max, resolve, replies, redirects)
    decreases |replies|
  {
    if replies == [] {
    } else if GoesOn(current, host, max, resolve, replies, redirects) {
      var next := Resolved(current, replies[0].location, resolve).value;
      FollowTraced(next, host, max, resolve, replies[1..], Bump8(redirects));
      TracedLonger(current, next, host, max, resolve, replies, redirects);
    } else {
      EndTraced(current, host, max, resolve, replies, redirects);
    }
  }

  /** Does the leg go round again on the first of these replies? */
  predicate GoesOn(current: Uri, host: string, max: nat, resolve: Resolver, replies: seq<Reply>, redirects: nat)
    requires replies != []
  {
    && replies[0].Response? && IsRedirectStatus(replies[0].status) && Bump8(redirects) <= max
    && Resolved(current, replies[0].location, resolve).Ok?
    && SameHost(Resolved(current, replies[0].location, resolve).value, host)
  }

  lemma EndTraced(current: Uri, host: string, max: nat, resolve: Resolver, replies: seq<Reply>, redirects: nat)
    requires replies != [] && !GoesOn(current, host, max, resolve, replies, redirects)
    ensures Traced(Follow(current, host, max, resolve, replies, redirects), current, host, max, resolve, replies, redirects)
  {
    hide SameHost, OnHost;
    if replies[0].Response? && Resolved(current, replies[0].location, resolve).Ok? {
      SameHostMeans(Resolved(current, replies[0].location, resolve).value, host);
    }
  }

  lemma CounterWraps(redirects: nat, k: nat)
    ensures (Bump8(redirects) + k) % 256 == (redirects + 1 + k) % 256
  {
  }

  lemma TracedLonger(current: Uri, next: Uri, host: string, max: nat, resolve: Resolver, replies: seq<Reply>, redirects: nat)
    requires replies != [] && GoesOn(current, host, max, resolve, replies, redirects)
    requires next == Resolved(current, replies[0].location, resolve).value
    requires Traced(Follow(next, host, max, resolve, replies[1..], Bump8(redirects)), next, host, max, resolve,
                    replies[1..], Bump8(redirects))
    ensures Traced(Follow(current, host, max, resolve, replies, redirects), current, host, max, resolve, replies, redirects)
  {
    var rest := Follow(next, host, max, resolve, replies[1..], Bump8(redirects));
    assert Follow(current, host, max, resolve, replies, redirects)
           == Leg(rest.outcome, [current] + rest.requested, rest.followed + 1);
    FirstHop(current, next, host, max, resolve, replies, redirects);
    hide Follow, GoesOn, RedirectsTo, OnHost, Traced;
    HopsLonger(rest, current, next, host, max, resolve, replies, redirects);
  }

  /** A first hop in front of a leg. */
  lemma HopsLonger(rest: Leg, current: Uri, next: Uri, host: string, max: nat, resolve: Resolver, replies: seq<Reply>, redirects: nat)
    requires replies != [] && RedirectsTo(replies[0], current, next, resolve)
    requires OnHost(next, host) && (redirects + 1) % 256 <= max
    requires Traced(rest, next, host, max, resolve, replies[1..], Bump8(redirects))
    ensures Traced(Leg(rest.outcome, [current] + rest.requested, rest.followed + 1), current, host, max, resolve, replies, redirects)
  {
    hide EndsOn, RedirectsTo, OnHost, Bump8;
    var requested := [current] + rest.requested;
    CounterWraps(redirects, |rest.requested|);
    forall i: nat | i < |rest.requested|
      ensures HopAt(requested, i, host, max, resolve, replies, redirects)
    {
      if i > 0 {
        assert HopAt(rest.requested, i - 1, host, max, resolve, replies[1..], Bump8(redirects));
        CounterWraps(redirects, i);
      }
    }
  }

  lemma FirstHop(current: Uri, next: Uri, host: string, max: nat, resolve: Resolver, replies: seq<Reply>, redirects: nat)
    requires replies != [] && GoesOn(current, host, max, resolve, replies, redirects)
    requires next == Resolved(current, replies[0].location, resolve).value
    ensures RedirectsTo(replies[0], current, next, resolve) && OnHost(next, host) && (redirects + 1) % 256 <= max
  {
    hide SameHost, OnHost;
    SameHostMeans(next, host);
  }

  /** Every leg is one: its trace by replies explains what it requested, how far it went and its outcome. */
  lemma LegTraced(url: Uri, host: string, max: nat, resolve: Resolver, replies: seq<Reply>)
    ensures Traced(RunLeg(url, host, max, resolve, replies), url, host, max, resolve, replies, 0)
  {
    FollowTraced(url, host, max, resolve, replies, 0);
  }

  lemma LegStarts(url: Uri, host: string, max: nat, resolve: Resolver, replies: seq<Reply>)
    ensures RunLeg(url, host, max, resolve, replies) == Follow(url, host, max, resolve, replies, 0)
  {
  }

  method ExecuteWithRedirects(url: Uri, host: string, max: nat, resolve: Resolver, replies: seq<Reply>)
    returns (outcome: Outcome, requested: seq<Uri>, followed: nat)
    requires max < U8
    ensures Leg(outcome, requested, followed) == RunLeg(url, host, max, resolve, replies)
  {
    hide FinalOutcome, Resolved, SameHost, IsRedirectStatus, Bump8, RunLeg;
    assert RunLeg(url, host, max, resolve, replies) == Follow(url, host, max, resolve, replies, 0) by {
      LegStarts(url, host, max, resolve, replies);
    }
    var current := url;
    var redirects: nat, i: nat := 0, 0;
    requested, followed := [], 0;
    while true
      invariant i <= |replies|
      invariant var rest := Follow(current, host, max, resolve, replies[i..], redirects);
                RunLeg(url, host, max, resolve, replies)
                == Leg(rest.outcome, requested + rest.requested, rest.followed + followed)
      decreases |replies| - i
    {
      requested := requested + [current];
      if i == |replies| {
        return Err(Timeout), requested, followed;
      }
      var reply := replies[i];
      if reply.SendFailed? {
        return Err(ConnectionFailed(reply.reason)), requested, followed;
      }
      if !IsRedirectStatus(reply.status) {
        return FinalOutcome(reply), requested, followed;
      }
      redirects := Bump8(redirects);
      if redirects > max {
        return Err(TooManyRedirects("exceeded redirects")), requested, followed;
      }
      match Resolved(current, reply.location, resolve) {
        case Err(e) =>
          return Err(e), requested, followed;
        case Ok(next) =>
          followed := followed + 1;
          if !SameHost(next, host) {
            return Ok(CrossHost(next, max - redirects)), requested, followed;
          }
          assert replies[i..][1..] == replies[i + 1..];
          current := next;
          i := i + 1;
      }
    }
  }

  // ---------------------------------------------------------------- the redirect budget

  lemma DataIsNotCrossHost(replies: seq<Reply>)
    ensures replies != [] && replies[0].Response? && !IsRedirectStatus(replies[0].status) && FinalOutcome(replies[0]).Ok?
            ==> FinalOutcome(replies[0]).value.Data?
  {
  }

  /** Data was the body of a success reply, and an HTTP status error is that of an error reply. */
  lemma LegAnswers(url: Uri, host: string, max: nat, resolve: Resolver, replies: seq<Reply>)
    ensures var outcome := RunLeg(url, host, max, resolve, replies).outcome;
            match outcome
            case Ok(Data(bytes)) => exists i :: 0 <= i < |replies| && Delivers(replies[i], bytes)
            case Err(HttpStatus(_, _, _)) => exists i :: 0 <= i < |replies| && Reports(replies[i], outcome.error)
            case _ => true
  {
    hide RunLeg;
    LegTraced(url, host, max, resolve, replies);
  }

  /**
    For a limit of at most 254 the counter is exact: from counter value `redirects` a leg follows at
    most `max - redirects` more redirects and sends at most one request more than it has redirects
    left; what a cross-host signal carries is exactly what is left of the limit, so the subtraction
    cannot underflow; and every later request stays on the leg's host.
  */
  lemma {:induction false} LegBudget(current: Uri, host: string, max: nat, resolve: Resolver, replies: seq<Reply>, redirects: nat)
    requires redirects <= max <= 254
    ensures var leg := Follow(current, host, max, resolve, replies, redirects);
            && redirects + leg.followed <= max
            && 1 <= |leg.requested| <= max - redirects + 1
            && |leg.requested| <= leg.followed + 1
            && StaysWith(leg.requested, current, host)
            && (leg.outcome.Ok? && leg.outcome.value.CrossHost? ==>
                  && leg.followed >= 1 && |leg.requested| == leg.followed
                  && leg.outcome.value.redirectsRemaining == max - redirects - leg.followed
                  && !OnHost(leg.outcome.value.newUri, host))
            && (leg.outcome.Ok? && leg.outcome.value.Data? ==> |leg.requested| == leg.followed + 1)
    decreases |replies|
  {
    hide FinalOutcome, IsRedirectStatus, SameHost, OnHost;
    DataIsNotCrossHost(replies);
    if replies != [] && replies[0].Response? && IsRedirectStatus(replies[0].status) && Bump8(redirects) <= max {
      match Resolved(current, replies[0].location, resolve)
      case Err(_) =>
      case Ok(next) =>
        SameHostMeans(next, host);
        if SameHost(next, host) {
          LegBudget(next, host, max, resolve, replies[1..], redirects + 1);
        }
    }
  }

  /** Where a leg may go: first to its own start, then nowhere but to its host. */
  ghost predicate StaysWith(requested: seq<Uri>, start: Uri, host: string) {
    requested != [] && requested[0] == start && forall i :: 1 <= i < |requested| ==> OnHost(requested[i], host)
  }

  /**
    Whatever the limit, a leg stays with its start and its host, and a cross-host signal names another
    host and carries no more than the limit.
  */
  lemma {:induction false} SignalCarries(current: Uri, host: string, max: nat, resolve: Resolver, replies: seq<Reply>, redirects: nat)
    ensures var leg := Follow(current, host, max, resolve, replies, redirects);
            && StaysWith(leg.requested, current, host)
            && (leg.outcome.Ok? && leg.outcome.value.CrossHost? ==>
                  leg.outcome.value.redirectsRemaining <= max && !OnHost(leg.outcome.value.newUri, host))
    decreases |replies|
  {
    if replies != [] && replies[0].Response? && IsRedirectStatus(replies[0].status) && Bump8(redirects) <= max {
      match Resolved(current, replies[0].location, resolve)
      case Err(_) =>
      case Ok(next) =>
        SameHostMeans(next, host);
        SignalCarries(next, host, max, resolve, replies[1..], Bump8(redirects));
    }
  }

  // ---------------------------------------------------------------- the limit of 255

  const AGAIN := Response(302, Target(""), None, Ok(Body([], "")))

  function Repeated(n: nat): seq<Reply> {
    seq(n, _ => AGAIN)
  }

  /** With the limit at 255 the counter wraps before it can exceed the limit, and redirects go on for ever. */
  lemma {:induction false} EndlessRedirects(u: Uri, host: string, n: nat, redirects: nat)
    requires OnHost(u, host)
    ensures |Follow(u, host, 255, (_, _) => Ok(u), Repeated(n), redirects).requested| == n + 1
    decreases n
  {
    if n > 0 {
      SameHostMeans(u, host);
      assert Repeated(n)[1..] == Repeated(n - 1);
      EndlessRedirects(u, host, n - 1, Bump8(redirects));
    }
  }

  /** `max + 1` requests bound every leg if and only if the limit is at most 254. */
  lemma RequestBoundIff(max: nat)
    requires max < U8
    ensures (forall url, host, resolve: Resolver, replies ::
               |RunLeg(url, host, max, resolve, replies).requested| <= max + 1) <==> max <= 254
  {
    hide Follow;
    if max <= 254 {
      forall url, host, resolve: Resolver, replies
        ensures |RunLeg(url, host, max, resolve, replies).requested| <= max + 1
      {
        LegBudget(url, host, max, resolve, replies, 0);
      }
    } else {
      var leg := EndlessLeg(Uri("https://example.com/", Some("example.com")), "example.com");
    }
  }

  /** A server that answers every request with a redirect to the same page is asked 257 times. */
  lemma EndlessLeg(u: Uri, host: string) returns (leg: Leg)
    requires u.host == Some(host)
    ensures leg == RunLeg(u, host, 255, (_, _) => Ok(u), Repeated(256)) && |leg.requested| == 257
  {
    EndlessRedirects(u, host, 256, 0);
    leg := RunLeg(u, host, 255, (_, _) => Ok(u), Repeated(256));
  }
}
