/**
  One attempt of a download: acquire a connection, run the request leg on it, give the connection up.

  Both the first leg and the leg after a cross-host redirect are attempts of this form. The request
  runs with the lock released, so other tasks may take any steps meanwhile.
*/
module Attempts {
  import opened Types
  import opened PoolModel
  import opened PoolProtocol
  import opened PoolRuns
  import opened Acquire
  import opened Transport

  /** A connection goes back to the pool unless its request failed below the level of HTTP. */
  predicate Usable(outcome: Outcome) {
    match outcome
    case Ok(_) => true
    case Err(e) => e.HttpStatus?
  }

  /**
    How an attempt ends. Its own steps were `acquiring` until it had a connection or an error `r`. With
    an error that was all. With a connection it requested the leg, reports the leg's outcome, and took
    one more step: it finished, and left the connection usable after data, after a redirect to another
    host and after an HTTP error status, but not after any other error.
  */
  ghost predicate AttemptEnds(r: Result<Handle, DownloadError>, leg: Leg, t: Task, acquiring: seq<Step>,
                              own: seq<Step>, outcome: Outcome, requested: seq<Uri>)
  {
    match r
    case Err(e) => outcome == Err(e) && requested == [] && own == acquiring
    case Ok(_) =>
      && outcome == leg.outcome && requested == leg.requested
      && own == acquiring + [Finish(t, outcome.Ok? || outcome.error.HttpStatus?)]
  }

  /** `acquiring` is Begin, then at least one Decide, then the completion step of an open if there was one. */
  ghost predicate Acquired(r: Result<Handle, DownloadError>, open: Result<Protocol, DownloadError>, t: Task, key: HostKey,
                           polls: nat -> (Poll, Poll), decisions: seq<Action>, acquiring: seq<Step>)
  {
    && 1 <= |decisions| <= 32
    && (forall i :: 0 <= i < |decisions| - 1 ==> decisions[i] == Wait)
    && exists deciding :: LoopSteps(deciding, t, key, polls, |decisions|)
                       && RoundEnds(decisions[|decisions| - 1], r, open, t, deciding, acquiring)
  }

  /**
    Among arbitrary steps of other tasks, an attempt takes exactly the steps of its acquisition and, if
    that gave a connection, one Finish; whatever the outcome, it claims nothing of the pool afterwards.
  */
  method Attempt(shared: SharedPool, t: Task, key: HostKey, polls: nat -> (Poll, Poll), open: Result<Protocol, DownloadError>,
                 url: Uri, max: nat, resolve: Resolver, replies: seq<Reply>)
    returns (outcome: Outcome, requested: seq<Uri>, r: Result<Handle, DownloadError>, decisions: seq<Action>,
             ghost acquiring: seq<Step>, ghost own: seq<Step>)
    requires shared.Valid() && t !in shared.sys.claims && max < U8
    modifies shared, shared.pool, shared.pool.hostPools.Values
    ensures shared.Valid() && fresh(shared.pool.hostPools.Values - old(shared.pool.hostPools.Values))
    ensures RunWith(old(shared.sys), shared.sys, shared.pool.connectionsPerHost, t, own)
    ensures t !in shared.sys.claims
    ensures Acquired(r, open, t, key, polls, decisions, acquiring)
    ensures AttemptEnds(r, RunLeg(url, key.0, max, resolve, replies), t, acquiring, own, outcome, requested)
    ensures r.Ok? ==> GivenUp(shared.pool.View(), key, r.value, outcome.Ok? || outcome.error.HttpStatus?)
  {
    hide RunWith, RunLeg, LoopSteps, RoundEnds, GivenUp;
    ghost var cap, s0 := shared.pool.connectionsPerHost, shared.sys;
    r, decisions, acquiring := shared.AcquireHandle(t, key, polls, open);
    own := acquiring;
    match r {
      case Err(e) =>
        outcome, requested := Err(e), [];
      case Ok(h) =>
        shared.LetOthersRun(t, s0, own);
        var followed;
        outcome, requested, followed := ExecuteWithRedirects(url, key.0, max, resolve, replies);
        ghost var m := shared.sys;
        shared.Release(t, key, h, Usable(outcome));
        RunConcat(s0, m, shared.sys, cap, t, own, [Finish(t, Usable(outcome))]);
        own := own + [Finish(t, Usable(outcome))];
    }
  }
}
