/**
  A batch of downloads: URLs are deduplicated, one task runs per distinct URL, tasks end in any order
  and possibly not before the deadline, and results are put back in input order.
*/
module Batch {
  import opened Types

  /** How a task ends, if it is not cut off. */
  datatype TaskEnd = Finished(outcome: DownloadOutcome) | Panicked

  /** What the task for a URL ends with; it is also told the URL's first position. */
  type Job = (string, nat) -> TaskEnd

  // ---------------------------------------------------------------- deduplication

  ghost predicate Increasing(xs: seq<nat>) {
    forall i, j :: 0 <= i < j < |xs| ==> xs[i] < xs[j]
  }

  /** `positions` lists exactly the places of `x`, in order. */
  ghost predicate PositionsOf<T>(xs: seq<T>, x: T, positions: seq<nat>) {
    && positions != [] && Increasing(positions)
    && forall i: nat :: i in positions <==> i < |xs| && xs[i] == x
  }

  /** An insertion-ordered map from each distinct element (URL) to its positions. */
  ghost predicate Dedup<T(!new)>(xs: seq<T>, order: seq<T>, indices: map<T, seq<nat>>) {
    && (forall x :: x in order <==> x in indices)
    && (forall x :: x in indices <==> x in xs)
    && (forall x :: x in indices ==> PositionsOf(xs, x, indices[x]))
    && InFirstOrder(order, indices)
  }

  ghost predicate InFirstOrder<T>(order: seq<T>, indices: map<T, seq<nat>>) {
    && (forall a :: 0 <= a < |order| ==> order[a] in indices && indices[order[a]] != [])
    && (forall a, b :: 0 <= a < b < |order| ==> indices[order[a]][0] < indices[order[b]][0])
  }

  method Deduplicate<T(==, !new)>(xs: seq<T>) returns (order: seq<T>, indices: map<T, seq<nat>>)
    ensures Dedup(xs, order, indices)
  {
    order, indices := [], map[];
    for i := 0 to |xs|
      invariant Dedup(xs[..i], order, indices)
    {
      if xs[i] in indices {
        SeenBefore(xs, i, order, indices);
        indices := indices[xs[i] := indices[xs[i]] + [i]];
      } else {
        SeenFirst(xs, i, order, indices);
        order := order + [xs[i]];
        indices := indices[xs[i] := [i]];
      }
    }
    assert xs[..|xs|] == xs;
  }

  lemma SeenBefore<T(!new)>(xs: seq<T>, i: nat, order: seq<T>, indices: map<T, seq<nat>>)
    requires i < |xs| && Dedup(xs[..i], order, indices) && xs[i] in indices
    ensures Dedup(xs[..i + 1], order, indices[xs[i] := indices[xs[i]] + [i]])
  {
    var x := xs[i];
    assert xs[..i + 1] == xs[..i] + [x];
    PositionsGrow(xs, i, x, indices[x]);
    OthersKeep(xs, i, indices);
  }

  lemma SeenFirst<T(!new)>(xs: seq<T>, i: nat, order: seq<T>, indices: map<T, seq<nat>>)
    requires i < |xs| && Dedup(xs[..i], order, indices) && xs[i] !in indices
    ensures Dedup(xs[..i + 1], order + [xs[i]], indices[xs[i] := [i]])
  {
    var x := xs[i];
    assert xs[..i + 1] == xs[..i] + [x];
    PositionsGrow(xs, i, x, []);
    assert [] + [i] == [i];
    OthersKeep(xs, i, indices);
    forall a | 0 <= a < |order|
      ensures indices[order[a]][0] < i
    {
      assert order[a] in order;
      assert PositionsOf(xs[..i], order[a], indices[order[a]]);
      assert indices[order[a]][0] in indices[order[a]];
    }
  }

  lemma OthersKeep<T(!new)>(xs: seq<T>, i: nat, indices: map<T, seq<nat>>)
    requires i < |xs| && forall y :: y in indices ==> PositionsOf(xs[..i], y, indices[y])
    ensures forall y :: y in indices && y != xs[i] ==> PositionsOf(xs[..i + 1], y, indices[y])
  {
    forall y | y in indices && y != xs[i]
      ensures PositionsOf(xs[..i + 1], y, indices[y])
    {
      assert PositionsOf(xs[..i], y, indices[y]);
    }
  }

  lemma PositionsGrow<T>(xs: seq<T>, i: nat, x: T, positions: seq<nat>)
    requires i < |xs| && xs[i] == x
    requires if positions == [] then x !in xs[..i] else PositionsOf(xs[..i], x, positions)
    ensures PositionsOf(xs[..i + 1], x, positions + [i])
  {
    forall a | 0 <= a < |positions|
      ensures positions[a] < i
    {
      assert positions[a] in positions;
    }
  }

  function FirstIndex<T(==)>(xs: seq<T>, x: T): (i: nat)
    requires x in xs
    ensures i < |xs| && xs[i] == x && forall j :: 0 <= j < i ==> xs[j] != x
  {
    if xs[0] == x then 0 else
      var i := 1 + FirstIndex(xs[1..], x);
      assert forall j :: 0 < j < i ==> xs[j] == xs[1..][j - 1];
      i
  }

  /**
    Deduplication is determined by its description: each position is listed under its own URL and no
    other, every list starts at the URL's first occurrence, and the URLs stand in first-occurrence order.
  */
  lemma DedupPartitions<T(!new)>(xs: seq<T>, order: seq<T>, indices: map<T, seq<nat>>)
    requires Dedup(xs, order, indices)
    ensures forall i: nat, x :: i < |xs| && x in indices ==> (i in indices[x] <==> x == xs[i])
    ensures forall i :: 0 <= i < |xs| ==> xs[i] in indices
    ensures forall x :: x in indices ==> indices[x] != [] && x in xs && indices[x][0] == FirstIndex(xs, x)
    ensures forall a :: 0 <= a < |order| ==> order[a] in xs
    ensures forall a, b :: 0 <= a < b < |order| ==> FirstIndex(xs, order[a]) < FirstIndex(xs, order[b])
  {
    forall i: nat, x | i < |xs| && x in indices
      ensures i in indices[x] <==> x == xs[i]
    {
      assert PositionsOf(xs, x, indices[x]);
    }
    forall x | x in indices
      ensures indices[x] != [] && x in xs && indices[x][0] == FirstIndex(xs, x)
    {
      StartsAtFirst(xs, x, indices[x]);
    }
    forall a | 0 <= a < |order|
      ensures order[a] in indices && order[a] in xs
    {
      assert order[a] in order;
    }
  }

  lemma StartsAtFirst<T>(xs: seq<T>, x: T, positions: seq<nat>)
    requires x in xs && PositionsOf(xs, x, positions)
    ensures positions[0] == FirstIndex(xs, x)
  {
    assert positions[0] in positions && FirstIndex(xs, x) in positions;
    var k :| 0 <= k < |positions| && positions[k] == FirstIndex(xs, x);
  }

  // ---------------------------------------------------------------- the whole batch

  function MissingError(timeoutSet: bool): DownloadError {
    if timeoutSet then Timeout else ConnectionFailed("task panicked")
  }

  /**
    What one position of the batch reports, given which URLs' tasks finished in time. A result that is
    missing is put down to the batch timeout if there is one, and to a panic otherwise.
  */
  ghost function ResultFor(urls: seq<string>, u: string, finished: set<string>, job: Job, timeoutSet: bool, elapsed: nat): DownloadResult
    requires u in urls
  {
    match job(u, FirstIndex(urls, u))
    case Finished(outcome) =>
      if u in finished then DownloadResult(u, outcome)
      else DownloadResult(u, Failure(if timeoutSet then Timeout else ConnectionFailed("task panicked"), elapsed, 0))
    case Panicked =>
      DownloadResult(u, Failure(if timeoutSet then Timeout else ConnectionFailed("task panicked"), elapsed, 0))
  }

  /** The URLs whose task ends without a panic. */
  function Finishing(urls: seq<string>, job: Job): set<string> {
    set u | u in urls && job(u, FirstIndex(urls, u)).Finished?
  }

  /**
    `dirError` is the error creating the output directory, if any; `elapsed(i)` is the clock as it is
    read for position `i`. For every URL list, every order in
    which tasks end and every cut-off, the results are the input list with each URL replaced by what
    it reports; without a batch timeout every task is waited for.
  */
  method DownloadBatch(urls: seq<string>, dirError: Option<string>, timeoutSet: bool, job: Job, elapsed: nat -> nat)
    returns (results: seq<DownloadResult>, finished: set<string>)
    ensures |results| == |urls| && forall i :: 0 <= i < |urls| ==> results[i].url == urls[i]
    ensures dirError.Some? ==>
              forall i :: 0 <= i < |urls| ==> results[i].outcome == Failure(WriteError(dirError.value), 0, 0)
    ensures dirError.None? ==>
              forall i :: 0 <= i < |urls| ==> results[i] == ResultFor(urls, urls[i], finished, job, timeoutSet, elapsed(i))
    ensures finished <= Finishing(urls, job)
    ensures dirError.None? && !timeoutSet ==> finished == Finishing(urls, job)
  {
    results, finished := [], {};
    if urls == [] {
      return;
    }
    if dirError.Some? {
      results := seq(|urls|, i requires 0 <= i < |urls| => DownloadResult(urls[i], Failure(WriteError(dirError.value), 0, 0)));
      return;
    }
    var order, indices := Deduplicate(urls);
    DedupPartitions(urls, order, indices);
    var resultMap := Collect(urls, indices, timeoutSet, job);
    finished := resultMap.Keys;
    results := Assemble(urls, resultMap, timeoutSet, job, elapsed);
  }

  /** Map the collected results back to input order. */
  method Assemble(urls: seq<string>, resultMap: map<string, DownloadResult>, timeoutSet: bool, ghost job: Job, elapsed: nat -> nat)
    returns (results: seq<DownloadResult>)
    requires forall u :: u in resultMap ==> Reported(urls, u, job, resultMap[u])
    ensures |results| == |urls|
    ensures forall i :: 0 <= i < |urls| ==> results[i] == ResultFor(urls, urls[i], resultMap.Keys, job, timeoutSet, elapsed(i))
  {
    results := [];
    for i := 0 to |urls|
      invariant |results| == i
      invariant forall j :: 0 <= j < i ==> results[j] == ResultFor(urls, urls[j], resultMap.Keys, job, timeoutSet, elapsed(j))
    {
      var r := DownloadResult(urls[i], Failure(MissingError(timeoutSet), elapsed(i), 0));
      if urls[i] in resultMap {
        assert Reported(urls, urls[i], job, resultMap[urls[i]]);
        r := resultMap[urls[i]];
      }
      results := results + [r];
    }
  }

  ghost predicate Reported(urls: seq<string>, u: string, job: Job, r: DownloadResult) {
    u in urls && job(u, FirstIndex(urls, u)).Finished? && r == DownloadResult(u, job(u, FirstIndex(urls, u)).outcome)
  }

  /** Join tasks in any order; with a batch timeout, possibly stop before all have been joined. */
  method Collect(urls: seq<string>, indices: map<string, seq<nat>>, timeoutSet: bool, job: Job)
    returns (resultMap: map<string, DownloadResult>)
    requires forall u :: u in indices <==> u in urls
    requires forall u :: u in indices ==> indices[u] != [] && u in urls && indices[u][0] == FirstIndex(urls, u)
    ensures resultMap.Keys <= Finishing(urls, job)
    ensures !timeoutSet ==> resultMap.Keys == Finishing(urls, job)
    ensures forall u :: u in resultMap ==> Reported(urls, u, job, resultMap[u])
  {
    resultMap := map[];
    var running := indices.Keys;
    while running != {}
      invariant running <= indices.Keys
      invariant resultMap.Keys !! running && resultMap.Keys <= indices.Keys
      invariant forall u :: u in resultMap ==> Reported(urls, u, job, resultMap[u])
      invariant forall u :: u in Finishing(urls, job) ==> u in running || u in resultMap
      decreases |running|
    {
      if timeoutSet {
        var deadlinePassed: bool := *;
        if deadlinePassed {
          break;
        }
      }
      var u :| u in running;
      running := running - {u};
      match job(u, indices[u][0]) {
        case Finished(outcome) => resultMap := resultMap[u := DownloadResult(u, outcome)];
        case Panicked =>
      }
    }
  }
}
