/**
  The batch summary: totals, per-host statistics and one line per result.

  Byte sums are 64-bit and wrap, as in a release build. Average times are real numbers, without rounding.
*/
module Summary {
  import opened Types

  /** One result as the per-host statistics see it. */
  datatype Sample = Sample(success: bool, bytes: nat, elapsed: nat)

  datatype HostStats = HostStats(requests: nat, successful: nat, failed: nat, totalBytes: nat, averageElapsed: real)

  datatype ResultSummary = ResultSummary(url: string, success: bool, sizeBytes: Option<nat>, elapsed: nat, error: Option<DownloadError>)

  datatype BatchSummary = BatchSummary(
    totalUrls: nat,
    uniqueUrls: nat,
    successful: nat,
    failed: nat,
    totalBytes: nat,
    perHost: map<string, HostStats>,
    results: seq<ResultSummary>)

  // ---------------------------------------------------------------- hosts

  predicate OccursAt(s: string, sub: string, i: nat) {
    i + |sub| <= |s| && s[i..i + |sub|] == sub
  }

  /** Where `sub` first occurs; see `IndexOfFirst`. */
  function IndexOf(s: string, sub: string): (r: Option<nat>)
    requires sub != []
    ensures r.Some? ==> r.value + |sub| <= |s|
  {
    if |s| < |sub| then None
    else if s[..|sub|] == sub then Some(0)
    else match IndexOf(s[1..], sub)
      case Some(i) => Some(i + 1)
      case None => None
  }

  lemma OccursShifted(s: string, sub: string, j: nat)
    requires s != []
    ensures OccursAt(s, sub, j + 1) <==> OccursAt(s[1..], sub, j)
  {
    if j + 1 + |sub| <= |s| {
      assert s[1..][j..j + |sub|] == s[j + 1..j + 1 + |sub|];
    }
  }

  lemma {:induction false} IndexOfFirst(s: string, sub: string)
    requires sub != []
    ensures match IndexOf(s, sub)
            case Some(i) => OccursAt(s, sub, i) && forall j :: 0 <= j < i ==> !OccursAt(s, sub, j)
            case None => forall j: nat :: !OccursAt(s, sub, j)
  {
    if |s| >= |sub| && s[..|sub|] != sub {
      IndexOfFirst(s[1..], sub);
      forall j: nat | j >= 1
        ensures OccursAt(s, sub, j) <==> OccursAt(s[1..], sub, j - 1)
      {
        OccursShifted(s, sub, j - 1);
      }
      hide OccursAt;
      assert !OccursAt(s, sub, 0) by { NotAtStart(s, sub); }
    }
  }

  lemma NotAtStart(s: string, sub: string)
    requires |s| >= |sub| && s[..|sub|] != sub
    ensures !OccursAt(s, sub, 0)
  {
  }

  /** The piece of `s` before the first `sub`. */
  function UpTo(s: string, sub: string): (r: string)
    requires sub != []
    ensures r <= s
  {
    match IndexOf(s, sub)
    case Some(i) => s[..i]
    case None => s
  }

  lemma UpToHasNone(s: string, sub: string, j: nat)
    requires sub != []
    ensures !OccursAt(UpTo(s, sub), sub, j)
  {
    IndexOfFirst(s, sub);
    if i :| IndexOf(s, sub) == Some(i) {
      if j + |sub| <= i {
        assert s[..i][j..j + |sub|] == s[j..j + |sub|];
        assert !OccursAt(s, sub, j);
      }
    }
  }

  /** What stands between the first two "//", up to a slash and a colon; "unknown" without a "//". */
  function ExtractHost(url: string): string {
    match IndexOf(url, "//")
    case Some(i) => UpTo(UpTo(UpTo(url[i + 2..], "//"), "/"), ":")
    case None => "unknown"
  }

  /** Cutting before `sub` keeps a leading part that `sub`'s first character does not occur in. */
  lemma UpToKeeps(head: string, rest: string, sub: string) returns (rest': string)
    requires sub != [] && sub[0] !in head
    ensures UpTo(head + rest, sub) == head + rest' && rest' <= rest
    ensures |sub| == 1 ==> sub[0] !in rest'
    ensures |sub| == 1 && (rest == [] || rest[0] == sub[0]) ==> rest' == []
  {
    var s := head + rest;
    var r := UpTo(s, sub);
    IndexOfFirst(s, sub);
    if i: nat :| IndexOf(s, sub) == Some(i) {
      assert s[i..i + |sub|][0] == sub[0];
      assert i >= |head|;
    }
    rest' := r[|head|..];
    if |sub| == 1 {
      forall j | 0 <= j < |rest'|
        ensures rest'[j] != sub[0]
      {
        UpToHasNone(s, sub, |head| + j);
        assert r[|head| + j..|head| + j + 1] == [rest'[j]];
        assert sub == [sub[0]];
      }
    }
  }

  lemma SchemeEnds(scheme: string, rest: string)
    requires '/' !in scheme
    ensures IndexOf(scheme + "://" + rest, "//") == Some(|scheme| + 1)
  {
    var url := scheme + "://" + rest;
    var at := |scheme| + 1;
    IndexOfFirst(url, "//");
    assert url[at..at + 2] == "//";
    forall j: nat | j < at
      ensures !OccursAt(url, "//", j)
    {
      assert url[j] != '/';
      assert j + 2 <= |url| ==> url[j..j + 2][0] == url[j];
    }
    assert OccursAt(url, "//", at);
  }

  /** For a URL of the usual shape this is the host: no scheme, no port, no path. */
  lemma HostOfUrl(scheme: string, host: string, rest: string)
    requires '/' !in scheme && '/' !in host && ':' !in host
    requires rest == [] || rest[0] == '/' || rest[0] == ':'
    ensures ExtractHost(scheme + "://" + (host + rest)) == host
  {
    var url := scheme + "://" + (host + rest);
    SchemeEnds(scheme, host + rest);
    assert url[|scheme| + 3..] == host + rest;
    HostBeforePath(host, rest);
  }

  /** A text without "//" has no host. */
  lemma UnknownHost(url: string)
    requires forall j: nat :: !OccursAt(url, "//", j)
    ensures ExtractHost(url) == "unknown"
  {
    IndexOfFirst(url, "//");
  }

  lemma HostBeforePath(host: string, rest: string)
    requires '/' !in host && ':' !in host
    requires rest == [] || rest[0] == '/' || rest[0] == ':'
    ensures UpTo(UpTo(UpTo(host + rest, "//"), "/"), ":") == host
  {
    var a := UpToKeeps(host, rest, "//");
    var b := UpToKeeps(host, a, "/");
    var c := UpToKeeps(host, b, ":");
    assert b != [] ==> b[0] == a[0] == rest[0] && b[0] in b;
    assert c == [] && host + [] == host;
  }

  // ---------------------------------------------------------------- one result

  function SampleOf(r: DownloadResult): Sample {
    match r.outcome
    case Success(_, size, elapsed) => Sample(true, size, elapsed)
    case Failure(_, elapsed, _) => Sample(false, 0, elapsed)
  }

  function LineOf(r: DownloadResult): ResultSummary {
    match r.outcome
    case Success(_, size, elapsed) => ResultSummary(r.url, true, Some(size), elapsed, None)
    case Failure(error, elapsed, _) => ResultSummary(r.url, false, None, elapsed, Some(error))
  }

  function Succeeded(samples: seq<Sample>): nat {
    if samples == [] then 0
    else Succeeded(samples[..|samples| - 1]) + if samples[|samples| - 1].success then 1 else 0
  }

  function Bytes(samples: seq<Sample>): nat {
    if samples == [] then 0 else Bytes(samples[..|samples| - 1]) + samples[|samples| - 1].bytes
  }

  function Elapsed(samples: seq<Sample>): nat {
    if samples == [] then 0 else Elapsed(samples[..|samples| - 1]) + samples[|samples| - 1].elapsed
  }

  function Samples(results: seq<DownloadResult>): (s: seq<Sample>)
    ensures |s| == |results|
  {
    seq(|results|, i requires 0 <= i < |results| => SampleOf(results[i]))
  }

  /** The samples of one host, in order. */
  function OfHost(results: seq<DownloadResult>, host: string): seq<Sample> {
    if results == [] then []
    else
      var last := results[|results| - 1];
      OfHost(results[..|results| - 1], host) + if ExtractHost(last.url) == host then [SampleOf(last)] else []
  }

  function Hosts(results: seq<DownloadResult>): set<string> {
    set r | r in results :: ExtractHost(r.url)
  }

  function Average(total: nat, n: nat): (r: real)
    ensures n > 0 ==> Times(r, n, total)
  {
    if n > 0 then total as real / n as real else 0.0
  }

  function StatsOf(samples: seq<Sample>): (st: HostStats)
    ensures st.successful + st.failed == st.requests
  {
    SucceededAtMost(samples);
    HostStats(|samples|, Succeeded(samples), |samples| - Succeeded(samples), Bytes(samples) % U64,
              Average(Elapsed(samples), |samples|))
  }

  lemma {:induction false} SucceededAtMost(samples: seq<Sample>)
    ensures Succeeded(samples) <= |samples|
  {
    if samples != [] {
      SucceededAtMost(samples[..|samples| - 1]);
    }
  }

  // ---------------------------------------------------------------- the aggregation loop

  method WriteBatchSummary(results: seq<DownloadResult>, totalUrls: nat, uniqueUrls: nat) returns (summary: BatchSummary)
    ensures summary.totalUrls == totalUrls && summary.uniqueUrls == uniqueUrls
    ensures Summarises(summary, results)
  {
    hide ExtractHost, OfHost, Hosts, Succeeded, Bytes, Elapsed, Samples, LineOf, Describes;
    assert Samples([]) == [] && Succeeded([]) == 0 && Bytes([]) == 0 && Grouped([], map[]) by {
      NothingYet();
    }
    var successful, failed, totalBytes := 0, 0, 0;
    var hostData: map<string, seq<Sample>> := map[];
    var lines: seq<ResultSummary> := [];
    for i := 0 to |results|
      invariant successful == Succeeded(Samples(results[..i])) && successful + failed == i
      invariant totalBytes == Bytes(Samples(results[..i])) % U64
      invariant Grouped(results[..i], hostData)
      invariant |lines| == i && forall j :: 0 <= j < i ==> Describes(lines[j], results[j])
    {
      var r := results[i];
      var host := ExtractHost(r.url);
      OneMore(results, i);
      GroupedStep(results, i, hostData);
      match r.outcome {
        case Success(_, size, _) =>
          successful := successful + 1;
          totalBytes := (totalBytes + size) % U64;
        case Failure(_, _, _) =>
          failed := failed + 1;
      }
      hostData := hostData[host := (if host in hostData then hostData[host] else []) + [SampleOf(r)]];
      LineDescribes(r);
      lines := lines + [LineOf(r)];
    }
    assert results[..|results|] == results;
    var perHost := map h | h in hostData :: StatsOf(hostData[h]);
    summary := BatchSummary(totalUrls, uniqueUrls, successful, failed, totalBytes, perHost, lines);
  }

  lemma LineDescribes(r: DownloadResult)
    ensures Describes(LineOf(r), r)
  {
  }

  lemma NothingYet()
    ensures Samples([]) == [] && Succeeded([]) == 0 && Bytes([]) == 0 && Elapsed([]) == 0 && Grouped([], map[])
  {
  }

  /** `hostData` groups the results' samples by host. */
  ghost predicate Grouped(results: seq<DownloadResult>, hostData: map<string, seq<Sample>>) {
    hostData.Keys == Hosts(results) && forall h :: h in hostData ==> hostData[h] == OfHost(results, h)
  }

  lemma GroupedStep(results: seq<DownloadResult>, i: nat, hostData: map<string, seq<Sample>>)
    requires i < |results| && Grouped(results[..i], hostData)
    ensures var host := ExtractHost(results[i].url);
            Grouped(results[..i + 1],
                    hostData[host := (if host in hostData then hostData[host] else []) + [SampleOf(results[i])]])
  {
    hide ExtractHost;
    OneMore(results, i);
  }

  /** How the accumulated quantities grow by one result. */
  lemma OneMore(results: seq<DownloadResult>, i: nat)
    requires i < |results|
    ensures var r := results[i];
            var before, after := results[..i], results[..i + 1];
            && Succeeded(Samples(after)) == Succeeded(Samples(before)) + (if SampleOf(r).success then 1 else 0)
            && Bytes(Samples(after)) == Bytes(Samples(before)) + SampleOf(r).bytes
            && Hosts(after) == Hosts(before) + {ExtractHost(r.url)}
            && (forall h :: OfHost(after, h) == OfHost(before, h) + if ExtractHost(r.url) == h then [SampleOf(r)] else [])
            && (ExtractHost(r.url) !in Hosts(before) ==> OfHost(before, ExtractHost(r.url)) == [])
  {
    var before, after := results[..i], results[..i + 1];
    assert after[..i] == before && after == before + [results[i]];
    assert Samples(after)[..i] == Samples(before);
    if ExtractHost(results[i].url) !in Hosts(before) {
      NoSamples(before, ExtractHost(results[i].url));
    }
  }

  lemma {:induction false} NoSamples(results: seq<DownloadResult>, host: string)
    requires host !in Hosts(results)
    ensures OfHost(results, host) == []
  {
    if results != [] {
      var n := |results| - 1;
      assert results[n] in results && ExtractHost(results[n].url) in Hosts(results);
      assert Hosts(results[..n]) <= Hosts(results);
      NoSamples(results[..n], host);
    }
  }

  // ---------------------------------------------------------------- conservation

  /** A sum over a finite set of hosts. */
  ghost function SumOver(hosts: set<string>, f: string -> nat): nat {
    if hosts == {} then 0 else var h :| h in hosts; f(h) + SumOver(hosts - {h}, f)
  }

  lemma {:induction false} SumSplit(hosts: set<string>, f: string -> nat, h: string)
    requires h in hosts
    ensures SumOver(hosts, f) == f(h) + SumOver(hosts - {h}, f)
    decreases hosts
  {
    var g :| g in hosts && SumOver(hosts, f) == f(g) + SumOver(hosts - {g}, f);
    if g != h {
      SumSplit(hosts - {g}, f, h);
      SumSplit(hosts - {h}, f, g);
      assert hosts - {g} - {h} == hosts - {h} - {g};
    }
  }

  lemma {:induction false} SumSame(hosts: set<string>, f: string -> nat, g: string -> nat)
    requires forall h :: h in hosts ==> f(h) == g(h)
    ensures SumOver(hosts, f) == SumOver(hosts, g)
    decreases hosts
  {
    if hosts != {} {
      var h :| h in hosts;
      SumSplit(hosts, f, h);
      SumSplit(hosts, g, h);
      SumSame(hosts - {h}, f, g);
    }
  }

  /** A measure of samples that adds up: the number of them, the successes, the bytes, the time. */
  ghost predicate Additive(measure: seq<Sample> -> nat) {
    measure([]) == 0 && forall a, x :: measure(a + [x]) == measure(a) + measure([x])
  }

  ghost function HostMeasure(results: seq<DownloadResult>, measure: seq<Sample> -> nat): string -> nat {
    h => measure(OfHost(results, h))
  }

  lemma AdditiveStep(measure: seq<Sample> -> nat, a: seq<Sample>, x: Sample)
    requires Additive(measure)
    ensures measure([]) == 0 && measure(a + [x]) == measure(a) + measure([x])
  {
  }

  /** An additive measure of all results is the sum over the hosts of its measure of each host's. */
  lemma {:induction false} Conserved(results: seq<DownloadResult>, measure: seq<Sample> -> nat)
    requires Additive(measure)
    ensures SumOver(Hosts(results), HostMeasure(results, measure)) == measure(Samples(results))
  {
    hide Additive, ExtractHost, OfHost, SampleOf;
    if results == [] {
      assert Hosts(results) == {} && Samples(results) == [];
      AdditiveStep(measure, [], Sample(true, 0, 0));
    } else {
      var n := |results| - 1;
      assert results[..n + 1] == results;
      Conserved(results[..n], measure);
      HostMeasureGrows(results, n, measure);
      SumGrows(Hosts(results[..n]), Hosts(results), ExtractHost(results[n].url),
               HostMeasure(results[..n], measure), HostMeasure(results, measure), measure([SampleOf(results[n])]));
      assert Samples(results) == Samples(results[..n]) + [SampleOf(results[n])];
      AdditiveStep(measure, Samples(results[..n]), SampleOf(results[n]));
    }
  }

  /** One more result changes the measure of its own host, by its own measure. */
  lemma HostMeasureGrows(results: seq<DownloadResult>, n: nat, measure: seq<Sample> -> nat)
    requires n < |results| && Additive(measure)
    ensures var f, g := HostMeasure(results[..n + 1], measure), HostMeasure(results[..n], measure);
            var host := ExtractHost(results[n].url);
            && Hosts(results[..n + 1]) == Hosts(results[..n]) + {host}
            && f(host) == g(host) + measure([SampleOf(results[n])])
            && (forall h :: h != host ==> f(h) == g(h))
            && (host !in Hosts(results[..n]) ==> g(host) == 0)
  {
    hide ExtractHost, Hosts, SampleOf, Additive;
    OneMore(results, n);
    AdditiveStep(measure, OfHost(results[..n], ExtractHost(results[n].url)), SampleOf(results[n]));
    forall h | h != ExtractHost(results[n].url)
      ensures OfHost(results[..n + 1], h) == OfHost(results[..n], h)
    {
      assert OfHost(results[..n], h) + [] == OfHost(results[..n], h);
    }
  }

  lemma SumGrows(before: set<string>, after: set<string>, host: string, g: string -> nat, f: string -> nat, more: nat)
    requires after == before + {host} && f(host) == g(host) + more
    requires (forall h :: h != host ==> f(h) == g(h)) && (host !in before ==> g(host) == 0)
    ensures SumOver(after, f) == SumOver(before, g) + more
  {
    SumSplit(after, f, host);
    SumSame(after - {host}, f, g);
    if host in before {
      SumSplit(before, g, host);
      assert before - {host} == after - {host};
    } else {
      assert before == after - {host};
    }
  }

  function Failed(samples: seq<Sample>): nat {
    SucceededAtMost(samples);
    |samples| - Succeeded(samples)
  }

  function Length(samples: seq<Sample>): nat {
    |samples|
  }

  lemma MeasuresAdd()
    ensures Additive(Length) && Additive(Succeeded) && Additive(Failed) && Additive(Bytes) && Additive(Elapsed)
  {
    forall a: seq<Sample>, x: Sample
      ensures Succeeded(a + [x]) == Succeeded(a) + Succeeded([x]) && Bytes(a + [x]) == Bytes(a) + Bytes([x])
      ensures Elapsed(a + [x]) == Elapsed(a) + Elapsed([x])
    {
      assert (a + [x])[..|a|] == a && [x][..0] == [];
    }
  }

  /** Wrapping each summand leaves the sum the same modulo 2^64, and the same if it fits. */
  lemma {:induction false} SumWraps(hosts: set<string>, f: string -> nat, g: string -> nat)
    requires forall h :: h in hosts ==> f(h) == g(h) % U64
    ensures SumOver(hosts, f) % U64 == SumOver(hosts, g) % U64
    ensures SumOver(hosts, f) <= SumOver(hosts, g)
    ensures SumOver(hosts, g) < U64 ==> SumOver(hosts, f) == SumOver(hosts, g)
    decreases hosts
  {
    if hosts != {} {
      var h :| h in hosts;
      SumSplit(hosts, f, h);
      SumSplit(hosts, g, h);
      SumWraps(hosts - {h}, f, g);
      WrapAdd(g(h), SumOver(hosts - {h}, f), SumOver(hosts - {h}, g));
    }
  }

  lemma WrapAdd(x: nat, a: nat, b: nat)
    requires a % U64 == b % U64 && a <= b && (b < U64 ==> a == b)
    ensures (x % U64 + a) % U64 == (x + b) % U64
    ensures x % U64 + a <= x + b
    ensures x + b < U64 ==> x % U64 + a == x + b
  {
    var k, m := x / U64, b / U64 - a / U64;
    assert x == U64 * k + x % U64;
    assert b == a + U64 * m;
    assert x + b == (x % U64 + a) + U64 * (k + m);
    ModShift(x % U64 + a, k + m);
  }

  lemma ModShift(a: nat, k: int)
    ensures (a + U64 * k) % U64 == a % U64
  {
  }

  /** The sum over the summary's hosts of one of their statistics. */
  ghost function StatsSum(summary: BatchSummary, stat: HostStats -> nat): nat {
    SumOver(summary.perHost.Keys, HostStat(summary, stat))
  }

  ghost function HostStatAt(summary: BatchSummary, stat: HostStats -> nat, h: string): nat {
    if h in summary.perHost then stat(summary.perHost[h]) else 0
  }

  ghost function HostStat(summary: BatchSummary, stat: HostStats -> nat): string -> nat {
    h => HostStatAt(summary, stat, h)
  }

  lemma StatsSumIs(results: seq<DownloadResult>, summary: BatchSummary, stat: HostStats -> nat, measure: seq<Sample> -> nat)
    requires summary.perHost.Keys == Hosts(results) && Additive(measure)
    requires forall h :: h in summary.perHost ==> stat(summary.perHost[h]) == measure(OfHost(results, h))
    ensures StatsSum(summary, stat) == measure(Samples(results))
  {
    hide ExtractHost;
    Conserved(results, measure);
    SumSame(summary.perHost.Keys, HostStat(summary, stat), HostMeasure(results, measure));
  }

  /** What the summary file says, as the contract of `WriteBatchSummary` has it. */
  ghost predicate Summarises(summary: BatchSummary, results: seq<DownloadResult>) {
    && summary.successful == Succeeded(Samples(results))
    && summary.successful + summary.failed == |results|
    && summary.totalBytes == Bytes(Samples(results)) % U64
    && summary.perHost.Keys == Hosts(results)
    && (forall h :: h in summary.perHost ==> summary.perHost[h] == StatsOf(OfHost(results, h)))
    && |summary.results| == |results|
    && (forall i :: 0 <= i < |results| ==> Describes(summary.results[i], results[i]))
  }

  /** One line of the summary: a success has a size and no error, a failure an error and no size. */
  ghost predicate Describes(line: ResultSummary, r: DownloadResult) {
    && line.url == r.url && line.elapsed == r.outcome.elapsed
    && match r.outcome
       case Success(_, size, _) => line.success && line.sizeBytes == Some(size) && line.error == None
       case Failure(error, _, _) => !line.success && line.sizeBytes == None && line.error == Some(error)
  }

  // ---------------------------------------------------------------- the statistics, counted on the results

  /** A sum over the results. */
  ghost function Tally(results: seq<DownloadResult>, weight: DownloadResult -> nat): nat {
    if results == [] then 0 else Tally(results[..|results| - 1], weight) + weight(results[|results| - 1])
  }

  ghost function SuccessWeight(r: DownloadResult): nat {
    match r.outcome
    case Success(_, _, _) => 1
    case Failure(_, _, _) => 0
  }

  ghost function BytesWeight(r: DownloadResult): nat {
    match r.outcome
    case Success(_, size, _) => size
    case Failure(_, _, _) => 0
  }

  ghost function TimeWeight(r: DownloadResult): nat {
    r.outcome.elapsed
  }

  ghost function OneWeight(r: DownloadResult): nat {
    1
  }

  /** The weight, counted only for results of one host. */
  ghost function AtHost(host: string, weight: DownloadResult -> nat): DownloadResult -> nat {
    (r: DownloadResult) => if ExtractHost(r.url) == host then weight(r) else 0
  }

  /** `weight` is what one result adds to `measure`. */
  ghost predicate Weighs(measure: seq<Sample> -> nat, weight: DownloadResult -> nat) {
    Additive(measure) && forall r :: weight(r) == measure([SampleOf(r)])
  }

  lemma WeightsFit()
    ensures Weighs(Length, OneWeight) && Weighs(Succeeded, SuccessWeight)
    ensures Weighs(Bytes, BytesWeight) && Weighs(Elapsed, TimeWeight)
  {
    MeasuresAdd();
    forall r: DownloadResult
      ensures Length([SampleOf(r)]) == OneWeight(r) && Succeeded([SampleOf(r)]) == SuccessWeight(r)
      ensures Bytes([SampleOf(r)]) == BytesWeight(r) && Elapsed([SampleOf(r)]) == TimeWeight(r)
    {
      assert [SampleOf(r)][..0] == [];
    }
  }

  lemma {:induction false} TalliesAll(results: seq<DownloadResult>, measure: seq<Sample> -> nat, weight: DownloadResult -> nat)
    requires Weighs(measure, weight)
    ensures measure(Samples(results)) == Tally(results, weight)
  {
    hide SampleOf, Additive;
    if results == [] {
      AdditiveStep(measure, [], Sample(true, 0, 0));
      assert Samples(results) == [];
    } else {
      var n := |results| - 1;
      assert Samples(results) == Samples(results[..n]) + [SampleOf(results[n])];
      AdditiveStep(measure, Samples(results[..n]), SampleOf(results[n]));
      TalliesAll(results[..n], measure, weight);
    }
  }

  lemma {:induction false} TalliesAtHost(results: seq<DownloadResult>, host: string, measure: seq<Sample> -> nat, weight: DownloadResult -> nat)
    requires Weighs(measure, weight)
    ensures measure(OfHost(results, host)) == Tally(results, AtHost(host, weight))
  {
    hide SampleOf, Additive, ExtractHost;
    if results == [] {
      AdditiveStep(measure, [], Sample(true, 0, 0));
    } else {
      var n := |results| - 1;
      var before := OfHost(results[..n], host);
      AdditiveStep(measure, before, SampleOf(results[n]));
      TalliesAtHost(results[..n], host, measure, weight);
      assert before + [] == before;
    }
  }

  /**
    The summary's figures are sums over the results themselves: successes, failures and bytes over all
    of them, and for each host requests, successes, failures, bytes and time over its own.
  */
  lemma {:induction false} SummaryTallies(summary: BatchSummary, results: seq<DownloadResult>, host: string)
    requires Summarises(summary, results)
    ensures summary.successful == Tally(results, SuccessWeight)
    ensures summary.failed == |results| - Tally(results, SuccessWeight)
    ensures summary.totalBytes == Tally(results, BytesWeight) % 0x1_0000_0000_0000_0000
    ensures host in summary.perHost <==> Tally(results, AtHost(host, OneWeight)) > 0
    ensures host in summary.perHost ==>
              var st := summary.perHost[host];
              && st.requests == Tally(results, AtHost(host, OneWeight))
              && st.successful == Tally(results, AtHost(host, SuccessWeight))
              && st.failed == st.requests - st.successful
              && st.totalBytes == Tally(results, AtHost(host, BytesWeight)) % 0x1_0000_0000_0000_0000
              && Times(st.averageElapsed, st.requests, Tally(results, AtHost(host, TimeWeight)))
  {
    hide ExtractHost, OfHost, Succeeded, Bytes, Elapsed, Average, Times, Hosts;
    WeightsFit();
    TalliesAll(results, Succeeded, SuccessWeight);
    TalliesAll(results, Bytes, BytesWeight);
    HostTallies(results, host);
    HostHasResults(results, host);
    if host in summary.perHost {
      StatsAverage(OfHost(results, host));
    }
  }

  lemma HostTallies(results: seq<DownloadResult>, host: string)
    ensures var samples := OfHost(results, host);
            && |samples| == Tally(results, AtHost(host, OneWeight))
            && Succeeded(samples) == Tally(results, AtHost(host, SuccessWeight))
            && Bytes(samples) == Tally(results, AtHost(host, BytesWeight))
            && Elapsed(samples) == Tally(results, AtHost(host, TimeWeight))
  {
    hide OfHost, Weighs, Tally;
    WeightsFit();
    TalliesAtHost(results, host, Length, OneWeight);
    TalliesAtHost(results, host, Succeeded, SuccessWeight);
    TalliesAtHost(results, host, Bytes, BytesWeight);
    TalliesAtHost(results, host, Elapsed, TimeWeight);
  }

  lemma {:induction false} HostHasResults(results: seq<DownloadResult>, host: string)
    ensures host in Hosts(results) <==> OfHost(results, host) != []
  {
    hide ExtractHost;
    if results != [] {
      var n := |results| - 1;
      assert results[..n + 1] == results;
      OneMore(results, n);
      HostHasResults(results[..n], host);
    }
  }

  ghost predicate Times(average: real, n: nat, total: nat) {
    average * n as real == total as real
  }

  /**
    Conservation. Requests, successes and failures of the hosts each sum to the batch's. The bytes do
    so modulo 2^64 always, and exactly when the batch's byte total fits in 64 bits.
  */
  lemma {:induction false} SummaryConserves(summary: BatchSummary, results: seq<DownloadResult>)
    requires Summarises(summary, results)
    ensures StatsSum(summary, (st: HostStats) => st.requests) == |results|
    ensures StatsSum(summary, (st: HostStats) => st.successful) == summary.successful
    ensures StatsSum(summary, (st: HostStats) => st.failed) == summary.failed
    ensures StatsSum(summary, (st: HostStats) => st.totalBytes) % U64 == summary.totalBytes
    ensures Bytes(Samples(results)) < U64 ==>
              StatsSum(summary, (st: HostStats) => st.totalBytes) == summary.totalBytes == Bytes(Samples(results))
  {
    hide ExtractHost, OfHost, Hosts, Succeeded, Bytes, Elapsed, Additive, StatsSum, Average;
    MeasuresAdd();
    StatsSumIs(results, summary, (st: HostStats) => st.requests, Length);
    StatsSumIs(results, summary, (st: HostStats) => st.successful, Succeeded);
    StatsSumIs(results, summary, (st: HostStats) => st.failed, Failed);
    BytesConserve(summary, results);
  }

  /** The average, multiplied out, is the time of the samples. */
  ghost predicate Averages(st: HostStats, samples: seq<Sample>) {
    Times(st.averageElapsed, st.requests, Elapsed(samples))
  }

  lemma StatsAverage(samples: seq<Sample>)
    ensures Averages(StatsOf(samples), samples)
  {
    hide Elapsed, Average, Averages, Succeeded, Bytes;
    var st := StatsOf(samples);
    assert st.averageElapsed == Average(Elapsed(samples), |samples|) && st.requests == |samples|;
    assert samples == [] ==> Elapsed(samples) == 0 by {
      NothingYet();
    }
    AverageFits(st, samples);
  }

  lemma AverageFits(st: HostStats, samples: seq<Sample>)
    requires st.averageElapsed == Average(Elapsed(samples), |samples|) && st.requests == |samples|
    requires samples == [] ==> Elapsed(samples) == 0
    ensures Averages(st, samples)
  {
    hide Elapsed, Average;
  }

  /** A host's average time, multiplied out, is the time of its results, and these times sum to the batch's. */
  lemma {:induction false} TimesConserve(summary: BatchSummary, results: seq<DownloadResult>)
    requires Summarises(summary, results)
    ensures forall h :: h in summary.perHost ==> Averages(summary.perHost[h], OfHost(results, h))
    ensures SumOver(summary.perHost.Keys, HostMeasure(results, Elapsed)) == Elapsed(Samples(results))
  {
    hide ExtractHost, OfHost, Hosts, Elapsed, Additive, Averages, StatsOf;
    forall h | h in summary.perHost
      ensures Averages(summary.perHost[h], OfHost(results, h))
    {
      StatsAverage(OfHost(results, h));
    }
    MeasuresAdd();
    Conserved(results, Elapsed);
  }

  lemma BytesConserve(summary: BatchSummary, results: seq<DownloadResult>)
    requires Summarises(summary, results)
    ensures StatsSum(summary, (st: HostStats) => st.totalBytes) % U64 == summary.totalBytes
    ensures Bytes(Samples(results)) < U64 ==>
              StatsSum(summary, (st: HostStats) => st.totalBytes) == summary.totalBytes == Bytes(Samples(results))
  {
    hide ExtractHost, OfHost, Hosts, Succeeded, Bytes, Elapsed, Average, Additive;
    MeasuresAdd();
    Conserved(results, Bytes);
    SumWraps(summary.perHost.Keys, HostStat(summary, (st: HostStats) => st.totalBytes), HostMeasure(results, Bytes));
  }
}
