/**
  Why an entry gets stuck when tasks may be cancelled or a host may change its protocol.

  The pool outlives a batch, and a batch timeout drops whatever tasks are still running, so what they
  held is lost to every later batch. How many cancellations it takes is exact.
*/
module PoolCauses {
  import opened Types
  import opened PoolModel
  import opened PoolProtocol
  import opened PoolRuns
  import opened PoolStability
  import opened PoolStuck

  ghost function Cancels(steps: seq<Step>): nat {
    if steps == [] then 0 else (if steps[0].Cancel? then 1 else 0) + Cancels(steps[1..])
  }

  /** With the hosts' protocols fixed, a run with at most `n` cancellations that ends with the entry stuck. */
  ghost predicate EndsStuckWith(steps: seq<Step>, cap: nat, proto: Negotiation, key: HostKey, n: nat) {
    && FaithfulRun(INIT, cap, steps, proto) && Cancels(steps) <= n
    && Exec(INIT, cap, steps).Some? && Stuck(Exec(INIT, cap, steps).value, cap, key)
  }

  // ---------------------------------------------------------------- counting cancellations

  lemma {:induction false} NoCancels(steps: seq<Step>)
    ensures Cancels(steps) == 0 <==> CancelFree(steps)
  {
    if steps != [] {
      NoCancels(steps[1..]);
      assert forall i :: 0 <= i < |steps[1..]| ==> steps[1..][i] == steps[i + 1];
      assert forall i :: 0 < i < |steps| ==> steps[i] == steps[1..][i - 1];
    }
  }

  /** A run cancels at most as many tasks as it has Cancel steps. */
  lemma {:induction false} CancelledAtMost(s: System, cap: nat, steps: seq<Step>)
    requires Exec(s, cap, steps).Some?
    ensures |Exec(s, cap, steps).value.cancelled| <= |s.cancelled| + Cancels(steps)
    decreases |steps|
  {
    if steps != [] {
      CancelledAtMost(Apply(s, cap, steps[0]), cap, steps[1..]);
    }
  }

  // ---------------------------------------------------------------- what a stuck entry consists of

  /** Nobody who could still act has an open in flight or an H1 sender of this entry. */
  ghost predicate NobodyActs(s: System, key: HostKey) {
    forall t :: Live(s, t) ==> !OpensAt(s, t, key) && !(HasH1Link(s, t) && s.claims[t].key == key)
  }

  /** The sender of connection `c` is gone: its slot is empty and a cancelled task holds it. */
  ghost predicate Lost(s: System, key: HostKey, c: Conn) {
    c.sender == H1(None) && exists t :: t in s.cancelled && HoldsH1(s, t, key, c.id)
  }

  /** Cancelled tasks hold a full cap: every counted open is theirs, and every connection's sender. */
  ghost predicate LostCap(s: System, cap: nat, key: HostKey) {
    && key in s.pools && Total(s.pools[key]) == cap
    && NobodyActs(s, key)
    && s.pools[key].opening == |LostOpeners(s, key)|
    && forall c :: c in s.pools[key].connections ==> Lost(s, key, c)
  }

  /**
    With the hosts' protocols fixed and a cap of at least one, a host that speaks HTTP/2 or whose
    first opener succeeded has a stuck entry if and only if cancelled tasks hold all of its cap.
  */
  lemma StuckIffLost(steps: seq<Step>, cap: nat, proto: Negotiation, key: HostKey)
    requires FaithfulRun(INIT, cap, steps, proto) && Exec(INIT, cap, steps).Some? && cap >= 1
    requires proto(key) == Http2 || SettledAt(Exec(INIT, cap, steps).value, key)
    ensures var s := Exec(INIT, cap, steps).value;
            Stuck(s, cap, key) <==> LostCap(s, cap, key)
  {
    ProtoRun(INIT, cap, steps, proto);
    StuckIffLostCap(Exec(INIT, cap, steps).value, cap, proto, key);
  }

  ghost predicate SettledAt(s: System, key: HostKey) {
    key in s.meta && s.meta[key].settled
  }

  lemma StuckIffLostCap(s: System, cap: nat, proto: Negotiation, key: HostKey)
    requires Inv(s, cap) && ProtoOk(s, proto) && cap >= 1
    requires proto(key) == Http2 || SettledAt(s, key)
    ensures Stuck(s, cap, key) <==> LostCap(s, cap, key)
  {
    assert KeyOk(s, cap, key);
    if key in s.pools && NobodyActs(s, key) {
      assert EntryProtoOk(s.pools[key], s.meta[key].settled, proto(key));
      OnlyLostOpeners(s, key);
      forall c | c in s.pools[key].connections
        ensures Lost(s, key, c) <==> NeverReusable(c, s.pools[key].protocol)
      {
        LostIffNeverReusable(s, cap, proto, key, c);
      }
    }
  }

  lemma OnlyLostOpeners(s: System, key: HostKey)
    requires NobodyActs(s, key)
    ensures Openers(s, key) == LostOpeners(s, key)
  {
    forall t | t in Openers(s, key)
      ensures t in s.cancelled
    {
      assert OpensAt(s, t, key) && t in s.claims;
      assert Live(s, t) ==> !OpensAt(s, t, key);
    }
  }

  lemma LostIffNeverReusable(s: System, cap: nat, proto: Negotiation, key: HostKey, c: Conn)
    requires Inv(s, cap) && ProtoOk(s, proto) && NobodyActs(s, key)
    requires key in s.pools && key in s.meta && c in s.pools[key].connections
    requires proto(key) == Http2 || SettledAt(s, key)
    ensures Lost(s, key, c) <==> NeverReusable(c, s.pools[key].protocol)
  {
    assert KeyOk(s, cap, key) && ConnOk(s, key, c);
    assert EntryProtoOk(s.pools[key], s.meta[key].settled, proto(key)) && Kind(c.sender) == proto(key);
    if c.sender == H1(None) {
      var t :| HoldsH1(s, t, key, c.id);
      assert HasH1Link(s, t) && s.claims[t].key == key;
      assert !Live(s, t);
    }
  }

  /** At an HTTP/2 host each unit of the cap takes one cancelled opener. */
  lemma Http2NeedsCancels(s: System, cap: nat, proto: Negotiation, key: HostKey)
    requires Inv(s, cap) && ProtoOk(s, proto) && cap >= 1 && proto(key) == Http2 && Stuck(s, cap, key)
    ensures |s.cancelled| >= cap
  {
    assert KeyOk(s, cap, key);
    StuckIffLostCap(s, cap, proto, key);
    var e := s.pools[key];
    assert EntryProtoOk(e, s.meta[key].settled, proto(key));
    if e.connections != [] {
      var c := SomeElement(e.connections);
      assert false;
    }
    CardinalityLeq(LostOpeners(s, key), s.cancelled);
  }

  lemma SomeElement(cs: seq<Conn>) returns (c: Conn)
    requires cs != []
    ensures c in cs
  {
    c := cs[0];
  }

  // ---------------------------------------------------------------- losing a whole cap

  lemma ExecCons(s: System, cap: nat, step: Step, rest: seq<Step>)
    requires Enabled(s, step)
    ensures Exec(s, cap, [step] + rest) == Exec(Apply(s, cap, step), cap, rest)
    ensures Cancels([step] + rest) == (if step.Cancel? then 1 else 0) + Cancels(rest)
  {
    assert ([step] + rest)[1..] == rest;
  }

  /** A run without successful opens suits every protocol. */
  lemma {:induction false} NoOpensFaithful(s: System, cap: nat, steps: seq<Step>, proto: Negotiation)
    requires Exec(s, cap, steps).Some? && forall i :: 0 <= i < |steps| ==> !steps[i].OpenOk?
    ensures FaithfulRun(s, cap, steps, proto)
    decreases |steps|
  {
    if steps != [] {
      assert forall i :: 0 <= i < |steps[1..]| ==> steps[1..][i] == steps[i + 1];
      NoOpensFaithful(Apply(s, cap, steps[0]), cap, steps[1..], proto);
    }
  }

  /** Tasks `0` to `i - 1` were cancelled while opening for `key`; nobody else was ever there. */
  ghost predicate Drained(s: System, key: HostKey, i: nat) {
    && s.claims.Keys == s.cancelled && (forall t :: t in s.claims ==> t < i)
    && if i == 0 then key !in s.pools else key in s.pools && s.pools[key] == Entry(Http2, [], i, 0)
  }

  /** One more task begins, is told to open, and is cancelled. */
  lemma DrainOne(s: System, cap: nat, key: HostKey, i: nat) returns (s1: System, s2: System, s3: System)
    requires Drained(s, key, i) && i < Bound(cap)
    ensures Enabled(s, Begin(i, key)) && s1 == Apply(s, cap, Begin(i, key))
    ensures Enabled(s1, Decide(i, READY, READY)) && s2 == Apply(s1, cap, Decide(i, READY, READY))
    ensures Enabled(s2, Cancel(i)) && s3 == Apply(s2, cap, Cancel(i)) && Drained(s3, key, i + 1)
  {
    assert i !in s.claims;
    s1 := Apply(s, cap, Begin(i, key));
    assert i > 0 ==> EntryAction(s.pools[key], cap, READY, READY) == (Entry(Http2, [], i + 1, 0), OpenNew(false));
    s2 := Apply(s1, cap, Decide(i, READY, READY));
    s3 := Apply(s2, cap, Cancel(i));
  }

  lemma {:induction false} DrainAll(s: System, cap: nat, key: HostKey, i: nat) returns (steps: seq<Step>)
    requires Drained(s, key, i) && i <= Bound(cap)
    ensures Exec(s, cap, steps).Some? && Drained(Exec(s, cap, steps).value, key, Bound(cap))
    ensures Cancels(steps) == Bound(cap) - i && forall j :: 0 <= j < |steps| ==> !steps[j].OpenOk?
    decreases Bound(cap) - i
  {
    if i == Bound(cap) {
      steps := [];
    } else {
      var s1, s2, s3 := DrainOne(s, cap, key, i);
      var rest := DrainAll(s3, cap, key, i + 1);
      ExecCons(s2, cap, Cancel(i), rest);
      ExecCons(s1, cap, Decide(i, READY, READY), [Cancel(i)] + rest);
      ExecCons(s, cap, Begin(i, key), [Decide(i, READY, READY)] + ([Cancel(i)] + rest));
      steps := [Begin(i, key)] + ([Decide(i, READY, READY)] + ([Cancel(i)] + rest));
    }
  }

  /** For every cap and every protocol, as many cancellations as the cap (one, if it is 0) wedge a host. */
  lemma CancellationSticks(cap: nat, proto: Negotiation, key: HostKey) returns (steps: seq<Step>)
    ensures EndsStuckWith(steps, cap, proto, key, Bound(cap))
  {
    steps := DrainAll(INIT, cap, key, 0);
    NoOpensFaithful(INIT, cap, steps, proto);
    var s := Exec(INIT, cap, steps).value;
    assert forall t :: !Live(s, t);
  }

  /**
    With protocols fixed and at most `n` cancellations, a host entry can get stuck exactly when the
    cap is 0, or the cap is at least 2 and the host speaks HTTP/1.1, or `n` reaches the cap. So
    without cancellation the default cap of 1 is safe, and a single cancelled opener ends that.
  */
  lemma StuckWithCancelsIff(n: nat, cap: nat, proto: Negotiation, key: HostKey)
    ensures (exists steps :: EndsStuckWith(steps, cap, proto, key, n))
            <==> cap == 0 || (cap >= 2 && proto(key) == Http1) || n >= cap
  {
    StuckReachableIff(cap, proto, key);
    if cap == 0 || (cap >= 2 && proto(key) == Http1) {
      var steps :| EndsStuck(steps, cap, proto, key);
      NoCancels(steps);
      assert EndsStuckWith(steps, cap, proto, key, n);
    } else if n >= cap {
      var steps := CancellationSticks(cap, proto, key);
      assert EndsStuckWith(steps, cap, proto, key, n);
    } else {
      forall steps
        ensures !EndsStuckWith(steps, cap, proto, key, n)
      {
        TooFewCancels(steps, n, cap, proto, key);
      }
    }
  }

  lemma TooFewCancels(steps: seq<Step>, n: nat, cap: nat, proto: Negotiation, key: HostKey)
    requires n < cap && (cap == 1 || proto(key) == Http2)
    ensures !EndsStuckWith(steps, cap, proto, key, n)
  {
    StuckReachableIff(cap, proto, key);
    if FaithfulRun(INIT, cap, steps, proto) && Cancels(steps) <= n {
      if proto(key) == Http2 {
        ProtoRun(INIT, cap, steps, proto);
        CancelledAtMost(INIT, cap, steps);
        var s := Exec(INIT, cap, steps).value;
        if Stuck(s, cap, key) {
          Http2NeedsCancels(s, cap, proto, key);
        }
      } else {
        NoCancels(steps);
        assert !EndsStuck(steps, cap, proto, key);
      }
    }
  }

  // ---------------------------------------------------------------- hosts that change protocol

  const DEAD: Poll := l => H2Status.Dead

  /** A host that served one request over HTTP/2. */
  lemma ServedOnce(key: HostKey, proto: Negotiation) returns (steps: seq<Step>, m: System)
    requires proto(key) == Http2
    ensures Leads(INIT, 1, proto, steps, m)
    ensures m.pools == map[key := Entry(Http2, [Conn(0, H2(0))], 0, 1)] && m.claims == map[]
    ensures m.meta == map[key := Meta(0, true)] && m.home.Keys == {0} && m.cancelled == {}
  {
    steps, m := FirstOpener(1, proto, key);
    steps, m := Then(INIT, 1, proto, steps, m, OpenOk(0, Http2, 0));
    assert [] + [Conn(0, H2(0))] == [Conn(0, H2(0))];
    assert m.pools == map[key := Entry(Http2, [Conn(0, H2(0))], 0, 1)];
    steps, m := Then(INIT, 1, proto, steps, m, Finish(0, true));
    assert m.claims == map[];
  }

  /** It loses that connection and is just being opened again. */
  lemma Reopened(key: HostKey) returns (steps: seq<Step>, m: System)
    ensures CancelFree(steps) && Exec(INIT, 1, steps) == Some(m)
    ensures m.pools == map[key := Entry(Http2, [], 1, 1)] && m.claims == map[0 := Opening(key, 0, false)]
    ensures m.meta == map[key := Meta(0, true)] && m.home.Keys == {0} && m.cancelled == {}
  {
    var http2: Negotiation := k => Http2;
    steps, m := ServedOnce(key, http2);
    assert KeepLive([Conn(0, H2(0))], DEAD) == [];
    steps, m := Then(INIT, 1, http2, steps, m, Begin(0, key));
    steps, m := Then(INIT, 1, http2, steps, m, Decide(0, DEAD, DEAD));
  }

  /** The reopened connection comes back as HTTP/1.1, which the settled HTTP/2 entry never reuses. */
  lemma FickleHostSticks(key: HostKey) returns (steps: seq<Step>)
    ensures CancelFree(steps) && Exec(INIT, 1, steps).Some? && Stuck(Exec(INIT, 1, steps).value, 1, key)
  {
    var before, m := Reopened(key);
    var s1 := Apply(m, 1, OpenOk(0, Http1, 1));
    assert [] + [Conn(1, H1(None))] == [Conn(1, H1(None))];
    assert s1.pools == map[key := Entry(Http2, [Conn(1, H1(None))], 0, 2)];
    assert s1.claims == map[0 := Holding(key, 0, Handle(HandleH1(1), 1))];
    var s2 := Apply(s1, 1, Finish(0, true));
    assert s2.pools[key] == Entry(Http2, [Conn(1, H1(Some(1)))], 0, 2) && s2.claims == map[];
    ExecCons(s1, 1, Finish(0, true), []);
    ExecCons(m, 1, OpenOk(0, Http1, 1), [Finish(0, true)] + []);
    var after := [OpenOk(0, Http1, 1)] + ([Finish(0, true)] + []);
    ExecConcat(INIT, 1, before, after);
    steps := before + after;
  }

  /** If hosts may change protocol, every cap can get stuck without any cancellation. */
  lemma EveryCapCanStick(cap: nat, key: HostKey)
    ensures exists steps :: CancelFree(steps) && Exec(INIT, cap, steps).Some? && Stuck(Exec(INIT, cap, steps).value, cap, key)
  {
    if cap == 1 {
      var steps := FickleHostSticks(key);
    } else {
      var http1: Negotiation := k => Http1;
      StuckReachableIff(cap, http1, key);
      var steps :| EndsStuck(steps, cap, http1, key);
    }
  }
}
