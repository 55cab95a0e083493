/**
  When a host's entry can no longer serve anyone.

  The pool promises that waiting is temporary: a task told to wait is served once a connection comes
  back. That promise fails for a stuck entry, and this module says exactly when an entry is stuck,
  that it stays so, and for which caps such a state can be reached without any cancellation.
*/
module PoolStuck {
  import opened Types
  import opened PoolModel
  import opened PoolProtocol
  import opened PoolRuns
  import opened PoolStability

  /** The cap is used up by what nobody will give back and this entry's protocol will not reuse. */
  ghost predicate Stuck(s: System, cap: nat, key: HostKey) {
    && key in s.pools && Total(s.pools[key]) >= cap
    && (forall t :: Live(s, t) ==> !OpensAt(s, t, key) && !(HasH1Link(s, t) && s.claims[t].key == key))
    && (forall c :: c in s.pools[key].connections ==> NeverReusable(c, s.pools[key].protocol))
  }

  /** Not even with a ready sender would this connection be handed out under protocol `p`. */
  ghost predicate NeverReusable(c: Conn, p: Protocol) {
    match p
    case Http2 => c.sender.H1?
    case Http1 => !(c.sender.H1? && c.sender.slot.Some?)
  }

  ghost predicate Serves(s: System, cap: nat, key: HostKey, first: Poll, second: Poll) {
    !PoolAction(s.pools, key, cap, first, second).1.Wait?
  }

  /** Some continuation reaches a decision at `key` that is not Wait. */
  ghost predicate CanBeServed(s: System, cap: nat, key: HostKey) {
    exists steps, first: Poll, second: Poll ::
      Exec(s, cap, steps).Some? && Serves(Exec(s, cap, steps).value, cap, key, first, second)
  }

  // ---------------------------------------------------------------- stuck is for ever

  lemma {:induction false} KeepLiveH1(cs: seq<Conn>, first: Poll)
    requires forall i :: 0 <= i < |cs| ==> cs[i].sender.H1?
    ensures KeepLive(cs, first) == cs
  {
    if cs != [] {
      KeepLiveH1(cs[..|cs| - 1], first);
    }
  }

  lemma StuckWaits(e: Entry, cap: nat, first: Poll, second: Poll)
    requires Total(e) >= cap && forall c :: c in e.connections ==> NeverReusable(c, e.protocol)
    ensures EntryAction(e, cap, first, second) == (e, Wait)
  {
    forall i | 0 <= i < |e.connections|
      ensures NeverReusable(e.connections[i], e.protocol)
    {
      assert e.connections[i] in e.connections;
    }
    if e.protocol.Http2? {
      KeepLiveH1(e.connections, first);
    }
  }

  /** No step changes a stuck entry: its decisions are Wait and nobody else may touch it. */
  lemma StuckEntryStays(s: System, cap: nat, step: Step, key: HostKey)
    requires Stuck(s, cap, key) && Enabled(s, step) && Owner(s, step) == key
    ensures var s' := Apply(s, cap, step);
            && s'.pools == s.pools
            && (step.t in s'.claims ==>
                  s'.claims[step.t].Deciding? || (step.t in s.claims && s'.claims[step.t] == s.claims[step.t]))
  {
    assert step.t in s.claims && Live(s, step.t) ==> !OpensAt(s, step.t, key);
    if step.Decide? {
      StuckWaits(s.pools[key], cap, step.first, step.second);
      assert s.pools[key := s.pools[key]] == s.pools;
    }
  }

  /** The key a step works on. */
  ghost function Owner(s: System, step: Step): HostKey
    requires Enabled(s, step)
  {
    if step.Begin? then step.key else s.claims[step.t].key
  }

  lemma StepTouchesOnly(s: System, cap: nat, step: Step)
    requires Enabled(s, step)
    ensures TouchesOnly(s, Apply(s, cap, step), step.t, Owner(s, step))
  {
    if step.Decide? {
      var (pools, a) := PoolAction(s.pools, Owner(s, step), cap, step.first, step.second);
      DecidedTouchesOnly(s, step.t, pools, a);
    }
  }

  lemma StuckStep(s: System, cap: nat, step: Step, key: HostKey)
    requires Stuck(s, cap, key) && Enabled(s, step)
    ensures Stuck(Apply(s, cap, step), cap, key) && Apply(s, cap, step).pools[key] == s.pools[key]
  {
    var s' := Apply(s, cap, step);
    StepTouchesOnly(s, cap, step);
    if Owner(s, step) == key {
      StuckEntryStays(s, cap, step, key);
    }
    forall t | Live(s', t)
      ensures !OpensAt(s', t, key) && !(HasH1Link(s', t) && s'.claims[t].key == key)
    {
      if t != step.t {
        assert Live(s, t);
      }
    }
  }

  lemma {:induction false} StuckForever(s: System, cap: nat, steps: seq<Step>, key: HostKey)
    requires Inv(s, cap) && Stuck(s, cap, key) && Exec(s, cap, steps).Some?
    ensures var s' := Exec(s, cap, steps).value;
            Stuck(s', cap, key) && s'.pools[key] == s.pools[key]
    decreases |steps|
  {
    if steps != [] {
      StuckStep(s, cap, steps[0], key);
      StepKeeps(s, cap, steps[0]);
      StuckForever(Apply(s, cap, steps[0]), cap, steps[1..], key);
    }
  }

  // ---------------------------------------------------------------- caps 0 and 1

  /**
    With a cap of at most one only the first opener can be opening an unsettled entry, and with a cap
    of zero nobody ever opens a second connection.
  */
  ghost predicate SmallOkAt(s: System, cap: nat, key: HostKey) {
    key in s.pools && key in s.meta && cap <= 1 ==>
      && (!s.meta[key].settled ==> s.pools[key].connections == [] && exists t :: FirstAt(s, t, key))
      && (cap == 0 && s.meta[key].settled ==>
            s.pools[key].opening == 0 && AllOf(s.pools[key].connections, s.pools[key].protocol))
  }

  ghost predicate SmallOk(s: System, cap: nat) {
    forall k :: SmallOkAt(s, cap, k)
  }

  /** What a step of `t` at another key cannot disturb. */
  lemma SmallElsewhere(s: System, s': System, cap: nat, t: Task, key: HostKey, k: HostKey)
    requires TouchesOnly(s, s', t, key) && k != key && SmallOkAt(s, cap, k)
    ensures SmallOkAt(s', cap, k)
  {
    Reclaimed(s, s', t, key);
    if k in s'.pools && k in s'.meta && cap <= 1 && !s'.meta[k].settled {
      var u :| FirstAt(s, u, k);
      assert FirstAt(s', u, k);
    }
  }

  /** The first opener of an unsettled entry is its only opener when the cap is at most one. */
  lemma OnlyOpener(s: System, cap: nat, t: Task, key: HostKey)
    requires Inv(s, cap) && SmallOkAt(s, cap, key) && cap <= 1 && OpensAt(s, t, key)
    ensures key in s.pools && key in s.meta && s.pools[key].opening == 1 && s.pools[key].connections == []
    ensures !s.meta[key].settled ==> s.claims[t].isFirst
    ensures cap == 0 ==> !s.meta[key].settled
  {
    assert PhaseOk(s, s.claims[t]) && KeyOk(s, cap, key);
    assert t in Openers(s, key);
    if !s.meta[key].settled {
      var u :| FirstAt(s, u, key);
      assert Openers(s, key) == {t} && u in Openers(s, key) by {
        assert {t} <= Openers(s, key);
        if u != t {
          assert {t, u} <= Openers(s, key);
          CardinalityLeq({t, u}, Openers(s, key));
        }
        forall v | v in Openers(s, key)
          ensures v == t
        {
          if v != t {
            CardinalityLeq({t, v}, Openers(s, key));
          }
        }
      }
    }
  }

  lemma CardinalityLeq<T>(a: set<T>, b: set<T>)
    requires a <= b
    ensures |a| <= |b|
  {
    assert b == a + (b - a);
  }

  lemma SmallDecide(s: System, cap: nat, t: Task, first: Poll, second: Poll)
    requires Inv(s, cap) && SmallOk(s, cap) && Enabled(s, Decide(t, first, second)) && cap <= 1
    ensures SmallOkAt(ApplyDecide(s, cap, t, first, second), cap, s.claims[t].key)
  {
    var key := s.claims[t].key;
    var s' := ApplyDecide(s, cap, t, first, second);
    if key !in s.pools {
      assert FirstAt(s', t, key);
    } else {
      assert KeyOk(s, cap, key) && SmallOkAt(s, cap, key);
      if !s.meta[key].settled {
        var u :| FirstAt(s, u, key);
        OnlyOpener(s, cap, u, key);
        StuckWaits(s.pools[key], cap, first, second);
        assert FirstAt(s', u, key);
      } else if cap == 0 {
        KindsKept(s.pools[key], cap, first, second, s.pools[key].protocol);
        assert s'.meta == s.meta;
      }
    }
  }

  lemma SmallFinish(s: System, cap: nat, t: Task, usable: bool)
    requires Inv(s, cap) && SmallOk(s, cap) && Enabled(s, Finish(t, usable)) && cap <= 1
    ensures SmallOkAt(ApplyFinish(s, t, usable), cap, s.claims[t].key)
  {
    var p := s.claims[t];
    var s' := ApplyFinish(s, t, usable);
    assert PhaseOk(s, p) && KeyOk(s, cap, p.key) && SmallOkAt(s, cap, p.key);
    if p.key in s.pools {
      if !s.meta[p.key].settled {
        var u :| FirstAt(s, u, p.key);
        assert FirstAt(s', u, p.key);
      } else if cap == 0 {
        RefilledKinds(s.pools[p.key].connections, p.handle.id, p.handle.sender.link, s.pools[p.key].protocol);
        WithoutKinds(s.pools[p.key].connections, p.handle.id, s.pools[p.key].protocol);
      }
    }
  }

  lemma SmallOpen(s: System, cap: nat, step: Step)
    requires Inv(s, cap) && SmallOk(s, cap) && Enabled(s, step) && cap <= 1
    requires step.OpenOk? || step.OpenErr?
    ensures SmallOkAt(Apply(s, cap, step), cap, s.claims[step.t].key)
  {
    var t := step.t;
    OnlyOpener(s, cap, t, s.claims[t].key);
  }

  lemma SmallStep(s: System, cap: nat, step: Step)
    requires Inv(s, cap) && SmallOk(s, cap) && Enabled(s, step)
    ensures SmallOk(Apply(s, cap, step), cap)
  {
    if cap <= 1 {
      var s' := Apply(s, cap, step);
      var key := Owner(s, step);
      match step {
        case Begin(_, _) => SmallUntouched(s, s', cap, key);
        case Cancel(_) => SmallUntouched(s, s', cap, key);
        case Decide(t, first, second) => SmallDecide(s, cap, t, first, second);
        case OpenOk(_, _, _) => SmallOpen(s, cap, step);
        case OpenErr(_) => SmallOpen(s, cap, step);
        case Finish(t, usable) => SmallFinish(s, cap, t, usable);
      }
      StepTouchesOnly(s, cap, step);
      forall k
        ensures SmallOkAt(s', cap, k)
      {
        if k != key {
          assert SmallOkAt(s, cap, k);
          SmallElsewhere(s, s', cap, step.t, key, k);
        }
      }
    }
  }

  lemma SmallUntouched(s: System, s': System, cap: nat, key: HostKey)
    requires SmallOk(s, cap) && s'.pools == s.pools && s'.meta == s.meta
    requires forall t :: FirstAt(s, t, key) ==> FirstAt(s', t, key)
    ensures SmallOkAt(s', cap, key)
  {
    assert SmallOkAt(s, cap, key);
    if t :| FirstAt(s, t, key) {
      assert FirstAt(s', t, key);
    }
  }

  lemma {:induction false} SmallRun(s: System, cap: nat, steps: seq<Step>)
    requires Inv(s, cap) && SmallOk(s, cap) && Exec(s, cap, steps).Some?
    ensures SmallOk(Exec(s, cap, steps).value, cap)
    decreases |steps|
  {
    if steps != [] {
      StepKeeps(s, cap, steps[0]);
      SmallStep(s, cap, steps[0]);
      SmallRun(Apply(s, cap, steps[0]), cap, steps[1..]);
    }
  }

  // ---------------------------------------------------------------- stuck means never served

  const READY: Poll := l => Ready

  lemma ServedAfter(s: System, cap: nat, step: Step, key: HostKey, second: Poll)
    requires Enabled(s, step) && Serves(Apply(s, cap, step), cap, key, second, second)
    ensures CanBeServed(s, cap, key)
  {
    assert Exec(Apply(s, cap, step), cap, [step][1..]) == Some(Apply(s, cap, step));
    assert Exec(s, cap, [step]) == Some(Apply(s, cap, step));
  }

  /** A failed open makes room, or removes the entry. */
  lemma ServedAfterOpenErr(s: System, cap: nat, t: Task, key: HostKey)
    requires Inv(s, cap) && Live(s, t) && OpensAt(s, t, key)
    ensures CanBeServed(s, cap, key)
  {
    assert PhaseOk(s, s.claims[t]) && KeyOk(s, cap, key);
    assert t in Openers(s, key);
    var s' := Apply(s, cap, OpenErr(t));
    if key in s'.pools {
      var e' := s'.pools[key];
      assert Total(e') < cap;
    }
    ServedAfter(s, cap, OpenErr(t), key, READY);
  }

  /** A finished H1 request makes room by leaving, or with cap 0 by coming back. */
  lemma ServedAfterFinish(s: System, cap: nat, t: Task, key: HostKey)
    requires Inv(s, cap) && SmallOk(s, cap) && Live(s, t) && HasH1Link(s, t) && s.claims[t].key == key
    ensures CanBeServed(s, cap, key)
  {
    var p := s.claims[t];
    assert PhaseOk(s, p) && KeyOk(s, cap, key) && SmallOkAt(s, cap, key);
    var i := SlotOf(s, cap, t);
    var e := s.pools[key];
    if cap > 0 {
      var s' := Apply(s, cap, Finish(t, false));
      WithoutAt(e.connections, e.nextId, i);
      assert Total(s'.pools[key]) < cap;
      ServedAfter(s, cap, Finish(t, false), key, READY);
    } else {
      var s' := Apply(s, cap, Finish(t, true));
      RefilledAt(e.connections, e.nextId, i, p.handle.id, p.handle.sender.link);
      assert e.connections[i] in e.connections;
      assert Reusable(s'.pools[key].connections[i], Http1, READY);
      ServedAfter(s, cap, Finish(t, true), key, READY);
    }
  }

  lemma ServedNow(s: System, cap: nat, key: HostKey)
    requires Serves(s, cap, key, READY, READY)
    ensures CanBeServed(s, cap, key)
  {
    assert Exec(s, cap, []) == Some(s);
  }

  /** A connection that could be handed out is, once its H2 sender polls ready. */
  lemma ServedByConnection(s: System, cap: nat, key: HostKey, c: Conn)
    requires key in s.pools && c in s.pools[key].connections && !NeverReusable(c, s.pools[key].protocol)
    ensures CanBeServed(s, cap, key)
  {
    var e := s.pools[key];
    var e1 := Cleaned(e, READY);
    KeepLiveMembers(e.connections, READY);
    assert c in e1.connections && Reusable(c, e1.protocol, READY);
    var i :| 0 <= i < |e1.connections| && e1.connections[i] == c;
    ServedNow(s, cap, key);
  }

  /**
    In a reachable state an entry is stuck if and only if no continuation of any kind, with any
    outcomes and any polls, ever reaches a decision at its key that is not Wait.
  */
  lemma StuckIffNeverServed(s: System, cap: nat, key: HostKey)
    requires Reachable(s, cap)
    ensures Stuck(s, cap, key) <==> !CanBeServed(s, cap, key)
  {
    ReachableInv(s, cap);
    var past :| Exec(INIT, cap, past) == Some(s);
    SmallRun(INIT, cap, past);
    if Stuck(s, cap, key) {
      forall steps, first: Poll, second: Poll | Exec(s, cap, steps).Some?
        ensures !Serves(Exec(s, cap, steps).value, cap, key, first, second)
      {
        StuckForever(s, cap, steps, key);
        StuckWaits(s.pools[key], cap, first, second);
      }
    } else if key !in s.pools || Total(s.pools[key]) < cap {
      ServedNow(s, cap, key);
    } else if t :| Live(s, t) && OpensAt(s, t, key) {
      ServedAfterOpenErr(s, cap, t, key);
    } else if t :| Live(s, t) && HasH1Link(s, t) && s.claims[t].key == key {
      ServedAfterFinish(s, cap, t, key);
    } else {
      var c :| c in s.pools[key].connections && !NeverReusable(c, s.pools[key].protocol);
      ServedByConnection(s, cap, key, c);
    }
  }

  // ---------------------------------------------------------------- which caps can get stuck

  /** A cancellation-free run, with the host's protocol fixed, that ends with the entry stuck. */
  ghost predicate EndsStuck(steps: seq<Step>, cap: nat, proto: Negotiation, key: HostKey) {
    && FaithfulRun(INIT, cap, steps, proto) && CancelFree(steps)
    && Exec(INIT, cap, steps).Some? && Stuck(Exec(INIT, cap, steps).value, cap, key)
  }

  /** From `s`, `steps` is such a run and leads to `s'`. */
  ghost predicate Leads(s: System, cap: nat, proto: Negotiation, steps: seq<Step>, s': System) {
    FaithfulRun(s, cap, steps, proto) && CancelFree(steps) && Exec(s, cap, steps) == Some(s')
  }

  lemma LeadsStep(s: System, cap: nat, proto: Negotiation, step: Step, rest: seq<Step>, s': System)
    requires Enabled(s, step) && Faithful(s, step, proto) && !step.Cancel?
    requires Leads(Apply(s, cap, step), cap, proto, rest, s')
    ensures Leads(s, cap, proto, [step] + rest, s')
  {
    assert ([step] + rest)[1..] == rest;
  }

  lemma {:induction false} LeadsConcat(s: System, cap: nat, proto: Negotiation, a: seq<Step>, m: System, b: seq<Step>, s': System)
    requires Leads(s, cap, proto, a, m) && Leads(m, cap, proto, b, s')
    ensures Leads(s, cap, proto, a + b, s')
    decreases |a|
  {
    if a == [] {
      assert a + b == b;
    } else {
      assert forall i :: 0 <= i < |a[1..]| ==> a[1..][i] == a[i + 1];
      assert !a[0].Cancel? && CancelFree(a[1..]);
      LeadsConcat(Apply(s, cap, a[0]), cap, proto, a[1..], m, b, s');
      LeadsStep(s, cap, proto, a[0], a[1..] + b, s');
      assert [a[0]] + (a[1..] + b) == a + b;
    }
  }

  /** Append one step to a run. */
  lemma Then(s: System, cap: nat, proto: Negotiation, steps: seq<Step>, m: System, step: Step)
    returns (longer: seq<Step>, m': System)
    requires Leads(s, cap, proto, steps, m)
    requires Enabled(m, step) && Faithful(m, step, proto) && !step.Cancel?
    ensures m' == Apply(m, cap, step) && Leads(s, cap, proto, longer, m')
  {
    m' := Apply(m, cap, step);
    assert Leads(m', cap, proto, [], m');
    LeadsStep(m, cap, proto, step, [], m');
    LeadsConcat(s, cap, proto, steps, m, [step] + [], m');
    longer := steps + ([step] + []);
  }

  /** Nobody is in the pool, and the entry is an orphaned HTTP/2 one holding `n` HTTP/1.1 connections. */
  ghost predicate Orphaned(s: System, key: HostKey, n: nat) {
    && s.claims == map[] && s.cancelled == {} && key in s.meta
    && key in s.pools && s.pools[key].protocol == Http2 && s.pools[key].opening == 0
    && |s.pools[key].connections| == n && AllOf(s.pools[key].connections, Http1)
  }

  lemma FreshLink(home: map<Link, Slot>) returns (l: Link)
    ensures l !in home
  {
    l := FreshNat(home.Keys);
  }

  lemma {:induction false} FreshNat(used: set<nat>) returns (n: nat)
    ensures forall m :: m in used ==> m < n
  {
    if used == {} {
      n := 0;
    } else {
      var x :| x in used;
      var rest := FreshNat(used - {x});
      n := if rest <= x then x + 1 else rest;
      assert forall m :: m in used ==> m == x || m in used - {x};
    }
  }

  /** An orphaned entry below its cap answers with one more open. */
  lemma OrphanDecides(s: System, cap: nat, key: HostKey, n: nat)
    requires Orphaned(s, key, n) && n < cap
    ensures EntryAction(s.pools[key], cap, READY, READY) == (s.pools[key].(opening := 1), OpenNew(false))
  {
    var e := s.pools[key];
    forall i | 0 <= i < n
      ensures e.connections[i].sender.H1?
    {
      assert e.connections[i] in e.connections;
    }
    KeepLiveH1(e.connections, READY);
  }

  /** Finishing the only request in the pool, at an HTTP/2 entry whose connections are all HTTP/1.1. */
  lemma OrphanReturns(s: System, cap: nat, t: Task, key: HostKey, gen: nat, h: Handle)
    requires s.claims == map[t := Holding(key, gen, h)] && s.cancelled == {} && h.sender.HandleH1?
    requires key in s.pools && Orphaned(s.(claims := map[]), key, |s.pools[key].connections|)
    ensures Enabled(s, Finish(t, true))
    ensures Orphaned(Apply(s, cap, Finish(t, true)), key, |s.pools[key].connections|)
  {
    RefilledKinds(s.pools[key].connections, h.id, h.sender.link, Http1);
    RefilledLength(s.pools[key].connections, h.id, h.sender.link);
    var s' := Apply(s, cap, Finish(t, true));
    assert s'.claims == map[];
  }

  /** The open that an orphaned entry allowed succeeds with HTTP/1.1. */
  lemma OrphanOpens(s: System, cap: nat, key: HostKey, n: nat, l: Link) returns (s1: System, s2: System, s3: System, h: Handle)
    requires Orphaned(s, key, n) && n < cap && l !in s.home
    ensures Enabled(s, Begin(0, key)) && s1 == Apply(s, cap, Begin(0, key))
    ensures Enabled(s1, Decide(0, READY, READY)) && s2 == Apply(s1, cap, Decide(0, READY, READY))
    ensures Enabled(s2, OpenOk(0, Http1, l)) && s3 == Apply(s2, cap, OpenOk(0, Http1, l)) && s2.claims[0].key == key
    ensures h.sender.HandleH1? && s3.claims == map[0 := Holding(key, s.meta[key].gen, h)] && s3.cancelled == {}
    ensures Orphaned(s3.(claims := map[]), key, n + 1)
  {
    OrphanDecides(s, cap, key, n);
    var e := s.pools[key];
    s1 := Apply(s, cap, Begin(0, key));
    s2 := Apply(s1, cap, Decide(0, READY, READY));
    assert s2 == s.(pools := s.pools[key := e.(opening := 1)],
                    claims := map[0 := Opening(key, s.meta[key].gen, false)]);
    s3 := Apply(s2, cap, OpenOk(0, Http1, l));
    assert s3.pools[key] == e.(nextId := e.nextId + 1, connections := e.connections + [Conn(e.nextId, H1(None))]);
    h := Handle(HandleH1(l), e.nextId);
  }

  /** One more download at an orphaned entry below its cap adds one more unusable connection. */
  lemma OrphanGrows(s: System, cap: nat, proto: Negotiation, key: HostKey, n: nat) returns (steps: seq<Step>, s': System)
    requires Orphaned(s, key, n) && n < cap && proto(key) == Http1
    ensures Leads(s, cap, proto, steps, s') && Orphaned(s', key, n + 1)
  {
    var l := FreshLink(s.home);
    var s1, s2, s3, h := OrphanOpens(s, cap, key, n, l);
    OrphanReturns(s3, cap, 0, key, s.meta[key].gen, h);
    s' := Apply(s3, cap, Finish(0, true));
    assert Leads(s', cap, proto, [], s');
    LeadsStep(s3, cap, proto, Finish(0, true), [], s');
    steps := [Finish(0, true)] + [];
    LeadsStep(s2, cap, proto, OpenOk(0, Http1, l), steps, s');
    steps := [OpenOk(0, Http1, l)] + steps;
    LeadsStep(s1, cap, proto, Decide(0, READY, READY), steps, s');
    steps := [Decide(0, READY, READY)] + steps;
    LeadsStep(s, cap, proto, Begin(0, key), steps, s');
    steps := [Begin(0, key)] + steps;
  }

  lemma {:induction false} RefilledLength(cs: seq<Conn>, id: nat, link: Link)
    ensures |Refilled(cs, id, link)| == |cs|
  {
    if cs != [] {
      RefilledLength(cs[1..], id, link);
    }
  }

  lemma {:induction false} OrphanFills(s: System, cap: nat, proto: Negotiation, key: HostKey, n: nat) returns (steps: seq<Step>, s': System)
    requires Orphaned(s, key, n) && n <= cap && proto(key) == Http1
    ensures Leads(s, cap, proto, steps, s') && Orphaned(s', key, cap)
    decreases cap - n
  {
    if n == cap {
      steps, s' := [], s;
    } else {
      var a, m := OrphanGrows(s, cap, proto, key, n);
      var b, s2 := OrphanFills(m, cap, proto, key, n + 1);
      LeadsConcat(s, cap, proto, a, m, b, s2);
      steps, s' := a + b, s2;
    }
  }

  /**
    How an entry is orphaned: two tasks open at once, the first one fails, the second succeeds with
    HTTP/1.1 and returns its connection. The entry keeps the provisional HTTP/2 protocol.
  */
  lemma OrphanArises(cap: nat, proto: Negotiation, key: HostKey) returns (steps: seq<Step>, s: System)
    requires cap >= 2 && proto(key) == Http1
    ensures Leads(INIT, cap, proto, steps, s) && Orphaned(s, key, 1)
  {
    var m;
    steps, m := TwoOpeners(cap, proto, key);
    steps, m := Then(INIT, cap, proto, steps, m, OpenErr(0));
    assert m.pools == map[key := Entry(Http2, [], 1, 0)] && m.claims == map[1 := Opening(key, 0, false)];
    assert m.meta == map[key := Meta(0, false)];
    SecondSucceeds(m, cap, key);
    steps, m := Then(INIT, cap, proto, steps, m, OpenOk(1, Http1, 0));
    OrphanReturns(m, cap, 1, key, 0, Handle(HandleH1(0), 0));
    steps, s := Then(INIT, cap, proto, steps, m, Finish(1, true));
  }

  lemma SecondSucceeds(m: System, cap: nat, key: HostKey)
    requires m.pools == map[key := Entry(Http2, [], 1, 0)] && m.claims == map[1 := Opening(key, 0, false)]
    requires m.meta == map[key := Meta(0, false)] && m.home == map[] && m.cancelled == {}
    ensures Enabled(m, OpenOk(1, Http1, 0))
    ensures var m' := Apply(m, cap, OpenOk(1, Http1, 0));
            && m'.claims == map[1 := Holding(key, 0, Handle(HandleH1(0), 0))]
            && key in m'.pools && |m'.pools[key].connections| == 1
            && Orphaned(m'.(claims := map[]), key, 1) && m'.cancelled == {}
  {
    assert [] + [Conn(0, H1(None))] == [Conn(0, H1(None))];
  }

  lemma TwoOpeners(cap: nat, proto: Negotiation, key: HostKey) returns (steps: seq<Step>, m: System)
    requires cap >= 2
    ensures Leads(INIT, cap, proto, steps, m)
    ensures m.pools == map[key := Entry(Http2, [], 2, 0)] && m.meta == map[key := Meta(0, false)]
    ensures m.claims == map[0 := Opening(key, 0, true), 1 := Opening(key, 0, false)]
    ensures m.home == map[] && m.cancelled == {}
  {
    steps, m := FirstOpener(cap, proto, key);
    steps, m := Then(INIT, cap, proto, steps, m, Begin(1, key));
    assert EntryAction(NEW_ENTRY, cap, READY, READY) == (NEW_ENTRY.(opening := 2), OpenNew(false));
    steps, m := Then(INIT, cap, proto, steps, m, Decide(1, READY, READY));
  }

  lemma FirstOpener(cap: nat, proto: Negotiation, key: HostKey) returns (steps: seq<Step>, m: System)
    ensures Leads(INIT, cap, proto, steps, m)
    ensures m == System(map[key := NEW_ENTRY], map[key := Meta(0, false)], 1, map[],
                        map[0 := Opening(key, 0, true)], {})
  {
    assert Leads(INIT, cap, proto, [], INIT);
    steps, m := Then(INIT, cap, proto, [], INIT, Begin(0, key));
    steps, m := Then(INIT, cap, proto, steps, m, Decide(0, READY, READY));
  }

  /** With cap 0 the entry outlives its only connection and then admits nobody. */
  lemma ZeroCapSticks(proto: Negotiation, key: HostKey) returns (steps: seq<Step>)
    ensures EndsStuck(steps, 0, proto, key)
  {
    var m;
    steps, m := FirstOpener(0, proto, key);
    steps, m := Then(INIT, 0, proto, steps, m, OpenOk(0, proto(key), 0));
    var c := Conn(0, if proto(key) == Http2 then H2(0) else H1(None));
    assert [] + [c] == [c];
    assert m.pools == map[key := Entry(proto(key), [c], 0, 1)];
    assert m.claims.Keys == {0} && m.cancelled == {};
    steps, m := LoseOnly(steps, m, proto, key);
  }

  /** The only connection is lost: an HTTP/1.1 one by its request, an HTTP/2 one at the next poll. */
  lemma LoseOnly(steps: seq<Step>, m: System, proto: Negotiation, key: HostKey) returns (longer: seq<Step>, m': System)
    requires Leads(INIT, 0, proto, steps, m) && m.claims.Keys == {0} && m.cancelled == {}
    requires m.claims[0].Holding? && m.claims[0].key == key && m.claims[0].handle.id == 0
    requires m.claims[0].handle.sender.HandleH2? == (proto(key) == Http2)
    requires m.pools == map[key := Entry(proto(key), [Conn(0, if proto(key) == Http2 then H2(0) else H1(None))], 0, 1)]
    ensures Leads(INIT, 0, proto, longer, m') && Stuck(m', 0, key)
  {
    longer, m' := Then(INIT, 0, proto, steps, m, Finish(0, false));
    assert m'.claims == map[];
    if proto(key) == Http2 {
      longer, m' := LoseH2(longer, m', proto, key);
    } else {
      assert [Conn(0, H1(None))][..0] == [];
      assert Without([Conn(0, H1(None))], 0) == [];
      assert m'.pools[key] == Entry(Http1, [], 0, 1);
    }
  }

  /** A poll finds the only HTTP/2 connection dead; with cap 0 nothing may replace it. */
  lemma LoseH2(steps: seq<Step>, m: System, proto: Negotiation, key: HostKey) returns (longer: seq<Step>, m': System)
    requires Leads(INIT, 0, proto, steps, m) && m.claims == map[] && m.cancelled == {}
    requires m.pools == map[key := Entry(Http2, [Conn(0, H2(0))], 0, 1)]
    ensures Leads(INIT, 0, proto, longer, m') && Stuck(m', 0, key)
  {
    var dead: Poll := l => Dead;
    assert KeepLive([Conn(0, H2(0))], dead) == [];
    longer, m' := Then(INIT, 0, proto, steps, m, Begin(1, key));
    assert m'.claims == map[1 := Deciding(key, 0)];
    longer, m' := Then(INIT, 0, proto, longer, m', Decide(1, dead, dead));
    assert m'.pools[key] == Entry(Http2, [], 0, 1) && m'.claims == map[1 := Deciding(key, 1)];
  }

  /** A host whose first opener succeeded is not stuck, nor is any HTTP/2 host, for a cap of one or more. */
  lemma NotStuck(s: System, cap: nat, proto: Negotiation, key: HostKey)
    requires Inv(s, cap) && ProtoOk(s, proto) && s.cancelled == {} && cap >= 1
    requires (key in s.meta && s.meta[key].settled) || proto(key) == Http2
    ensures !Stuck(s, cap, key)
  {
    assert KeyOk(s, cap, key);
    if key in s.pools && Total(s.pools[key]) >= cap && forall t :: Live(s, t) ==> !OpensAt(s, t, key) {
      var e := s.pools[key];
      assert forall t :: OpensAt(s, t, key) ==> Live(s, t);
      assert Openers(s, key) == {};
      var c := e.connections[0];
      assert c in e.connections && ConnOk(s, key, c);
      assert EntryProtoOk(e, s.meta[key].settled, proto(key));
      if c.sender == H1(None) {
        var t :| HoldsH1(s, t, key, c.id);
        assert Live(s, t) && HasH1Link(s, t);
      } else {
        assert !NeverReusable(c, e.protocol);
      }
    }
  }

  /**
    When no task is cancelled and hosts do not change protocol, an entry can get stuck exactly when
    `connections_per_host` is 0, or is at least 2 and the host speaks HTTP/1.1. What cancellations and
    changing hosts add is in `PoolCauses`.
  */
  lemma StuckReachableIff(cap: nat, proto: Negotiation, key: HostKey)
    ensures (exists steps :: EndsStuck(steps, cap, proto, key)) <==> cap == 0 || (cap >= 2 && proto(key) == Http1)
  {
    if cap == 0 {
      var steps := ZeroCapSticks(proto, key);
      assert EndsStuck(steps, cap, proto, key);
    } else if cap >= 2 && proto(key) == Http1 {
      var a, m := OrphanArises(cap, proto, key);
      var b, s := OrphanFills(m, cap, proto, key, 1);
      LeadsConcat(INIT, cap, proto, a, m, b, s);
      assert EndsStuck(a + b, cap, proto, key);
    } else {
      forall steps
        ensures !EndsStuck(steps, cap, proto, key)
      {
        if FaithfulRun(INIT, cap, steps, proto) && CancelFree(steps) {
          ProtoRun(INIT, cap, steps, proto);
          CancelFreeRun(INIT, cap, steps);
          SmallRun(INIT, cap, steps);
          var s := Exec(INIT, cap, steps).value;
          assert KeyOk(s, cap, key);
          if key in s.pools {
            if proto(key) == Http1 && !s.meta[key].settled {
              SettledWhenIdle(s, cap, key);
            } else {
              NotStuck(s, cap, proto, key);
            }
          }
        }
      }
    }
  }

  /** With a cap of one, somebody live is opening any unsettled entry. */
  lemma SettledWhenIdle(s: System, cap: nat, key: HostKey)
    requires SmallOk(s, cap) && s.cancelled == {} && cap == 1
    requires key in s.pools && key in s.meta && !s.meta[key].settled
    ensures exists t :: Live(s, t) && OpensAt(s, t, key)
  {
    assert SmallOkAt(s, cap, key);
    var t :| FirstAt(s, t, key);
    assert Live(s, t) && OpensAt(s, t, key);
  }
}
