/**
  What a pool entry knows about its host's protocol, when each host always negotiates the same one.

  An entry is created with a provisional HTTP/2 protocol; only its first opener corrects it. If that
  opener fails while a later one succeeds, nobody ever will.
*/
module PoolStability {
  import opened PoolModel
  import opened PoolProtocol
  import opened PoolRuns

  type Negotiation = HostKey -> Protocol

  /** Opens succeed only with the protocol their host negotiates. */
  ghost predicate Faithful(s: System, step: Step, proto: Negotiation) {
    step.OpenOk? && step.t in s.claims ==> step.kind == proto(s.claims[step.t].key)
  }

  ghost predicate FaithfulRun(s: System, cap: nat, steps: seq<Step>, proto: Negotiation)
    decreases |steps|
  {
    steps == [] ||
    (Enabled(s, steps[0]) && Faithful(s, steps[0], proto) && FaithfulRun(Apply(s, cap, steps[0]), cap, steps[1..], proto))
  }

  ghost predicate AllOf(cs: seq<Conn>, p: Protocol) {
    forall c :: c in cs ==> Kind(c.sender) == p
  }

  /** A settled entry has its host's protocol, an unsettled one the provisional HTTP/2. */
  ghost predicate ProtoOk(s: System, proto: Negotiation) {
    forall k :: k in s.pools ==> k in s.meta && EntryProtoOk(s.pools[k], s.meta[k].settled, proto(k))
  }

  ghost predicate EntryProtoOk(e: Entry, settled: bool, p: Protocol) {
    e.protocol == (if settled then p else Http2) && AllOf(e.connections, p)
  }

  lemma {:induction false} RefilledKinds(cs: seq<Conn>, id: nat, link: Link, p: Protocol)
    requires AllOf(cs, p)
    ensures AllOf(Refilled(cs, id, link), p)
  {
    if cs != [] {
      assert cs[0] in cs && forall c :: c in cs[1..] ==> c in cs;
      RefilledKinds(cs[1..], id, link, p);
    }
  }

  lemma {:induction false} WithoutKinds(cs: seq<Conn>, id: nat, p: Protocol)
    requires AllOf(cs, p)
    ensures AllOf(Without(cs, id), p)
  {
    if cs != [] {
      assert cs[|cs| - 1] in cs && forall c :: c in cs[..|cs| - 1] ==> c in cs;
      WithoutKinds(cs[..|cs| - 1], id, p);
    }
  }

  lemma ProtoDecide(s: System, cap: nat, t: Task, first: Poll, second: Poll, proto: Negotiation)
    requires ProtoOk(s, proto) && Enabled(s, Decide(t, first, second))
    ensures ProtoOk(ApplyDecide(s, cap, t, first, second), proto)
  {
    var key := s.claims[t].key;
    var s' := ApplyDecide(s, cap, t, first, second);
    if key in s.pools {
      var (e', a) := EntryAction(s.pools[key], cap, first, second);
      KindsKept(s.pools[key], cap, first, second, proto(key));
      assert s'.pools == s.pools[key := e'] && s'.meta == s.meta;
    } else {
      assert s'.pools == s.pools[key := NEW_ENTRY] && s'.meta == s.meta[key := Meta(s.nextGen, false)];
    }
  }

  lemma KindsKept(e: Entry, cap: nat, first: Poll, second: Poll, p: Protocol)
    requires AllOf(e.connections, p)
    ensures var e' := EntryAction(e, cap, first, second).0;
            && e'.protocol == e.protocol
            && AllOf(e'.connections, p)
            && !(EntryAction(e, cap, first, second).1 == OpenNew(true))
  {
    var e1 := Cleaned(e, first);
    KeepLiveMembers(e.connections, first);
    assert AllOf(e1.connections, p);
    match FirstReusable(e1.connections, e1.protocol, second)
    case Some(i) => assert e1.connections[i] in e1.connections;
    case None =>
  }

  lemma ProtoFinish(s: System, t: Task, usable: bool, proto: Negotiation)
    requires ProtoOk(s, proto) && Enabled(s, Finish(t, usable))
    ensures ProtoOk(ApplyFinish(s, t, usable), proto)
  {
    var p := s.claims[t];
    if p.key in s.pools && p.handle.sender.HandleH1? {
      RefilledKinds(s.pools[p.key].connections, p.handle.id, p.handle.sender.link, proto(p.key));
      WithoutKinds(s.pools[p.key].connections, p.handle.id, proto(p.key));
    }
  }

  lemma ProtoStep(s: System, cap: nat, step: Step, proto: Negotiation)
    requires Inv(s, cap) && ProtoOk(s, proto) && Enabled(s, step) && Faithful(s, step, proto)
    ensures ProtoOk(Apply(s, cap, step), proto)
  {
    match step
    case Begin(_, _) =>
    case Cancel(_) =>
    case Decide(t, first, second) => ProtoDecide(s, cap, t, first, second, proto);
    case OpenOk(t, kind, link) => assert PhaseOk(s, s.claims[t]);
    case OpenErr(t) =>
    case Finish(t, usable) => ProtoFinish(s, t, usable, proto);
  }

  lemma {:induction false} ProtoRun(s: System, cap: nat, steps: seq<Step>, proto: Negotiation)
    requires Inv(s, cap) && ProtoOk(s, proto) && FaithfulRun(s, cap, steps, proto)
    ensures Exec(s, cap, steps).Some?
    ensures Inv(Exec(s, cap, steps).value, cap) && ProtoOk(Exec(s, cap, steps).value, proto)
    decreases |steps|
  {
    if steps != [] {
      StepKeeps(s, cap, steps[0]);
      ProtoStep(s, cap, steps[0], proto);
      ProtoRun(Apply(s, cap, steps[0]), cap, steps[1..], proto);
    }
  }

  /** Generation `g` of `key` is settled, or gone for good. */
  ghost predicate SettledOrGone(s: System, key: HostKey, g: nat) {
    && g < s.nextGen
    && (key in s.meta && s.meta[key].gen == g ==> s.meta[key].settled)
  }

  lemma {:induction false} SettledStays(s: System, cap: nat, steps: seq<Step>, key: HostKey, g: nat)
    requires Inv(s, cap) && SettledOrGone(s, key, g) && Exec(s, cap, steps).Some?
    ensures SettledOrGone(Exec(s, cap, steps).value, key, g)
    decreases |steps|
  {
    if steps != [] {
      var s1 := Apply(s, cap, steps[0]);
      StepKeeps(s, cap, steps[0]);
      if steps[0].OpenOk? {
        assert PhaseOk(s, s.claims[steps[0].t]);
      }
      assert KeyOk(s, cap, key);
      assert SettledOrGone(s1, key, g);
      SettledStays(s1, cap, steps[1..], key, g);
    }
  }

  /**
    Protocol stability. Once an entry's first opener has succeeded, then in every later state up to
    the entry's removal its protocol and the kind of each of its connections are the host's protocol.
  */
  lemma ProtocolStability(cap: nat, before: seq<Step>, after: seq<Step>, proto: Negotiation, key: HostKey)
    requires FaithfulRun(INIT, cap, before, proto) && Exec(INIT, cap, before).Some?
    requires var s := Exec(INIT, cap, before).value;
             FaithfulRun(s, cap, after, proto) && key in s.meta && s.meta[key].settled
    ensures var s := Exec(INIT, cap, before).value;
            var s' := Exec(s, cap, after);
            && s'.Some?
            && (key in s'.value.meta && s'.value.meta[key].gen == s.meta[key].gen ==>
                  && s'.value.meta[key].settled && key in s'.value.pools
                  && s'.value.pools[key].protocol == proto(key)
                  && AllOf(s'.value.pools[key].connections, proto(key)))
  {
    ProtoRun(INIT, cap, before, proto);
    var s := Exec(INIT, cap, before).value;
    ProtoRun(s, cap, after, proto);
    assert KeyOk(s, cap, key) && EntryOk(s, cap, key);
    SettledStays(s, cap, after, key, s.meta[key].gen);
    assert KeyOk(Exec(s, cap, after).value, cap, key);
  }
}
