/**
  Whole runs of the pool protocol: what holds in every reachable state, whatever the interleaving,
  the outcomes of opens and requests, the polls, and the moments at which tasks are cancelled.
*/
module PoolRuns {
  import opened Types
  import opened PoolModel
  import opened PoolProtocol

  /** The state after a sequence of steps, if each was enabled. */
  ghost function Exec(s: System, cap: nat, steps: seq<Step>): Option<System>
    decreases |steps|
  {
    if steps == [] then Some(s)
    else if Enabled(s, steps[0]) then Exec(Apply(s, cap, steps[0]), cap, steps[1..])
    else None
  }

  ghost predicate Reachable(s: System, cap: nat) {
    exists steps :: Exec(INIT, cap, steps) == Some(s)
  }

  lemma {:induction false} RunKeeps(s: System, cap: nat, steps: seq<Step>)
    requires Inv(s, cap) && Exec(s, cap, steps).Some?
    ensures Inv(Exec(s, cap, steps).value, cap)
    decreases |steps|
  {
    if steps != [] {
      StepKeeps(s, cap, steps[0]);
      RunKeeps(Apply(s, cap, steps[0]), cap, steps[1..]);
    }
  }

  /** Every reachable state satisfies the invariant. */
  lemma ReachableInv(s: System, cap: nat)
    requires Reachable(s, cap)
    ensures Inv(s, cap)
  {
    var steps :| Exec(INIT, cap, steps) == Some(s);
    RunKeeps(INIT, cap, steps);
  }

  lemma {:induction false} ExecConcat(s: System, cap: nat, a: seq<Step>, b: seq<Step>)
    requires Exec(s, cap, a).Some?
    ensures Exec(s, cap, a + b) == Exec(Exec(s, cap, a).value, cap, b)
    decreases |a|
  {
    if a == [] {
      assert a + b == b;
    } else {
      assert (a + b)[0] == a[0] && (a + b)[1..] == a[1..] + b;
      ExecConcat(Apply(s, cap, a[0]), cap, a[1..], b);
    }
  }

  // ---------------------------------------------------------------- theorems about reachable states

  ghost function LiveOpeners(s: System, key: HostKey): set<Task> {
    Openers(s, key) - s.cancelled
  }

  ghost function LostOpeners(s: System, key: HostKey): set<Task> {
    Openers(s, key) * s.cancelled
  }

  /**
    Opening accounting. `opening` is the number of opens in flight plus the number of openers that
    were cancelled; an entry of the opener's own generation exists for each of them, so neither the
    decrement underflows nor the entry has disappeared when an open ends; a key has at most one
    first opener, and none once the entry is settled.
  */
  lemma OpeningAccounting(s: System, cap: nat)
    requires Reachable(s, cap)
    ensures forall k :: k in s.pools ==> s.pools[k].opening == |LiveOpeners(s, k)| + |LostOpeners(s, k)|
    ensures forall k :: k in s.pools && s.cancelled == {} ==> s.pools[k].opening == |LiveOpeners(s, k)|
    ensures forall t, k :: OpensAt(s, t, k) ==> HasOpening(s, k) && k in s.meta && s.meta[k].gen == s.claims[t].gen
    ensures forall t, u, k :: FirstAt(s, t, k) && FirstAt(s, u, k) ==> t == u
    ensures forall t, k :: FirstAt(s, t, k) ==> k in s.meta && !s.meta[k].settled
  {
    ReachableInv(s, cap);
    forall k | k in s.pools
      ensures s.pools[k].opening == |LiveOpeners(s, k)| + |LostOpeners(s, k)|
      ensures s.cancelled == {} ==> s.pools[k].opening == |LiveOpeners(s, k)|
    {
      assert KeyOk(s, cap, k);
      assert Openers(s, k) == LiveOpeners(s, k) + LostOpeners(s, k);
    }
    forall t, k | OpensAt(s, t, k)
      ensures HasOpening(s, k) && k in s.meta && s.meta[k].gen == s.claims[t].gen
    {
      assert PhaseOk(s, s.claims[t]) && KeyOk(s, cap, k);
      assert t in Openers(s, k);
    }
    forall t, k | FirstAt(s, t, k)
      ensures k in s.meta && !s.meta[k].settled
    {
      assert PhaseOk(s, s.claims[t]);
    }
    forall t, u, k | FirstAt(s, t, k) && FirstAt(s, u, k)
      ensures t == u
    {
      assert KeyOk(s, cap, k);
    }
  }

  /** An opener can always complete either way: the two completion steps are enabled. */
  lemma OpenNeverDisappears(s: System, cap: nat, t: Task, kind: Protocol, link: Link)
    requires Reachable(s, cap) && Live(s, t) && s.claims[t].Opening? && link !in s.home
    ensures Enabled(s, OpenOk(t, kind, link)) && Enabled(s, OpenErr(t))
  {
    OpeningAccounting(s, cap);
    assert OpensAt(s, t, s.claims[t].key);
  }

  /** Connections plus opens stay within the cap (one, if the cap is 0), and ids never repeat. */
  lemma CapacityBound(s: System, cap: nat)
    requires Reachable(s, cap)
    ensures forall k :: k in s.pools ==>
              && Total(s.pools[k]) <= Bound(cap)
              && Ordered(s.pools[k].connections, s.pools[k].nextId)
  {
    ReachableInv(s, cap);
    forall k | k in s.pools
      ensures Total(s.pools[k]) <= Bound(cap) && Ordered(s.pools[k].connections, s.pools[k].nextId)
    {
      assert KeyOk(s, cap, k);
    }
  }

  /**
    H1 sender conservation. A pooled H1 connection has its sender idle in its slot or out with one
    task, never both and never neither; that task may be cancelled, and then the sender is lost.
    No sender is in two places: not with two tasks, not with a task and a slot, not in two slots.
  */
  lemma H1Conservation(s: System, cap: nat)
    requires Reachable(s, cap)
    ensures forall k, c :: k in s.pools && c in s.pools[k].connections && c.sender.H1? ==>
              (c.sender.slot.None? <==> Held(s, k, c.id))
    ensures forall t, u, k, id :: HoldsH1(s, t, k, id) && HoldsH1(s, u, k, id) ==> t == u
    ensures forall t, u :: HasH1Link(s, t) && HasH1Link(s, u) && LinkOf(s, t) == LinkOf(s, u) ==> t == u
    ensures forall t, k, c :: HasH1Link(s, t) && k in s.pools && c in s.pools[k].connections ==>
              c.sender != H1(Some(LinkOf(s, t)))
    ensures forall k, c, k', c' :: IdleAt(s, k, c) && IdleAt(s, k', c') && c.sender == c'.sender ==> k == k' && c == c'
  {
    ReachableInv(s, cap);
    forall k, c | k in s.pools && c in s.pools[k].connections && c.sender.H1?
      ensures c.sender.slot.None? <==> Held(s, k, c.id)
    {
      assert KeyOk(s, cap, k) && ConnOk(s, k, c);
    }
    forall t, u, k, id | HoldsH1(s, t, k, id) && HoldsH1(s, u, k, id)
      ensures t == u
    {
      assert KeyOk(s, cap, k);
    }
    forall t, u | HasH1Link(s, t) && HasH1Link(s, u) && LinkOf(s, t) == LinkOf(s, u)
      ensures t == u
    {
      assert PhaseOk(s, s.claims[t]) && PhaseOk(s, s.claims[u]);
      var k, id := s.claims[t].key, s.claims[t].handle.id;
      assert KeyOk(s, cap, k) && HoldsH1(s, t, k, id) && HoldsH1(s, u, k, id);
    }
    forall t, k, c | HasH1Link(s, t) && k in s.pools && c in s.pools[k].connections
      ensures c.sender != H1(Some(LinkOf(s, t)))
    {
      assert PhaseOk(s, s.claims[t]) && KeyOk(s, cap, k) && ConnOk(s, k, c);
      assert HoldsH1(s, t, s.claims[t].key, s.claims[t].handle.id);
    }
    forall k, c, k', c' | IdleAt(s, k, c) && IdleAt(s, k', c') && c.sender == c'.sender
      ensures k == k' && c == c'
    {
      assert KeyOk(s, cap, k) && ConnOk(s, k, c) && KeyOk(s, cap, k') && ConnOk(s, k', c');
    }
  }

  ghost predicate HasH1Link(s: System, t: Task) {
    t in s.claims && s.claims[t].Holding? && s.claims[t].handle.sender.HandleH1?
  }

  ghost function LinkOf(s: System, t: Task): Link
    requires HasH1Link(s, t)
  {
    s.claims[t].handle.sender.link
  }

  ghost predicate IdleAt(s: System, k: HostKey, c: Conn) {
    k in s.pools && c in s.pools[k].connections && c.sender.H1? && c.sender.slot.Some?
  }

  /** Where an H1 holder's connection is: at index `i` of its own generation's entry, slot empty. */
  ghost predicate CheckedOutAt(s: System, t: Task, i: nat)
    requires HasH1Link(s, t)
  {
    var p := s.claims[t];
    && p.key in s.pools && p.key in s.meta && s.meta[p.key].gen == p.gen
    && LinkOf(s, t) in s.home && s.home[LinkOf(s, t)] == Slot(p.key, p.gen, p.handle.id)
    && At(s.pools[p.key].connections, i, Conn(p.handle.id, H1(None)))
  }

  /**
    No ABA. Ids restart when an entry is recreated, yet a finishing H1 holder always addresses the
    connection it checked out: the entry is still of the generation that pooled the sender, the slot
    found by id is the one the sender came from, and it is empty. A usable sender goes back into
    that slot and an unusable one takes exactly that connection out; nothing else changes. An H2
    holder, whose connection or entry may be long gone, addresses nothing.
  */
  lemma NoABA(s: System, cap: nat, t: Task, usable: bool) returns (i: nat)
    requires Reachable(s, cap) && t in s.claims && s.claims[t].Holding?
    ensures var p := s.claims[t];
            var pools := FinishPools(s.pools, p.key, p.handle, usable);
            if HasH1Link(s, t) then
              && CheckedOutAt(s, t, i)
              && (var cs := s.pools[p.key].connections;
                  var cs' := if usable then cs[i := Conn(p.handle.id, H1(Some(LinkOf(s, t))))] else cs[..i] + cs[i + 1..];
                  pools == s.pools[p.key := s.pools[p.key].(connections := cs')])
            else
              pools == s.pools
  {
    i := 0;
    if HasH1Link(s, t) {
      ReachableInv(s, cap);
      var p := s.claims[t];
      assert PhaseOk(s, p);
      i := SlotOf(s, cap, t);
      var e := s.pools[p.key];
      if usable {
        RefilledAt(e.connections, e.nextId, i, p.handle.id, LinkOf(s, t));
      } else {
        WithoutAt(e.connections, e.nextId, i);
      }
    }
  }

  /**
    What a finished H1 request leaves at its host: a usable sender is in the slot of its connection
    again, and after an unusable one no connection has that id any more.
  */
  ghost predicate GivenUp(pools: map<HostKey, Entry>, key: HostKey, h: Handle, usable: bool) {
    h.sender.HandleH1? ==>
      && key in pools
      && (usable ==> Conn(h.id, H1(Some(h.sender.link))) in pools[key].connections)
      && (!usable ==> forall c :: c in pools[key].connections ==> c.id != h.id)
  }

  lemma FinishGivesUp(s: System, cap: nat, t: Task, usable: bool)
    requires Reachable(s, cap) && t in s.claims && s.claims[t].Holding?
    ensures var p := s.claims[t];
            GivenUp(FinishPools(s.pools, p.key, p.handle, usable), p.key, p.handle, usable)
  {
    if HasH1Link(s, t) {
      var p := s.claims[t];
      var i := NoABA(s, cap, t, usable);
      CapacityBound(s, cap);
      var e, e' := s.pools[p.key], FinishPools(s.pools, p.key, p.handle, usable)[p.key];
      if usable {
        assert e'.connections[i] in e'.connections;
      } else {
        ConnRemoved(e, e', i);
      }
    }
  }

  /** No step of anyone else can move the slot a holder's sender belongs to out of its entry. */
  lemma HolderKeepsItsEntry(s: System, cap: nat, steps: seq<Step>, t: Task)
    requires Reachable(s, cap) && HasH1Link(s, t)
    requires Exec(s, cap, steps).Some? && forall i :: 0 <= i < |steps| ==> steps[i].t != t
    ensures var s' := Exec(s, cap, steps).value;
            && HasH1Link(s', t) && s'.claims[t] == s.claims[t]
            && s.claims[t].key in s'.pools
            && Conn(s.claims[t].handle.id, H1(None)) in s'.pools[s.claims[t].key].connections
            && s.claims[t].key in s'.meta && s'.meta[s.claims[t].key].gen == s.claims[t].gen
  {
    ReachableInv(s, cap);
    OthersLeaveClaim(s, cap, steps, t);
    RunKeeps(s, cap, steps);
    var s' := Exec(s, cap, steps).value;
    assert PhaseOk(s', s'.claims[t]);
  }

  lemma {:induction false} OthersLeaveClaim(s: System, cap: nat, steps: seq<Step>, t: Task)
    requires t in s.claims
    requires Exec(s, cap, steps).Some? && forall i :: 0 <= i < |steps| ==> steps[i].t != t
    ensures var s' := Exec(s, cap, steps).value;
            t in s'.claims && s'.claims[t] == s.claims[t] && (t in s'.cancelled <==> t in s.cancelled)
    decreases |steps|
  {
    if steps != [] {
      var s1 := Apply(s, cap, steps[0]);
      assert steps[0].t != t;
      assert forall i :: 0 <= i < |steps[1..]| ==> steps[1..][i] == steps[i + 1];
      assert t in s1.claims && s1.claims[t] == s.claims[t] && (t in s1.cancelled <==> t in s.cancelled);
      OthersLeaveClaim(s1, cap, steps[1..], t);
    }
  }

  /** A cancelled task stays cancelled and whatever it claims of the pool is claimed for ever. */
  lemma {:induction false} CancelledStays(s: System, cap: nat, steps: seq<Step>, t: Task)
    requires t in s.claims && t in s.cancelled && Exec(s, cap, steps).Some?
    ensures var s' := Exec(s, cap, steps).value;
            t in s'.cancelled && t in s'.claims && s'.claims[t] == s.claims[t]
    decreases |steps|
  {
    if steps != [] {
      var s1 := Apply(s, cap, steps[0]);
      assert steps[0].t != t;
      assert t in s1.claims && s1.claims[t] == s.claims[t] && t in s1.cancelled;
      CancelledStays(s1, cap, steps[1..], t);
    }
  }

  // ---------------------------------------------------------------- quiescence

  ghost predicate NoLiveClaims(s: System) {
    forall t :: t in s.claims && Live(s, t) ==> s.claims[t].Deciding?
  }

  /**
    Nothing leaks but what cancelled tasks held: when no open or request is in progress, `opening`
    counts cancelled openers only, and an empty H1 slot is one a cancelled task holds.
  */
  lemma OnlyCancelledLeaks(s: System, cap: nat)
    requires Reachable(s, cap) && NoLiveClaims(s)
    ensures forall k :: k in s.pools ==> s.pools[k].opening == |LostOpeners(s, k)|
    ensures forall k, c :: k in s.pools && c in s.pools[k].connections && c.sender == H1(None) ==>
              exists t :: t in s.cancelled && HoldsH1(s, t, k, c.id)
  {
    OpeningAccounting(s, cap);
    H1Conservation(s, cap);
    forall k | k in s.pools
      ensures s.pools[k].opening == |LostOpeners(s, k)|
    {
      assert LiveOpeners(s, k) == {} by {
        forall t | t in LiveOpeners(s, k)
          ensures false
        {
          assert OpensAt(s, t, k) && Live(s, t);
        }
      }
    }
    forall k, c | k in s.pools && c in s.pools[k].connections && c.sender == H1(None)
      ensures exists t :: t in s.cancelled && HoldsH1(s, t, k, c.id)
    {
      assert Held(s, k, c.id);
      var t :| HoldsH1(s, t, k, c.id);
      assert !Live(s, t);
    }
  }

  ghost predicate CancelFree(steps: seq<Step>) {
    forall i :: 0 <= i < |steps| ==> !steps[i].Cancel?
  }

  lemma {:induction false} CancelFreeRun(s: System, cap: nat, steps: seq<Step>)
    requires CancelFree(steps) && Exec(s, cap, steps).Some?
    ensures Exec(s, cap, steps).value.cancelled == s.cancelled
    decreases |steps|
  {
    if steps != [] {
      assert !steps[0].Cancel?;
      assert forall i :: 0 <= i < |steps[1..]| ==> steps[1..][i] == steps[i + 1];
      CancelFreeRun(Apply(s, cap, steps[0]), cap, steps[1..]);
    }
  }

  /** Quiescence: without cancellation, when nothing is in progress no capacity has leaked. */
  lemma Quiescence(s: System, cap: nat, steps: seq<Step>)
    requires Exec(INIT, cap, steps) == Some(s) && CancelFree(steps) && NoLiveClaims(s)
    ensures forall k :: k in s.pools ==>
              && s.pools[k].opening == 0
              && forall c :: c in s.pools[k].connections && c.sender.H1? ==> c.sender.slot.Some?
  {
    CancelFreeRun(INIT, cap, steps);
    OnlyCancelledLeaks(s, cap);
    forall k | k in s.pools
      ensures s.pools[k].opening == 0
    {
      assert LostOpeners(s, k) == {};
    }
  }
}
