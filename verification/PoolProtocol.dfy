/**
  The connection pool as a concurrent protocol.

  Each critical section under the pool's lock is one atomic step of one task; opening a connection
  and using it happen between steps. `pools` is the state the code keeps. The other fields record
  the history that the invariants speak about: which entry generation is the present one, whether
  its first opener has succeeded, where every link was pooled, and which task is inside the pool.
  A cancelled task keeps its claim for ever, because nothing undoes what it did.
*/
module PoolProtocol {
  import opened Types
  import opened PoolModel

  type Task = nat

  datatype Phase =
    | Deciding(key: HostKey, waits: nat)
    | Opening(key: HostKey, gen: nat, isFirst: bool)
    | Holding(key: HostKey, gen: nat, handle: Handle)

  /** The present generation of an entry, and whether its first opener has succeeded. */
  datatype Meta = Meta(gen: nat, settled: bool)

  /** The slot a link was pooled in when it was opened. */
  datatype Slot = Slot(key: HostKey, gen: nat, id: nat)

  datatype System = System(
    pools: map<HostKey, Entry>,
    meta: map<HostKey, Meta>,
    nextGen: nat,
    home: map<Link, Slot>,
    claims: map<Task, Phase>,
    cancelled: set<Task>)

  const INIT := System(map[], map[], 0, map[], map[], {})

  datatype Step =
    | Begin(t: Task, key: HostKey)
    | Decide(t: Task, first: Poll, second: Poll)
    | OpenOk(t: Task, kind: Protocol, link: Link)
    | OpenErr(t: Task)
    | Finish(t: Task, usable: bool)
    | Cancel(t: Task)

  // ---------------------------------------------------------------- steps

  ghost predicate Live(s: System, t: Task) {
    t in s.claims && t !in s.cancelled
  }

  ghost predicate Enabled(s: System, step: Step) {
    match step
    case Begin(t, key) => t !in s.claims
    case Decide(t, _, _) => Live(s, t) && s.claims[t].Deciding?
    case OpenOk(t, _, link) =>
      Live(s, t) && s.claims[t].Opening? && link !in s.home && HasOpening(s, s.claims[t].key)
    case OpenErr(t) => Live(s, t) && s.claims[t].Opening? && HasOpening(s, s.claims[t].key)
    case Finish(t, _) => Live(s, t) && s.claims[t].Holding?
    case Cancel(t) => Live(s, t)
  }

  /** The entry exists and its opening count can be decremented. */
  ghost predicate HasOpening(s: System, key: HostKey) {
    key in s.pools && s.pools[key].opening > 0
  }

  ghost function Apply(s: System, cap: nat, step: Step): System
    requires Enabled(s, step)
  {
    match step
    case Begin(t, key) => s.(claims := s.claims[t := Deciding(key, 0)])
    case Decide(t, first, second) => ApplyDecide(s, cap, t, first, second)
    case OpenOk(t, kind, link) => ApplyOpenOk(s, t, kind, link)
    case OpenErr(t) => ApplyOpenErr(s, t)
    case Finish(t, usable) => ApplyFinish(s, t, usable)
    case Cancel(t) => s.(cancelled := s.cancelled + {t})
  }

  /** The decision taken by an acquiring task; after the last allowed Wait it leaves with an error. */
  ghost function ApplyDecide(s: System, cap: nat, t: Task, first: Poll, second: Poll): System
    requires Enabled(s, Decide(t, first, second))
  {
    var (pools, a) := PoolAction(s.pools, s.claims[t].key, cap, first, second);
    Decided(s, t, pools, a)
  }

  ghost function Decided(s: System, t: Task, pools: map<HostKey, Entry>, a: Action): System
    requires t in s.claims && s.claims[t].Deciding?
  {
    var key := s.claims[t].key;
    match a
    case ReturnExisting(h) =>
      s.(pools := pools, claims := s.claims[t := Holding(key, GenOf(s, key), h)])
    case OpenNew(false) =>
      s.(pools := pools, claims := s.claims[t := Opening(key, GenOf(s, key), false)])
    case OpenNew(true) =>
      s.(pools := pools, meta := s.meta[key := Meta(s.nextGen, false)], nextGen := s.nextGen + 1,
         claims := s.claims[t := Opening(key, s.nextGen, true)])
    case Wait =>
      if s.claims[t].waits + 1 < MAX_ACQUIRE_ATTEMPTS then
        s.(pools := pools, claims := s.claims[t := Deciding(key, s.claims[t].waits + 1)])
      else
        s.(pools := pools, claims := s.claims - {t})
  }

  ghost function GenOf(s: System, key: HostKey): nat {
    if key in s.meta then s.meta[key].gen else s.nextGen
  }

  ghost function ApplyOpenOk(s: System, t: Task, kind: Protocol, link: Link): System
    requires Enabled(s, OpenOk(t, kind, link))
  {
    var p := s.claims[t];
    var (e, h) := Inserted(s.pools[p.key], p.isFirst, kind, link);
    var settled := p.isFirst || (p.key in s.meta && s.meta[p.key].settled);
    s.(pools := s.pools[p.key := e],
       meta := s.meta[p.key := Meta(GenOf(s, p.key), settled)],
       home := s.home[link := Slot(p.key, GenOf(s, p.key), h.id)],
       claims := s.claims[t := Holding(p.key, GenOf(s, p.key), h)])
  }

  ghost function ApplyOpenErr(s: System, t: Task): System
    requires Enabled(s, OpenErr(t))
  {
    var key := s.claims[t].key;
    var pools := AfterFailedOpen(s.pools, key);
    s.(pools := pools, meta := if key in pools then s.meta else s.meta - {key}, claims := s.claims - {t})
  }

  /** The client side: an H1 sender goes back or its connection is removed; H2 only notifies. */
  ghost function ApplyFinish(s: System, t: Task, usable: bool): System
    requires Enabled(s, Finish(t, usable))
  {
    var p := s.claims[t];
    s.(pools := FinishPools(s.pools, p.key, p.handle, usable), claims := s.claims - {t})
  }

  function FinishPools(pools: map<HostKey, Entry>, key: HostKey, h: Handle, usable: bool): map<HostKey, Entry> {
    if h.sender.HandleH2? || key !in pools then pools
    else if usable then
      pools[key := pools[key].(connections := Refilled(pools[key].connections, h.id, h.sender.link))]
    else
      pools[key := pools[key].(connections := Without(pools[key].connections, h.id))]
  }

  // ---------------------------------------------------------------- the invariant

  ghost predicate OpensAt(s: System, t: Task, key: HostKey) {
    t in s.claims && s.claims[t].Opening? && s.claims[t].key == key
  }

  ghost function Openers(s: System, key: HostKey): set<Task> {
    set t | t in s.claims && OpensAt(s, t, key)
  }

  ghost predicate FirstAt(s: System, t: Task, key: HostKey) {
    OpensAt(s, t, key) && s.claims[t].isFirst
  }

  ghost predicate HoldsH1(s: System, t: Task, key: HostKey, id: nat) {
    && t in s.claims && s.claims[t].Holding? && s.claims[t].key == key
    && s.claims[t].handle.sender.HandleH1? && s.claims[t].handle.id == id
  }

  ghost predicate Held(s: System, key: HostKey, id: nat) {
    exists t :: HoldsH1(s, t, key, id)
  }

  function Bound(cap: nat): nat {
    if cap == 0 then 1 else cap
  }

  ghost predicate EntryOk(s: System, cap: nat, key: HostKey)
    requires key in s.pools
  {
    var e := s.pools[key];
    && key in s.meta && s.meta[key].gen < s.nextGen
    && Ordered(e.connections, e.nextId)
    && Total(e) <= Bound(cap)
    && e.opening == |Openers(s, key)|
  }

  /** A connection's sender is at home in its slot; an H1 slot is empty exactly while it is held. */
  ghost predicate ConnOk(s: System, key: HostKey, c: Conn)
    requires key in s.meta
  {
    match c.sender
    case H2(l) => l in s.home && s.home[l] == Slot(key, s.meta[key].gen, c.id)
    case H1(Some(l)) => l in s.home && s.home[l] == Slot(key, s.meta[key].gen, c.id) && !Held(s, key, c.id)
    case H1(None) => Held(s, key, c.id)
  }

  ghost predicate PhaseOk(s: System, p: Phase) {
    match p
    case Deciding(_, waits) => waits < MAX_ACQUIRE_ATTEMPTS
    case Opening(key, gen, isFirst) =>
      && key in s.pools && key in s.meta && s.meta[key].gen == gen
      && (isFirst ==> !s.meta[key].settled)
    case Holding(key, gen, h) =>
      && h.sender.link in s.home && s.home[h.sender.link] == Slot(key, gen, h.id)
      && (h.sender.HandleH1? ==>
            && key in s.pools && key in s.meta && s.meta[key].gen == gen
            && Conn(h.id, H1(None)) in s.pools[key].connections)
  }

  /** Everything the invariant says about one host key. */
  ghost predicate KeyOk(s: System, cap: nat, key: HostKey) {
    && (key in s.meta <==> key in s.pools)
    && (key in s.pools ==>
          && EntryOk(s, cap, key)
          && forall c :: c in s.pools[key].connections ==> ConnOk(s, key, c))
    && (forall t, u, id :: HoldsH1(s, t, key, id) && HoldsH1(s, u, key, id) ==> t == u)
    && (forall t, u :: FirstAt(s, t, key) && FirstAt(s, u, key) ==> t == u)
  }

  ghost predicate Inv(s: System, cap: nat) {
    && s.cancelled <= s.claims.Keys
    && (forall l :: l in s.home ==> s.home[l].gen < s.nextGen)
    && (forall k :: KeyOk(s, cap, k))
    && (forall t :: t in s.claims ==> PhaseOk(s, s.claims[t]))
  }

  // ---------------------------------------------------------------- framing

  /** A step of `t` at `key` leaves other tasks' claims and other hosts' entries alone. */
  ghost predicate TouchesOnly(s: System, s': System, t: Task, key: HostKey) {
    && (forall u :: u != t ==> (u in s.claims <==> u in s'.claims) && (u in s.claims ==> s.claims[u] == s'.claims[u]))
    && (t in s.claims ==> s.claims[t].key == key)
    && (t in s'.claims ==> s'.claims[t].key == key)
    && (forall k :: k != key ==> (k in s.pools <==> k in s'.pools) && (k in s.pools ==> s'.pools[k] == s.pools[k]))
    && (forall k :: k != key ==> (k in s.meta <==> k in s'.meta) && (k in s.meta ==> s'.meta[k] == s.meta[k]))
    && (forall l :: l in s.home ==> l in s'.home && s'.home[l] == s.home[l])
    && s.nextGen <= s'.nextGen
  }

  /** How a change of one claim moves the opener sets and the holders. */
  lemma Reclaimed(s: System, s': System, t: Task, key: HostKey)
    requires TouchesOnly(s, s', t, key)
    ensures OpensAt(s, t, key) == OpensAt(s', t, key) ==> Openers(s', key) == Openers(s, key)
    ensures !OpensAt(s, t, key) && OpensAt(s', t, key) ==> |Openers(s', key)| == |Openers(s, key)| + 1
    ensures OpensAt(s, t, key) && !OpensAt(s', t, key) ==> |Openers(s', key)| == |Openers(s, key)| - 1
    ensures forall k :: k != key ==> Openers(s', k) == Openers(s, k)
    ensures forall k, u :: u != t ==> OpensAt(s', u, k) == OpensAt(s, u, k)
    ensures forall k, u :: u != t ==> FirstAt(s', u, k) == FirstAt(s, u, k)
    ensures forall k, u, id :: u != t || k != key ==> HoldsH1(s', u, k, id) == HoldsH1(s, u, k, id)
  {
    if !OpensAt(s, t, key) && OpensAt(s', t, key) {
      assert Openers(s', key) == Openers(s, key) + {t};
    } else if OpensAt(s, t, key) && !OpensAt(s', t, key) {
      assert Openers(s', key) == Openers(s, key) - {t};
    }
  }

  lemma OtherKeys(s: System, s': System, cap: nat, t: Task, key: HostKey, k: HostKey)
    requires Inv(s, cap) && TouchesOnly(s, s', t, key) && k != key
    ensures KeyOk(s', cap, k)
  {
    assert KeyOk(s, cap, k);
    Reclaimed(s, s', t, key);
    forall id
      ensures Held(s', k, id) == Held(s, k, id)
    {
      if u :| HoldsH1(s, u, k, id) {
        assert HoldsH1(s', u, k, id);
      }
      if u :| HoldsH1(s', u, k, id) {
        assert HoldsH1(s, u, k, id);
      }
    }
    forall u | FirstAt(s', u, k)
      ensures FirstAt(s, u, k)
    {
    }
  }

  /** To keep the invariant, a step only has to answer for its own key and task. */
  lemma Assemble(s: System, s': System, cap: nat, t: Task, key: HostKey)
    requires Inv(s, cap) && TouchesOnly(s, s', t, key)
    requires KeyOk(s', cap, key)
    requires forall u :: u in s'.claims && (u == t || s'.claims[u].key == key) ==> PhaseOk(s', s'.claims[u])
    requires forall l :: l in s'.home ==> s'.home[l].gen < s'.nextGen
    requires s'.cancelled <= s'.claims.Keys
    ensures Inv(s', cap)
  {
    forall k
      ensures KeyOk(s', cap, k)
    {
      if k != key {
        OtherKeys(s, s', cap, t, key, k);
      }
    }
    forall u | u in s'.claims
      ensures PhaseOk(s', s'.claims[u])
    {
      if u != t && s'.claims[u].key != key {
        assert PhaseOk(s, s.claims[u]);
      }
    }
  }

  // ---------------------------------------------------------------- every step keeps it

  lemma BeginKeeps(s: System, cap: nat, t: Task, key: HostKey)
    requires Inv(s, cap) && Enabled(s, Begin(t, key))
    ensures Inv(Apply(s, cap, Begin(t, key)), cap)
  {
    var s' := Apply(s, cap, Begin(t, key));
    Quiet(s, s', cap, t, key);
  }

  /** A step that changes no entry and moves `t` between phases that claim nothing of the entry. */
  lemma Quiet(s: System, s': System, cap: nat, t: Task, key: HostKey)
    requires Inv(s, cap) && TouchesOnly(s, s', t, key)
    requires s'.pools == s.pools && s'.meta == s.meta && s'.home == s.home && s'.nextGen == s.nextGen
    requires !OpensAt(s, t, key) && !OpensAt(s', t, key)
    requires forall id :: !HoldsH1(s, t, key, id) && !HoldsH1(s', t, key, id)
    requires t in s'.claims ==> PhaseOk(s', s'.claims[t])
    requires s'.cancelled == s.cancelled && s.cancelled <= s'.claims.Keys
    ensures Inv(s', cap)
  {
    Reclaimed(s, s', t, key);
    assert KeyOk(s, cap, key);
    SameHeld(s, s', key);
    Assemble(s, s', cap, t, key);
  }

  lemma SameHeld(s: System, s': System, key: HostKey)
    requires forall u, id :: HoldsH1(s', u, key, id) == HoldsH1(s, u, key, id)
    ensures forall id :: Held(s', key, id) == Held(s, key, id)
  {
    forall id
      ensures Held(s', key, id) == Held(s, key, id)
    {
      if u :| HoldsH1(s, u, key, id) {
        assert HoldsH1(s', u, key, id);
      }
      if u :| HoldsH1(s', u, key, id) {
        assert HoldsH1(s, u, key, id);
      }
    }
  }

  /** The entry may lose H2 connections and gain an opening, but no H1 slot changes hands. */
  lemma SameSlots(s: System, s': System, cap: nat, t: Task, key: HostKey)
    requires Inv(s, cap) && TouchesOnly(s, s', t, key)
    requires s'.meta == s.meta && s'.home == s.home && s'.nextGen == s.nextGen
    requires s'.cancelled == s.cancelled && s.cancelled <= s'.claims.Keys
    requires key in s.pools && key in s'.pools
    requires EntryOk(s', cap, key)
    requires forall c :: c in s'.pools[key].connections ==> c in s.pools[key].connections
    requires forall c: Conn :: c in s.pools[key].connections && c.sender.H1? ==> c in s'.pools[key].connections
    requires forall id :: !HoldsH1(s, t, key, id) && !HoldsH1(s', t, key, id)
    requires !FirstAt(s', t, key)
    requires t in s'.claims ==> PhaseOk(s', s'.claims[t])
    ensures Inv(s', cap)
  {
    Reclaimed(s, s', t, key);
    assert KeyOk(s, cap, key);
    SameHeld(s, s', key);
    forall c | c in s'.pools[key].connections
      ensures ConnOk(s', key, c)
    {
      assert ConnOk(s, key, c);
    }
    forall u | u in s'.claims && u != t
      ensures PhaseOk(s', s'.claims[u])
    {
      assert PhaseOk(s, s.claims[u]);
    }
    Assemble(s, s', cap, t, key);
  }

  lemma DecidedTouchesOnly(s: System, t: Task, pools: map<HostKey, Entry>, a: Action)
    requires t in s.claims && s.claims[t].Deciding?
    requires forall k :: k != s.claims[t].key ==> (k in s.pools <==> k in pools) && (k in s.pools ==> pools[k] == s.pools[k])
    ensures TouchesOnly(s, Decided(s, t, pools, a), t, s.claims[t].key)
  {
  }

  lemma WaitKeeps(s: System, cap: nat, t: Task, first: Poll, second: Poll)
    requires Inv(s, cap) && Enabled(s, Decide(t, first, second))
    requires PoolAction(s.pools, s.claims[t].key, cap, first, second).1.Wait?
    ensures Inv(ApplyDecide(s, cap, t, first, second), cap)
  {
    var key := s.claims[t].key;
    var s' := ApplyDecide(s, cap, t, first, second);
    assert KeyOk(s, cap, key) && EntryOk(s, cap, key);
    WaitMeans(s.pools[key], cap, first, second);
    DecidedTouchesOnly(s, t, s'.pools, PoolAction(s.pools, key, cap, first, second).1);
    Reclaimed(s, s', t, key);
    SameSlots(s, s', cap, t, key);
  }

  lemma ReturnH2Keeps(s: System, cap: nat, t: Task, first: Poll, second: Poll)
    requires Inv(s, cap) && Enabled(s, Decide(t, first, second))
    requires s.claims[t].key in s.pools && s.pools[s.claims[t].key].protocol.Http2?
    requires PoolAction(s.pools, s.claims[t].key, cap, first, second).1.ReturnExisting?
    ensures Inv(ApplyDecide(s, cap, t, first, second), cap)
  {
    var key := s.claims[t].key;
    var s' := ApplyDecide(s, cap, t, first, second);
    assert KeyOk(s, cap, key);
    var e1 := Selection(s.pools[key], cap, first, second);
    Reclaimed(s, s', t, key);
    var h := s'.claims[t].handle;
    var i :| 0 <= i < |e1.connections| && HandsOut(e1, s'.pools[key], i, h, second);
    assert ConnOk(s, key, e1.connections[i]);
    SameSlots(s, s', cap, t, key);
  }

  lemma ReturnH1Keeps(s: System, cap: nat, t: Task, first: Poll, second: Poll)
    requires Inv(s, cap) && Enabled(s, Decide(t, first, second))
    requires s.claims[t].key in s.pools && s.pools[s.claims[t].key].protocol.Http1?
    requires PoolAction(s.pools, s.claims[t].key, cap, first, second).1.ReturnExisting?
    ensures Inv(ApplyDecide(s, cap, t, first, second), cap)
  {
    var key := s.claims[t].key;
    var s' := ApplyDecide(s, cap, t, first, second);
    assert KeyOk(s, cap, key);
    var e1 := Selection(s.pools[key], cap, first, second);
    Reclaimed(s, s', t, key);
    var e, e' := s.pools[key], s'.pools[key];
    var h := s'.claims[t].handle;
    var i :| 0 <= i < |e.connections| && HandsOut(e, e', i, h, second);
    assert e.connections[i] in e.connections && ConnOk(s, key, e.connections[i]);
    SlotReplaced(e, e', i, H1(None));
    assert HoldsH1(s', t, key, h.id);
    ReslottedKeeps(s, s', cap, t, key, e.connections[i].id);
  }

  /** Replacing the sender of connection `i`: ids stay in order and every other connection stays. */
  lemma SlotReplaced(e: Entry, e': Entry, i: nat, sender: Sender)
    requires Ordered(e.connections, e.nextId) && i < |e.connections|
    requires e' == e.(connections := e.connections[i := Conn(e.connections[i].id, sender)])
    ensures Ordered(e'.connections, e'.nextId)
    ensures Conn(e.connections[i].id, sender) in e'.connections
    ensures forall c :: c in e'.connections <==>
              c == Conn(e.connections[i].id, sender) || (c in e.connections && c.id != e.connections[i].id)
  {
    assert e'.connections[i] in e'.connections;
    forall c | c in e.connections && c.id != e.connections[i].id
      ensures c in e'.connections
    {
      var j :| 0 <= j < |e.connections| && e.connections[j] == c;
      assert e'.connections[j] == c;
    }
  }

  /** Task `t` takes or gives back the sender of connection `id`, and nothing else moves. */
  lemma ReslottedKeeps(s: System, s': System, cap: nat, t: Task, key: HostKey, id: nat)
    requires Inv(s, cap) && TouchesOnly(s, s', t, key)
    requires s'.meta == s.meta && s'.home == s.home && s'.nextGen == s.nextGen
    requires s'.cancelled == s.cancelled && s.cancelled <= s'.claims.Keys
    requires key in s.pools && key in s'.pools && key in s.meta
    requires s'.pools[key] == s.pools[key].(connections := s'.pools[key].connections)
    requires |s'.pools[key].connections| <= |s.pools[key].connections|
    requires Ordered(s'.pools[key].connections, s'.pools[key].nextId)
    requires forall c: Conn :: c.id != id ==> (c in s'.pools[key].connections <==> c in s.pools[key].connections)
    requires !OpensAt(s, t, key) && !OpensAt(s', t, key)
    requires forall j :: j != id ==> !HoldsH1(s, t, key, j) && !HoldsH1(s', t, key, j)
    requires forall u :: u != t ==> !HoldsH1(s, u, key, id)
    requires forall c :: c in s'.pools[key].connections && c.id == id ==> ConnOk(s', key, c)
    requires t in s'.claims ==> PhaseOk(s', s'.claims[t])
    ensures Inv(s', cap)
  {
    Reclaimed(s, s', t, key);
    assert KeyOk(s, cap, key);
    forall j | j != id
      ensures Held(s', key, j) == Held(s, key, j)
    {
      if u :| HoldsH1(s, u, key, j) {
        assert HoldsH1(s', u, key, j);
      }
      if u :| HoldsH1(s', u, key, j) {
        assert HoldsH1(s, u, key, j);
      }
    }
    forall c | c in s'.pools[key].connections
      ensures ConnOk(s', key, c)
    {
      if c.id != id {
        assert ConnOk(s, key, c);
      }
    }
    forall u | u in s'.claims && u != t
      ensures PhaseOk(s', s'.claims[u])
    {
      assert PhaseOk(s, s.claims[u]);
      assert s.claims[u].Holding? && s.claims[u].key == key && s.claims[u].handle.sender.HandleH1?
             ==> HoldsH1(s, u, key, s.claims[u].handle.id);
    }
    Assemble(s, s', cap, t, key);
  }

  lemma OpenNewKeeps(s: System, cap: nat, t: Task, first: Poll, second: Poll)
    requires Inv(s, cap) && Enabled(s, Decide(t, first, second))
    requires s.claims[t].key in s.pools
    requires PoolAction(s.pools, s.claims[t].key, cap, first, second).1.OpenNew?
    ensures Inv(ApplyDecide(s, cap, t, first, second), cap)
  {
    var key := s.claims[t].key;
    var s' := ApplyDecide(s, cap, t, first, second);
    assert KeyOk(s, cap, key) && EntryOk(s, cap, key);
    OpenMeans(s.pools[key], cap, first, second);
    DecidedTouchesOnly(s, t, s'.pools, PoolAction(s.pools, key, cap, first, second).1);
    Reclaimed(s, s', t, key);
    SameSlots(s, s', cap, t, key);
  }

  /** The first task at a host creates the entry, as a generation nobody has a claim on. */
  lemma CreateKeeps(s: System, cap: nat, t: Task, first: Poll, second: Poll)
    requires Inv(s, cap) && Enabled(s, Decide(t, first, second))
    requires s.claims[t].key !in s.pools
    ensures Inv(ApplyDecide(s, cap, t, first, second), cap)
  {
    var key := s.claims[t].key;
    var s' := ApplyDecide(s, cap, t, first, second);
    assert KeyOk(s, cap, key);
    forall u
      ensures !OpensAt(s, u, key)
      ensures forall id :: !HoldsH1(s, u, key, id)
    {
      if u in s.claims {
        assert PhaseOk(s, s.claims[u]);
      }
    }
    assert Openers(s, key) == {};
    Reclaimed(s, s', t, key);
    forall u | u in s'.claims && u != t
      ensures PhaseOk(s', s'.claims[u])
    {
      assert PhaseOk(s, s.claims[u]);
    }
    Assemble(s, s', cap, t, key);
  }

  lemma DecideKeeps(s: System, cap: nat, t: Task, first: Poll, second: Poll)
    requires Inv(s, cap) && Enabled(s, Decide(t, first, second))
    ensures Inv(Apply(s, cap, Decide(t, first, second)), cap)
  {
    var key := s.claims[t].key;
    if key !in s.pools {
      CreateKeeps(s, cap, t, first, second);
    } else {
      match PoolAction(s.pools, key, cap, first, second).1
      case Wait => WaitKeeps(s, cap, t, first, second);
      case OpenNew(_) => OpenNewKeeps(s, cap, t, first, second);
      case ReturnExisting(_) =>
        if s.pools[key].protocol.Http2? {
          ReturnH2Keeps(s, cap, t, first, second);
        } else {
          ReturnH1Keeps(s, cap, t, first, second);
        }
    }
  }

  lemma OpenOkKeeps(s: System, cap: nat, t: Task, kind: Protocol, link: Link)
    requires Inv(s, cap) && Enabled(s, OpenOk(t, kind, link))
    ensures Inv(Apply(s, cap, OpenOk(t, kind, link)), cap)
  {
    var key := s.claims[t].key;
    var s' := Apply(s, cap, OpenOk(t, kind, link));
    assert KeyOk(s, cap, key) && PhaseOk(s, s.claims[t]);
    NobodyHolds(s, cap, key, s.pools[key].nextId);
    Reclaimed(s, s', t, key);
    InsertedEntry(s, s', cap, t, kind, link);
    InsertedConns(s, s', cap, t, kind, link);
    OtherPhasesAfterOpenOk(s, s', cap, t, kind, link);
    forall u, v | FirstAt(s', u, key) && FirstAt(s', v, key)
      ensures u == v
    {
      assert FirstAt(s, u, key) && FirstAt(s, v, key);
    }
    Assemble(s, s', cap, t, key);
  }

  lemma InsertedEntry(s: System, s': System, cap: nat, t: Task, kind: Protocol, link: Link)
    requires Inv(s, cap) && Enabled(s, OpenOk(t, kind, link)) && s' == Apply(s, cap, OpenOk(t, kind, link))
    ensures s.claims[t].key in s'.pools && EntryOk(s', cap, s.claims[t].key)
  {
    var key := s.claims[t].key;
    assert KeyOk(s, cap, key) && PhaseOk(s, s.claims[t]);
    Reclaimed(s, s', t, key);
  }

  lemma InsertedConns(s: System, s': System, cap: nat, t: Task, kind: Protocol, link: Link)
    requires Inv(s, cap) && Enabled(s, OpenOk(t, kind, link)) && s' == Apply(s, cap, OpenOk(t, kind, link))
    ensures forall c :: c in s'.pools[s.claims[t].key].connections ==> ConnOk(s', s.claims[t].key, c)
  {
    var key := s.claims[t].key;
    assert KeyOk(s, cap, key) && PhaseOk(s, s.claims[t]);
    Reclaimed(s, s', t, key);
    var e, e' := s.pools[key], s'.pools[key];
    forall c | c in e'.connections
      ensures ConnOk(s', key, c)
    {
      if c in e.connections {
        assert ConnOk(s, key, c) && c.id < e.nextId;
        if u :| HoldsH1(s, u, key, c.id) {
          assert HoldsH1(s', u, key, c.id);
        }
        if u :| HoldsH1(s', u, key, c.id) {
          assert HoldsH1(s, u, key, c.id);
        }
      } else {
        assert kind.Http1? ==> HoldsH1(s', t, key, e.nextId);
      }
    }
  }

  /** An id the entry has not handed out yet is held by nobody. */
  lemma NobodyHolds(s: System, cap: nat, key: HostKey, id: nat)
    requires Inv(s, cap) && key in s.pools && id >= s.pools[key].nextId
    ensures forall u :: !HoldsH1(s, u, key, id)
  {
    assert KeyOk(s, cap, key);
    forall u
      ensures !HoldsH1(s, u, key, id)
    {
      if u in s.claims {
        assert PhaseOk(s, s.claims[u]);
      }
    }
  }

  lemma OtherPhasesAfterOpenOk(s: System, s': System, cap: nat, t: Task, kind: Protocol, link: Link)
    requires Inv(s, cap) && Enabled(s, OpenOk(t, kind, link)) && s' == Apply(s, cap, OpenOk(t, kind, link))
    ensures forall u :: u in s'.claims ==> PhaseOk(s', s'.claims[u])
  {
    var key := s.claims[t].key;
    assert KeyOk(s, cap, key) && PhaseOk(s, s.claims[t]);
    forall u | u in s'.claims
      ensures PhaseOk(s', s'.claims[u])
    {
      if u == t {
        var n := |s.pools[key].connections|;
        assert s'.pools[key].connections[n] in s'.pools[key].connections;
      } else {
        assert PhaseOk(s, s.claims[u]);
        if FirstAt(s, u, key) {
          assert FirstAt(s, t, key) ==> u == t;
        }
      }
    }
  }

  lemma OpenErrKeeps(s: System, cap: nat, t: Task)
    requires Inv(s, cap) && Enabled(s, OpenErr(t))
    ensures Inv(Apply(s, cap, OpenErr(t)), cap)
  {
    var key := s.claims[t].key;
    var s' := Apply(s, cap, OpenErr(t));
    assert KeyOk(s, cap, key) && PhaseOk(s, s.claims[t]);
    Reclaimed(s, s', t, key);
    SameHeld(s, s', key);
    if key in s'.pools {
      forall c | c in s'.pools[key].connections
        ensures ConnOk(s', key, c)
      {
        assert ConnOk(s, key, c);
      }
    } else {
      assert Openers(s', key) == {};
    }
    forall u | u in s'.claims
      ensures PhaseOk(s', s'.claims[u])
    {
      assert PhaseOk(s, s.claims[u]);
      assert OpensAt(s', u, key) ==> u in Openers(s', key);
    }
    Assemble(s, s', cap, t, key);
  }

  /** Where the connection of an H1 handle sits in the present entry. */
  lemma SlotOf(s: System, cap: nat, t: Task) returns (i: nat)
    requires Inv(s, cap) && t in s.claims && s.claims[t].Holding? && s.claims[t].handle.sender.HandleH1?
    ensures var p := s.claims[t];
            && p.key in s.pools && p.key in s.meta && s.meta[p.key].gen == p.gen
            && At(s.pools[p.key].connections, i, Conn(p.handle.id, H1(None)))
            && Ordered(s.pools[p.key].connections, s.pools[p.key].nextId)
  {
    var p := s.claims[t];
    assert PhaseOk(s, p) && KeyOk(s, cap, p.key);
    i :| 0 <= i < |s.pools[p.key].connections| && s.pools[p.key].connections[i] == Conn(p.handle.id, H1(None));
  }

  lemma FinishKeeps(s: System, cap: nat, t: Task, usable: bool)
    requires Inv(s, cap) && Enabled(s, Finish(t, usable))
    ensures Inv(Apply(s, cap, Finish(t, usable)), cap)
  {
    var p := s.claims[t];
    var s' := Apply(s, cap, Finish(t, usable));
    if p.handle.sender.HandleH2? {
      Quiet(s, s', cap, t, p.key);
    } else {
      FinishSlot(s, s', cap, t, usable);
      assert HoldsH1(s, t, p.key, p.handle.id);
      assert KeyOk(s, cap, p.key);
      ReslottedKeeps(s, s', cap, t, p.key, p.handle.id);
    }
  }

  /** What finishing with an H1 handle does to its slot, and that nobody holds it afterwards. */
  lemma FinishSlot(s: System, s': System, cap: nat, t: Task, usable: bool)
    requires Inv(s, cap) && Enabled(s, Finish(t, usable)) && s' == Apply(s, cap, Finish(t, usable))
    requires s.claims[t].handle.sender.HandleH1?
    ensures var p := s.claims[t];
            && p.key in s.pools && p.key in s.meta && p.key in s'.pools
            && (var e, e' := s.pools[p.key], s'.pools[p.key];
                && e' == e.(connections := e'.connections)
                && |e'.connections| <= |e.connections|
                && Ordered(e'.connections, e'.nextId)
                && (forall c: Conn :: c.id != p.handle.id ==> (c in e'.connections <==> c in e.connections))
                && (forall c :: c in e'.connections && c.id == p.handle.id ==> ConnOk(s', p.key, c)))
  {
    var p := s.claims[t];
    var i := SlotOf(s, cap, t);
    assert KeyOk(s, cap, p.key) && PhaseOk(s, p);
    var e, e' := s.pools[p.key], s'.pools[p.key];
    assert HoldsH1(s, t, p.key, p.handle.id);
    if usable {
      RefilledAt(e.connections, e.nextId, i, p.handle.id, p.handle.sender.link);
      SlotReplaced(e, e', i, H1(Some(p.handle.sender.link)));
      forall u
        ensures !HoldsH1(s', u, p.key, p.handle.id)
      {
        assert HoldsH1(s', u, p.key, p.handle.id) ==> HoldsH1(s, u, p.key, p.handle.id);
      }
    } else {
      WithoutAt(e.connections, e.nextId, i);
      ConnRemoved(e, e', i);
    }
  }

  lemma ConnRemoved(e: Entry, e': Entry, i: nat)
    requires Ordered(e.connections, e.nextId) && i < |e.connections|
    requires e' == e.(connections := e.connections[..i] + e.connections[i + 1..])
    ensures Ordered(e'.connections, e'.nextId) && |e'.connections| == |e.connections| - 1
    ensures forall c :: c in e'.connections <==> c in e.connections && c.id != e.connections[i].id
  {
    var cs := e.connections;
    assert cs == cs[..i] + [cs[i]] + cs[i + 1..];
    assert forall j :: 0 <= j < i ==> cs[..i][j].id < cs[i].id;
    assert forall c :: c in cs[i + 1..] ==> c.id > cs[i].id;
  }

  /**
    A task inside the pool can be cancelled in any phase. That changes no claim, so it changes nothing
    the invariant speaks about.
  */
  lemma CancelKeeps(s: System, cap: nat, t: Task)
    requires Inv(s, cap) && t in s.claims && t !in s.cancelled
    ensures Enabled(s, Cancel(t)) && Apply(s, cap, Cancel(t)) == s.(cancelled := s.cancelled + {t})
    ensures Inv(Apply(s, cap, Cancel(t)), cap)
  {
    var s' := Apply(s, cap, Cancel(t));
    forall k
      ensures KeyOk(s', cap, k)
    {
      assert KeyOk(s, cap, k);
      assert Openers(s', k) == Openers(s, k);
      SameHeld(s, s', k);
      assert k in s.pools ==> forall c :: c in s.pools[k].connections ==> ConnOk(s, k, c) && ConnOk(s', k, c);
      forall u, v, id | HoldsH1(s', u, k, id) && HoldsH1(s', v, k, id)
        ensures u == v
      {
        assert HoldsH1(s, u, k, id) && HoldsH1(s, v, k, id);
      }
      forall u, v | FirstAt(s', u, k) && FirstAt(s', v, k)
        ensures u == v
      {
        assert FirstAt(s, u, k) && FirstAt(s, v, k);
      }
    }
    forall u | u in s'.claims
      ensures PhaseOk(s', s'.claims[u])
    {
      assert PhaseOk(s, s.claims[u]);
    }
  }

  lemma StepKeeps(s: System, cap: nat, step: Step)
    requires Inv(s, cap) && Enabled(s, step)
    ensures Inv(Apply(s, cap, step), cap)
  {
    match step
    case Begin(t, key) => BeginKeeps(s, cap, t, key);
    case Decide(t, first, second) => DecideKeeps(s, cap, t, first, second);
    case OpenOk(t, kind, link) => OpenOkKeeps(s, cap, t, kind, link);
    case OpenErr(t) => OpenErrKeeps(s, cap, t);
    case Finish(t, usable) => FinishKeeps(s, cap, t, usable);
    case Cancel(t) => CancelKeeps(s, cap, t);
  }
}
