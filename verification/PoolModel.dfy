/**
  One host's entry in the connection pool, and the pure choice an acquiring task makes on it.

  A `Link` names one physical connection, that is, one sender as hyper hands it out. An H1 sender is
  a linear resource: it sits in the slot of its pooled connection or in exactly one handle.
  The readiness of H2 senders is whatever the two polls of one critical section report.
*/
module PoolModel {
  import opened Types

  type HostKey = (string, nat)
  type Link = nat

  datatype Protocol = Http2 | Http1

  datatype Sender = H2(link: Link) | H1(slot: Option<Link>)

  datatype Conn = Conn(id: nat, sender: Sender)

  datatype Entry = Entry(protocol: Protocol, connections: seq<Conn>, opening: nat, nextId: nat)

  datatype HandleSender = HandleH2(link: Link) | HandleH1(link: Link)

  datatype Handle = Handle(sender: HandleSender, id: nat)

  datatype Action = ReturnExisting(handle: Handle) | OpenNew(isFirst: bool) | Wait

  datatype H2Status = Ready | AtCapacity | Dead

  type Poll = Link -> H2Status

  const MAX_ACQUIRE_ATTEMPTS := 32

  const NEW_ENTRY := Entry(Http2, [], 1, 0)

  function Kind(s: Sender): Protocol {
    if s.H2? then Http2 else Http1
  }

  function Total(e: Entry): nat {
    |e.connections| + e.opening
  }

  /** Ids are strictly increasing in list order and were all handed out by the counter. */
  predicate Ordered(cs: seq<Conn>, nextId: nat) {
    && (forall i, j :: 0 <= i < j < |cs| ==> cs[i].id < cs[j].id)
    && (forall i :: 0 <= i < |cs| ==> cs[i].id < nextId)
  }

  predicate DeadH2(c: Conn, first: Poll) {
    c.sender.H2? && first(c.sender.link) == Dead
  }

  /** What survives the first pass over an H2 entry. */
  function KeepLive(cs: seq<Conn>, first: Poll): (kept: seq<Conn>)
    ensures |kept| <= |cs|
  {
    if cs == [] then []
    else
      var n := |cs| - 1;
      KeepLive(cs[..n], first) + if DeadH2(cs[n], first) then [] else [cs[n]]
  }

  /** May a task that sees protocol `p` be given connection `c`? */
  predicate Reusable(c: Conn, p: Protocol, second: Poll) {
    match p
    case Http2 => c.sender.H2? && second(c.sender.link) == Ready
    case Http1 => c.sender.H1? && c.sender.slot.Some?
  }

  /** Index of the first connection that can be handed out. */
  function FirstReusable(cs: seq<Conn>, p: Protocol, second: Poll): (r: Option<nat>)
    ensures r.Some? ==>
              && r.value < |cs|
              && Reusable(cs[r.value], p, second)
              && forall j :: 0 <= j < r.value ==> !Reusable(cs[j], p, second)
    ensures r.None? ==> forall j :: 0 <= j < |cs| ==> !Reusable(cs[j], p, second)
  {
    if cs == [] then None
    else if Reusable(cs[0], p, second) then Some(0)
    else match FirstReusable(cs[1..], p, second)
      case Some(i) => Some(i + 1)
      case None =>
        assert forall j :: 0 < j < |cs| ==> cs[j] == cs[1..][j - 1];
        None
  }

  /** The entry after its clean-up pass; only H2 entries have one. */
  function Cleaned(e: Entry, first: Poll): Entry {
    if e.protocol.Http2? then e.(connections := KeepLive(e.connections, first)) else e
  }

  function ScaleOrWait(e: Entry, cap: nat): (Entry, Action) {
    if Total(e) < cap then (e.(opening := e.opening + 1), OpenNew(false)) else (e, Wait)
  }

  /** Hand out connection `i`: H2 senders are cloned, an H1 sender leaves its slot. */
  function Checkout(e: Entry, i: nat, second: Poll): (Entry, Action)
    requires i < |e.connections| && Reusable(e.connections[i], e.protocol, second)
  {
    var c := e.connections[i];
    match c.sender
    case H2(l) => (e, ReturnExisting(Handle(HandleH2(l), c.id)))
    case H1(s) =>
      (e.(connections := e.connections[i := Conn(c.id, H1(None))]),
       ReturnExisting(Handle(HandleH1(s.value), c.id)))
  }

  function EntryAction(e: Entry, cap: nat, first: Poll, second: Poll): (Entry, Action) {
    var e1 := Cleaned(e, first);
    match FirstReusable(e1.connections, e1.protocol, second)
    case Some(i) => Checkout(e1, i, second)
    case None => ScaleOrWait(e1, cap)
  }

  function PoolAction(pools: map<HostKey, Entry>, key: HostKey, cap: nat, first: Poll, second: Poll)
    : (map<HostKey, Entry>, Action)
  {
    if key in pools then
      var (e, a) := EntryAction(pools[key], cap, first, second);
      (pools[key := e], a)
    else
      (pools[key := NEW_ENTRY], OpenNew(true))
  }

  /** The entry after an open succeeded. */
  function Inserted(e: Entry, isFirst: bool, kind: Protocol, link: Link): (Entry, Handle)
    requires e.opening > 0
  {
    var e1 := e.(opening := e.opening - 1, nextId := e.nextId + 1,
                 protocol := if isFirst then kind else e.protocol);
    match kind
    case Http2 => (e1.(connections := e.connections + [Conn(e.nextId, H2(link))]), Handle(HandleH2(link), e.nextId))
    case Http1 => (e1.(connections := e.connections + [Conn(e.nextId, H1(None))]), Handle(HandleH1(link), e.nextId))
  }

  /** The pool after an open failed: the last one out removes an entry that holds nothing. */
  function AfterFailedOpen(pools: map<HostKey, Entry>, key: HostKey): map<HostKey, Entry>
    requires key in pools && pools[key].opening > 0
  {
    var e := pools[key].(opening := pools[key].opening - 1);
    if e.connections == [] && e.opening == 0 then pools - {key} else pools[key := e]
  }

  /** Putting an H1 sender back: the first connection with that id takes it if it is an H1 one. */
  function Refilled(cs: seq<Conn>, id: nat, link: Link): seq<Conn> {
    if cs == [] then []
    else if cs[0].id == id then
      [if cs[0].sender.H1? then Conn(id, H1(Some(link))) else cs[0]] + cs[1..]
    else [cs[0]] + Refilled(cs[1..], id, link)
  }

  function Without(cs: seq<Conn>, id: nat): seq<Conn> {
    if cs == [] then []
    else
      var n := |cs| - 1;
      Without(cs[..n], id) + if cs[n].id == id then [] else [cs[n]]
  }

  // ---------------------------------------------------------------- facts about the choice

  lemma {:induction false} KeepLiveOrdered(cs: seq<Conn>, nextId: nat, first: Poll)
    requires Ordered(cs, nextId)
    ensures Ordered(KeepLive(cs, first), nextId)
  {
    if cs != [] {
      var n := |cs| - 1;
      KeepLiveOrdered(cs[..n], cs[n].id, first);
    }
  }

  lemma {:induction false} KeepLiveMembers(cs: seq<Conn>, first: Poll)
    ensures forall c :: c in KeepLive(cs, first) <==> c in cs && !DeadH2(c, first)
  {
    if cs != [] {
      var n := |cs| - 1;
      KeepLiveMembers(cs[..n], first);
      assert cs == cs[..n] + [cs[n]];
    }
  }

  /** A connection outlives the clean-up pass unless it is an H2 one, on an H2 entry, polled Dead. */
  ghost predicate Survives(c: Conn, p: Protocol, first: Poll) {
    p == Http1 || c.sender.H1? || first(c.sender.link) == Ready || first(c.sender.link) == AtCapacity
  }

  /** `e1` is `e` without the connections that do not survive; order and ids are untouched. */
  ghost predicate CleanedUp(e: Entry, e1: Entry, first: Poll) {
    && e1 == e.(connections := e1.connections)
    && |e1.connections| <= |e.connections|
    && Ordered(e1.connections, e.nextId)
    && (forall c :: c in e1.connections <==> c in e.connections && Survives(c, e.protocol, first))
  }

  /** The clean-up pass drops exactly the connections polled Dead; busy ones stay. */
  lemma CleanedKeeps(e: Entry, first: Poll)
    requires Ordered(e.connections, e.nextId)
    ensures CleanedUp(e, Cleaned(e, first), first)
  {
    KeepLiveOrdered(e.connections, e.nextId, first);
    KeepLiveMembers(e.connections, first);
  }

  /** No H2 sender is ready on an H2 entry; no sender is in its slot on an H1 entry. */
  ghost predicate NothingReusable(e: Entry, second: Poll) {
    forall c :: c in e.connections ==>
      match e.protocol
      case Http2 => c.sender.H2? ==> second(c.sender.link) == AtCapacity || second(c.sender.link) == Dead
      case Http1 => c.sender.H1? ==> c.sender.slot.None?
  }

  /**
    Action selection as a specification, from `e` to `e'` with action `a`. The connections not polled
    Dead are kept, and then: the first reusable one is handed out; or nothing is reusable, the count is
    below the cap, and one more opening is counted; or nothing is reusable, the cap is reached, and
    nothing else changes.
  */
  ghost predicate Selected(e: Entry, e': Entry, cap: nat, first: Poll, second: Poll, a: Action) {
    exists e1: Entry ::
      && CleanedUp(e, e1, first)
      && match a
         case ReturnExisting(h) => exists i :: 0 <= i < |e1.connections| && HandsOut(e1, e', i, h, second)
         case OpenNew(isFirst) =>
           && NothingReusable(e1, second) && |e1.connections| + e1.opening < cap
           && !isFirst && e' == e1.(opening := e1.opening + 1)
         case Wait => NothingReusable(e1, second) && |e1.connections| + e1.opening >= cap && e' == e1
  }

  lemma ActionSelection(e: Entry, cap: nat, first: Poll, second: Poll)
    requires Ordered(e.connections, e.nextId)
    ensures var (e', a) := EntryAction(e, cap, first, second);
            Selected(e, e', cap, first, second, a)
  {
    var (e', a) := EntryAction(e, cap, first, second);
    var e1 := Selection(e, cap, first, second);
  }

  /** The selection, with the cleaned entry as its witness. */
  lemma Selection(e: Entry, cap: nat, first: Poll, second: Poll) returns (e1: Entry)
    requires Ordered(e.connections, e.nextId)
    ensures e1 == Cleaned(e, first) && CleanedUp(e, e1, first)
    ensures var (e', a) := EntryAction(e, cap, first, second);
            match a
            case ReturnExisting(h) => exists i :: 0 <= i < |e1.connections| && HandsOut(e1, e', i, h, second)
            case OpenNew(isFirst) =>
              && NothingReusable(e1, second) && |e1.connections| + e1.opening < cap
              && !isFirst && e' == e1.(opening := e1.opening + 1)
            case Wait => NothingReusable(e1, second) && |e1.connections| + e1.opening >= cap && e' == e1
  {
    CleanedKeeps(e, first);
    e1 := Cleaned(e, first);
    match FirstReusable(e1.connections, e1.protocol, second) {
      case Some(i) =>
        assert e1.connections[i] in e1.connections;
        var (e', a) := EntryAction(e, cap, first, second);
        assert HandsOut(e1, e', i, a.handle, second);
      case None =>
        forall c | c in e1.connections
          ensures !Reusable(c, e1.protocol, second)
        {
        }
    }
  }

  /** An H2 entry at its cap whose senders are all alive but busy. */
  ghost predicate Busy(e: Entry, cap: nat, first: Poll, second: Poll) {
    && e.protocol == Http2 && |e.connections| + e.opening >= cap
    && forall c :: c in e.connections ==>
         c.sender.H2? && first(c.sender.link) == AtCapacity && second(c.sender.link) == AtCapacity
  }

  /** Such an entry is left as it is, and the task waits. */
  lemma BusyHostWaits(e: Entry, cap: nat, first: Poll, second: Poll)
    requires Busy(e, cap, first, second)
    ensures EntryAction(e, cap, first, second) == (e, Wait)
  {
    forall i | 0 <= i < |e.connections|
      ensures !DeadH2(e.connections[i], first) && !Reusable(e.connections[i], Http2, second)
    {
      assert e.connections[i] in e.connections;
    }
    KeepsAll(e.connections, first);
  }

  lemma {:induction false} KeepsAll(cs: seq<Conn>, first: Poll)
    requires forall i :: 0 <= i < |cs| ==> !DeadH2(cs[i], first)
    ensures KeepLive(cs, first) == cs
  {
    if cs != [] {
      KeepsAll(cs[..|cs| - 1], first);
    }
  }

  /** The whole pool before and after a decision at `key`: a new host gets a provisional entry. */
  ghost predicate PoolSelected(pools: map<HostKey, Entry>, pools': map<HostKey, Entry>, key: HostKey, cap: nat,
                               first: Poll, second: Poll, a: Action)
  {
    key in pools' && pools' == pools[key := pools'[key]] &&
    if key in pools then Selected(pools[key], pools'[key], cap, first, second, a)
    else pools'[key] == Entry(Http2, [], 1, 0) && a == OpenNew(true)
  }

  lemma PoolSelection(pools: map<HostKey, Entry>, key: HostKey, cap: nat, first: Poll, second: Poll)
    ensures var (pools', a) := PoolAction(pools, key, cap, first, second);
            && ((key in pools ==> Ordered(pools[key].connections, pools[key].nextId)) ==>
                  PoolSelected(pools, pools', key, cap, first, second, a))
            && (key in pools && Busy(pools[key], cap, first, second) ==> a == Wait && pools' == pools)
  {
    hide EntryAction, Selected, Busy, Ordered;
    if key in pools {
      if Ordered(pools[key].connections, pools[key].nextId) {
        ActionSelection(pools[key], cap, first, second);
      }
      if Busy(pools[key], cap, first, second) {
        BusyHostWaits(pools[key], cap, first, second);
      }
    }
  }

  lemma WaitMeans(e: Entry, cap: nat, first: Poll, second: Poll)
    requires Ordered(e.connections, e.nextId) && EntryAction(e, cap, first, second).1.Wait?
    ensures var e' := EntryAction(e, cap, first, second).0;
            && e' == e.(connections := e'.connections)
            && |e'.connections| <= |e.connections| && Ordered(e'.connections, e.nextId)
            && (forall c :: c in e'.connections ==> c in e.connections)
            && (forall c: Conn :: c in e.connections && c.sender.H1? ==> c in e'.connections)
  {
    CleanedKeeps(e, first);
  }

  lemma OpenMeans(e: Entry, cap: nat, first: Poll, second: Poll)
    requires Ordered(e.connections, e.nextId) && EntryAction(e, cap, first, second).1.OpenNew?
    ensures var (e', a) := EntryAction(e, cap, first, second);
            && a == OpenNew(false)
            && e' == e.(connections := e'.connections, opening := e.opening + 1)
            && Total(e') <= cap && Ordered(e'.connections, e.nextId)
            && (forall c :: c in e'.connections ==> c in e.connections)
            && (forall c: Conn :: c in e.connections && c.sender.H1? ==> c in e'.connections)
  {
    CleanedKeeps(e, first);
  }

  /** From `e1` to `e'`, connection `i` is handed out as `h` and nothing before it could be. */
  ghost predicate HandsOut(e1: Entry, e': Entry, i: nat, h: Handle, second: Poll)
    requires i < |e1.connections|
  {
    var c := e1.connections[i];
    && NothingReusable(e1.(connections := e1.connections[..i]), second)
    && h.id == c.id
    && e' == e1.(connections := e'.connections)
    && match h.sender
       case HandleH2(l) =>
         e1.protocol.Http2? && c.sender == H2(l) && second(l) == Ready && e'.connections == e1.connections
       case HandleH1(l) =>
         && e1.protocol.Http1? && c.sender == H1(Some(l))
         && |e'.connections| == |e1.connections|
         && (forall j :: 0 <= j < |e1.connections| && j != i ==> e'.connections[j] == e1.connections[j])
         && e'.connections[i] == Conn(c.id, H1(None))
  }

  // ---------------------------------------------------------------- addressing by id

  ghost predicate At(cs: seq<Conn>, i: nat, c: Conn) {
    i < |cs| && cs[i] == c
  }

  /** Returning a sender stops at the first connection with that id. */
  lemma {:induction false} RefilledFirst(cs: seq<Conn>, i: nat, link: Link)
    requires i < |cs| && forall j :: 0 <= j < i ==> cs[j].id != cs[i].id
    ensures Refilled(cs, cs[i].id, link)
            == if cs[i].sender.H1? then cs[i := Conn(cs[i].id, H1(Some(link)))] else cs
  {
    if i > 0 {
      assert forall j :: 0 <= j < |cs| - 1 ==> cs[1..][j] == cs[j + 1];
      RefilledFirst(cs[1..], i - 1, link);
    }
  }

  lemma {:induction false} RefilledAbsent(cs: seq<Conn>, id: nat, link: Link)
    requires forall j :: 0 <= j < |cs| ==> cs[j].id != id
    ensures Refilled(cs, id, link) == cs
  {
    if cs != [] {
      assert forall j :: 0 <= j < |cs| - 1 ==> cs[1..][j] == cs[j + 1];
      RefilledAbsent(cs[1..], id, link);
    }
  }

  /** With ordered ids, returning a sender touches exactly the slot with that id. */
  lemma RefilledAt(cs: seq<Conn>, nextId: nat, i: nat, id: nat, link: Link)
    requires Ordered(cs, nextId) && At(cs, i, Conn(id, H1(None)))
    ensures Refilled(cs, id, link) == cs[i := Conn(id, H1(Some(link)))]
  {
    RefilledFirst(cs, i, link);
  }

  /** With ordered ids, removing an id takes out exactly one connection. */
  lemma {:induction false} WithoutAt(cs: seq<Conn>, nextId: nat, i: nat)
    requires Ordered(cs, nextId) && i < |cs|
    ensures Without(cs, cs[i].id) == cs[..i] + cs[i + 1..]
  {
    var n := |cs| - 1;
    if i < n {
      WithoutAt(cs[..n], nextId, i);
      assert cs[..n][..i] + cs[..n][i + 1..] + [cs[n]] == cs[..i] + cs[i + 1..];
    } else {
      WithoutAbsent(cs[..n], cs[n].id);
    }
  }

  /** What the id of a connection appended last gets back. */
  lemma InsertUndone(cs: seq<Conn>, nextId: nat, c: Conn, link: Link)
    requires Ordered(cs, nextId) && c.id == nextId
    ensures Without(cs + [c], c.id) == cs
    ensures Refilled(cs + [c], c.id, link) == cs + [Conn(c.id, if c.sender.H1? then H1(Some(link)) else c.sender)]
  {
    assert (cs + [c])[..|cs|] == cs;
    WithoutAbsent(cs, c.id);
    RefilledFirst(cs + [c], |cs|, link);
  }

  lemma {:induction false} WithoutAbsent(cs: seq<Conn>, id: nat)
    requires forall i :: 0 <= i < |cs| ==> cs[i].id != id
    ensures Without(cs, id) == cs
  {
    if cs != [] {
      WithoutAbsent(cs[..|cs| - 1], id);
    }
  }
}
