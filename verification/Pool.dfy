/**
  The connection pool as the code keeps it: a map of host pools changed in place. Each method that
  the code runs under the pool's lock is proved against the step function of the protocol model.
*/
module Pool {
  import opened Types
  import opened PoolModel
  import opened PoolProtocol

  /** Per-host connection tracking. */
  class HostPool {
    var protocol: Protocol
    var connections: seq<Conn>
    var openingCount: nat
    var nextId: nat

    ghost function View(): Entry
      reads this
    {
      Entry(protocol, connections, openingCount, nextId)
    }

    constructor Provisional()
      ensures View() == NEW_ENTRY
    {
      protocol, connections, openingCount, nextId := Http2, [], 1, 0;
    }

    /** A fresh id: it exceeds every id in use, and a connection appended with it keeps the order. */
    method AllocateId() returns (id: nat)
      modifies this`nextId
      ensures Ordered(connections, old(nextId)) ==> forall c :: c in connections ==> c.id < id
      ensures Ordered(connections, old(nextId)) ==> forall sender :: Ordered(connections + [Conn(id, sender)], nextId)
      ensures id == old(nextId) && nextId == id + 1
    {
      id := nextId;
      nextId := nextId + 1;
    }

    /** Reserve room for one more connection. Nobody waits while there is room, and the cap is never exceeded. */
    method ScaleOrWait(connectionsPerHost: nat) returns (a: Action)
      modifies this`openingCount
      ensures a == OpenNew(false) || a == Wait
      ensures a.OpenNew? ==> old(Total(View())) + 1 == Total(View()) <= connectionsPerHost
      ensures a.Wait? ==> View() == old(View()) && Total(View()) >= connectionsPerHost
    {
      if |connections| + openingCount < connectionsPerHost {
        openingCount := openingCount + 1;
        a := OpenNew(false);
      } else {
        a := Wait;
      }
    }

    /** First pass: drop dead senders. Second pass: clone the first ready one. */
    method H2Action(connectionsPerHost: nat, first: Poll, second: Poll) returns (a: Action)
      requires protocol.Http2?
      modifies this
      ensures (View(), a) == EntryAction(old(View()), connectionsPerHost, first, second)
      ensures Ordered(old(connections), old(nextId)) ==>
                Selected(old(View()), View(), connectionsPerHost, first, second, a)
    {
      hide Selected, Ordered;
      if Ordered(connections, nextId) {
        ActionSelection(View(), connectionsPerHost, first, second);
      }
      var kept: seq<Conn> := [];
      for i := 0 to |connections|
        invariant kept == KeepLive(connections[..i], first)
      {
        assert connections[..i + 1][..i] == connections[..i];
        if !(connections[i].sender.H2? && first(connections[i].sender.link) == Dead) {
          kept := kept + [connections[i]];
        }
      }
      assert connections[..|connections|] == connections;
      connections := kept;
      for i := 0 to |connections|
        invariant View() == Cleaned(old(View()), first)
        invariant forall j :: 0 <= j < i ==> !Reusable(connections[j], Http2, second)
      {
        var sender := connections[i].sender;
        if sender.H2? && second(sender.link) == Ready {
          return ReturnExisting(Handle(HandleH2(sender.link), connections[i].id));
        }
      }
      a := ScaleOrWait(connectionsPerHost);
    }

    /** Take the sender out of the first slot that has one. */
    method H1Action(connectionsPerHost: nat, ghost first: Poll, ghost second: Poll) returns (a: Action)
      requires protocol.Http1?
      modifies this
      ensures (View(), a) == EntryAction(old(View()), connectionsPerHost, first, second)
      ensures Ordered(old(connections), old(nextId)) ==>
                Selected(old(View()), View(), connectionsPerHost, first, second, a)
    {
      hide Selected, Ordered;
      if Ordered(connections, nextId) {
        ActionSelection(View(), connectionsPerHost, first, second);
      }
      for i := 0 to |connections|
        invariant View() == old(View())
        invariant forall j :: 0 <= j < i ==> !Reusable(connections[j], Http1, second)
      {
        var conn := connections[i];
        match conn.sender
        case H1(Some(link)) =>
          connections := connections[i := Conn(conn.id, H1(None))];
          return ReturnExisting(Handle(HandleH1(link), conn.id));
        case _ =>
      }
      a := ScaleOrWait(connectionsPerHost);
    }

    /** Put a sender back into the connection with that id, if there is one and it is H1. */
    method ReturnSender(id: nat, link: Link)
      modifies this`connections
      ensures View() == old(View()).(connections := Refilled(old(connections), id, link))
    {
      for i := 0 to |connections|
        invariant connections == old(connections)
        invariant forall j :: 0 <= j < i ==> connections[j].id != id
      {
        var conn := connections[i];
        if conn.id == id {
          RefilledFirst(connections, i, link);
          if conn.sender.H1? {
            connections := connections[i := Conn(id, H1(Some(link)))];
          }
          return;
        }
      }
      RefilledAbsent(connections, id, link);
    }

    method RemoveConnection(id: nat)
      modifies this`connections
      ensures View() == old(View()).(connections := Without(old(connections), id))
    {
      var kept: seq<Conn> := [];
      for i := 0 to |connections|
        invariant kept == Without(connections[..i], id)
      {
        assert connections[..i + 1][..i] == connections[..i];
        if connections[i].id != id {
          kept := kept + [connections[i]];
        }
      }
      assert connections[..|connections|] == connections;
      connections := kept;
    }

    /**
      Record a successful open and make the handle for the task that opened. The reserved opening turns
      into a connection with a fresh id, so the total stays. The handle leads back to it: returning an
      H1 sender by that id fills exactly the new slot, and removing the id undoes the insertion.
    */
    method Insert(isFirst: bool, kind: Protocol, link: Link) returns (h: Handle)
      requires openingCount > 0
      modifies this
      ensures (View(), h) == Inserted(old(View()), isFirst, kind, link)
      ensures Total(View()) == old(Total(View()))
      ensures Ordered(old(connections), old(nextId)) ==>
                && Ordered(connections, nextId) && (forall c :: c in old(connections) ==> c.id < h.id)
                && Without(connections, h.id) == old(connections)
                && Refilled(connections, h.id, link)
                   == old(connections) + [Conn(h.id, if kind.Http1? then H1(Some(link)) else H2(link))]
    {
      ghost var before, next := connections, nextId;
      openingCount := openingCount - 1;
      if isFirst {
        protocol := kind;
      }
      var id := AllocateId();
      match kind {
        case Http2 =>
          connections := connections + [Conn(id, H2(link))];
          h := Handle(HandleH2(link), id);
        case Http1 =>
          connections := connections + [Conn(id, H1(None))];
          h := Handle(HandleH1(link), id);
      }
      if Ordered(before, next) {
        InsertUndone(before, next, connections[|before|], link);
      }
    }
  }

  /** The pool shared by all download tasks; each method body is one critical section. */
  class ConnectionPool {
    const connectionsPerHost: nat
    var hostPools: map<HostKey, HostPool>

    /** No two hosts share a host pool. */
    ghost predicate Valid()
      reads this
    {
      forall j, k :: j in hostPools && k in hostPools && j != k ==> hostPools[j] != hostPools[k]
    }

    ghost function View(): map<HostKey, Entry>
      reads this, hostPools.Values
    {
      map k | k in hostPools :: hostPools[k].View()
    }

    constructor (connectionsPerHost: nat)
      ensures Valid() && View() == map[] && this.connectionsPerHost == connectionsPerHost
    {
      this.connectionsPerHost := connectionsPerHost;
      hostPools := map[];
    }

    method DetermineAction(key: HostKey, first: Poll, second: Poll) returns (a: Action)
      requires Valid()
      modifies this, hostPools.Values
      ensures Valid() && fresh(hostPools.Values - old(hostPools.Values))
      ensures (View(), a) == PoolAction(old(View()), key, connectionsPerHost, first, second)
      ensures (key in old(View()) ==> Ordered(old(View())[key].connections, old(View())[key].nextId)) ==>
                PoolSelected(old(View()), View(), key, connectionsPerHost, first, second, a)
      ensures key in old(View()) && Busy(old(View())[key], connectionsPerHost, first, second) ==>
                a == Wait && View() == old(View())
    {
      hide EntryAction, PoolSelected, Selected, Busy, Ordered;
      ghost var before := View();
      PoolSelection(before, key, connectionsPerHost, first, second);
      if key in hostPools {
        var hp := hostPools[key];
        match hp.protocol {
          case Http2 => a := hp.H2Action(connectionsPerHost, first, second);
          case Http1 => a := hp.H1Action(connectionsPerHost, first, second);
        }
        assert View() == old(View())[key := hp.View()];
      } else {
        var hp := new HostPool.Provisional();
        hostPools := hostPools[key := hp];
        assert View() == old(View())[key := NEW_ENTRY];
        a := OpenNew(true);
      }
    }

    /** An open has succeeded; the entry is expected to be there still. */
    method OpenSucceeded(key: HostKey, isFirst: bool, kind: Protocol, link: Link)
      returns (r: Result<Handle, DownloadError>)
      requires Valid() && (key in hostPools ==> hostPools[key].openingCount > 0)
      modifies hostPools.Values
      ensures Valid()
      ensures key in hostPools ==>
                var (e, h) := Inserted(old(View())[key], isFirst, kind, link);
                r == Ok(h) && View() == old(View())[key := e]
      ensures key !in hostPools ==> r.Err? && r.error.ConnectionFailed? && View() == old(View())
    {
      if key !in hostPools {
        return Err(ConnectionFailed("pool entry disappeared during connection"));
      }
      var h := hostPools[key].Insert(isFirst, kind, link);
      r := Ok(h);
    }

    /** An open has failed; the last opener of an entry without connections takes it along. */
    method OpenFailed(key: HostKey)
      requires Valid() && (key in hostPools ==> hostPools[key].openingCount > 0)
      modifies this, hostPools.Values
      ensures Valid() && hostPools.Values <= old(hostPools.Values)
      ensures View() == if key in old(hostPools) then AfterFailedOpen(old(View()), key) else old(View())
    {
      if key in hostPools {
        var hp := hostPools[key];
        hp.openingCount := hp.openingCount - 1;
        if hp.connections == [] && hp.openingCount == 0 {
          hostPools := hostPools - {key};
        }
      }
    }

    method ReturnH1Connection(key: HostKey, id: nat, link: Link)
      requires Valid()
      modifies hostPools.Values
      ensures Valid()
      ensures View() == FinishPools(old(View()), key, Handle(HandleH1(link), id), true)
    {
      if key in hostPools {
        hostPools[key].ReturnSender(id, link);
      }
    }

    method RemoveDeadConnection(key: HostKey, id: nat, ghost link: Link)
      requires Valid()
      modifies hostPools.Values
      ensures Valid()
      ensures View() == FinishPools(old(View()), key, Handle(HandleH1(link), id), false)
    {
      if key in hostPools {
        hostPools[key].RemoveConnection(id);
      }
    }

    /** The client side after a request: only H1 handles touch the pool's connections. */
    method FinishConnection(key: HostKey, h: Handle, usable: bool)
      requires Valid()
      modifies hostPools.Values
      ensures Valid()
      ensures View() == FinishPools(old(View()), key, h, usable)
    {
      match h.sender
      case HandleH1(link) =>
        if usable {
          ReturnH1Connection(key, h.id, link);
        } else {
          RemoveDeadConnection(key, h.id, link);
        }
      case HandleH2(_) =>
    }
  }
}
