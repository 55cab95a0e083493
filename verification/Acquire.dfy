/**
  The acquire loop, running among other tasks.

  Between two critical sections of this task any number of steps of other tasks may happen. The
  loop's contract says which steps are its own, so everything proved about runs applies to it.
*/
module Acquire {
  import opened Types
  import opened PoolModel
  import opened PoolProtocol
  import opened PoolRuns
  import opened Pool

  ghost function OwnSteps(steps: seq<Step>, t: Task): seq<Step> {
    if steps == [] then []
    else (if steps[0].t == t then [steps[0]] else []) + OwnSteps(steps[1..], t)
  }

  /** Some run leads from `s` to `s'`, in which the steps of task `t` are exactly `own`. */
  ghost predicate RunWith(s: System, s': System, cap: nat, t: Task, own: seq<Step>) {
    exists steps :: Exec(s, cap, steps) == Some(s') && OwnSteps(steps, t) == own
  }

  lemma {:induction false} OwnConcat(a: seq<Step>, b: seq<Step>, t: Task)
    ensures OwnSteps(a + b, t) == OwnSteps(a, t) + OwnSteps(b, t)
  {
    if a == [] {
      assert a + b == b;
    } else {
      assert (a + b)[0] == a[0] && (a + b)[1..] == a[1..] + b;
      OwnConcat(a[1..], b, t);
    }
  }

  lemma {:induction false} OwnNone(steps: seq<Step>, t: Task)
    requires OwnSteps(steps, t) == []
    ensures forall i :: 0 <= i < |steps| ==> steps[i].t != t
  {
    if steps != [] {
      OwnNone(steps[1..], t);
      assert forall i :: 0 < i < |steps| ==> steps[i] == steps[1..][i - 1];
    }
  }

  lemma RunConcat(s: System, m: System, s': System, cap: nat, t: Task, a: seq<Step>, b: seq<Step>)
    requires RunWith(s, m, cap, t, a) && RunWith(m, s', cap, t, b)
    ensures RunWith(s, s', cap, t, a + b)
  {
    var x :| Exec(s, cap, x) == Some(m) && OwnSteps(x, t) == a;
    var y :| Exec(m, cap, y) == Some(s') && OwnSteps(y, t) == b;
    ExecConcat(s, cap, x, y);
    OwnConcat(x, y, t);
  }

  lemma RunStep(s: System, m: System, cap: nat, t: Task, own: seq<Step>, step: Step)
    requires RunWith(s, m, cap, t, own) && Enabled(m, step) && step.t == t
    ensures RunWith(s, Apply(m, cap, step), cap, t, own + [step])
  {
    var m' := Apply(m, cap, step);
    assert [step][0] == step && [step][1..] == [];
    assert OwnSteps([], t) == [];
    assert OwnSteps([step], t) == [step] + OwnSteps([step][1..], t) == [step];
    assert Exec(m', cap, []) == Some(m');
    assert Exec(m, cap, [step]) == Some(m');
    RunConcat(s, m, m', cap, t, own, [step]);
  }

  /** Interference leads to a reachable state and leaves this task's claim alone. */
  lemma EnvironmentKeeps(s0: System, s: System, s': System, cap: nat, t: Task, own: seq<Step>)
    requires Reachable(s, cap) && RunWith(s0, s, cap, t, own) && RunWith(s, s', cap, t, [])
    ensures Reachable(s', cap) && RunWith(s0, s', cap, t, own)
    ensures t in s.claims ==> t in s'.claims && s'.claims[t] == s.claims[t] && (Live(s, t) ==> Live(s', t))
  {
    RunConcat(s0, s, s', cap, t, own, []);
    assert own + [] == own;
    var steps :| Exec(s, cap, steps) == Some(s') && OwnSteps(steps, t) == [];
    OwnNone(steps, t);
    var past :| Exec(INIT, cap, past) == Some(s);
    ExecConcat(INIT, cap, past, steps);
    if t in s.claims {
      OthersLeaveClaim(s, cap, steps, t);
    }
  }

  lemma ReachableStep(s: System, cap: nat, step: Step)
    requires Reachable(s, cap) && Enabled(s, step)
    ensures Reachable(Apply(s, cap, step), cap)
  {
    var past :| Exec(INIT, cap, past) == Some(s);
    ExecConcat(INIT, cap, past, [step]);
    assert [step][1..] == [];
    assert Exec(INIT, cap, past + [step]) == Some(Apply(s, cap, step));
  }

  // The three steps the loop takes, as the code sees them: what the pool becomes, and where the task is.

  lemma TakeBegin(s: System, cap: nat, t: Task, key: HostKey) returns (s': System)
    requires Reachable(s, cap) && t !in s.claims
    ensures Reachable(s', cap) && RunWith(s, s', cap, t, [Begin(t, key)])
    ensures s'.pools == s.pools && s'.home == s.home
    ensures Live(s', t) && s'.claims[t] == Deciding(key, 0)
  {
    ReachableInv(s, cap);
    s' := Apply(s, cap, Begin(t, key));
    ReachableStep(s, cap, Begin(t, key));
    assert Exec(s, cap, []) == Some(s) && OwnSteps([], t) == [];
    RunStep(s, s, cap, t, [], Begin(t, key));
    assert [] + [Begin(t, key)] == [Begin(t, key)];
  }

  lemma TakeDecide(s0: System, s: System, cap: nat, t: Task, own: seq<Step>, first: Poll, second: Poll) returns (s': System)
    requires Reachable(s, cap) && RunWith(s0, s, cap, t, own)
    requires Live(s, t) && s.claims[t].Deciding?
    ensures Reachable(s', cap) && RunWith(s0, s', cap, t, own + [Decide(t, first, second)])
    ensures s'.home == s.home && s'.pools == PoolAction(s.pools, s.claims[t].key, cap, first, second).0
    ensures var (key, waits) := (s.claims[t].key, s.claims[t].waits);
            match PoolAction(s.pools, key, cap, first, second).1
            case ReturnExisting(h) =>
              Live(s', t) && s'.claims[t].Holding? && s'.claims[t].key == key && s'.claims[t].handle == h
            case OpenNew(isFirst) =>
              Live(s', t) && s'.claims[t].Opening? && s'.claims[t].key == key && s'.claims[t].isFirst == isFirst
            case Wait =>
              if waits + 1 < 32 then Live(s', t) && s'.claims[t] == Deciding(key, waits + 1)
              else t !in s'.claims
  {
    hide EntryAction, Exec;
    var step := Decide(t, first, second);
    s' := Apply(s, cap, step);
    ReachableStep(s, cap, step);
    RunStep(s0, s, cap, t, own, step);
  }

  lemma TakeOpenOk(s0: System, s: System, cap: nat, t: Task, own: seq<Step>, kind: Protocol, link: Link) returns (s': System, e: Entry, h: Handle)
    requires Reachable(s, cap) && RunWith(s0, s, cap, t, own)
    requires Live(s, t) && s.claims[t].Opening? && link !in s.home
    ensures Reachable(s', cap) && RunWith(s0, s', cap, t, own + [OpenOk(t, kind, link)])
    ensures s'.home.Keys == s.home.Keys + {link} && HasOpening(s, s.claims[t].key)
    ensures Inserted(s.pools[s.claims[t].key], s.claims[t].isFirst, kind, link) == (e, h)
    ensures s'.pools == s.pools[s.claims[t].key := e]
    ensures Live(s', t) && s'.claims[t].Holding? && s'.claims[t].key == s.claims[t].key && s'.claims[t].handle == h
  {
    OpenNeverDisappears(s, cap, t, kind, link);
    var step := OpenOk(t, kind, link);
    s' := Apply(s, cap, step);
    e, h := s'.pools[s.claims[t].key], s'.claims[t].handle;
    ReachableStep(s, cap, step);
    RunStep(s0, s, cap, t, own, step);
  }

  lemma TakeOpenErr(s0: System, s: System, cap: nat, t: Task, own: seq<Step>) returns (s': System)
    requires Reachable(s, cap) && RunWith(s0, s, cap, t, own)
    requires Live(s, t) && s.claims[t].Opening?
    ensures Reachable(s', cap) && RunWith(s0, s', cap, t, own + [OpenErr(t)])
    ensures s'.home == s.home && HasOpening(s, s.claims[t].key)
    ensures s'.pools == AfterFailedOpen(s.pools, s.claims[t].key)
    ensures t !in s'.claims
  {
    OpeningAccounting(s, cap);
    assert OpensAt(s, t, s.claims[t].key);
    s' := Apply(s, cap, OpenErr(t));
    ReachableStep(s, cap, OpenErr(t));
    RunStep(s0, s, cap, t, own, OpenErr(t));
  }

  lemma LoopGrows(own: seq<Step>, t: Task, key: HostKey, polls: nat -> (Poll, Poll), n: nat)
    requires LoopSteps(own, t, key, polls, n)
    ensures LoopSteps(own + [Decide(t, polls(n).0, polls(n).1)], t, key, polls, n + 1)
  {
  }

  lemma LoopBegins(t: Task, key: HostKey, polls: nat -> (Poll, Poll))
    ensures LoopSteps([Begin(t, key)], t, key, polls, 0)
  {
  }

  lemma WaitAddsNothing(r: Result<Handle, DownloadError>, open: Result<Protocol, DownloadError>, t: Task, own: seq<Step>, own': seq<Step>)
    requires RoundEnds(Wait, r, open, t, own, own')
    ensures own' == own && r.Err?
  {
  }

  lemma TakeFinish(s: System, cap: nat, t: Task, usable: bool) returns (s': System)
    requires Reachable(s, cap) && Live(s, t) && s.claims[t].Holding?
    ensures Reachable(s', cap) && RunWith(s, s', cap, t, [Finish(t, usable)])
    ensures s'.home == s.home && t !in s'.claims
    ensures s'.pools == FinishPools(s.pools, s.claims[t].key, s.claims[t].handle, usable)
    ensures GivenUp(s'.pools, s.claims[t].key, s.claims[t].handle, usable)
  {
    FinishGivesUp(s, cap, t, usable);
    s' := Apply(s, cap, Finish(t, usable));
    ReachableStep(s, cap, Finish(t, usable));
    assert Exec(s, cap, []) == Some(s) && OwnSteps([], t) == [];
    RunStep(s, s, cap, t, [], Finish(t, usable));
    assert [] + [Finish(t, usable)] == [Finish(t, usable)];
  }

  ghost predicate InLoop(s: System, t: Task, key: HostKey, attempt: nat) {
    Live(s, t) && s.claims[t] == Deciding(key, attempt)
  }

  ghost predicate HoldsHandle(s: System, t: Task, key: HostKey, h: Handle) {
    Live(s, t) && s.claims[t].Holding? && s.claims[t].key == key && s.claims[t].handle == h
  }

  /** After decision `a`, the task's own steps grew from `own` to `own'` and `r` is its result so far. */
  ghost predicate RoundEnds(a: Action, r: Result<Handle, DownloadError>, open: Result<Protocol, DownloadError>, t: Task,
                            own: seq<Step>, own': seq<Step>)
  {
    match a
    case ReturnExisting(h) => r == Ok(h) && own' == own
    case Wait => r.Err? && r.error.ConnectionFailed? && own' == own
    case OpenNew(_) =>
      match open
      case Ok(kind) => r.Ok? && exists link :: own' == own + [OpenOk(t, kind, link)]
      case Err(e) => r == Err(e) && own' == own + [OpenErr(t)]
  }

  /** The task's own steps after `n` decisions: it began, then decided on each pair of polls in turn. */
  ghost predicate LoopSteps(own: seq<Step>, t: Task, key: HostKey, polls: nat -> (Poll, Poll), n: nat) {
    && |own| == 1 + n && own[0] == Begin(t, key)
    && forall i :: 0 <= i < n ==> own[i + 1] == Decide(t, polls(i).0, polls(i).1)
  }

  /** A pool together with the protocol state it implements and a supply of connection names. */
  class SharedPool {
    const pool: ConnectionPool
    ghost var sys: System
    var linkSupply: nat

    ghost predicate Valid()
      reads this, pool, pool.hostPools.Values
    {
      && pool.Valid() && pool.View() == sys.pools && Reachable(sys, pool.connectionsPerHost)
      && forall l :: l in sys.home ==> l < linkSupply
    }

    constructor (connectionsPerHost: nat)
      ensures Valid() && sys == INIT && pool.connectionsPerHost == connectionsPerHost && fresh(pool)
    {
      pool := new ConnectionPool(connectionsPerHost);
      sys := INIT;
      linkSupply := 0;
      new;
      assert Exec(INIT, connectionsPerHost, []) == Some(INIT);
    }

    /** The lock is free: other tasks may run any number of their steps here. */
    method Interfere(ghost t: Task)
      requires Valid()
      modifies this, pool, pool.hostPools.Values
      ensures Valid() && fresh(pool.hostPools.Values - old(pool.hostPools.Values))
      ensures RunWith(old(sys), sys, pool.connectionsPerHost, t, [])
    {
      assert Exec(sys, pool.connectionsPerHost, []) == Some(sys) && OwnSteps([], t) == [];
    }

    /** The task enters the loop. */
    method Start(t: Task, key: HostKey)
      requires Valid() && t !in sys.claims
      modifies this`sys
      ensures Valid() && RunWith(old(sys), sys, pool.connectionsPerHost, t, [Begin(t, key)])
      ensures InLoop(sys, t, key, 0)
    {
      hide RunWith, Reachable, Exec, EntryAction;
      ghost var s' := TakeBegin(sys, pool.connectionsPerHost, t, key);
      sys := s';
    }

    /** One decision of the loop, under the lock. */
    method DecideOnce(t: Task, key: HostKey, ghost attempt: nat, first: Poll, second: Poll, ghost s0: System, ghost own: seq<Step>)
      returns (a: Action)
      requires Valid() && RunWith(s0, sys, pool.connectionsPerHost, t, own)
      requires InLoop(sys, t, key, attempt)
      modifies this, pool, pool.hostPools.Values
      ensures Valid() && fresh(pool.hostPools.Values - old(pool.hostPools.Values))
      ensures RunWith(s0, sys, pool.connectionsPerHost, t, own + [Decide(t, first, second)])
      ensures PoolSelected(old(pool.View()), pool.View(), key, pool.connectionsPerHost, first, second, a)
      ensures match a
              case ReturnExisting(h) =>
                HoldsHandle(sys, t, key, h)
              case OpenNew(isFirst) =>
                Live(sys, t) && sys.claims[t].Opening? && sys.claims[t].key == key && sys.claims[t].isFirst == isFirst
              case Wait =>
                if attempt + 1 < MAX_ACQUIRE_ATTEMPTS then InLoop(sys, t, key, attempt + 1)
                else t !in sys.claims
    {
      hide RunWith, Reachable, Exec, EntryAction, PoolSelected;
      CapacityBound(sys, pool.connectionsPerHost);
      ghost var s' := TakeDecide(s0, sys, pool.connectionsPerHost, t, own, first, second);
      a := pool.DetermineAction(key, first, second);
      sys := s';
    }

    /** A successful open is recorded, under the lock. */
    method RecordOpen(t: Task, key: HostKey, isFirst: bool, kind: Protocol, ghost s0: System, ghost own: seq<Step>)
      returns (r: Result<Handle, DownloadError>, link: Link)
      requires Valid() && RunWith(s0, sys, pool.connectionsPerHost, t, own)
      requires Live(sys, t) && sys.claims[t].Opening? && sys.claims[t].key == key && sys.claims[t].isFirst == isFirst
      modifies this, pool, pool.hostPools.Values
      ensures Valid() && pool.hostPools == old(pool.hostPools)
      ensures RunWith(s0, sys, pool.connectionsPerHost, t, own + [OpenOk(t, kind, link)])
      ensures r.Ok? && HoldsHandle(sys, t, key, r.value)
    {
      hide RunWith, Reachable, Exec;
      link := linkSupply;
      ghost var s', e, h := TakeOpenOk(s0, sys, pool.connectionsPerHost, t, own, kind, link);
      ghost var view := pool.View();
      assert view == sys.pools && HasOpening(sys, key);
      r := pool.OpenSucceeded(key, isFirst, kind, link);
      assert pool.View() == view[key := e] && r == Ok(h);
      sys, linkSupply := s', linkSupply + 1;
    }

    /** A failed open is recorded, under the lock. */
    method RecordFailure(t: Task, key: HostKey, ghost s0: System, ghost own: seq<Step>)
      requires Valid() && RunWith(s0, sys, pool.connectionsPerHost, t, own)
      requires Live(sys, t) && sys.claims[t].Opening? && sys.claims[t].key == key
      modifies this, pool, pool.hostPools.Values
      ensures Valid() && pool.hostPools.Values <= old(pool.hostPools.Values)
      ensures RunWith(s0, sys, pool.connectionsPerHost, t, own + [OpenErr(t)])
      ensures t !in sys.claims
    {
      hide RunWith, Reachable, Exec, EntryAction;
      ghost var s' := TakeOpenErr(s0, sys, pool.connectionsPerHost, t, own);
      assert pool.View()[key] == sys.pools[key];
      pool.OpenFailed(key);
      sys := s';
    }

    /** Other tasks run; this one's phase is what it was. */
    method LetOthersRun(t: Task, ghost s0: System, ghost own: seq<Step>)
      requires Valid() && RunWith(s0, sys, pool.connectionsPerHost, t, own) && Live(sys, t)
      modifies this, pool, pool.hostPools.Values
      ensures Valid() && fresh(pool.hostPools.Values - old(pool.hostPools.Values))
      ensures RunWith(s0, sys, pool.connectionsPerHost, t, own)
      ensures Live(sys, t) && sys.claims[t] == old(sys).claims[t]
    {
      ghost var before := sys;
      Interfere(t);
      EnvironmentKeeps(s0, before, sys, pool.connectionsPerHost, t, own);
    }

    /** Open a connection with the lock released, then record the outcome. */
    method OpenAndInsert(t: Task, key: HostKey, isFirst: bool, open: Result<Protocol, DownloadError>, ghost s0: System, ghost own: seq<Step>)
      returns (r: Result<Handle, DownloadError>, ghost own': seq<Step>)
      requires Valid() && RunWith(s0, sys, pool.connectionsPerHost, t, own)
      requires Live(sys, t) && sys.claims[t].Opening? && sys.claims[t].key == key && sys.claims[t].isFirst == isFirst
      modifies this, pool, pool.hostPools.Values
      ensures Valid() && fresh(pool.hostPools.Values - old(pool.hostPools.Values))
      ensures RunWith(s0, sys, pool.connectionsPerHost, t, own')
      ensures match open
              case Ok(kind) =>
                r.Ok? && HoldsHandle(sys, t, key, r.value) && exists link :: own' == own + [OpenOk(t, kind, link)]
              case Err(e) => r == Err(e) && t !in sys.claims && own' == own + [OpenErr(t)]
    {
      hide Valid, RunWith, Reachable, Exec, HoldsHandle;
      LetOthersRun(t, s0, own);
      match open {
        case Ok(kind) =>
          var link;
          r, link := RecordOpen(t, key, isFirst, kind, s0, own);
          own' := own + [OpenOk(t, kind, link)];
        case Err(e) =>
          RecordFailure(t, key, s0, own);
          own' := own + [OpenErr(t)];
          r := Err(e);
      }
    }

    /** One round of the loop: a decision, and what follows from it. `more` means go round again. */
    method Round(t: Task, key: HostKey, attempt: nat, first: Poll, second: Poll, open: Result<Protocol, DownloadError>,
                 ghost s0: System, ghost own: seq<Step>)
      returns (a: Action, r: Result<Handle, DownloadError>, ghost own': seq<Step>)
      requires Valid() && RunWith(s0, sys, pool.connectionsPerHost, t, own) && attempt < MAX_ACQUIRE_ATTEMPTS
      requires InLoop(sys, t, key, attempt)
      modifies this, pool, pool.hostPools.Values
      ensures Valid() && fresh(pool.hostPools.Values - old(pool.hostPools.Values))
      ensures RunWith(s0, sys, pool.connectionsPerHost, t, own')
      ensures RoundEnds(a, r, open, t, own + [Decide(t, first, second)], own')
      ensures a.Wait? ==> if attempt + 1 < MAX_ACQUIRE_ATTEMPTS then InLoop(sys, t, key, attempt + 1)
                          else t !in sys.claims
      ensures !a.Wait? ==> if r.Ok? then HoldsHandle(sys, t, key, r.value) else t !in sys.claims
    {
      hide Valid, RunWith, Reachable, Exec, HoldsHandle;
      a := DecideOnce(t, key, attempt, first, second, s0, own);
      own' := own + [Decide(t, first, second)];
      match a {
        case ReturnExisting(h) =>
          r := Ok(h);
        case OpenNew(isFirst) =>
          r, own' := OpenAndInsert(t, key, isFirst, open, s0, own');
        case Wait =>
          r := Err(ConnectionFailed("pool acquire timeout"));
          if attempt + 1 < MAX_ACQUIRE_ATTEMPTS {
            LetOthersRun(t, s0, own');
          }
      }
    }

    /**
      At most 32 decisions, all but the last of them Wait. The task leaves with a handle or an error;
      the loop gives up exactly when all 32 decisions were Wait; and it takes part in the opening
      count exactly once if its last decision was to open, undone by exactly one completion step.
    */
    method AcquireHandle(t: Task, key: HostKey, polls: nat -> (Poll, Poll), open: Result<Protocol, DownloadError>)
      returns (r: Result<Handle, DownloadError>, decisions: seq<Action>, ghost own: seq<Step>)
      requires Valid() && t !in sys.claims
      modifies this, pool, pool.hostPools.Values
      ensures Valid() && fresh(pool.hostPools.Values - old(pool.hostPools.Values))
      ensures RunWith(old(sys), sys, pool.connectionsPerHost, t, own)
      ensures 1 <= |decisions| <= 32
      ensures forall i :: 0 <= i < |decisions| - 1 ==> decisions[i] == Wait
      ensures decisions[|decisions| - 1] == Wait ==> |decisions| == 32
      ensures exists deciding :: LoopSteps(deciding, t, key, polls, |decisions|)
                              && RoundEnds(decisions[|decisions| - 1], r, open, t, deciding, own)
      ensures r.Ok? ==> HoldsHandle(sys, t, key, r.value)
      ensures r.Err? ==> t !in sys.claims
    {
      hide Valid, RunWith, Reachable, Exec, HoldsHandle, InLoop, LoopSteps, RoundEnds;
      ghost var cap := pool.connectionsPerHost;
      ghost var s0 := sys;
      r := Err(ConnectionFailed(""));
      Start(t, key);
      own, decisions := [Begin(t, key)], [];
      LoopBegins(t, key, polls);
      for attempt := 0 to MAX_ACQUIRE_ATTEMPTS
        invariant Valid() && fresh(pool.hostPools.Values - old(pool.hostPools.Values))
        invariant RunWith(s0, sys, cap, t, own) && r.Err?
        invariant |decisions| == attempt && LoopSteps(own, t, key, polls, attempt)
        invariant forall i :: 0 <= i < attempt ==> decisions[i] == Wait
        invariant attempt < MAX_ACQUIRE_ATTEMPTS ==> InLoop(sys, t, key, attempt)
        invariant attempt == MAX_ACQUIRE_ATTEMPTS ==> t !in sys.claims && RoundEnds(Wait, r, open, t, own, own)
      {
        ghost var before := own + [Decide(t, polls(attempt).0, polls(attempt).1)];
        LoopGrows(own, t, key, polls, attempt);
        var a;
        a, r, own := Round(t, key, attempt, polls(attempt).0, polls(attempt).1, open, s0, own);
        decisions := decisions + [a];
        if a != Wait {
          return;
        }
        WaitAddsNothing(r, open, t, before, own);
      }
    }

    /** After its request a task gives the handle up, under the lock. */
    method Release(t: Task, key: HostKey, h: Handle, usable: bool)
      requires Valid() && HoldsHandle(sys, t, key, h)
      modifies this`sys, pool.hostPools.Values
      ensures Valid() && RunWith(old(sys), sys, pool.connectionsPerHost, t, [Finish(t, usable)])
      ensures t !in sys.claims && GivenUp(pool.View(), key, h, usable)
    {
      hide RunWith, Reachable, Exec, FinishPools, GivenUp;
      ghost var s' := TakeFinish(sys, pool.connectionsPerHost, t, usable);
      pool.FinishConnection(key, h, usable);
      sys := s';
    }
  }
}
