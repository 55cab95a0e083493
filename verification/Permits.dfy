/**
  The two levels of semaphores around the downloads of one batch, over every interleaving.

  Task `i` first takes a global permit, then a permit of its URL's host (from a semaphore created when
  first asked for), and gives both back when it ends. A task whose URL has no host ends at once. A
  task may also be dropped at any time, giving back what it holds.
*/
module Permits {
  import opened Types

  datatype Phase = Spawned | HasGlobal | Running | Done

  /** `hosts[i]` is the host of task `i`'s URL, if it has one. */
  datatype Batch = Batch(hosts: seq<Option<string>>, globalCap: nat, hostCap: nat)

  datatype State = State(phase: seq<Phase>, globalAvail: nat, hostAvail: map<string, nat>)

  datatype Step = Advance(i: nat) | Drop(i: nat)

  function Init(b: Batch): State {
    State(seq(|b.hosts|, _ => Spawned), b.globalCap, map[])
  }

  function HostAvail(b: Batch, s: State, h: string): nat {
    if h in s.hostAvail then s.hostAvail[h] else b.hostCap
  }

  predicate CanAdvance(b: Batch, s: State, i: nat) {
    && i < |s.phase| && |s.phase| == |b.hosts|
    && match s.phase[i]
       case Spawned => b.hosts[i].None? || s.globalAvail > 0
       case HasGlobal => b.hosts[i].Some? && HostAvail(b, s, b.hosts[i].value) > 0
       case Running => b.hosts[i].Some?
       case Done => false
  }

  predicate Enabled(b: Batch, s: State, step: Step) {
    match step
    case Advance(i) => CanAdvance(b, s, i)
    case Drop(i) => i < |s.phase| && |s.phase| == |b.hosts| && s.phase[i] != Done
  }

  function Apply(b: Batch, s: State, step: Step): State
    requires Enabled(b, s, step)
  {
    var i := step.i;
    match (step, s.phase[i])
    case (Advance(_), Spawned) =>
      if b.hosts[i].None? then s.(phase := s.phase[i := Done])
      else s.(phase := s.phase[i := HasGlobal], globalAvail := s.globalAvail - 1)
    case (Advance(_), HasGlobal) =>
      var h := b.hosts[i].value;
      s.(phase := s.phase[i := Running], hostAvail := s.hostAvail[h := HostAvail(b, s, h) - 1])
    case (_, Running) =>
      if b.hosts[i].None? then s.(phase := s.phase[i := Done])
      else
        var h := b.hosts[i].value;
        State(s.phase[i := Done], s.globalAvail + 1, s.hostAvail[h := HostAvail(b, s, h) + 1])
    case (Drop(_), HasGlobal) => s.(phase := s.phase[i := Done], globalAvail := s.globalAvail + 1)
    case (_, _) => s.(phase := s.phase[i := Done])
  }

  function Exec(b: Batch, s: State, steps: seq<Step>): Option<State>
    decreases |steps|
  {
    if steps == [] then Some(s)
    else if Enabled(b, s, steps[0]) then Exec(b, Apply(b, s, steps[0]), steps[1..])
    else None
  }

  // ---------------------------------------------------------------- permits are conserved

  function HoldsGlobal(s: State): set<nat> {
    set i: nat | i < |s.phase| && (s.phase[i] == HasGlobal || s.phase[i] == Running)
  }

  /** The tasks past both acquires for host `h`. */
  function HoldsHost(b: Batch, s: State, h: string): set<nat> {
    set i: nat | i < |s.phase| && i < |b.hosts| && s.phase[i] == Running && b.hosts[i] == Some(h)
  }

  ghost predicate Inv(b: Batch, s: State) {
    && |s.phase| == |b.hosts|
    && (forall i :: 0 <= i < |s.phase| && b.hosts[i].None? ==> s.phase[i] == Spawned || s.phase[i] == Done)
    && s.globalAvail + |HoldsGlobal(s)| == b.globalCap
    && (forall h :: HostAvail(b, s, h) + |HoldsHost(b, s, h)| == b.hostCap)
  }

  lemma GlobalMoves(s: State, s': State, i: nat)
    requires i < |s.phase| == |s'.phase| && s'.phase == s.phase[i := s'.phase[i]]
    ensures HoldsGlobal(s') == if s'.phase[i] == HasGlobal || s'.phase[i] == Running then HoldsGlobal(s) + {i} else HoldsGlobal(s) - {i}
    ensures i in HoldsGlobal(s) <==> s.phase[i] == HasGlobal || s.phase[i] == Running
  {
  }

  lemma HostMoves(b: Batch, s: State, s': State, i: nat, h: string)
    requires i < |s.phase| == |b.hosts| && |s'.phase| == |s.phase| && s'.phase == s.phase[i := s'.phase[i]]
    ensures HoldsHost(b, s', h) == if s'.phase[i] == Running && b.hosts[i] == Some(h) then HoldsHost(b, s, h) + {i}
                                   else HoldsHost(b, s, h) - {i}
    ensures i in HoldsHost(b, s, h) <==> s.phase[i] == Running && b.hosts[i] == Some(h)
  {
  }

  lemma StepKeeps(b: Batch, s: State, step: Step)
    requires Inv(b, s) && Enabled(b, s, step)
    ensures Inv(b, Apply(b, s, step))
  {
    var i, s' := step.i, Apply(b, s, step);
    StepIs(b, s, step);
    hide Apply, Enabled, HostAvail;
    GlobalMoves(s, s', i);
    forall h
      ensures HostAvail(b, s', h) + |HoldsHost(b, s', h)| == b.hostCap
    {
      HostMoves(b, s, s', i, h);
    }
  }

  lemma InitInv(b: Batch)
    ensures Inv(b, Init(b))
  {
    assert HoldsGlobal(Init(b)) == {};
    assert forall h :: HoldsHost(b, Init(b), h) == {};
  }

  /** Work left: each step of any kind uses some up. */
  function Rank(p: Phase): nat {
    match p
    case Spawned => 3
    case HasGlobal => 2
    case Running => 1
    case Done => 0
  }

  function Work(phase: seq<Phase>): nat {
    if phase == [] then 0 else Work(phase[..|phase| - 1]) + Rank(phase[|phase| - 1])
  }

  lemma {:induction false} WorkUpdate(phase: seq<Phase>, i: nat, p: Phase)
    requires i < |phase|
    ensures Work(phase[i := p]) == Work(phase) - Rank(phase[i]) + Rank(p)
  {
    var n := |phase| - 1;
    if i < n {
      assert phase[i := p][..n] == phase[..n][i := p];
      WorkUpdate(phase[..n], i, p);
    } else {
      assert phase[i := p][..n] == phase[..n];
    }
  }

  lemma StepWorks(b: Batch, s: State, step: Step)
    requires Enabled(b, s, step)
    ensures Work(Apply(b, s, step).phase) < Work(s.phase)
  {
    WorkUpdate(s.phase, step.i, Apply(b, s, step).phase[step.i]);
  }

  lemma {:induction false} RunKeeps(b: Batch, s: State, steps: seq<Step>)
    requires Inv(b, s) && Exec(b, s, steps).Some?
    ensures var s' := Exec(b, s, steps).value;
            Inv(b, s') && Work(s'.phase) + |steps| <= Work(s.phase)
    decreases |steps|
  {
    if steps != [] {
      StepKeeps(b, s, steps[0]);
      StepWorks(b, s, steps[0]);
      RunKeeps(b, Apply(b, s, steps[0]), steps[1..]);
    }
  }

  lemma {:induction false} InitialWork(n: nat)
    ensures Work(seq(n, _ => Spawned)) == 3 * n
  {
    if n > 0 {
      assert seq(n, _ => Spawned)[..n - 1] == seq(n - 1, _ => Spawned);
      InitialWork(n - 1);
    }
  }

  // ---------------------------------------------------------------- the theorems

  ghost predicate AllDone(s: State) {
    forall i :: 0 <= i < |s.phase| ==> s.phase[i] == Done
  }

  ghost predicate SomeoneCanAdvance(b: Batch, s: State) {
    exists i :: CanAdvance(b, s, i)
  }

  /**
    Permit safety, in every state of every run: tasks past both acquires never exceed the host cap
    for one host, nor the global cap in all; whoever holds a host permit holds a global one.
  */
  lemma PermitSafety(b: Batch, steps: seq<Step>)
    requires Exec(b, Init(b), steps).Some?
    ensures var s := Exec(b, Init(b), steps).value;
            && |HoldsGlobal(s)| <= b.globalCap
            && (forall h :: |HoldsHost(b, s, h)| <= b.hostCap && HoldsHost(b, s, h) <= HoldsGlobal(s))
  {
    InitInv(b);
    RunKeeps(b, Init(b), steps);
    var s := Exec(b, Init(b), steps).value;
    forall h
      ensures |HoldsHost(b, s, h)| <= b.hostCap
    {
      assert HostAvail(b, s, h) + |HoldsHost(b, s, h)| == b.hostCap;
    }
  }

  /** With both caps positive, a task that is not done leaves someone able to step. */
  lemma Progress(b: Batch, s: State, i: nat)
    requires Inv(b, s) && b.globalCap >= 1 && b.hostCap >= 1
    requires i < |s.phase| && s.phase[i] != Done
    ensures SomeoneCanAdvance(b, s)
  {
    if j :| 0 <= j < |s.phase| && s.phase[j] == Running {
      assert CanAdvance(b, s, j);
    } else if j :| 0 <= j < |s.phase| && s.phase[j] == HasGlobal {
      var h := b.hosts[j].value;
      assert HoldsHost(b, s, h) == {};
      assert HostAvail(b, s, h) + |HoldsHost(b, s, h)| == b.hostCap;
      assert CanAdvance(b, s, j);
    } else {
      assert HoldsGlobal(s) == {};
      assert CanAdvance(b, s, i);
    }
  }

  /** Every run is short, and one that nobody can continue has brought every task to its end. */
  lemma EveryRunFinishes(b: Batch, steps: seq<Step>)
    requires b.globalCap >= 1 && b.hostCap >= 1 && Exec(b, Init(b), steps).Some?
    ensures |steps| <= 3 * |b.hosts|
    ensures var s := Exec(b, Init(b), steps).value;
            SomeoneCanAdvance(b, s) || AllDone(s)
  {
    InitInv(b);
    InitialWork(|b.hosts|);
    RunKeeps(b, Init(b), steps);
    var s := Exec(b, Init(b), steps).value;
    if i :| 0 <= i < |s.phase| && s.phase[i] != Done {
      Progress(b, s, i);
    }
  }

  // ---------------------------------------------------------------- nobody skips a semaphore

  /**
    What one step of a task does, permit by permit: a task with a host takes a global permit, then one
    of its host, then gives both back; a task without one ends at once. A dropped task gives back
    exactly what it holds. Nobody else's phase and no other host's permits change.
  */
  lemma StepIs(b: Batch, s: State, step: Step)
    requires Inv(b, s) && Enabled(b, s, step)
    ensures var (i, s') := (step.i, Apply(b, s, step));
            && |s'.phase| == |s.phase| && (forall j :: 0 <= j < |s.phase| && j != i ==> s'.phase[j] == s.phase[j])
            && (step.Advance? && b.hosts[i].Some? ==>
                  (s.phase[i], s'.phase[i]) in {(Spawned, HasGlobal), (HasGlobal, Running), (Running, Done)})
            && ((step.Advance? && b.hosts[i].None?) || step.Drop? ==> s'.phase[i] == Done)
            && s'.globalAvail - s.globalAvail == GlobalHeld(s.phase[i]) - GlobalHeld(s'.phase[i])
            && (forall h :: HostAvail(b, s', h) - HostAvail(b, s, h)
                            == if b.hosts[i] == Some(h) then HostHeld(s.phase[i]) - HostHeld(s'.phase[i]) else 0)
  {
  }

  /**
    Any task that is not done can be dropped. Who can go on: a task waiting for a permit exactly when fewer tasks than the cap hold one, and a
    task whose URL has no host, or which is past both acquires, always.
  */
  lemma WhoCanAdvance(b: Batch, s: State, i: nat)
    requires Inv(b, s) && i < |b.hosts|
    ensures Enabled(b, s, Drop(i)) <==> s.phase[i] == Spawned || s.phase[i] == HasGlobal || s.phase[i] == Running
    ensures CanAdvance(b, s, i) <==>
              match (s.phase[i], b.hosts[i])
              case (Spawned, None) => true
              case (Spawned, Some(_)) => |HoldsGlobal(s)| < b.globalCap
              case (HasGlobal, Some(h)) => |HoldsHost(b, s, h)| < b.hostCap
              case (Running, Some(_)) => true
              case (_, _) => false
  {
    if b.hosts[i].Some? {
      var h := b.hosts[i].value;
      assert HostAvail(b, s, h) + |HoldsHost(b, s, h)| == b.hostCap;
    }
  }

  ghost function GlobalHeld(p: Phase): int {
    match p
    case Spawned => 0
    case HasGlobal => 1
    case Running => 1
    case Done => 0
  }

  ghost function HostHeld(p: Phase): int {
    match p
    case Spawned => 0
    case HasGlobal => 0
    case Running => 1
    case Done => 0
  }

  /** In every run in which it is not dropped, a task with a host is done only after having run. */
  lemma {:induction false} RunsBeforeDone(b: Batch, s: State, steps: seq<Step>, i: nat)
    requires Inv(b, s) && i < |b.hosts| && b.hosts[i].Some? && s.phase[i] != Done
    requires Drop(i) !in steps && DoneAfter(b, s, steps, i)
    ensures exists k :: 0 <= k <= |steps| && RunningAfter(b, s, steps[..k], i)
    decreases |steps|
  {
    if s.phase[i] == Running {
      assert RunningAfter(b, s, steps[..0], i);
    } else {
      var s1 := Apply(b, s, steps[0]);
      StepKeeps(b, s, steps[0]);
      StepIs(b, s, steps[0]);
      assert steps[0] in steps;
      RunsBeforeDone(b, s1, steps[1..], i);
      var k :| 0 <= k <= |steps[1..]| && RunningAfter(b, s1, steps[1..][..k], i);
      assert steps[..k + 1][1..] == steps[1..][..k];
      assert RunningAfter(b, s, steps[..k + 1], i);
    }
  }

  ghost predicate DoneAfter(b: Batch, s: State, steps: seq<Step>, i: nat) {
    match Exec(b, s, steps)
    case Some(s') => i < |s'.phase| && s'.phase[i] == Done
    case None => false
  }

  /** After these steps task `i` is past both acquires. */
  ghost predicate RunningAfter(b: Batch, s: State, steps: seq<Step>, i: nat) {
    match Exec(b, s, steps)
    case Some(s') => i < |s'.phase| && s'.phase[i] == Running && i in HoldsGlobal(s')
    case None => false
  }

  // ---------------------------------------------------------------- caps of zero

  ghost predicate NoDrop(steps: seq<Step>) {
    forall i :: 0 <= i < |steps| ==> steps[i].Advance?
  }

  /** No hosted task has got past the empty semaphore. */
  ghost predicate Blocked(b: Batch, s: State) {
    forall i :: 0 <= i < |s.phase| && i < |b.hosts| && b.hosts[i].Some? ==>
      s.phase[i] == Spawned || (b.globalCap > 0 && s.phase[i] == HasGlobal)
  }

  /** With an empty semaphore some run leaves all hosted tasks waiting and nobody able to step. */
  lemma BlocksForEver(b: Batch, s: State) returns (steps: seq<Step>)
    requires Inv(b, s) && Blocked(b, s) && (b.globalCap == 0 || b.hostCap == 0)
    ensures NoDrop(steps) && Exec(b, s, steps).Some?
    ensures var s' := Exec(b, s, steps).value;
            Blocked(b, s') && |s'.phase| == |b.hosts| && !SomeoneCanAdvance(b, s')
    decreases Work(s.phase)
  {
    if SomeoneCanAdvance(b, s) {
      var i :| CanAdvance(b, s, i);
      var s1 := Apply(b, s, Advance(i));
      StepKeeps(b, s, Advance(i));
      StepWorks(b, s, Advance(i));
      BlockedStays(b, s, i);
      var rest := BlocksForEver(b, s1);
      steps := [Advance(i)] + rest;
      assert steps[1..] == rest;
    } else {
      steps := [];
    }
  }

  lemma BlockedStays(b: Batch, s: State, i: nat)
    requires Inv(b, s) && Blocked(b, s) && (b.globalCap == 0 || b.hostCap == 0) && CanAdvance(b, s, i)
    ensures Blocked(b, Apply(b, s, Advance(i)))
  {
    if b.hosts[i].Some? {
      var h := b.hosts[i].value;
      assert HostAvail(b, s, h) + |HoldsHost(b, s, h)| == b.hostCap;
    }
  }

  /**
    For a batch with at least one URL that has a host, no reachable state is a deadlock if and only
    if both caps are at least 1.
  */
  lemma DeadlockFreeIff(b: Batch)
    requires exists i :: 0 <= i < |b.hosts| && b.hosts[i].Some?
    ensures (forall steps :: NoDrop(steps) && Exec(b, Init(b), steps).Some? ==>
               AllDone(Exec(b, Init(b), steps).value) || SomeoneCanAdvance(b, Exec(b, Init(b), steps).value))
            <==> b.globalCap >= 1 && b.hostCap >= 1
  {
    if b.globalCap >= 1 && b.hostCap >= 1 {
      forall steps | NoDrop(steps) && Exec(b, Init(b), steps).Some?
        ensures AllDone(Exec(b, Init(b), steps).value) || SomeoneCanAdvance(b, Exec(b, Init(b), steps).value)
      {
        EveryRunFinishes(b, steps);
      }
    } else {
      InitInv(b);
      var steps := BlocksForEver(b, Init(b));
      var s := Exec(b, Init(b), steps).value;
      var i :| 0 <= i < |b.hosts| && b.hosts[i].Some?;
      assert s.phase[i] != Done;
    }
  }
}
