/**
The round-robin scheduler as a state machine over current, ready, blocked, idle
and defunct, with the object that runs it.
 */
module Scheduler {
  import opened Common

  type Pid = nat

  const PID_BOOTSTRAP: Pid := 0
  const PID_IDLE: Pid := 1
  const DEFAULT_TIME_SLICE: nat := 10
  const PID_MAX: nat := U64_LIMIT - 1

  datatype ProcessState = Ready | Running | Blocked | Zombie

  datatype Process = Process(rsp: nat, pid: Pid, state: ProcessState, remaining: nat, slice: nat)

  datatype SchedError = NotInitialized | AlreadyInitialized | NoSuchBlockedPid

  datatype Sched = Sched(
    initialized: bool,
    ready: seq<Process>,
    current: Option<Process>,
    idle: Option<Process>,
    blocked: seq<Process>,
    defunct: seq<Process>)

  const EMPTY_SCHED := Sched(false, [], None, None, [], [])

  // ---------------------------------------------------------------------
  // The operations
  // ---------------------------------------------------------------------

  /** The bootstrap PCB has no slice and no saved frame yet. */
  const BOOTSTRAP := Process(0, PID_BOOTSTRAP, Running, 0, 0)

  function Init(s: Sched, idleRsp: nat): (Sched, Result<Unit, SchedError>) {
    if s.initialized then (s, Err(AlreadyInitialized))
    else
      var idle := Process(idleRsp, PID_IDLE, Ready, DEFAULT_TIME_SLICE, DEFAULT_TIME_SLICE);
      (s.(initialized := true, idle := Some(idle), current := Some(BOOTSTRAP)), Ok(Unit))
  }

  function Spawn(s: Sched, p: Process): Sched {
    s.(ready := s.ready + [p.(state := Ready, remaining := p.slice)])
  }

  /** Who runs next, and what is left of the queue and the idle slot. `None`
      means no switch happens. */
  function PickNext(s: Sched): Option<(Process, seq<Process>, Option<Process>)> {
    if s.ready != [] then Some((s.ready[0], s.ready[1..], s.idle))
    else if s.current.Some? && s.current.value.state == Running then None
    else match s.idle
      case Some(i) => Some((i, [], None))
      case None => None
  }

  /** File the outgoing task by its state. */
  function Park(s: Sched, out: Process): Sched {
    match out.state
    case Running =>
      var back := out.(state := Ready, remaining := out.slice);
      if out.pid == PID_IDLE then s.(idle := Some(back)) else s.(ready := s.ready + [back])
    case Ready => s.(ready := s.ready + [out])
    case Blocked => s.(blocked := s.blocked + [out])
    case Zombie => s.(defunct := s.defunct + [out])
  }

  /** The core: reap, pick, park the outgoing task with the stack pointer the
      switch saves into it, install the next one. */
  function Schedule(s: Sched, saved: nat): Sched {
    var reaped := s.(defunct := []);
    match PickNext(s)
    case None => reaped
    case Some((next, ready, idle)) =>
      var taken := reaped.(ready := ready, idle := idle, current := None);
      var parked := if s.current.Some? then Park(taken, s.current.value.(rsp := saved)) else taken;
      parked.(current := Some(next.(state := Running, remaining := next.slice)))
  }

  function Tick(s: Sched, saved: nat): Sched {
    if s.current.Some? && s.current.value.state == Running then
      var c := s.current.value;
      var c' := c.(remaining := if c.remaining > 0 then c.remaining - 1 else 0);
      var ticked := s.(current := Some(c'));
      if c'.remaining == 0 then Schedule(ticked, saved) else ticked
    else s
  }

  function ExitCurrent(s: Sched, saved: nat): Sched {
    Schedule(if s.current.Some? then s.(current := Some(s.current.value.(state := Zombie, remaining := 0))) else s, saved)
  }

  function BlockCurrent(s: Sched, saved: nat): Sched {
    Schedule(if s.current.Some? then s.(current := Some(s.current.value.(state := Blocked))) else s, saved)
  }

  /** First position of a pid, or the length. */
  function IndexOf(ps: seq<Process>, pid: Pid): (k: nat)
    ensures k <= |ps| && (k < |ps| ==> ps[k].pid == pid)
    ensures forall j | 0 <= j < k :: ps[j].pid != pid
  {
    if ps == [] || ps[0].pid == pid then 0 else 1 + IndexOf(ps[1..], pid)
  }

  function SwapRemove(ps: seq<Process>, k: nat): seq<Process>
    requires k < |ps|
  {
    ps[k := ps[|ps| - 1]][..|ps| - 1]
  }

  function Unblock(s: Sched, pid: Pid): (Sched, Result<Unit, SchedError>) {
    var k := IndexOf(s.blocked, pid);
    if k == |s.blocked| then (s, Err(NoSuchBlockedPid))
    else
      var p := s.blocked[k];
      (s.(blocked := SwapRemove(s.blocked, k), ready := s.ready + [p.(state := Ready, remaining := p.slice)]), Ok(Unit))
  }

  // ---------------------------------------------------------------------
  // Placement
  // ---------------------------------------------------------------------

  /** How often a pid occurs in a list of processes. */
  function Count(ps: seq<Process>, pid: Pid): nat {
    if ps == [] then 0 else (if ps[0].pid == pid then 1 else 0) + Count(ps[1..], pid)
  }

  function CountSlot(o: Option<Process>, pid: Pid): nat {
    if o.Some? && o.value.pid == pid then 1 else 0
  }

  /** How often a pid occurs anywhere in the scheduler. */
  function Census(s: Sched, pid: Pid): nat {
    CountSlot(s.current, pid) + Count(s.ready, pid) + Count(s.blocked, pid) + CountSlot(s.idle, pid) + Count(s.defunct, pid)
  }

  ghost predicate AllIn(ps: seq<Process>, st: ProcessState) {
    forall k | 0 <= k < |ps| :: ps[k].state == st
  }

  ghost predicate NoIdle(ps: seq<Process>) {
    forall k | 0 <= k < |ps| :: ps[k].pid != PID_IDLE
  }

  /** Nobody is in two places, and every pid was handed out. */
  ghost predicate Unique(s: Sched, nextPid: nat) {
    && (forall pid: Pid :: Census(s, pid) <= 1)
    && (forall pid: Pid | Census(s, pid) > 0 :: pid < nextPid)
  }

  /** Everybody is in the state their place asks for. */
  ghost predicate InState(s: Sched) {
    && s.initialized
    && s.current.Some? && s.current.value.state == Running
    && AllIn(s.ready, Ready) && AllIn(s.blocked, Blocked) && AllIn(s.defunct, Zombie)
    && |s.defunct| <= 1
    && NoIdle(s.ready) && NoIdle(s.blocked) && NoIdle(s.defunct)
    && (s.idle.Some? ==> s.idle.value.pid == PID_IDLE && s.idle.value.state == Ready)
    && (s.idle.None? <==> s.current.value.pid == PID_IDLE)
  }

  /** Everybody is in exactly one place, in the state that place asks for. */
  ghost predicate Placed(s: Sched, nextPid: nat) {
    InState(s) && Unique(s, nextPid) && nextPid >= 2
  }

  lemma {:induction false} CountAppend(a: seq<Process>, b: seq<Process>, pid: Pid)
    ensures Count(a + b, pid) == Count(a, pid) + Count(b, pid)
    decreases |a|
  {
    if a == [] {
      assert a + b == b;
    } else {
      assert (a + b)[1..] == a[1..] + b;
      CountAppend(a[1..], b, pid);
    }
  }

  lemma CountPush(ps: seq<Process>, p: Process, pid: Pid)
    ensures Count(ps + [p], pid) == Count(ps, pid) + if p.pid == pid then 1 else 0
  {
    CountAppend(ps, [p], pid);
    assert [p][1..] == [];
  }

  lemma CountSplit(ps: seq<Process>, k: nat, pid: Pid)
    requires k < |ps|
    ensures Count(ps, pid) == Count(ps[..k], pid) + (if ps[k].pid == pid then 1 else 0) + Count(ps[k + 1..], pid)
  {
    assert ps == ps[..k] + ps[k..];
    CountAppend(ps[..k], ps[k..], pid);
    assert ps[k..][1..] == ps[k + 1..];
  }

  lemma CountSwapRemove(ps: seq<Process>, k: nat, pid: Pid)
    requires k < |ps|
    ensures Count(SwapRemove(ps, k), pid) == Count(ps, pid) - if ps[k].pid == pid then 1 else 0
  {
    var n := |ps| - 1;
    CountSplit(ps, n, pid);
    assert ps[n + 1..] == [];
    if k == n {
      assert SwapRemove(ps, k) == ps[..n];
    } else {
      var front := ps[..n];
      assert SwapRemove(ps, k) == front[k := ps[n]];
      CountSplit(front, k, pid);
      CountSplit(front[k := ps[n]], k, pid);
      assert front[k := ps[n]][..k] == front[..k] && front[k := ps[n]][k + 1..] == front[k + 1..];
    }
  }

  // ---------------------------------------------------------------------
  // schedule() moves, and drops only zombies
  // ---------------------------------------------------------------------

  lemma ParkCensus(s: Sched, out: Process, pid: Pid)
    requires out.state == Running && out.pid == PID_IDLE ==> s.idle.None?
    ensures Census(Park(s, out), pid) == Census(s, pid) + if out.pid == pid then 1 else 0
  {
    CountPush(s.ready, out.(state := Ready, remaining := out.slice), pid);
    CountPush(s.ready, out, pid);
    CountPush(s.blocked, out, pid);
    CountPush(s.defunct, out, pid);
  }

  /** Conservation: a scheduling decision loses nobody but the reaped. */
  lemma ScheduleCensus(s: Sched, saved: nat, pid: Pid)
    requires s.current.Some? && (s.current.value.pid == PID_IDLE ==> s.idle.None?)
    ensures Census(Schedule(s, saved), pid) + Count(s.defunct, pid) == Census(s, pid)
  {
    if PickNext(s).Some? {
      var (next, ready, idle) := PickNext(s).value;
      var taken := s.(defunct := [], ready := ready, idle := idle, current := None);
      if s.ready != [] {
        CountSplit(s.ready, 0, pid);
      }
      ParkCensus(taken, s.current.value.(rsp := saved), pid);
    }
  }

  /** What `schedule` needs of its caller: everybody placed, except that the
      current task may have just been marked. The idle task never is. */
  ghost predicate AlmostPlaced(s: Sched, nextPid: nat) {
    && s.current.Some? && Placed(s.(current := Some(s.current.value.(state := Running))), nextPid)
    && s.current.value.state != Ready
    && (s.current.value.state != Running ==> s.current.value.pid != PID_IDLE)
  }

  lemma ScheduleKeepsUnique(s: Sched, saved: nat, nextPid: nat)
    requires s.current.Some? && (s.current.value.pid == PID_IDLE ==> s.idle.None?)
    requires Unique(s, nextPid)
    ensures Unique(Schedule(s, saved), nextPid)
  {
    hide Schedule, Census;
    forall pid
      ensures Census(Schedule(s, saved), pid) <= Census(s, pid)
    {
      ScheduleCensus(s, saved, pid);
    }
  }

  lemma ScheduleKeepsInState(s: Sched, saved: nat)
    requires s.current.Some? && InState(s.(current := Some(s.current.value.(state := Running))))
    requires s.current.value.state != Ready
    requires s.current.value.state != Running ==> s.current.value.pid != PID_IDLE
    ensures InState(Schedule(s, saved))
  {
  }

  lemma ScheduleKeepsPlaced(s: Sched, saved: nat, nextPid: nat)
    requires AlmostPlaced(s, nextPid)
    ensures Placed(Schedule(s, saved), nextPid)
  {
    var running := s.(current := Some(s.current.value.(state := Running)));
    assert Unique(s, nextPid) by {
      assert forall pid :: Census(s, pid) == Census(running, pid);
    }
    hide Schedule;
    ScheduleKeepsUnique(s, saved, nextPid);
    ScheduleKeepsInState(s, saved);
  }
}
