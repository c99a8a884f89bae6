/**
The scheduler object: its methods update the queue, the slots and the lists in
place, and each is proved to make the move of the state machine.
 */
module SchedulerObject {
  import opened Common
  import opened Scheduler
  import Runs = SchedulerRuns

  class SchedulerState {
    var initialized: bool
    var ready: seq<Process>
    var current: Option<Process>
    var idle: Option<Process>
    var blocked: seq<Process>
    var defunct: seq<Process>

    ghost function View(): Sched
      reads this
    {
      Sched(initialized, ready, current, idle, blocked, defunct)
    }

    constructor ()
      ensures View() == EMPTY_SCHED
    {
      initialized, ready, current := false, [], None;
      idle, blocked, defunct := None, [], [];
    }

    /** Installs the idle task and a PCB for the thread that is already running. */
    method InitIdle(idleRsp: nat) returns (r: Result<Unit, SchedError>)
      modifies this
      ensures (View(), r) == Init(old(View()), idleRsp)
      ensures old(View()) == EMPTY_SCHED ==> r.Ok? && Placed(View(), 2)
    {
      if initialized {
        return Err(AlreadyInitialized);
      }
      idle := Some(Process(idleRsp, PID_IDLE, Ready, DEFAULT_TIME_SLICE, DEFAULT_TIME_SLICE));
      current := Some(BOOTSTRAP);
      initialized := true;
      if old(View()) == EMPTY_SCHED {
        Runs.BootedOk(idleRsp);
      }
      return Ok(Unit);
    }

    method SpawnProcess(p: Process) returns (pid: Pid)
      modifies `ready
      ensures View() == Spawn(old(View()), p) && pid == p.pid
    {
      pid := p.pid;
      ready := ready + [p.(state := Ready, remaining := p.slice)];
    }

    /** The outgoing task goes where its state sends it. */
    method Stash(out: Process)
      modifies `ready, `idle, `blocked, `defunct
      ensures View() == Park(old(View()), out)
    {
      match out.state {
        case Running =>
          var back := out.(state := Ready, remaining := out.slice);
          if out.pid == PID_IDLE {
            idle := Some(back);
          } else {
            ready := ready + [back];
          }
        case Ready => ready := ready + [out];
        case Blocked => blocked := blocked + [out];
        case Zombie => defunct := defunct + [out];
      }
    }

    /** `saved` is the stack pointer the switch stores into the outgoing PCB. */
    method Reschedule(saved: nat)
      modifies this
      ensures View() == Schedule(old(View()), saved)
    {
      defunct := [];
      var next: Process;
      if ready != [] {
        next, ready := ready[0], ready[1..];
      } else if current.Some? && current.value.state == Running {
        return;
      } else if idle.Some? {
        next, idle := idle.value, None;
      } else {
        return;
      }
      var outgoing := current;
      current := None;
      if outgoing.Some? {
        Stash(outgoing.value.(rsp := saved));
      }
      current := Some(next.(state := Running, remaining := next.slice));
    }

    /** A tick short of the end of the slice only counts; the one that ends it
        hands over to the head of the queue, if anybody is waiting. */
    method OnTick(saved: nat)
      modifies this
      ensures View() == Tick(old(View()), saved)
      ensures old(current).Some? && old(current).value.state == Running ==>
                var c := old(current).value;
                && current.Some?
                && (c.remaining > 1 ==> View() == old(View()).(current := Some(c.(remaining := c.remaining - 1))))
                && (c.remaining <= 1 && old(ready) == [] ==> current.value.pid == c.pid && current.value.remaining == 0)
                && (c.remaining <= 1 && old(ready) != [] ==>
                      current.value.pid == old(ready)[0].pid && current.value.remaining == old(ready)[0].slice)
    {
      var needsPreempt := false;
      if current.Some? && current.value.state == Running {
        var c := current.value;
        if c.remaining > 0 {
          c := c.(remaining := c.remaining - 1);
        }
        current := Some(c);
        needsPreempt := c.remaining == 0;
      }
      if needsPreempt {
        Reschedule(saved);
      }
    }

    /** A task other than idle that exits is never current afterwards; what is
        left of it is dropped by the next scheduling decision. */
    method Exit(saved: nat, ghost nextPid: nat)
      modifies this
      ensures View() == ExitCurrent(old(View()), saved)
      ensures old(MayExit(nextPid)) ==>
                && Placed(View(), nextPid) && current.value.pid != old(current.value.pid)
                && Runs.Finished(Runs.Sys(View(), nextPid), old(current.value.pid))
                && Count(defunct, old(current.value.pid)) == 1
    {
      if MayExit(nextPid) {
        ExitLedger(Runs.Sys(View(), nextPid), saved);
      }
      if current.Some? {
        current := Some(current.value.(state := Zombie, remaining := 0));
      }
      Reschedule(saved);
    }

    ghost predicate MayExit(nextPid: nat)
      reads this
    {
      Placed(View(), nextPid) && current.value.pid != PID_IDLE
    }

    method Block(saved: nat)
      modifies this
      ensures View() == BlockCurrent(old(View()), saved)
    {
      if current.Some? {
        current := Some(current.value.(state := Blocked));
      }
      Reschedule(saved);
    }

    method Wake(pid: Pid) returns (r: Result<Unit, SchedError>)
      modifies `ready, `blocked
      ensures (View(), r) == Unblock(old(View()), pid)
      ensures r.Ok? <==> exists k | 0 <= k < |old(blocked)| :: old(blocked)[k].pid == pid
    {
      var k := 0;
      while k < |blocked| && blocked[k].pid != pid
        invariant k <= |blocked|
        invariant forall j | 0 <= j < k :: blocked[j].pid != pid
      {
        k := k + 1;
      }
      if k == |blocked| {
        return Err(NoSuchBlockedPid);
      }
      var p := blocked[k];
      blocked := SwapRemove(blocked, k);
      ready := ready + [p.(state := Ready, remaining := p.slice)];
      return Ok(Unit);
    }
  }

  /** What an exit leaves behind. */
  lemma ExitLedger(x: Runs.Sys, saved: nat)
    requires Runs.Ok(x) && x.s.current.value.pid != PID_IDLE
    ensures var s' := ExitCurrent(x.s, saved);
            var pid := x.s.current.value.pid;
            && Placed(s', x.nextPid) && Runs.Finished(Runs.Sys(s', x.nextPid), pid)
            && s'.current.value.pid != pid && Count(s'.defunct, pid) == 1
  {
    var pid := x.s.current.value.pid;
    var marked := x.s.(current := Some(x.s.current.value.(state := Zombie, remaining := 0)));
    hide Schedule;
    Runs.StepKeepsOk(x, Runs.Exit(saved));
    Runs.ExitFinishes(x, saved);
    ScheduleCensus(marked, saved, pid);
    assert Census(x.s, pid) <= 1;
  }
}
