/**
Who runs, and for how long: a task keeps the processor for its slice, hands it
to the head of the queue at the end of it, and is only passed over while it is
blocked.
 */
module SchedulerSlices {
  import Common
  import opened Scheduler
  import opened SchedulerRuns

  // ---------------------------------------------------------------------
  // The slice
  // ---------------------------------------------------------------------

  /** Calls by which the running task does not give up the processor itself. */
  predicate Undisturbed(op: Op) {
    op.TimerTick? || op.SpawnTask? || op.Wake?
  }

  ghost predicate AllUndisturbed(ops: seq<Op>) {
    forall k | 0 <= k < |ops| :: Undisturbed(ops[k])
  }

  /** A tick short of the end of the slice, a spawn or a wake-up: the running
      task stays, and the queue only grows at its end. */
  lemma StepInSlice(x: Sys, op: Op)
    requires Ok(x) && Undisturbed(op)
    requires op.TimerTick? ==> x.s.current.value.remaining > 1
    ensures var c := x.s.current.value;
            var s' := Step(x, op).s;
            && s'.current == Common.Some(c.(remaining := c.remaining - if op.TimerTick? then 1 else 0))
            && x.s.ready <= s'.ready
  {
    hide Unique;
  }

  /** A task keeps the processor until its slice is used up, whatever is spawned
      or woken meanwhile, and each tick costs it exactly one. */
  lemma {:induction false} SliceKept(x: Sys, ops: seq<Op>)
    requires Ok(x) && Allowed(x, ops) && AllUndisturbed(ops)
    requires Ticks(ops) < AtLeastOne(x.s.current.value.remaining)
    ensures var c := x.s.current.value;
            var s' := Run(x, ops).s;
            && Ticks(ops) <= c.remaining
            && s'.current == Common.Some(c.(remaining := c.remaining - Ticks(ops)))
            && x.s.ready <= s'.ready
    decreases |ops|
  {
    hide Ok, Step, InState, Unique;
    CurrentIsThere(x);
    if ops != [] {
      StepKeepsOk(x, ops[0]);
      StepInSlice(x, ops[0]);
      SliceKept(Step(x, ops[0]), ops[1..]);
    }
  }

  lemma CurrentIsThere(x: Sys)
    requires Ok(x)
    ensures x.s.current.Some? && x.s.current.value.state == Running
  {
  }

  /** The tick that ends the slice hands the processor to the head of the queue,
      with a slice of its own; the old task, unless it is idle, goes to the back.
      With nobody waiting it just goes on. */
  lemma SliceEnds(x: Sys, ops: seq<Op>, rsp: nat)
    requires Ok(x) && Allowed(x, ops) && AllUndisturbed(ops)
    requires Ticks(ops) == AtLeastOne(x.s.current.value.remaining) - 1
    ensures var c := x.s.current.value;
            var waiting := Run(x, ops).s.ready;
            var s' := Step(Run(x, ops), TimerTick(rsp)).s;
            && x.s.ready <= waiting && s'.current.Some?
            && (if waiting == [] then s'.current.value.pid == c.pid && s'.ready == []
                else
                  && s'.current.value.pid == waiting[0].pid && s'.current.value.remaining == waiting[0].slice
                  && (if c.pid == PID_IDLE then s'.ready == waiting[1..]
                      else
                        && |s'.ready| == |waiting| && s'.ready[..|waiting| - 1] == waiting[1..]
                        && s'.ready[|waiting| - 1].pid == c.pid))
  {
    hide Ok, Run, Allowed, Ticks;
    CurrentIsThere(x);
    SliceKept(x, ops);
    RunKeepsOk(x, ops);
    CurrentIsThere(Run(x, ops));
    LastTick(Run(x, ops), rsp);
  }

  lemma LastTick(x: Sys, rsp: nat)
    requires Ok(x) && x.s.current.value.remaining <= 1
    ensures var c := x.s.current.value;
            var waiting := x.s.ready;
            var s' := Step(x, TimerTick(rsp)).s;
            && s'.current.Some?
            && (if waiting == [] then s'.current.value.pid == c.pid && s'.ready == []
                else
                  && s'.current.value.pid == waiting[0].pid && s'.current.value.remaining == waiting[0].slice
                  && (if c.pid == PID_IDLE then s'.ready == waiting[1..]
                      else
                        && |s'.ready| == |waiting| && s'.ready[..|waiting| - 1] == waiting[1..]
                        && s'.ready[|waiting| - 1].pid == c.pid))
  {
    hide Unique;
  }

  // ---------------------------------------------------------------------
  // Giving up the processor
  // ---------------------------------------------------------------------

  /** The idle task is put on only when nobody is ready, and then exactly when
      the running task blocks or exits. */
  lemma IdleIsLastResort(x: Sys, op: Op)
    requires Ok(x) && Enabled(x, op) && !IsCurrent(x, PID_IDLE)
    ensures IsCurrent(Step(x, op), PID_IDLE) <==> x.s.ready == [] && (op.Exit? || op.Block?)
  {
    hide Unique;
  }

  /** With nobody waiting, neither a tick nor a yield takes the processor away. */
  lemma AloneKeepsRunning(x: Sys, op: Op)
    requires Ok(x) && x.s.ready == [] && (op.TimerTick? || op.YieldNow?)
    ensures IsCurrent(Step(x, op), x.s.current.value.pid)
  {
    hide Unique;
  }

  /** Giving it up lets the head of the queue run, with a full slice. */
  lemma HeadRunsNext(x: Sys, op: Op)
    requires Ok(x) && Enabled(x, op) && x.s.ready != [] && (op.YieldNow? || op.Exit? || op.Block?)
    ensures var s' := Step(x, op).s;
            && s'.current.Some? && s'.current.value.pid == x.s.ready[0].pid
            && s'.current.value.remaining == x.s.ready[0].slice
  {
    hide Unique;
  }

  // ---------------------------------------------------------------------
  // Blocking and waking
  // ---------------------------------------------------------------------

  ghost predicate IsBlocked(x: Sys, pid: Pid) {
    Count(x.s.blocked, pid) > 0
  }

  lemma ScheduleKeepsBlocked(s: Sched, saved: nat, pid: Pid)
    ensures Count(Schedule(s, saved).blocked, pid) >= Count(s.blocked, pid)
    ensures s.current.Some? && s.current.value.state == Blocked && PickNext(s).Some? ==>
              Count(Schedule(s, saved).blocked, s.current.value.pid) > 0
  {
    if s.current.Some? {
      var out := s.current.value.(rsp := saved);
      CountPush(s.blocked, out, pid);
      CountPush(s.blocked, out, out.pid);
    }
  }

  /** A task that blocks is parked and somebody else runs. */
  lemma BlockParks(x: Sys, rsp: nat)
    requires Ok(x) && Enabled(x, Block(rsp))
    ensures var x' := Step(x, Block(rsp));
            IsBlocked(x', x.s.current.value.pid) && !IsCurrent(x', x.s.current.value.pid)
  {
    hide Schedule, Unique;
    var pid := x.s.current.value.pid;
    ScheduleKeepsBlocked(x.s.(current := Common.Some(x.s.current.value.(state := Blocked))), rsp, pid);
    StepKeepsOk(x, Block(rsp));
    BlockedIsNotCurrent(Step(x, Block(rsp)), pid);
  }

  lemma BlockedIsNotCurrent(x: Sys, pid: Pid)
    requires Ok(x) && IsBlocked(x, pid)
    ensures !IsCurrent(x, pid)
  {
    assert Census(x.s, pid) <= 1;
  }

  lemma StepKeepsBlocked(x: Sys, op: Op, pid: Pid)
    requires Ok(x) && Enabled(x, op) && IsBlocked(x, pid) && op != Wake(pid)
    ensures IsBlocked(Step(x, op), pid)
  {
    hide Schedule, Unique;
    var c := x.s.current.value;
    match op
    case TimerTick(rsp) =>
      var c' := c.(remaining := if c.remaining > 0 then c.remaining - 1 else 0);
      ScheduleKeepsBlocked(x.s.(current := Common.Some(c')), rsp, pid);
    case YieldNow(rsp) => ScheduleKeepsBlocked(x.s, rsp, pid);
    case Exit(rsp) => ScheduleKeepsBlocked(x.s.(current := Common.Some(c.(state := Zombie, remaining := 0))), rsp, pid);
    case Block(rsp) => ScheduleKeepsBlocked(x.s.(current := Common.Some(c.(state := Blocked))), rsp, pid);
    case SpawnTask(_, _) =>
    case Wake(q) =>
      var j := IndexOf(x.s.blocked, q);
      if j < |x.s.blocked| {
        CountSwapRemove(x.s.blocked, j, pid);
      }
  }

  /** A blocked task does not run until it is woken, under any run. */
  lemma {:induction false} BlockedUntilWoken(x: Sys, ops: seq<Op>, pid: Pid)
    requires Ok(x) && Allowed(x, ops) && IsBlocked(x, pid) && Wake(pid) !in ops
    ensures IsBlocked(Run(x, ops), pid) && !IsCurrent(Run(x, ops), pid)
    decreases |ops|
  {
    hide Ok, Step, IsBlocked, IsCurrent;
    if ops == [] {
      BlockedIsNotCurrent(x, pid);
    } else {
      assert ops[0] in ops;
      StepKeepsOk(x, ops[0]);
      StepKeepsBlocked(x, ops[0], pid);
      BlockedUntilWoken(Step(x, ops[0]), ops[1..], pid);
    }
  }

  lemma {:induction false} CountedIsThere(ps: seq<Process>, pid: Pid)
    requires Count(ps, pid) > 0
    ensures IndexOf(ps, pid) < |ps|
  {
    if ps[0].pid != pid { CountedIsThere(ps[1..], pid); }
  }

  /** A task that is woken gets the processor within the time left to the
      running task and the slices of those already waiting. */
  lemma WokenRuns(x: Sys, pid: Pid, ops: seq<Op>) returns (n: nat)
    requires Ok(x) && IsBlocked(x, pid) && Allowed(Step(x, Wake(pid)), ops)
    requires Ticks(ops) >= Wait(x.s, |x.s.ready|)
    ensures n <= |ops| && IsCurrent(Run(Step(x, Wake(pid)), ops[..n]), pid)
  {
    hide Allowed, Run, Unique;
    CountedIsThere(x.s.blocked, pid);
    var x' := Step(x, Wake(pid));
    StepKeepsOk(x, Wake(pid));
    var k := |x.s.ready|;
    assert x'.s.ready[..k] == x.s.ready == x.s.ready[..k] && x'.s.ready[k].pid == pid;
    n := BoundedWaiting(x', ops, k);
  }

  /** So does a task that has just been spawned. */
  lemma SpawnedRuns(x: Sys, rsp: nat, slice: nat, ops: seq<Op>) returns (n: nat)
    requires Ok(x) && Enabled(x, SpawnTask(rsp, slice)) && Allowed(Step(x, SpawnTask(rsp, slice)), ops)
    requires Ticks(ops) >= Wait(x.s, |x.s.ready|)
    ensures n <= |ops| && IsCurrent(Run(Step(x, SpawnTask(rsp, slice)), ops[..n]), x.nextPid)
  {
    hide Allowed, Run, Unique;
    var x' := Step(x, SpawnTask(rsp, slice));
    StepKeepsOk(x, SpawnTask(rsp, slice));
    var k := |x.s.ready|;
    assert x'.s.ready[..k] == x.s.ready == x.s.ready[..k] && x'.s.ready[k].pid == x.nextPid;
    n := BoundedWaiting(x', ops, k);
  }
}
