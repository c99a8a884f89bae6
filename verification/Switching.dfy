/**
The scheduler on the machine: tasks run on their own stacks, every scheduling
decision that changes who runs is a context switch, and a resumed task
continues exactly where it was suspended.
 */
module Switching {
  import opened Common
  import opened Scheduler
  import opened ContextSwitch
  import Runs = SchedulerRuns

  /** `stacks` gives the stack of every process that still exists. `left` is a
      history variable: what each task was doing when it was suspended, or what
      it was launched with. No step reads it. */
  datatype World = World(s: Sched, nextPid: nat, cpu: Cpu, mem: Mem, stacks: map<Pid, Region>, left: map<Pid, Cpu>)

  datatype Call = TickCall | YieldCall | ExitCall | BlockCall | WakeCall(pid: Pid)

  datatype Op =
    | Compute(cpu: Cpu, mem: Mem)
    | Enter(call: Call)
    | Launch(base: nat, size: nat, entry: nat, slice: nat)

  function SysOf(w: World): Runs.Sys {
    Runs.Sys(w.s, w.nextPid)
  }

  function CurrentPid(w: World): Pid
    requires w.s.current.Some?
  {
    w.s.current.value.pid
  }

  /** The scheduler call, with the stack pointer a switch saves. */
  function Request(w: World, call: Call): Runs.Op {
    var saved := if w.cpu.rsp >= FRAME then w.cpu.rsp - FRAME else 0;
    match call
    case TickCall => Runs.TimerTick(saved)
    case YieldCall => Runs.YieldNow(saved)
    case ExitCall => Runs.Exit(saved)
    case BlockCall => Runs.Block(saved)
    case WakeCall(pid) => Runs.Wake(pid)
  }

  /** The current task moves only on its own stack and leaves the stacks of the
      others alone; it has room for a frame when it calls the scheduler; a new
      stack is memory no process owns. */
  ghost predicate Enabled(w: World, op: Op)
    requires w.s.current.Some?
  {
    match op
    case Compute(cpu, mem) =>
      && CurrentPid(w) in w.stacks && On(cpu.rsp, w.stacks[CurrentPid(w)])
      && forall pid | pid in w.stacks && pid != CurrentPid(w) :: AgreeOn(w.mem, mem, w.stacks[pid])
    case Enter(call) =>
      && Runs.Enabled(SysOf(w), Request(w, call))
      && CurrentPid(w) in w.stacks && w.stacks[CurrentPid(w)].lo + FRAME <= w.cpu.rsp
    case Launch(base, size, _, _) =>
      && w.nextPid < PID_MAX && 80 <= size && base + size < U64_LIMIT
      && forall pid | pid in w.stacks :: Apart(Region(base, base + size), w.stacks[pid])
  }

  ghost predicate On(sp: nat, r: Region) {
    sp % 8 == 0 && r.lo <= sp <= r.hi
  }

  /** A process that is dropped takes its stack with it. */
  function Owned(stacks: map<Pid, Region>, s: Sched): map<Pid, Region> {
    map pid | pid in stacks && Census(s, pid) > 0 :: stacks[pid]
  }

  /** A scheduler call; when it changes who runs, the switch saves the outgoing
      one's frame and loads the incoming one's. */
  function Entered(w: World, s': Sched): World
    requires w.s.current.Some? && w.cpu.rsp >= FRAME
  {
    var rest := w.(s := s', stacks := Owned(w.stacks, s'));
    if s'.current.Some? && s'.current.value.pid != CurrentPid(w) then
      var mem' := PushFrame(w.mem, w.cpu);
      rest.(cpu := LoadFrame(mem', s'.current.value.rsp), mem := mem', left := w.left[CurrentPid(w) := w.cpu])
    else rest
  }

  ghost function Step(w: World, op: Op): World
    requires w.s.current.Some? && Enabled(w, op)
  {
    match op
    case Compute(cpu, mem) => w.(cpu := cpu, mem := mem)
    case Enter(call) => Entered(w, Runs.Step(SysOf(w), Request(w, call)).s)
    case Launch(base, size, entry, slice) =>
      var top := LaunchTop(base, size);
      var x' := Runs.Step(SysOf(w), Runs.SpawnTask(top - 64, slice));
      World(x'.s, x'.nextPid, w.cpu, LaunchMem(w.mem, top, entry),
            w.stacks[w.nextPid := Region(base, base + size)], w.left[w.nextPid := Launched(top, entry)])
  }

  // ---------------------------------------------------------------------
  // The invariant
  // ---------------------------------------------------------------------

  /** The process waits somewhere it may be picked from. */
  ghost predicate Parks(s: Sched, p: Process) {
    p in s.ready || p in s.blocked || s.idle == Some(p)
  }

  /** The frame at `sp` lies on the stack `r` and brings back `c`. */
  ghost predicate Frozen(m: Mem, sp: nat, r: Region, c: Cpu) {
    sp % 8 == 0 && r.lo <= sp && sp + FRAME <= r.hi && LoadFrame(m, sp) == c
  }

  ghost predicate StacksApart(stacks: map<Pid, Region>) {
    forall p, q | p in stacks && q in stacks && p != q :: Apart(stacks[p], stacks[q])
  }

  ghost predicate AllFrozen(w: World) {
    forall p | Parks(w.s, p) ::
      p.pid in w.stacks && p.pid in w.left && Frozen(w.mem, p.rsp, w.stacks[p.pid], w.left[p.pid])
  }

  ghost predicate StacksOwned(w: World) {
    forall pid: Pid :: pid in w.stacks <==> Census(w.s, pid) > 0
  }

  ghost predicate Inv(w: World) {
    && Runs.Ok(SysOf(w)) && StacksOwned(w) && StacksApart(w.stacks) && AllFrozen(w)
    && CurrentPid(w) in w.stacks && On(w.cpu.rsp, w.stacks[CurrentPid(w)])
  }

  // ---------------------------------------------------------------------
  // Who is parked after a scheduling decision
  // ---------------------------------------------------------------------

  lemma {:induction false} MemberCounts(ps: seq<Process>, p: Process)
    requires p in ps
    ensures Count(ps, p.pid) > 0
  {
    if ps[0] != p {
      MemberCounts(ps[1..], p);
    }
  }

  lemma ParkedCounts(s: Sched, p: Process)
    requires Parks(s, p)
    ensures Census(s, p.pid) > CountSlot(s.current, p.pid)
  {
    if p in s.ready {
      MemberCounts(s.ready, p);
    } else if p in s.blocked {
      MemberCounts(s.blocked, p);
    }
  }

  lemma ParkedIsNotRunning(w: World, p: Process)
    requires Runs.Ok(SysOf(w)) && Parks(w.s, p)
    ensures p.pid != CurrentPid(w)
  {
    ParkedCounts(w.s, p);
    assert Census(w.s, p.pid) <= 1;
  }

  /** Same saved state, apart from the slice bookkeeping. */
  ghost predicate SameFrame(p: Process, q: Process) {
    p.pid == q.pid && p.rsp == q.rsp
  }

  ghost predicate WasParked(s: Sched, q: Process) {
    exists p :: Parks(s, p) && SameFrame(p, q)
  }

  lemma StillParked(s: Sched, q: Process)
    requires Parks(s, q)
    ensures WasParked(s, q)
  {
    assert SameFrame(q, q);
  }

  /** After a decision, a parked process was parked before, or is the outgoing
      task with the stack pointer just saved. */
  lemma ScheduleParks(s: Sched, saved: nat, q: Process)
    requires s.current.Some? && Parks(Schedule(s, saved), q)
    ensures WasParked(s, q) || (q.pid == s.current.value.pid && q.rsp == saved && PickNext(s).Some?)
  {
    if Parks(s, q) {
      StillParked(s, q);
    }
  }

  lemma SchedulePicks(s: Sched, saved: nat)
    requires PickNext(s).Some?
    ensures Schedule(s, saved).current.Some? && WasParked(s, Schedule(s, saved).current.value)
  {
    var next := PickNext(s).value.0;
    assert Parks(s, next) && SameFrame(next, Schedule(s, saved).current.value);
  }

  lemma ParksIgnoresCurrent(s: Sched, c: Process, q: Process)
    requires WasParked(s.(current := Some(c)), q)
    ensures WasParked(s, q)
  {
    var p :| Parks(s.(current := Some(c)), p) && SameFrame(p, q);
    assert Parks(s, p);
  }

  lemma MarkedParks(s: Sched, c: Process, saved: nat, q: Process)
    requires s.current.Some? && c.pid == s.current.value.pid && Parks(Schedule(s.(current := Some(c)), saved), q)
    ensures WasParked(s, q) || (q.pid == s.current.value.pid && q.rsp == saved)
  {
    hide *;
    var marked := s.(current := Some(c));
    ScheduleParks(marked, saved, q);
    if WasParked(marked, q) {
      ParksIgnoresCurrent(s, c, q);
    }
  }

  lemma EnterParks(x: Runs.Sys, op: Runs.Op, q: Process)
    requires Runs.Ok(x) && !op.SpawnTask? && Parks(Runs.Step(x, op).s, q)
    ensures WasParked(x.s, q) || (!op.Wake? && q.pid == x.s.current.value.pid && q.rsp == op.rsp)
  {
    hide Schedule, WasParked, Unique;
    var c := x.s.current.value;
    assert x.s.(current := Some(c)) == x.s;
    match op
    case TimerTick(rsp) =>
      var c' := c.(remaining := if c.remaining > 0 then c.remaining - 1 else 0);
      if c'.remaining == 0 {
        MarkedParks(x.s, c', rsp, q);
      } else {
        StillParked(x.s, q);
      }
    case YieldNow(rsp) => MarkedParks(x.s, c, rsp, q);
    case Exit(rsp) => MarkedParks(x.s, c.(state := Zombie, remaining := 0), rsp, q);
    case Block(rsp) => MarkedParks(x.s, c.(state := Blocked), rsp, q);
    case Wake(pid) => WakeParks(x.s, pid, q);
  }

  lemma WakeParks(s: Sched, pid: Pid, q: Process)
    requires Parks(Unblock(s, pid).0, q)
    ensures WasParked(s, q)
  {
    if Parks(s, q) {
      StillParked(s, q);
    } else {
      var p := s.blocked[IndexOf(s.blocked, pid)];
      assert Parks(s, p) && SameFrame(p, q);
    }
  }

  lemma MarkedPicks(s: Sched, c: Process, saved: nat)
    requires s.current.Some? && c.pid == s.current.value.pid
    ensures var s' := Schedule(s.(current := Some(c)), saved);
            s'.current.Some? && s'.current.value.pid != c.pid ==> WasParked(s, s'.current.value)
  {
    var marked := s.(current := Some(c));
    if PickNext(marked).Some? {
      SchedulePicks(marked, saved);
      ParksIgnoresCurrent(s, c, Schedule(marked, saved).current.value);
    }
  }

  /** Whoever becomes current was parked. */
  lemma EnterPicks(x: Runs.Sys, op: Runs.Op)
    requires Runs.Ok(x) && !op.SpawnTask?
    ensures var s' := Runs.Step(x, op).s;
            s'.current.Some? && s'.current.value.pid != x.s.current.value.pid ==> WasParked(x.s, s'.current.value)
  {
    hide Schedule, WasParked, Unique;
    var c := x.s.current.value;
    assert x.s.(current := Some(c)) == x.s;
    match op
    case TimerTick(rsp) => MarkedPicks(x.s, c.(remaining := if c.remaining > 0 then c.remaining - 1 else 0), rsp);
    case YieldNow(rsp) => MarkedPicks(x.s, c, rsp);
    case Exit(rsp) => MarkedPicks(x.s, c.(state := Zombie, remaining := 0), rsp);
    case Block(rsp) => MarkedPicks(x.s, c.(state := Blocked), rsp);
    case Wake(pid) =>
  }

  lemma MarkedCensus(s: Sched, c: Process, saved: nat, pid: Pid)
    requires s.current.Some? && c.pid == s.current.value.pid && (c.pid == PID_IDLE ==> s.idle.None?)
    ensures Census(Schedule(s.(current := Some(c)), saved), pid) <= Census(s, pid)
  {
    hide Schedule, Count;
    ScheduleCensus(s.(current := Some(c)), saved, pid);
  }

  lemma WakeCensus(s: Sched, q: Pid, pid: Pid)
    ensures Census(Unblock(s, q).0, pid) == Census(s, pid)
  {
    hide Count;
    var j := IndexOf(s.blocked, q);
    if j < |s.blocked| {
      var p := s.blocked[j];
      CountPush(s.ready, p.(state := Ready, remaining := p.slice), pid);
      CountSwapRemove(s.blocked, j, pid);
    }
  }

  /** No call brings in a process that did not exist. */
  lemma EnterCensus(x: Runs.Sys, op: Runs.Op, pid: Pid)
    requires Runs.Ok(x) && !op.SpawnTask?
    ensures Census(Runs.Step(x, op).s, pid) <= Census(x.s, pid)
  {
    hide Schedule, Unique, Count, Unblock;
    var c := x.s.current.value;
    assert x.s.(current := Some(c)) == x.s;
    match op
    case TimerTick(rsp) => MarkedCensus(x.s, c.(remaining := if c.remaining > 0 then c.remaining - 1 else 0), rsp, pid);
    case YieldNow(rsp) => MarkedCensus(x.s, c, rsp, pid);
    case Exit(rsp) => MarkedCensus(x.s, c.(state := Zombie, remaining := 0), rsp, pid);
    case Block(rsp) => MarkedCensus(x.s, c.(state := Blocked), rsp, pid);
    case Wake(q) => WakeCensus(x.s, q, pid);
  }

  // ---------------------------------------------------------------------
  // Every step keeps every frame
  // ---------------------------------------------------------------------

  lemma FrozenKept(m: Mem, m': Mem, sp: nat, r: Region, c: Cpu)
    requires Frozen(m, sp, r, c) && AgreeOn(m, m', r)
    ensures Frozen(m', sp, r, c)
  {
    FrameKept(m, m', r, sp);
  }

  lemma PushStaysHome(w: World, r: Region)
    requires w.s.current.Some? && CurrentPid(w) in w.stacks && Apart(w.stacks[CurrentPid(w)], r)
    requires On(w.cpu.rsp, w.stacks[CurrentPid(w)]) && w.stacks[CurrentPid(w)].lo + FRAME <= w.cpu.rsp
    ensures AgreeOn(w.mem, PushFrame(w.mem, w.cpu), r)
  {
    FramePushed(w.mem, w.cpu);
    hide PushFrame, Load;
  }

  /** A parked process, followed through the parts of the invariant. */
  lemma ParkedFrame(w: World, q: Process)
    requires Inv(w) && WasParked(w.s, q)
    ensures q.pid != CurrentPid(w) && q.pid in w.stacks && q.pid in w.left
    ensures Frozen(w.mem, q.rsp, w.stacks[q.pid], w.left[q.pid])
    ensures Apart(w.stacks[CurrentPid(w)], w.stacks[q.pid])
  {
    hide Frozen, Apart, Runs.Ok;
    var p :| Parks(w.s, p) && SameFrame(p, q);
    ParkedIsNotRunning(w, p);
  }

  lemma FrozenThroughSwitch(w: World, q: Process)
    requires Inv(w) && WasParked(w.s, q) && w.stacks[CurrentPid(w)].lo + FRAME <= w.cpu.rsp
    ensures q.pid != CurrentPid(w) && q.pid in w.stacks && q.pid in w.left
    ensures Frozen(PushFrame(w.mem, w.cpu), q.rsp, w.stacks[q.pid], w.left[q.pid])
  {
    hide Frozen, Apart, Unique, PushFrame, WasParked, AllFrozen, AgreeOn, StacksApart, StacksOwned;
    ParkedFrame(w, q);
    PushStaysHome(w, w.stacks[q.pid]);
    FrozenKept(w.mem, PushFrame(w.mem, w.cpu), q.rsp, w.stacks[q.pid], w.left[q.pid]);
  }

  ghost predicate Room(w: World)
    requires w.s.current.Some?
  {
    CurrentPid(w) in w.stacks && w.stacks[CurrentPid(w)].lo + FRAME <= w.cpu.rsp
  }

  /** A switch lands exactly where the incoming task was left. */
  lemma SwitchLands(w: World, s': Sched)
    requires Inv(w) && Room(w) && s'.current.Some? && s'.current.value.pid != CurrentPid(w)
    requires WasParked(w.s, s'.current.value)
    ensures var pid := s'.current.value.pid;
            && pid in w.left && Entered(w, s').cpu == w.left[pid]
            && pid in w.stacks && On(w.left[pid].rsp, w.stacks[pid])
  {
    hide WasParked, PushFrame, Unique, AllFrozen, StacksApart, StacksOwned, Owned;
    FrozenThroughSwitch(w, s'.current.value);
  }

  lemma SwitchKeepsFrozen(w: World, s': Sched, q: Process)
    requires Inv(w) && Room(w) && s'.current.Some? && s'.current.value.pid != CurrentPid(w)
    requires WasParked(w.s, q) || (q.pid == CurrentPid(w) && q.rsp == w.cpu.rsp - FRAME)
    ensures var w' := Entered(w, s');
            q.pid in w.stacks && q.pid in w'.left && Frozen(w'.mem, q.rsp, w.stacks[q.pid], w'.left[q.pid])
  {
    hide WasParked, PushFrame, Unique, AllFrozen, StacksApart, StacksOwned, Owned;
    if WasParked(w.s, q) {
      FrozenThroughSwitch(w, q);
    } else {
      FramePushed(w.mem, w.cpu);
    }
  }

  /** What the invariant needs to know of a scheduler call. */
  ghost predicate Legal(w: World, s': Sched) {
    && w.s.current.Some? && s'.current.Some? && w.cpu.rsp >= FRAME
    && Runs.Ok(Runs.Sys(s', w.nextPid))
    && (forall pid: Pid :: Census(s', pid) <= Census(w.s, pid))
    && (forall q | Parks(s', q) :: WasParked(w.s, q) || (q.pid == CurrentPid(w) && q.rsp == w.cpu.rsp - FRAME))
    && (s'.current.value.pid != CurrentPid(w) ==> WasParked(w.s, s'.current.value))
  }

  lemma RequestShape(w: World, call: Call)
    requires w.cpu.rsp >= FRAME
    ensures var op := Request(w, call); !op.SpawnTask? && (op.Wake? || op.rsp == w.cpu.rsp - FRAME)
    ensures Runs.Step(SysOf(w), Request(w, call)).nextPid == w.nextPid
  {
  }

  lemma EnterIsLegal(w: World, call: Call)
    requires Inv(w) && Enabled(w, Enter(call))
    ensures Legal(w, Runs.Step(SysOf(w), Request(w, call)).s)
  {
    hide Runs.Step, Request, Unique, AllIn, NoIdle, Census, Parks, WasParked, AllFrozen, StacksApart, StacksOwned;
    var x, op := SysOf(w), Request(w, call);
    RequestShape(w, call);
    Runs.StepKeepsOk(x, op);
    EnterPicks(x, op);
    forall pid: Pid ensures Census(Runs.Step(x, op).s, pid) <= Census(w.s, pid) {
      EnterCensus(x, op, pid);
    }
    forall q | Parks(Runs.Step(x, op).s, q)
      ensures WasParked(w.s, q) || (q.pid == CurrentPid(w) && q.rsp == w.cpu.rsp - FRAME)
    {
      EnterParks(x, op, q);
    }
  }

  lemma OwnedStacks(w: World, s': Sched)
    requires StacksOwned(w) && StacksApart(w.stacks) && forall pid: Pid :: Census(s', pid) <= Census(w.s, pid)
    ensures var stacks := Owned(w.stacks, s');
            && StacksApart(stacks) && (forall pid: Pid :: pid in stacks <==> Census(s', pid) > 0)
            && (forall pid | pid in stacks :: pid in w.stacks && stacks[pid] == w.stacks[pid])
  {
    hide Census, Apart;
  }

  lemma EnteredFrozen(w: World, s': Sched, q: Process)
    requires Inv(w) && Room(w) && Legal(w, s') && Parks(s', q)
    ensures var w' := Entered(w, s');
            q.pid in w.stacks && q.pid in w'.left && Frozen(w'.mem, q.rsp, w.stacks[q.pid], w'.left[q.pid])
  {
    hide Unique, Parks, WasParked, AllFrozen, StacksApart, StacksOwned, Owned, PushFrame, Frozen;
    if s'.current.value.pid != CurrentPid(w) {
      SwitchKeepsFrozen(w, s', q);
    } else {
      ParkedApart(s', w.nextPid, q);
      ParkedFrame(w, q);
    }
  }

  lemma ParkedApart(s': Sched, nextPid: nat, q: Process)
    requires Runs.Ok(Runs.Sys(s', nextPid)) && Parks(s', q)
    ensures q.pid != s'.current.value.pid
  {
    ParkedCounts(s', q);
    assert Census(s', q.pid) <= 1;
  }

  lemma EnterKeepsInv(w: World, s': Sched)
    requires Inv(w) && Room(w) && Legal(w, s')
    ensures Inv(Entered(w, s'))
  {
    var w' := Entered(w, s');
    OwnedStacks(w, s');
    assert CurrentPid(w') in w'.stacks && On(w'.cpu.rsp, w'.stacks[CurrentPid(w')]) by {
      assert Census(s', CurrentPid(w')) > 0;
      if CurrentPid(w') != CurrentPid(w) {
        SwitchLands(w, s');
      }
    }
    assert AllFrozen(w') by {
      forall q | Parks(s', q)
        ensures q.pid in w'.stacks && q.pid in w'.left && Frozen(w'.mem, q.rsp, w'.stacks[q.pid], w'.left[q.pid])
      {
        EnteredFrozen(w, s', q);
        ParkedCounts(s', q);
      }
    }
  }

  lemma ComputeKeepsInv(w: World, op: Op)
    requires Inv(w) && op.Compute? && Enabled(w, op)
    ensures Inv(Step(w, op))
  {
    hide Unique, Frozen, AgreeOn, StacksApart;
    forall q | Parks(w.s, q)
      ensures Frozen(op.mem, q.rsp, w.stacks[q.pid], w.left[q.pid])
    {
      ParkedIsNotRunning(w, q);
      FrozenKept(w.mem, op.mem, q.rsp, w.stacks[q.pid], w.left[q.pid]);
    }
  }

  lemma LaunchParks(w: World, op: Op, q: Process)
    requires w.s.current.Some? && op.Launch? && Enabled(w, op) && Parks(Step(w, op).s, q)
    ensures Parks(w.s, q) || (q.pid == w.nextPid && q.rsp == LaunchTop(op.base, op.size) - 64)
  {
  }

  lemma LaunchStaysHome(w: World, op: Op, r: Region)
    requires w.s.current.Some? && op.Launch? && Enabled(w, op) && Apart(Region(op.base, op.base + op.size), r)
    ensures AgreeOn(w.mem, Step(w, op).mem, r)
  {
    hide LaunchMem, LaunchTop, Load, Runs.Step;
    LaunchTopIn(op.base, op.size);
    LaunchFrame(w.mem, LaunchTop(op.base, op.size), op.entry);
  }

  lemma LaunchedFrozen(w: World, op: Op)
    requires w.s.current.Some? && op.Launch? && Enabled(w, op)
    ensures var top := LaunchTop(op.base, op.size);
            Frozen(Step(w, op).mem, top - 64, Region(op.base, op.base + op.size), Launched(top, op.entry))
  {
    hide LaunchMem, LaunchTop, Load, Runs.Step;
    LaunchTopIn(op.base, op.size);
    LaunchFrame(w.mem, LaunchTop(op.base, op.size), op.entry);
  }

  lemma NewcomerIsNew(w: World)
    requires Runs.Ok(SysOf(w)) && StacksOwned(w)
    ensures w.nextPid !in w.stacks && CurrentPid(w) != w.nextPid && Census(w.s, w.nextPid) == 0
  {
    assert Census(w.s, w.nextPid) == 0;
    assert Census(w.s, CurrentPid(w)) > 0;
  }

  lemma LaunchCensus(w: World, op: Op, pid: Pid)
    requires w.s.current.Some? && op.Launch? && Enabled(w, op)
    ensures Census(Step(w, op).s, pid) == Census(w.s, pid) + if pid == w.nextPid then 1 else 0
  {
    hide Count;
    CountPush(w.s.ready, Process(LaunchTop(op.base, op.size) - 64, w.nextPid, Ready, op.slice, op.slice), pid);
  }

  lemma LaunchKeepsStacks(w: World, op: Op)
    requires Inv(w) && op.Launch? && Enabled(w, op)
    ensures StacksOwned(Step(w, op)) && StacksApart(Step(w, op).stacks)
  {
    NewcomerIsNew(w);
    forall pid: Pid
      ensures Census(Step(w, op).s, pid) == Census(w.s, pid) + if pid == w.nextPid then 1 else 0
    {
      LaunchCensus(w, op, pid);
    }
    hide Census, Runs.Step, AllFrozen, LaunchMem;
  }

  lemma LaunchKeepsFrozen(w: World, op: Op, q: Process)
    requires Inv(w) && op.Launch? && Enabled(w, op) && Parks(Step(w, op).s, q)
    ensures var w' := Step(w, op);
            q.pid in w'.stacks && q.pid in w'.left && Frozen(w'.mem, q.rsp, w'.stacks[q.pid], w'.left[q.pid])
  {
    LaunchParks(w, op, q);
    NewcomerIsNew(w);
    hide Runs.Step, Unique, Parks, Frozen, AgreeOn, StacksApart, StacksOwned, Apart, LaunchMem;
    if Parks(w.s, q) {
      LaunchStaysHome(w, op, w.stacks[q.pid]);
      FrozenKept(w.mem, Step(w, op).mem, q.rsp, w.stacks[q.pid], w.left[q.pid]);
    } else {
      LaunchedFrozen(w, op);
    }
  }

  lemma LaunchKeepsAllFrozen(w: World, op: Op)
    requires Inv(w) && op.Launch? && Enabled(w, op)
    ensures AllFrozen(Step(w, op))
  {
    hide Step, Parks, Frozen, Unique, StacksApart, StacksOwned, AllIn, NoIdle;
    var w' := Step(w, op);
    forall q | Parks(w'.s, q)
      ensures q.pid in w'.stacks && q.pid in w'.left && Frozen(w'.mem, q.rsp, w'.stacks[q.pid], w'.left[q.pid])
    {
      LaunchKeepsFrozen(w, op, q);
    }
  }

  lemma LaunchKeepsInv(w: World, op: Op)
    requires Inv(w) && op.Launch? && Enabled(w, op)
    ensures Inv(Step(w, op))
  {
    hide Unique, AllFrozen, StacksApart, StacksOwned, LaunchMem, AllIn, NoIdle, LaunchTop;
    LaunchTopIn(op.base, op.size);
    Runs.StepKeepsOk(SysOf(w), Runs.SpawnTask(LaunchTop(op.base, op.size) - 64, op.slice));
    NewcomerIsNew(w);
    LaunchKeepsStacks(w, op);
    LaunchKeepsAllFrozen(w, op);
  }

  /** Every step keeps every suspended task's frame intact on its own stack. */
  lemma StepKeepsInv(w: World, op: Op)
    requires Inv(w) && Enabled(w, op)
    ensures Inv(Step(w, op))
  {
    hide Inv, Legal;
    match op
    case Compute(_, _) => ComputeKeepsInv(w, op);
    case Enter(call) =>
      EnterIsLegal(w, call);
      EnterKeepsInv(w, Runs.Step(SysOf(w), Request(w, call)).s);
    case Launch(_, _, _, _) => LaunchKeepsInv(w, op);
  }

  // ---------------------------------------------------------------------
  // Whole runs
  // ---------------------------------------------------------------------

  ghost predicate Allowed(w: World, ops: seq<Op>)
    decreases |ops|
  {
    ops != [] ==> w.s.current.Some? && Enabled(w, ops[0]) && Allowed(Step(w, ops[0]), ops[1..])
  }

  ghost function Run(w: World, ops: seq<Op>): World
    requires Allowed(w, ops)
    decreases |ops|
  {
    if ops == [] then w else Run(Step(w, ops[0]), ops[1..])
  }

  /** The kernel's first thread on the boot stack, and the idle task launched. */
  function Booted(cpu: Cpu, mem: Mem, boot: Region, base: nat, size: nat, idleEntry: nat): World
    requires LaunchTop(base, size) >= 64
  {
    var top := LaunchTop(base, size);
    World(Init(EMPTY_SCHED, top - 64).0, 2, cpu, LaunchMem(mem, top, idleEntry),
          map[PID_BOOTSTRAP := boot, PID_IDLE := Region(base, base + size)], map[PID_IDLE := Launched(top, idleEntry)])
  }

  lemma BootedInv(cpu: Cpu, mem: Mem, boot: Region, base: nat, size: nat, idleEntry: nat)
    requires 80 <= size && Apart(boot, Region(base, base + size)) && On(cpu.rsp, boot)
    ensures LaunchTop(base, size) >= 64 && Inv(Booted(cpu, mem, boot, base, size, idleEntry))
  {
    hide LaunchMem, LaunchTop, Unique, LoadFrame, AgreeOff, Census;
    LaunchTopIn(base, size);
    var top := LaunchTop(base, size);
    var w := Booted(cpu, mem, boot, base, size, idleEntry);
    Runs.BootedOk(top - 64);
    LaunchFrame(mem, top, idleEntry);
    assert StacksOwned(w) by {
      forall pid: Pid ensures pid in w.stacks <==> Census(w.s, pid) > 0 {
        BootedCensus(top - 64, pid);
      }
    }
  }

  lemma BootedCensus(idleRsp: nat, pid: Pid)
    ensures Census(Init(EMPTY_SCHED, idleRsp).0, pid) > 0 <==> pid == PID_BOOTSTRAP || pid == PID_IDLE
  {
  }

  lemma {:induction false} RunKeepsInv(w: World, ops: seq<Op>)
    requires Inv(w) && Allowed(w, ops)
    ensures Inv(Run(w, ops))
    decreases |ops|
  {
    hide Inv, Enabled, Step;
    if ops != [] {
      StepKeepsInv(w, ops[0]);
      RunKeepsInv(Step(w, ops[0]), ops[1..]);
    }
  }

  /** `pid` is not current at any point of the run. */
  ghost predicate StaysOff(w: World, ops: seq<Op>, pid: Pid)
    requires Allowed(w, ops)
    decreases |ops|
  {
    && w.s.current.Some? && CurrentPid(w) != pid
    && (ops != [] ==> StaysOff(Step(w, ops[0]), ops[1..], pid))
  }

  lemma LeftStays(w: World, op: Op, pid: Pid)
    requires Inv(w) && Enabled(w, op) && CurrentPid(w) != pid && pid < w.nextPid && pid in w.left
    ensures var w' := Step(w, op); pid < w'.nextPid && pid in w'.left && w'.left[pid] == w.left[pid]
  {
    hide Unique, AllFrozen, StacksApart, StacksOwned, AllIn, NoIdle, Schedule, Owned, LoadFrame, PushFrame;
  }

  lemma {:induction false} LeftStaysOverRun(w: World, ops: seq<Op>, pid: Pid)
    requires Inv(w) && Allowed(w, ops) && StaysOff(w, ops, pid) && pid < w.nextPid && pid in w.left
    ensures var w' := Run(w, ops); Inv(w') && pid in w'.left && w'.left[pid] == w.left[pid] && w'.s.current.Some? && CurrentPid(w') != pid
    decreases |ops|
  {
    hide Inv, Enabled, Step;
    if ops != [] {
      StepKeepsInv(w, ops[0]);
      LeftStays(w, ops[0], pid);
      LeftStaysOverRun(Step(w, ops[0]), ops[1..], pid);
    }
  }

  /** Whoever becomes current gets the processor exactly as it was left. */
  lemma StepLands(w: World, op: Op)
    requires Inv(w) && Enabled(w, op) && Step(w, op).s.current.Some? && CurrentPid(Step(w, op)) != CurrentPid(w)
    ensures CurrentPid(Step(w, op)) in w.left && Step(w, op).cpu == w.left[CurrentPid(Step(w, op))]
    ensures Step(w, op).left == w.left[CurrentPid(w) := w.cpu] && Step(w, op).nextPid == w.nextPid
  {
    hide Unique, AllFrozen, StacksApart, StacksOwned, AllIn, NoIdle, Schedule, Owned, LoadFrame, PushFrame, Legal;
    if op.Enter? {
      EnterIsLegal(w, op.call);
      LegalPick(w, Runs.Step(SysOf(w), Request(w, op.call)).s);
      SwitchLands(w, Runs.Step(SysOf(w), Request(w, op.call)).s);
    }
  }

  lemma LegalPick(w: World, s': Sched)
    requires Legal(w, s')
    ensures s'.current.value.pid != CurrentPid(w) ==> WasParked(w.s, s'.current.value)
  {
  }

  lemma RunningIsKnown(w: World)
    requires Inv(w)
    ensures w.s.current.Some? && CurrentPid(w) < w.nextPid
  {
    assert Census(w.s, CurrentPid(w)) > 0;
  }

  /** Suspend a task, run anything at all without it, resume it: the callee-saved
      registers, the stack pointer and the program counter are exactly the
      ones it had. */
  lemma ResumesExactly(w: World, suspend: Op, ops: seq<Op>, resume: Op)
    requires Inv(w) && Enabled(w, suspend)
    requires var w1 := Step(w, suspend);
             && Allowed(w1, ops) && StaysOff(w1, ops, CurrentPid(w))
             && var w2 := Run(w1, ops);
             && w2.s.current.Some? && Enabled(w2, resume)
             && var w3 := Step(w2, resume);
             && w3.s.current.Some? && CurrentPid(w3) == CurrentPid(w)
    ensures Step(Run(Step(w, suspend), ops), resume).cpu == w.cpu
  {
    hide Inv, Enabled, Step;
    RunningIsKnown(w);
    var pid := CurrentPid(w);
    var w1 := Step(w, suspend);
    StepKeepsInv(w, suspend);
    StepLands(w, suspend);
    LeftStaysOverRun(w1, ops, pid);
    StepLands(Run(w1, ops), resume);
  }

  /** The first time a launched task runs, it is at the trampoline with its
      entry in `r12` and the stack aligned for a function's first instruction. */
  lemma FirstRunLands(w: World, launch: Op, ops: seq<Op>, resume: Op)
    requires Inv(w) && launch.Launch? && Enabled(w, launch)
    requires var w1 := Step(w, launch);
             && Allowed(w1, ops) && StaysOff(w1, ops, w.nextPid)
             && var w2 := Run(w1, ops);
             && w2.s.current.Some? && Enabled(w2, resume)
             && var w3 := Step(w2, resume);
             && w3.s.current.Some? && CurrentPid(w3) == w.nextPid
    ensures var c := Step(Run(Step(w, launch), ops), resume).cpu;
            && c.rip == TRAMPOLINE && c.regs == Regs(0, 0, launch.entry, 0, 0, 0)
            && c.rsp % 16 == 8 && launch.base <= c.rsp < launch.base + launch.size
  {
    hide Inv, Enabled, Step, LaunchTop, Launched;
    RunningIsKnown(w);
    var w1 := Step(w, launch);
    StepKeepsInv(w, launch);
    LaunchLeaves(w, launch);
    LeftStaysOverRun(w1, ops, w.nextPid);
    StepLands(Run(w1, ops), resume);
  }

  lemma LaunchLeaves(w: World, op: Op)
    requires Inv(w) && op.Launch? && Enabled(w, op)
    ensures var w' := Step(w, op);
            && w'.nextPid == w.nextPid + 1 && w.nextPid in w'.left
            && var c := w'.left[w.nextPid];
            && c.rip == TRAMPOLINE && c.regs == Regs(0, 0, op.entry, 0, 0, 0)
            && c.rsp % 16 == 8 && op.base <= c.rsp < op.base + op.size
  {
    hide Unique, AllFrozen, StacksApart, StacksOwned, AllIn, NoIdle, LaunchTop, LaunchMem;
    LaunchTopIn(op.base, op.size);
    LaunchedShape(op.base, op.size, op.entry);
  }
}
