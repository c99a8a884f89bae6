/**
The register and stack machine under the scheduler: what a switch saves and
loads, and the launch frame of a new task.
 */
module ContextSwitch {
  import opened Common

  /** Memory as 8-byte words at 8-byte aligned addresses. */
  type Mem = map<nat, nat>

  datatype Regs = Regs(rbp: nat, rbx: nat, r12: nat, r13: nat, r14: nat, r15: nat)

  /** What a task gets back when it resumes: its callee-saved registers, its
      stack pointer and its program counter. */
  datatype Cpu = Cpu(regs: Regs, rsp: nat, rip: nat)

  /** Bytes `lo` up to `hi`. */
  datatype Region = Region(lo: nat, hi: nat)

  /** Where the linker put the trampoline; nothing depends on the value. */
  const TRAMPOLINE: nat := 0x10_0000
  /** Six registers and the return address. */
  const FRAME: nat := 56

  function Load(m: Mem, a: nat): nat {
    if a in m then m[a] else 0
  }

  /** The registers a switch onto the stack pointer `sp` ends up with. */
  function LoadFrame(m: Mem, sp: nat): Cpu {
    Cpu(Regs(Load(m, sp + 40), Load(m, sp + 32), Load(m, sp + 24), Load(m, sp + 16), Load(m, sp + 8), Load(m, sp)),
        sp + FRAME, Load(m, sp + 48))
  }

  /** Memory with the outgoing task's frame pushed below its stack pointer. */
  function PushFrame(m: Mem, c: Cpu): Mem
    requires c.rsp >= FRAME
  {
    var sp := c.rsp - FRAME;
    m[sp + 48 := c.rip][sp + 40 := c.regs.rbp][sp + 32 := c.regs.rbx][sp + 24 := c.regs.r12]
     [sp + 16 := c.regs.r13][sp + 8 := c.regs.r14][sp := c.regs.r15]
  }

  ghost predicate AgreeOn(m: Mem, m': Mem, r: Region) {
    forall a: nat | a % 8 == 0 && r.lo <= a && a + 8 <= r.hi :: Load(m, a) == Load(m', a)
  }

  ghost predicate AgreeOff(m: Mem, m': Mem, r: Region) {
    forall a: nat | a % 8 == 0 && (a + 8 <= r.lo || r.hi <= a) :: Load(m, a) == Load(m', a)
  }

  ghost predicate Apart(r: Region, t: Region) {
    r.hi <= t.lo || t.hi <= r.lo
  }

  /** What was pushed is what is popped, and nothing else is written. */
  lemma FramePushed(m: Mem, c: Cpu)
    requires c.rsp >= FRAME
    ensures LoadFrame(PushFrame(m, c), c.rsp - FRAME) == c
    ensures AgreeOff(m, PushFrame(m, c), Region(c.rsp - FRAME, c.rsp))
  {
  }

  lemma FrameKept(m: Mem, m': Mem, r: Region, sp: nat)
    requires AgreeOn(m, m', r) && sp % 8 == 0 && r.lo <= sp && sp + FRAME <= r.hi
    ensures LoadFrame(m', sp) == LoadFrame(m, sp)
  {
  }

  // ---------------------------------------------------------------------
  // The launch frame
  // ---------------------------------------------------------------------

  function LaunchTop(base: nat, size: nat): nat {
    base + size - (base + size) % 16
  }

  /** What a new task starts with, whatever the processor held before. */
  function Launched(top: nat, entry: nat): Cpu
    requires top >= 8
  {
    Cpu(Regs(0, 0, entry, 0, 0, 0), top - 8, TRAMPOLINE)
  }

  /** The trampoline's jump goes to the entry, with the stack pointer aligned as
      the calling convention asks at a function's first instruction. */
  lemma LaunchedShape(base: nat, size: nat, entry: nat)
    requires size >= 80
    ensures LaunchTop(base, size) >= 8
    ensures var c := Launched(LaunchTop(base, size), entry);
            && c.rip == TRAMPOLINE && c.regs == Regs(0, 0, entry, 0, 0, 0)
            && c.rsp % 16 == 8 && base <= c.rsp < base + size
  {
  }

  /** The eight words fit any stack of 79 bytes or more wherever it lies, and
      no smaller size fits wherever it lies. */
  lemma LaunchFits(size: nat)
    ensures size >= 79 <==> forall base: nat :: Fits(base, size)
  {
    if size >= 79 {
      forall base: nat ensures Fits(base, size) {}
    } else {
      var base := 79 * 16 + 15 - size;
      assert !Fits(base, size);
    }
  }

  lemma TopIsAligned(base: nat, size: nat)
    ensures var top := LaunchTop(base, size);
            top % 16 == 0 && (size >= 80 ==> base + 64 <= top) && top <= base + size
  {
  }

  lemma LaunchTopIn(base: nat, size: nat)
    requires size >= 80
    ensures var top := LaunchTop(base, size); top % 8 == 0 && base + 64 <= top <= base + size
  {
    hide LaunchTop;
    TopIsAligned(base, size);
    var top := LaunchTop(base, size);
    DivModUnique(top, 8, top / 16 * 2, 0);
  }

  ghost predicate Fits(base: nat, size: nat) {
    base + 64 <= LaunchTop(base, size)
  }

  /** Words written one below the other, starting just below `at`. */
  function WriteDown(m: Mem, at: nat, words: seq<nat>): Mem
    requires at >= 8 * |words|
    decreases |words|
  {
    if words == [] then m else WriteDown(m[at - 8 := words[0]], at - 8, words[1..])
  }

  lemma {:induction false} WrittenDown(m: Mem, at: nat, words: seq<nat>)
    requires at >= 8 * |words|
    ensures var m' := WriteDown(m, at, words);
            && (forall k | 0 <= k < |words| :: Load(m', at - 8 - 8 * k) == words[k])
            && (forall a: nat | a >= at || a + 8 <= at - 8 * |words| :: Load(m', a) == Load(m, a))
    decreases |words|
  {
    if words != [] {
      WrittenDown(m[at - 8 := words[0]], at - 8, words[1..]);
      var m' := WriteDown(m, at, words);
      forall k | 0 <= k < |words|
        ensures Load(m', at - 8 - 8 * k) == words[k]
      {
        if k > 0 {
          assert Load(m', at - 8 - 8 - 8 * (k - 1)) == words[1..][k - 1];
        } else {
          assert Load(m', at - 8) == Load(m[at - 8 := words[0]], at - 8);
        }
      }
    }
  }

  function LaunchMem(m: Mem, top: nat, entry: nat): Mem
    requires top >= 64
  {
    WriteDown(m, top, [0, TRAMPOLINE, 0, 0, entry, 0, 0, 0])
  }

  lemma LaunchFrame(m: Mem, top: nat, entry: nat)
    requires top >= 64
    ensures LoadFrame(LaunchMem(m, top, entry), top - 64) == Launched(top, entry)
    ensures AgreeOff(m, LaunchMem(m, top, entry), Region(top - 64, top))
  {
    hide WriteDown;
    var words := [0, TRAMPOLINE, 0, 0, entry, 0, 0, 0];
    WrittenDown(m, top, words);
    assert words[1] == TRAMPOLINE && words[2] == 0 && words[3] == 0;
    assert words[4] == entry && words[5] == 0 && words[6] == 0 && words[7] == 0;
  }

  // ---------------------------------------------------------------------
  // The machine
  // ---------------------------------------------------------------------

  class Machine {
    var cpu: Cpu
    var mem: Mem

    constructor (c: Cpu, m: Mem)
      ensures cpu == c && mem == m
    {
      cpu, mem := c, m;
    }

    method Push(v: nat)
      requires cpu.rsp >= 8
      modifies this
      ensures cpu == old(cpu).(rsp := old(cpu).rsp - 8)
      ensures mem == old(mem)[cpu.rsp := v]
    {
      cpu := cpu.(rsp := cpu.rsp - 8);
      mem := mem[cpu.rsp := v];
    }

    method Pop() returns (v: nat)
      modifies `cpu
      ensures v == Load(mem, old(cpu).rsp) && cpu == old(cpu).(rsp := old(cpu).rsp + 8)
    {
      v := Load(mem, cpu.rsp);
      cpu := cpu.(rsp := cpu.rsp + 8);
    }

    method SaveAll()
      requires cpu.rsp >= FRAME
      modifies this
      ensures mem == PushFrame(old(mem), old(cpu)) && cpu == old(cpu).(rsp := old(cpu).rsp - FRAME)
    {
      Push(cpu.rip); // the call
      Push(cpu.regs.rbp);
      Push(cpu.regs.rbx);
      Push(cpu.regs.r12);
      Push(cpu.regs.r13);
      Push(cpu.regs.r14);
      Push(cpu.regs.r15);
    }

    method RestoreAll()
      modifies `cpu
      ensures cpu == LoadFrame(mem, old(cpu).rsp)
    {
      var r15 := Pop();
      var r14 := Pop();
      var r13 := Pop();
      var r12 := Pop();
      var rbx := Pop();
      var rbp := Pop();
      var ret := Pop();
      cpu := Cpu(Regs(rbp, rbx, r12, r13, r14, r15), cpu.rsp, ret);
    }

    /** The outgoing task finds everything again under `saved`; the incoming
        one gets what its frame holds. `cpu.rip` is the return address of the
        call. */
    method Switch(next: nat) returns (saved: nat)
      requires cpu.rsp >= FRAME
      modifies this
      ensures saved == old(cpu).rsp - FRAME && mem == PushFrame(old(mem), old(cpu))
      ensures LoadFrame(mem, saved) == old(cpu)
      ensures cpu == LoadFrame(mem, next)
    {
      FramePushed(mem, cpu);
      SaveAll();
      saved := cpu.rsp;
      cpu := cpu.(rsp := next);
      RestoreAll();
    }

    /** Writes the launch frame from the top of the stack down. */
    method InitKernelStack(base: nat, size: nat, entry: nat) returns (sp: nat)
      requires LaunchTop(base, size) >= 64
      modifies `mem
      ensures sp == LaunchTop(base, size) - 64 && sp % 16 == 0
      ensures mem == LaunchMem(old(mem), LaunchTop(base, size), entry)
      ensures LoadFrame(mem, sp) == Launched(LaunchTop(base, size), entry)
      ensures AgreeOff(old(mem), mem, Region(sp, sp + 64))
      ensures size >= 80 ==> base <= sp && sp + 64 <= base + size
    {
      hide LoadFrame, AgreeOff, LaunchMem, LaunchTop, Launched;
      var top := LaunchTop(base, size);
      TopIsAligned(base, size);
      sp := top - 8;
      mem := mem[sp := 0];
      sp := sp - 8;
      mem := mem[sp := TRAMPOLINE];
      var saved := [0, 0, entry, 0, 0, 0];
      LaunchStart(old(mem), top, entry);
      LaunchFrame(old(mem), top, entry);
      var i := 0;
      while i < |saved|
        invariant i <= |saved| && sp == top - 16 - 8 * i
        invariant WriteDown(mem, sp, saved[i..]) == LaunchMem(old(mem), top, entry)
      {
        assert saved[i..][1..] == saved[i + 1..];
        sp := sp - 8;
        mem := mem[sp := saved[i]];
        i := i + 1;
      }
    }
  }

  lemma LaunchStart(m: Mem, top: nat, entry: nat)
    requires top >= 64
    ensures LaunchMem(m, top, entry) == WriteDown(m[top - 8 := 0][top - 16 := TRAMPOLINE], top - 16, [0, 0, entry, 0, 0, 0])
  {
    var words := [0, TRAMPOLINE, 0, 0, entry, 0, 0, 0];
    assert words[1..][0] == TRAMPOLINE && words[1..][1..] == [0, 0, entry, 0, 0, 0];
    assert WriteDown(m, top, words) == WriteDown(m[top - 8 := 0], top - 8, words[1..]);
  }
}
