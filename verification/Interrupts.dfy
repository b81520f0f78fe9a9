/** The timer interrupt at register level: what the processor and the entry stub push,
    what the stub and `iretq` pop, and the frame a new process starts from. */
module Interrupts {
  import opened Words

  /** The fifteen registers the stub saves. */
  datatype Regs = Regs(rax: nat, rbx: nat, rcx: nat, rdx: nat, rsi: nat, rdi: nat, rbp: nat,
                       r8: nat, r9: nat, r10: nat, r11: nat, r12: nat, r13: nat, r14: nat, r15: nat)

  /** Everything that makes up a running program but its memory. */
  datatype Context = Context(regs: Regs, rip: nat, cs: nat, rflags: nat, rsp: nat, ss: nat)

  /** 22 words: 15 registers, interrupt number, error code, and the five the processor pops. */
  const FRAME_SIZE: nat := 176
  const TIMER_VECTOR: nat := 32

  const ZeroRegs: Regs := Regs(0, 0, 0, 0, 0, 0, 0, 0, 0, 0, 0, 0, 0, 0, 0)

  /** The processor aligns the stack to 16 bytes before pushing (Intel SDM, Volume 3A, section 6.14.2). */
  function Aligned(rsp: nat): (sp: nat)
    ensures sp % 16 == 0 && sp <= rsp < sp + 16
  {
    rsp - rsp % 16
  }

  /** Memory with the frame of an interrupted program stored below `sp + 176`. */
  function StoreFrame(mem: Ram, sp: nat, c: Context, number: nat, code: nat): Ram {
    StoreRegs(StoreReturn(mem, sp, c, number, code), sp, c.regs)
  }

  /** What the processor pushes, and the two words the stub adds. */
  function StoreReturn(mem: Ram, sp: nat, c: Context, number: nat, code: nat): Ram {
    StoreNumbers(StorePushed(mem, sp, c), sp, number, code)
  }

  function StorePushed(mem: Ram, sp: nat, c: Context): Ram {
    mem[sp + 168 := c.ss][sp + 160 := c.rsp][sp + 152 := c.rflags][sp + 144 := c.cs][sp + 136 := c.rip]
  }

  function StoreNumbers(mem: Ram, sp: nat, number: nat, code: nat): Ram {
    mem[sp + 128 := code][sp + 120 := number]
  }

  function StoreRegs(mem: Ram, sp: nat, r: Regs): Ram {
    StoreUpper(StoreLower(mem, sp, r), sp, r)
  }

  function StoreLower(mem: Ram, sp: nat, r: Regs): Ram {
    mem[sp + 112 := r.rax][sp + 104 := r.rbx][sp + 96 := r.rcx][sp + 88 := r.rdx][sp + 80 := r.rsi][sp + 72 := r.rdi][sp + 64 := r.rbp]
  }

  function StoreUpper(mem: Ram, sp: nat, r: Regs): Ram {
    mem[sp + 56 := r.r8][sp + 48 := r.r9][sp + 40 := r.r10][sp + 32 := r.r11][sp + 24 := r.r12][sp + 16 := r.r13][sp + 8 := r.r14][sp := r.r15]
  }

  /** The program that the frame at `sp` describes. */
  function LoadContext(mem: Ram, sp: nat): Context {
    Context(LoadRegs(mem, sp), Word(mem, sp + 136), Word(mem, sp + 144), Word(mem, sp + 152), Word(mem, sp + 160), Word(mem, sp + 168))
  }

  function LoadRegs(mem: Ram, sp: nat): Regs {
    Regs(Word(mem, sp + 112), Word(mem, sp + 104), Word(mem, sp + 96), Word(mem, sp + 88), Word(mem, sp + 80), Word(mem, sp + 72),
         Word(mem, sp + 64), Word(mem, sp + 56), Word(mem, sp + 48), Word(mem, sp + 40), Word(mem, sp + 32), Word(mem, sp + 24),
         Word(mem, sp + 16), Word(mem, sp + 8), Word(mem, sp))
  }

  /** Two memories agree on a range of addresses. */
  ghost predicate AgreeOn(mem: Ram, mem': Ram, lo: nat, hi: nat) {
    forall a {:trigger Word(mem', a)} {:trigger Word(mem, a)} :: lo <= a < hi ==> Word(mem', a) == Word(mem, a)
  }

  ghost predicate AgreeOutside(mem: Ram, mem': Ram, lo: nat, hi: nat) {
    forall a: nat {:trigger Word(mem', a)} {:trigger Word(mem, a)} :: !(lo <= a < hi) ==> Word(mem', a) == Word(mem, a)
  }

  lemma LoadStoredUpper(mem: Ram, sp: nat, r: Regs)
    ensures var l := LoadRegs(StoreUpper(mem, sp, r), sp);
            && l.r8 == r.r8 && l.r9 == r.r9 && l.r10 == r.r10 && l.r11 == r.r11
            && l.r12 == r.r12 && l.r13 == r.r13 && l.r14 == r.r14 && l.r15 == r.r15
    ensures AgreeOutside(mem, StoreUpper(mem, sp, r), sp, sp + 64)
  {
  }

  lemma LoadStoredLower(mem: Ram, sp: nat, r: Regs)
    ensures var l := LoadRegs(StoreLower(mem, sp, r), sp);
            && l.rax == r.rax && l.rbx == r.rbx && l.rcx == r.rcx && l.rdx == r.rdx
            && l.rsi == r.rsi && l.rdi == r.rdi && l.rbp == r.rbp
    ensures AgreeOutside(mem, StoreLower(mem, sp, r), sp + 64, sp + 120)
  {
  }

  lemma LoadStoredRegs(mem: Ram, sp: nat, r: Regs)
    ensures LoadRegs(StoreRegs(mem, sp, r), sp) == r
    ensures AgreeOutside(mem, StoreRegs(mem, sp, r), sp, sp + 120)
  {
    LoadStoredLower(mem, sp, r);
    LoadStoredUpper(StoreLower(mem, sp, r), sp, r);
  }

  lemma LoadStoredReturn(mem: Ram, sp: nat, c: Context, number: nat, code: nat)
    ensures var m := StoreReturn(mem, sp, c, number, code);
            && Word(m, sp + 120) == number && Word(m, sp + 128) == code
            && Word(m, sp + 136) == c.rip && Word(m, sp + 144) == c.cs && Word(m, sp + 152) == c.rflags
            && Word(m, sp + 160) == c.rsp && Word(m, sp + 168) == c.ss
    ensures AgreeOutside(mem, StoreReturn(mem, sp, c, number, code), sp + 120, sp + FRAME_SIZE)
  {
  }

  /** What is stored is what is loaded: pop order matches push order. */
  lemma LoadStored(mem: Ram, sp: nat, c: Context, number: nat, code: nat)
    ensures LoadContext(StoreFrame(mem, sp, c, number, code), sp) == c
    ensures Word(StoreFrame(mem, sp, c, number, code), sp + 120) == number
  {
    LoadStoredReturn(mem, sp, c, number, code);
    LoadStoredRegs(StoreReturn(mem, sp, c, number, code), sp, c.regs);
  }

  lemma StoredNumber(mem: Ram, sp: nat, c: Context)
    ensures Word(StoreFrame(mem, sp, c, TIMER_VECTOR, 0), sp + 120) == TIMER_VECTOR
  {
    LoadStored(mem, sp, c, TIMER_VECTOR, 0);
  }

  /** The frame is all that is written. */
  lemma StoreFrameFrame(mem: Ram, sp: nat, c: Context, number: nat, code: nat)
    ensures AgreeOutside(mem, StoreFrame(mem, sp, c, number, code), sp, sp + FRAME_SIZE)
  {
    LoadStoredReturn(mem, sp, c, number, code);
    LoadStoredRegs(StoreReturn(mem, sp, c, number, code), sp, c.regs);
  }

  /** A frame is described by its own words alone. */
  lemma LoadSame(mem: Ram, mem': Ram, sp: nat)
    requires AgreeOn(mem, mem', sp, sp + FRAME_SIZE)
    ensures LoadContext(mem', sp) == LoadContext(mem, sp)
  {
  }

  /** Where a new process starts: at its entry point, on top of its stack, interrupts
      enabled, all registers zero. */
  function InitialContext(entry: nat, top: nat): Context {
    Context(ZeroRegs, entry, 0x08, 0x202, top, 0x10)
  }

  // ---------------------------------------------------------------- the instructions

  class Cpu {
    var regs: Regs
    var rip: nat
    var cs: nat
    var rflags: nat
    var rsp: nat
    var ss: nat
    var mem: Ram

    ghost function Now(): Context
      reads this
    {
      Context(regs, rip, cs, rflags, rsp, ss)
    }

    constructor (c: Context, mem: Ram)
      ensures Now() == c && this.mem == mem
    {
      regs, rip, cs, rflags, rsp, ss := c.regs, c.rip, c.cs, c.rflags, c.rsp, c.ss;
      this.mem := mem;
    }

    method Push(v: nat)
      requires rsp >= 8
      modifies this`rsp, this`mem
      ensures rsp == old(rsp) - 8 && mem == old(mem)[rsp := v]
    {
      rsp := rsp - 8;
      mem := mem[rsp := v];
    }

    method Pop() returns (v: nat)
      modifies this`rsp
      ensures rsp == old(rsp) + 8 && v == Word(mem, old(rsp))
    {
      v := Word(mem, rsp);
      rsp := rsp + 8;
    }

    /** The processor accepts the interrupt: stack, flags and return address are saved. */
    method Accept(vector: nat)
      requires Aligned(rsp) >= FRAME_SIZE
      modifies this`rsp, this`mem, this`rip
      ensures rsp == Aligned(old(rsp)) - 40 && rip == vector
      ensures mem == StorePushed(old(mem), Aligned(old(rsp)) - FRAME_SIZE, old(Now()))
    {
      var interrupted := rsp;
      rsp := Aligned(rsp);
      Push(ss);
      Push(interrupted);
      Push(rflags);
      Push(cs);
      Push(rip);
      rip := vector;
    }

    /** Entry of the timer stub: error code, vector number, then the registers. */
    method SaveRegisters()
      requires rsp >= FRAME_SIZE - 40
      modifies this`rsp, this`mem
      ensures rsp == old(rsp) - (FRAME_SIZE - 40)
      ensures mem == StoreRegs(StoreNumbers(old(mem), rsp, TIMER_VECTOR, 0), rsp, regs)
    {
      Push(0);
      Push(TIMER_VECTOR);
      PushLower();
      PushUpper();
    }

    method PushLower()
      requires rsp >= 56
      modifies this`rsp, this`mem
      ensures rsp == old(rsp) - 56 && forall sp: nat :: sp + 64 == rsp ==> mem == StoreLower(old(mem), sp, regs)
    {
      Push(regs.rax);
      Push(regs.rbx);
      Push(regs.rcx);
      Push(regs.rdx);
      Push(regs.rsi);
      Push(regs.rdi);
      Push(regs.rbp);
    }

    method PushUpper()
      requires rsp >= 64
      modifies this`rsp, this`mem
      ensures rsp == old(rsp) - 64 && mem == StoreUpper(old(mem), rsp, regs)
    {
      Push(regs.r8);
      Push(regs.r9);
      Push(regs.r10);
      Push(regs.r11);
      Push(regs.r12);
      Push(regs.r13);
      Push(regs.r14);
      Push(regs.r15);
    }

    /** Exit of the stub: the registers back, the two words dropped, and `iretq`. */
    method RestoreAndReturn()
      modifies this
      ensures mem == old(mem) && Now() == LoadContext(mem, old(rsp))
    {
      PopUpper();
      PopLower();
      rsp := rsp + 16;
      InterruptReturn();
    }

    method PopUpper()
      modifies this`rsp, this`regs
      ensures rsp == old(rsp) + 64
      ensures var r := LoadRegs(mem, old(rsp));
              regs == old(regs).(r15 := r.r15, r14 := r.r14, r13 := r.r13, r12 := r.r12, r11 := r.r11, r10 := r.r10, r9 := r.r9, r8 := r.r8)
    {
      var r15 := Pop();
      var r14 := Pop();
      var r13 := Pop();
      var r12 := Pop();
      var r11 := Pop();
      var r10 := Pop();
      var r9 := Pop();
      var r8 := Pop();
      regs := regs.(r15 := r15, r14 := r14, r13 := r13, r12 := r12, r11 := r11, r10 := r10, r9 := r9, r8 := r8);
    }

    method PopLower()
      modifies this`rsp, this`regs
      ensures rsp == old(rsp) + 56
      ensures forall sp: nat :: sp + 64 == old(rsp) ==> var r := LoadRegs(mem, sp);
              regs == old(regs).(rbp := r.rbp, rdi := r.rdi, rsi := r.rsi, rdx := r.rdx, rcx := r.rcx, rbx := r.rbx, rax := r.rax)
    {
      var rbp := Pop();
      var rdi := Pop();
      var rsi := Pop();
      var rdx := Pop();
      var rcx := Pop();
      var rbx := Pop();
      var rax := Pop();
      regs := regs.(rbp := rbp, rdi := rdi, rsi := rsi, rdx := rdx, rcx := rcx, rbx := rbx, rax := rax);
    }

    /** `iretq` pops five words, the stack pointer among them. */
    method InterruptReturn()
      modifies this`rsp, this`rip, this`cs, this`rflags, this`ss
      ensures rip == Word(mem, old(rsp)) && cs == Word(mem, old(rsp) + 8) && rflags == Word(mem, old(rsp) + 16)
      ensures rsp == Word(mem, old(rsp) + 24) && ss == Word(mem, old(rsp) + 32)
    {
      rip := Pop();
      cs := Pop();
      rflags := Pop();
      var newRsp := Pop();
      ss := Pop();
      rsp := newRsp;
    }

    /** The whole frame of the interrupted program. */
    method SaveAll(vector: nat)
      requires Aligned(rsp) >= FRAME_SIZE
      modifies this`rsp, this`mem, this`rip
      ensures rsp == Aligned(old(rsp)) - FRAME_SIZE
      ensures mem == StoreFrame(old(mem), rsp, old(Now()), TIMER_VECTOR, 0)
    {
      ghost var sp, c := Aligned(rsp) - FRAME_SIZE, Now();
      Accept(vector);
      ghost var mem1 := mem;
      SaveRegisters();
      assert mem == StoreRegs(StoreNumbers(mem1, sp, TIMER_VECTOR, 0), sp, c.regs);
    }

    /** From the interrupted instruction to the call of the handler, which finds the
        complete frame of the interrupted program at its argument. */
    method TimerEntry(vector: nat)
      requires Aligned(rsp) >= FRAME_SIZE
      modifies this
      ensures rsp == Aligned(old(rsp)) - FRAME_SIZE
      ensures mem == StoreFrame(old(mem), rsp, old(Now()), TIMER_VECTOR, 0)
      ensures regs.rdi == rsp && Word(mem, rsp + 120) == 32
    {
      hide StoreFrame;
      StoredNumber(mem, Aligned(rsp) - FRAME_SIZE, Now());
      SaveAll(vector);
      regs := regs.(rdi := Word(mem, rsp + 120) - TIMER_VECTOR);
      assert regs.rdi == 0;
      regs := regs.(rdi := rsp);
    }

    /** The words of a new process's stack, from the top down. */
    method BuildInitialFrame(entry: nat, top: nat) returns (stack: nat)
      requires top >= FRAME_SIZE
      modifies this`mem
      ensures stack == top - FRAME_SIZE
      ensures mem == StoreFrame(old(mem), stack, InitialContext(entry, top), 0, 0)
    {
      stack := BuildReturnFrame(entry, top);
      stack := BuildZeroRegisters(stack);
    }

    method BuildReturnFrame(entry: nat, top: nat) returns (stack: nat)
      requires top >= FRAME_SIZE
      modifies this`mem
      ensures stack == top - 56
      ensures mem == StoreReturn(old(mem), top - FRAME_SIZE, InitialContext(entry, top), 0, 0)
    {
      stack := top - 8;
      mem := mem[stack := 0x10];
      stack := stack - 8;
      mem := mem[stack := top];
      stack := stack - 8;
      mem := mem[stack := 0x202];
      stack := stack - 8;
      mem := mem[stack := 0x08];
      stack := stack - 8;
      mem := mem[stack := entry];
      stack := stack - 8;
      mem := mem[stack := 0];
      stack := stack - 8;
      mem := mem[stack := 0];
    }

    method BuildZeroRegisters(start: nat) returns (stack: nat)
      requires start >= 120
      modifies this`mem
      ensures stack == start - 120 && mem == StoreRegs(old(mem), stack, ZeroRegs)
    {
      stack := start - 8;
      mem := mem[stack := 0];
      stack := stack - 8;
      mem := mem[stack := 0];
      stack := stack - 8;
      mem := mem[stack := 0];
      stack := stack - 8;
      mem := mem[stack := 0];
      stack := stack - 8;
      mem := mem[stack := 0];
      stack := stack - 8;
      mem := mem[stack := 0];
      stack := stack - 8;
      mem := mem[stack := 0];
      stack := stack - 8;
      mem := mem[stack := 0];
      stack := stack - 8;
      mem := mem[stack := 0];
      stack := stack - 8;
      mem := mem[stack := 0];
      stack := stack - 8;
      mem := mem[stack := 0];
      stack := stack - 8;
      mem := mem[stack := 0];
      stack := stack - 8;
      mem := mem[stack := 0];
      stack := stack - 8;
      mem := mem[stack := 0];
      stack := stack - 8;
      mem := mem[stack := 0];
    }
  }
}
