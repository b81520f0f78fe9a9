/** One processor multiplexed among processes: over any run of timer interrupts, programs,
    creations, removals and calls of the memory managers it looks like one processor per
    process, each frozen exactly while it does not run. */
module Multiplex {
  import opened Frames
  import opened HeapSpec
  import opened SchedSpec
  import opened SchedLaws
  import opened KernelLaws
  import opened SchedRuns
  import opened Interrupts
  import opened Words

  /** The real processor, memory, and the kernel's own state. */
  datatype Machine = Machine(ctx: Context, mem: Ram, kernel: Kernel)

  function Procs(m: Machine): map<nat, Pcb> { m.kernel.sched.procs }

  function Current(m: Machine): nat { m.kernel.sched.current }

  function StackEnd(c: Pcb): nat { c.kernelStack + STACK_SIZE }

  /** The virtual processor of process `p`: the real one while it runs, else its saved frame. */
  function ContextOf(m: Machine, p: nat): Context
    requires p in Procs(m)
  {
    if p == Current(m) then m.ctx else LoadContext(m.mem, Procs(m)[p].rsp)
  }

  function Cpus(m: Machine): map<nat, Context> {
    map p | p in Procs(m) :: ContextOf(m, p)
  }

  // ---------------------------------------------------------------- steps

  /** Memory after the frame was pushed and the handler used the stack below it for `scratch`. */
  function Saved(m: Machine, scratch: Ram, sp: nat): Ram {
    StoreFrame(m.mem, sp, m.ctx, TIMER_VECTOR, 0) + scratch
  }

  /** The handler, called with the interrupted program's frame saved in `mem` at `sp`. */
  function Tick(m: Machine, mem: Ram, sp: nat): Machine
    requires Known(m.kernel.sched)
  {
    var (sched, sp') := Preempt(m.kernel.sched, sp);
    Continued(m, mem, sched, sp')
  }

  /** A timer interrupt, from the interrupted instruction to the resumed one. */
  ghost predicate TickStep(m: Machine, scratch: Ram, sp: nat, m': Machine) {
    Known(m.kernel.sched) && Aligned(m.ctx.rsp) == sp + FRAME_SIZE && m' == Tick(m, Saved(m, scratch, sp), sp)
  }

  /** The stub's exit, on the stack the scheduler chose. */
  function Continued(m: Machine, mem: Ram, sched: Sched, sp: nat): Machine {
    Machine(LoadContext(mem, sp), mem, m.kernel.(sched := sched))
  }

  function CreateProcess(m: Machine, entry: nat, priority: nat): (Machine, nat)
    requires Known(m.kernel.sched)
  {
    var (k, p) := Create(m.kernel, entry, priority);
    if p == 0 then (m.(kernel := k), 0) else
    var c := k.sched.procs[p];
    (Machine(m.ctx, StoreFrame(m.mem, c.rsp, InitialContext(entry, StackEnd(c)), 0, 0), k), p)
  }

  /** `sti`: set the interrupt flag. */
  function WithInterrupts(rflags: nat): nat {
    if rflags / 0x200 % 2 == 1 then rflags else rflags + 0x200
  }

  /** Bit 9 ends up set, and the others stay. */
  lemma OnlyInterruptFlag(rflags: nat)
    ensures var r := WithInterrupts(rflags);
            r / 512 % 2 == 1 && r % 512 == rflags % 512 && r / 1024 == rflags / 1024
  {
    var q, b, l := rflags / 1024, rflags / 512 % 2, rflags % 512;
    assert rflags == 1024 * q + 512 * b + l;
    FlagAdded(q, l);
  }

  lemma FlagAdded(q: nat, l: nat)
    requires l < 512
    ensures var r := 1024 * q + 512 + l; r / 512 % 2 == 1 && r % 512 == l && r / 1024 == q
  {
    Of512(2 * q + 1, l);
    Of1024(q, 512 + l);
    assert 1024 * q + 512 + l == 512 * (2 * q + 1) + l == 1024 * q + (512 + l);
  }

  lemma Of512(k: nat, l: nat)
    requires l < 512
    ensures (512 * k + l) / 512 == k && (512 * k + l) % 512 == l
  {
  }

  lemma Of1024(k: nat, l: nat)
    requires l < 1024
    ensures (1024 * k + l) / 1024 == k
  {
  }

  /** The first dispatch loads the control block's registers, most of them never set,
      and jumps to the entry point over a return address pushed below the frame. */
  function Dispatch1(m: Machine, unset: Regs): Machine
    requires Known(m.kernel.sched) && m.kernel.sched.queue != []
    requires Procs(m)[m.kernel.sched.queue[0]].rsp >= 8
  {
    var c := Procs(m)[m.kernel.sched.queue[0]];
    Machine(Context(unset.(rbp := c.rbp), c.rip, m.ctx.cs, WithInterrupts(m.ctx.rflags), c.rsp, m.ctx.ss),
            m.mem[c.rsp - 8 := c.rip], m.kernel.(sched := FirstDispatch(m.kernel.sched)))
  }

  ghost predicate BootStep(m: Machine, unset: Regs, m': Machine) {
    && Known(m.kernel.sched) && m.kernel.sched.queue != []
    && Procs(m)[m.kernel.sched.queue[0]].rsp >= 8 && m' == Dispatch1(m, unset)
  }

  /** `Serve` is a `kmalloc`, a `kfree` or a use of the frame allocator by anybody. */
  datatype Event =
    | Interrupt(scratch: Ram)
    | Execute(ctx: Context, mem: Ram)
    | Spawn(entry: nat, priority: nat)
    | Remove(p: nat)
    | Boot(unset: Regs)
    | Serve(op: SchedRuns.Op)

  /** Room for an interrupt frame below the stack pointer, within the process's own stack. */
  predicate RoomFor(c: Pcb, ctx: Context) {
    c.kernelStack + FRAME_SIZE + 16 <= ctx.rsp <= StackEnd(c)
  }

  ghost predicate Possible(m: Machine, e: Event) {
    match e
    case Interrupt(scratch) =>
      && Current(m) in Procs(m)
      && forall a :: a in scratch ==> Procs(m)[Current(m)].kernelStack <= a < Aligned(m.ctx.rsp) - FRAME_SIZE
    case Execute(ctx, mem) =>
      // The running program may do anything to memory but touch other processes' stacks.
      && Current(m) in Procs(m) && RoomFor(Procs(m)[Current(m)], ctx)
      && forall q :: q in Procs(m) && q != Current(m) ==> AgreeOn(m.mem, mem, Procs(m)[q].kernelStack, StackEnd(Procs(m)[q]))
    case Spawn(_, _) => MayCreate(m.kernel.heap, m.kernel.frames)
    case Remove(p) => p in Procs(m) && p != Current(m)
    case Boot(_) => Current(m) == 0 && m.kernel.sched.queue != []
    case Serve(op) => ByOthers(op) && SchedRuns.Allowed(m.kernel, op)
  }

  /** Where the frame of a process that does not run lies. */
  predicate FramePlaced(c: Pcb) {
    c.kernelStack <= c.rsp && c.rsp + FRAME_SIZE <= StackEnd(c) && c.rsp % 8 == 0
  }

  /** A process has room for an interrupt on its own stack and, unless it runs, its
      frame there.  Before the first dispatch these are the frames they were created with. */
  ghost predicate Placed(m: Machine, p: nat)
    requires p in Procs(m)
  {
    && RoomFor(Procs(m)[p], ContextOf(m, p))
    && (p != Current(m) ==> FramePlaced(Procs(m)[p]))
    && (Current(m) == 0 ==> Procs(m)[p].rsp == StackEnd(Procs(m)[p]) - FRAME_SIZE)
  }

  ghost predicate MachineInv(m: Machine) {
    KernelInv(m.kernel) && forall p :: p in Procs(m) ==> Placed(m, p)
  }

  lemma BootReady(m: Machine)
    requires MachineInv(m)
    ensures Known(m.kernel.sched)
    ensures Current(m) == 0 && m.kernel.sched.queue != [] ==> Procs(m)[m.kernel.sched.queue[0]].rsp >= 8
  {
    if m.kernel.sched.queue != [] {
      assert Placed(m, m.kernel.sched.queue[0]);
    }
  }

  // ---------------------------------------------------------------- saved frames are left alone

  /** Memory changed only on the stack of `p`: every other stack is intact. */
  lemma OthersStack(k: Kernel, mem: Ram, mem': Ram, p: nat, q: nat)
    requires KernelInv(k) && p in k.sched.procs && q in k.sched.procs && p != q
    requires AgreeOutside(mem, mem', k.sched.procs[p].kernelStack, StackEnd(k.sched.procs[p]))
    ensures AgreeOn(mem, mem', k.sched.procs[q].kernelStack, StackEnd(k.sched.procs[q]))
  {
    var c := k.sched.procs[q];
    forall a: nat | c.kernelStack <= a < StackEnd(c) ensures Word(mem', a) == Word(mem, a) {
      StacksApart(k, q, p, a);
    }
  }

  lemma FrameKept(mem: Ram, mem': Ram, c: Pcb)
    requires FramePlaced(c) && AgreeOn(mem, mem', c.kernelStack, StackEnd(c))
    ensures LoadContext(mem', c.rsp) == LoadContext(mem, c.rsp)
  {
    LoadSame(mem, mem', c.rsp);
  }

  lemma OthersFrame(m: Machine, mem: Ram, p: nat, q: nat)
    requires MachineInv(m) && p in Procs(m) && q in Procs(m) && p != q && q != Current(m)
    requires AgreeOutside(m.mem, mem, Procs(m)[p].kernelStack, StackEnd(Procs(m)[p]))
    ensures FramePlaced(Procs(m)[q]) && LoadContext(mem, Procs(m)[q].rsp) == LoadContext(m.mem, Procs(m)[q].rsp)
  {
    assert Placed(m, q);
    OthersStack(m.kernel, m.mem, mem, p, q);
    FrameKept(m.mem, mem, Procs(m)[q]);
  }

  /** What the handler writes below a frame neither changes the frame nor leaves the stack. */
  lemma ScratchBelow(mem: Ram, scratch: Ram, lo: nat, sp: nat)
    requires forall a: nat :: a in scratch ==> lo <= a < sp
    ensures LoadContext(mem + scratch, sp) == LoadContext(mem, sp)
    ensures AgreeOutside(mem, mem + scratch, lo, sp)
  {
    LoadSame(mem, mem + scratch, sp);
  }

  lemma AgreeTrans(mem: Ram, mem1: Ram, mem2: Ram, lo: nat, mid: nat, hi: nat)
    requires lo <= mid <= hi && AgreeOutside(mem, mem1, mid, hi) && AgreeOutside(mem1, mem2, lo, mid)
    ensures AgreeOutside(mem, mem2, lo, hi)
  {
  }

  lemma AgreeWiden(mem: Ram, mem': Ram, lo: nat, hi: nat, lo': nat, hi': nat)
    requires lo' <= lo && hi <= hi' && AgreeOutside(mem, mem', lo, hi)
    ensures AgreeOutside(mem, mem', lo', hi')
  {
  }

  /** Where an interrupted program's frame goes. */
  lemma SlotFacts(c: Pcb, ctx: Context, sp: nat)
    requires RoomFor(c, ctx) && Aligned(ctx.rsp) == sp + FRAME_SIZE
    ensures FramePlaced(c.(rsp := sp))
  {
    var k := ctx.rsp / 16;
    assert sp == 8 * (2 * k - 22);
  }

  /** `mem'` holds the frame of `ctx` at `sp` on the stack of `c`, and differs from `mem` only on that stack. */
  ghost predicate SavedOn(mem: Ram, mem': Ram, c: Pcb, sp: nat, ctx: Context) {
    AgreeOutside(mem, mem', c.kernelStack, StackEnd(c)) && LoadContext(mem', sp) == ctx && FramePlaced(c.(rsp := sp))
  }

  /** Nothing above the frame is written. */
  lemma SavedBelow(mem: Ram, scratch: Ram, ctx: Context, sp: nat, lo: nat)
    requires lo <= sp && forall a: nat :: a in scratch ==> lo <= a < sp
    ensures AgreeOutside(mem, StoreFrame(mem, sp, ctx, TIMER_VECTOR, 0) + scratch, lo, sp + FRAME_SIZE)
  {
    var stored := StoreFrame(mem, sp, ctx, TIMER_VECTOR, 0);
    StoreFrameFrame(mem, sp, ctx, TIMER_VECTOR, 0);
    ScratchBelow(stored, scratch, lo, sp);
    AgreeTrans(mem, stored, stored + scratch, lo, sp, sp + FRAME_SIZE);
  }

  lemma SavedMemory(mem: Ram, scratch: Ram, ctx: Context, sp: nat, c: Pcb)
    requires forall a: nat :: a in scratch ==> c.kernelStack <= a < sp
    requires FramePlaced(c.(rsp := sp))
    ensures SavedOn(mem, StoreFrame(mem, sp, ctx, TIMER_VECTOR, 0) + scratch, c, sp, ctx)
  {
    var stored := StoreFrame(mem, sp, ctx, TIMER_VECTOR, 0);
    LoadStored(mem, sp, ctx, TIMER_VECTOR, 0);
    ScratchBelow(stored, scratch, c.kernelStack, sp);
    SavedBelow(mem, scratch, ctx, sp, c.kernelStack);
    AgreeWiden(mem, stored + scratch, c.kernelStack, sp + FRAME_SIZE, c.kernelStack, StackEnd(c));
  }

  /** Saving the interrupted program, and whatever the handler then does below, stays on its own stack. */
  lemma TickMemory(m: Machine, scratch: Ram, sp: nat)
    requires MachineInv(m) && Possible(m, Interrupt(scratch)) && Aligned(m.ctx.rsp) == sp + FRAME_SIZE
    ensures SavedOn(m.mem, Saved(m, scratch, sp), Procs(m)[Current(m)], sp, m.ctx)
  {
    var c := Procs(m)[Current(m)];
    assert Placed(m, Current(m));
    SlotFacts(c, m.ctx, sp);
    SavedMemory(m.mem, scratch, m.ctx, sp, c);
  }

  // ---------------------------------------------------------------- the timer is invisible

  /** Where a process's frame lies once the running one has been saved at `sp`. */
  function FrameOf(s: Sched, sp: nat, p: nat): nat
    requires p in s.procs
  {
    if p == s.current then sp else s.procs[p].rsp
  }

  ghost predicate Handed(s: Sched, sp: nat, s': Sched, sp': nat) {
    && s'.procs.Keys == s.procs.Keys && s'.current in s.procs && s'.current != 0 && sp' == FrameOf(s, sp, s'.current)
    && (forall p :: p in s.procs ==> s'.procs[p].kernelStack == s.procs[p].kernelStack)
    && (forall p :: p in s.procs && p != s'.current ==> s'.procs[p].rsp == FrameOf(s, sp, p))
  }

  lemma SwitchHands(s: Sched, sp: nat, s': Sched, sp': nat)
    requires SchedInv(s) && s.current != 0 && s.procs[s.current].slice == 1 && (s', sp') == Preempt(s, sp)
    ensures Handed(s, sp, s', sp')
  {
    PreemptSwitches(s, sp);
    var next := (s.queue + [s.current])[0];
    assert next in s.procs;
  }

  /** The scheduler hands out the frame of the process it chose and remembers all others. */
  lemma PreemptHands(s: Sched, sp: nat, s': Sched, sp': nat)
    requires SchedInv(s) && s.current != 0 && (s', sp') == Preempt(s, sp)
    ensures Handed(s, sp, s', sp')
  {
    if s.procs[s.current].slice > 1 {
      PreemptStays(s, sp);
    } else {
      SwitchHands(s, sp, s', sp');
    }
  }

  /** Memory holds the frame of process `p` at `frame`, where an interrupt would resume it. */
  ghost predicate FrameHolds(m: Machine, mem: Ram, p: nat, frame: nat)
    requires p in Procs(m)
  {
    LoadContext(mem, frame) == ContextOf(m, p) && FramePlaced(Procs(m)[p].(rsp := frame))
  }

  /** Once the running program is saved, memory holds the frame of every process. */
  lemma AllSaved(m: Machine, scratch: Ram, sp: nat, p: nat)
    requires MachineInv(m) && Possible(m, Interrupt(scratch)) && Aligned(m.ctx.rsp) == sp + FRAME_SIZE && p in Procs(m)
    ensures FrameHolds(m, Saved(m, scratch, sp), p, FrameOf(m.kernel.sched, sp, p))
  {
    TickMemory(m, scratch, sp);
    if p != Current(m) {
      OthersFrame(m, Saved(m, scratch, sp), Current(m), p);
      assert Placed(m, p);
    }
  }

  /** The same process, as far as it can tell. */
  ghost predicate Unmoved(m: Machine, m': Machine, p: nat)
    requires p in Procs(m)
  {
    && p in Procs(m') && Procs(m')[p].kernelStack == Procs(m)[p].kernelStack
    && ContextOf(m', p) == ContextOf(m, p) && (p != Current(m') ==> FramePlaced(Procs(m')[p]))
  }

  lemma Resumed(m: Machine, mem: Ram, sp: nat, s': Sched, sp': nat, p: nat)
    requires p in Procs(m) && Handed(m.kernel.sched, sp, s', sp')
    requires FrameHolds(m, mem, p, FrameOf(m.kernel.sched, sp, p))
    ensures Unmoved(m, Continued(m, mem, s', sp'), p)
  {
    if p != s'.current {
      assert s'.procs[p].rsp == FrameOf(m.kernel.sched, sp, p);
    }
  }

  lemma TickUnmoved(m: Machine, mem: Ram, sp: nat, p: nat)
    requires SchedInv(m.kernel.sched) && Current(m) != 0 && p in Procs(m)
    requires FrameHolds(m, mem, p, FrameOf(m.kernel.sched, sp, p))
    ensures Known(m.kernel.sched) && Unmoved(m, Tick(m, mem, sp), p)
  {
    var (s', sp') := Preempt(m.kernel.sched, sp);
    PreemptHands(m.kernel.sched, sp, s', sp');
    Resumed(m, mem, sp, s', sp', p);
  }

  lemma TickKeys(m: Machine, mem: Ram, sp: nat)
    requires SchedInv(m.kernel.sched) && Current(m) != 0
    ensures Known(m.kernel.sched)
    ensures Procs(Tick(m, mem, sp)).Keys == Procs(m).Keys && Current(Tick(m, mem, sp)) != 0
  {
    var (s', sp') := Preempt(m.kernel.sched, sp);
    PreemptHands(m.kernel.sched, sp, s', sp');
  }

  lemma SameCpus(m: Machine, m': Machine)
    requires Procs(m').Keys == Procs(m).Keys && forall p :: p in Procs(m) ==> Unmoved(m, m', p)
    ensures Cpus(m') == Cpus(m)
  {
  }

  /** What did not move is still placed. */
  lemma UnmovedPlaced(m: Machine, m': Machine, p: nat)
    requires p in Procs(m) && Placed(m, p) && Unmoved(m, m', p)
    requires Current(m') == 0 ==> Current(m) == 0 && Procs(m')[p].rsp == Procs(m)[p].rsp
    ensures Placed(m', p)
  {
  }

  lemma UnmovedKeeps(m: Machine, m': Machine)
    requires MachineInv(m) && KernelInv(m'.kernel) && Current(m') != 0
    requires Procs(m').Keys == Procs(m).Keys && forall p :: p in Procs(m) ==> Unmoved(m, m', p)
    ensures MachineInv(m')
  {
    forall p | p in Procs(m') ensures Placed(m', p) {
      UnmovedPlaced(m, m', p);
    }
  }

  /** Every process is held in memory, the running one at `sp`. */
  ghost predicate Frozen(m: Machine, mem: Ram, sp: nat) {
    Current(m) != 0 && forall p :: p in Procs(m) ==> FrameHolds(m, mem, p, FrameOf(m.kernel.sched, sp, p))
  }

  lemma SavedFrozen(m: Machine, scratch: Ram, sp: nat)
    requires MachineInv(m) && Possible(m, Interrupt(scratch)) && Aligned(m.ctx.rsp) == sp + FRAME_SIZE
    ensures Frozen(m, Saved(m, scratch, sp), sp)
  {
    forall p | p in Procs(m) ensures FrameHolds(m, Saved(m, scratch, sp), p, FrameOf(m.kernel.sched, sp, p)) {
      AllSaved(m, scratch, sp, p);
    }
  }

  lemma FrozenUnmoved(m: Machine, mem: Ram, sp: nat)
    requires SchedInv(m.kernel.sched) && Frozen(m, mem, sp)
    ensures Known(m.kernel.sched) && forall p :: p in Procs(m) ==> Unmoved(m, Tick(m, mem, sp), p)
  {
    forall p | p in Procs(m) ensures Unmoved(m, Tick(m, mem, sp), p) {
      TickUnmoved(m, mem, sp, p);
    }
  }

  /** From saved frames the handler resumes every process as it was. */
  lemma FrozenResumes(m: Machine, mem: Ram, sp: nat, m': Machine)
    requires MachineInv(m) && Frozen(m, mem, sp) && m' == Tick(m, mem, sp)
    ensures Cpus(m') == Cpus(m) && MachineInv(m')
  {
    TickKeys(m, mem, sp);
    TickKeeps(m.kernel, sp);
    FrozenUnmoved(m, mem, sp);
    SameCpus(m, m');
    UnmovedKeeps(m, m');
  }

  /** A timer interrupt changes no virtual processor, whether or not it switches. */
  lemma TickInvisible(m: Machine, scratch: Ram, sp: nat, m': Machine)
    requires MachineInv(m) && Possible(m, Interrupt(scratch)) && TickStep(m, scratch, sp, m')
    ensures Cpus(m') == Cpus(m) && MachineInv(m')
  {
    SavedFrozen(m, scratch, sp);
    FrozenResumes(m, Saved(m, scratch, sp), sp, m');
  }

  // ---------------------------------------------------------------- the other events

  lemma ExecuteUnmoved(m: Machine, ctx: Context, mem: Ram, p: nat)
    requires MachineInv(m) && Possible(m, Execute(ctx, mem)) && p in Procs(m) && p != Current(m)
    ensures Unmoved(m, m.(ctx := ctx, mem := mem), p)
  {
    assert Placed(m, p);
    FrameKept(m.mem, mem, Procs(m)[p]);
  }

  /** A running program changes its own virtual processor and no other. */
  lemma ExecuteOwn(m: Machine, ctx: Context, mem: Ram, m': Machine)
    requires MachineInv(m) && Possible(m, Execute(ctx, mem)) && m' == m.(ctx := ctx, mem := mem)
    ensures Cpus(m') == Cpus(m)[Current(m) := ctx] && MachineInv(m')
  {
    forall p | p in Procs(m') ensures Placed(m', p) && (p != Current(m) ==> ContextOf(m', p) == ContextOf(m, p)) {
      assert Placed(m, p);
      if p != Current(m) {
        ExecuteUnmoved(m, ctx, mem, p);
      }
    }
    OneMoreCpu(m, m', Current(m), ctx);
  }

  /** Removing a process removes its virtual processor and touches no other. */
  lemma RemoveOne(m: Machine, p: nat, m': Machine)
    requires MachineInv(m) && Possible(m, Remove(p)) && m' == m.(kernel := Kill(m.kernel, p))
    ensures Cpus(m') == Cpus(m) - {p} && MachineInv(m')
  {
    KillMeaning(m.kernel, p);
    forall q | q in Procs(m') ensures Placed(m', q) && ContextOf(m', q) == ContextOf(m, q) {
      assert Placed(m, q);
    }
    assert Procs(m').Keys == Procs(m).Keys - {p};
    FewerCpus(m, m', p);
  }

  lemma FewerCpus(m: Machine, m': Machine, p: nat)
    requires Procs(m').Keys == Procs(m).Keys - {p}
    requires forall q :: q in Procs(m') ==> ContextOf(m', q) == ContextOf(m, q)
    ensures Cpus(m') == Cpus(m) - {p}
  {
  }

  lemma HoldsAligned(h: Heap, f: FrameMap, ptr: nat, size: nat)
    requires Inv(h, f) && Holds(h, ptr, size)
    ensures ptr % 8 == 0
  {
    var b :| b in Live(h.blocks) && b.addr + HEADER == ptr && b.size >= size;
    var i :| 0 <= i < |h.blocks| && h.blocks[i] == b;
  }

  lemma StackAligned(k: Kernel, p: nat)
    requires KernelInv(k) && p in k.sched.procs
    ensures k.sched.procs[p].kernelStack % 8 == 0
  {
    assert ProcHolds(k.heap, p, k.sched.procs[p]);
    HoldsAligned(k.heap, k.frames, k.sched.procs[p].kernelStack, STACK_SIZE);
  }

  lemma TopAligned(c: Pcb)
    requires c.kernelStack % 8 == 0 && c.rsp == StackEnd(c) - FRAME_SIZE
    ensures FramePlaced(c)
  {
  }

  /** Machine after a new process's frame was built. */
  function WithFrame(m: Machine, k': Kernel, entry: nat, c: Pcb): Machine {
    Machine(m.ctx, StoreFrame(m.mem, c.rsp, InitialContext(entry, StackEnd(c)), 0, 0), k')
  }

  lemma NewFrame(m: Machine, k': Kernel, p: nat, entry: nat, priority: nat)
    requires Known(m.kernel.sched) && KernelInv(k') && ProcessAdded(m.kernel, k', p, entry, priority)
    ensures var c := k'.sched.procs[p];
            && FramePlaced(c) && c.rsp == StackEnd(c) - FRAME_SIZE
            && SavedOn(m.mem, WithFrame(m, k', entry, c).mem, c, c.rsp, InitialContext(entry, StackEnd(c)))
  {
    var c := k'.sched.procs[p];
    StackAligned(k', p);
    TopAligned(c);
    StoredOn(m.mem, c, InitialContext(entry, StackEnd(c)));
  }

  lemma StoredOn(mem: Ram, c: Pcb, ctx: Context)
    requires FramePlaced(c)
    ensures SavedOn(mem, StoreFrame(mem, c.rsp, ctx, 0, 0), c, c.rsp, ctx)
  {
    var stored := StoreFrame(mem, c.rsp, ctx, 0, 0);
    LoadStored(mem, c.rsp, ctx, 0, 0);
    StoreFrameFrame(mem, c.rsp, ctx, 0, 0);
    AgreeWiden(mem, stored, c.rsp, c.rsp + FRAME_SIZE, c.kernelStack, StackEnd(c));
  }

  /** Writes to the stack of a new process move no other. */
  lemma SpawnUnmoved(m: Machine, m': Machine, p: nat, q: nat)
    requires MachineInv(m) && KernelInv(m'.kernel) && p in Procs(m') && p !in Procs(m) && q in Procs(m)
    requires Procs(m') == Procs(m)[p := Procs(m')[p]] && m'.ctx == m.ctx && Current(m') == Current(m)
    requires AgreeOutside(m.mem, m'.mem, Procs(m')[p].kernelStack, StackEnd(Procs(m')[p]))
    ensures Unmoved(m, m', q)
  {
    assert Placed(m, q);
    OthersStack(m'.kernel, m.mem, m'.mem, p, q);
    if q != Current(m) {
      FrameKept(m.mem, m'.mem, Procs(m)[q]);
    }
  }

  /** `m'` is `m` with process `p` added, whose frame on its own stack holds `ctx`. */
  ghost predicate WithProcess(m: Machine, m': Machine, p: nat, ctx: Context) {
    && p in Procs(m') && p !in Procs(m) && p != 0 && p != Current(m')
    && Procs(m') == Procs(m)[p := Procs(m')[p]] && m'.ctx == m.ctx && Current(m') == Current(m)
    && var c := Procs(m')[p];
    && SavedOn(m.mem, m'.mem, c, c.rsp, ctx) && c.rsp == StackEnd(c) - FRAME_SIZE && ctx.rsp == StackEnd(c)
  }

  lemma AddedPlaced(m: Machine, m': Machine, p: nat, ctx: Context, q: nat)
    requires MachineInv(m) && KernelInv(m'.kernel) && WithProcess(m, m', p, ctx) && q in Procs(m')
    ensures Placed(m', q) && ContextOf(m', q) == if q == p then ctx else ContextOf(m, q)
  {
    hide KernelInv;
    if q != p {
      assert Placed(m, q);
      SpawnUnmoved(m, m', p, q);
    }
  }

  /** Every process is placed, and has the virtual processor it had, or `ctx` if it is new. */
  ghost predicate PlacedWith(m: Machine, m': Machine, p: nat, ctx: Context) {
    forall q :: q in Procs(m') ==> Placed(m', q) && (q == p || q in Procs(m)) && ContextOf(m', q) == if q == p then ctx else ContextOf(m, q)
  }

  lemma AllPlaced(m: Machine, m': Machine, p: nat, ctx: Context)
    requires MachineInv(m) && KernelInv(m'.kernel) && WithProcess(m, m', p, ctx)
    ensures PlacedWith(m, m', p, ctx)
  {
    hide MachineInv, KernelInv;
    forall q | q in Procs(m')
      ensures Placed(m', q) && (q == p || q in Procs(m)) && ContextOf(m', q) == if q == p then ctx else ContextOf(m, q)
    {
      AddedPlaced(m, m', p, ctx, q);
    }
  }

  lemma PlacedCpus(m: Machine, m': Machine, p: nat, ctx: Context)
    requires PlacedWith(m, m', p, ctx) && WithProcess(m, m', p, ctx) && KernelInv(m'.kernel)
    ensures Cpus(m') == Cpus(m)[p := ctx] && MachineInv(m')
  {
    hide KernelInv;
    OneMoreCpu(m, m', p, ctx);
  }

  lemma OneMoreCpu(m: Machine, m': Machine, p: nat, ctx: Context)
    requires Procs(m').Keys == Procs(m).Keys + {p}
    requires forall q :: q in Procs(m') ==> ContextOf(m', q) == if q == p then ctx else ContextOf(m, q)
    ensures Cpus(m') == Cpus(m)[p := ctx]
  {
  }

  lemma SpawnedWith(m: Machine, k': Kernel, p: nat, entry: nat, priority: nat, m': Machine)
    requires SchedInv(m.kernel.sched) && KernelInv(k') && ProcessAdded(m.kernel, k', p, entry, priority)
    requires m' == WithFrame(m, k', entry, k'.sched.procs[p])
    ensures WithProcess(m, m', p, InitialContext(entry, StackEnd(k'.sched.procs[p])))
  {
    hide HeapSpec.Inv, ProcsHold, ThreeObtained;
    NewFrame(m, k', p, entry, priority);
  }

  /** A new process starts at its entry point on its own stack; no other notices. */
  lemma SpawnNew(m: Machine, k': Kernel, p: nat, entry: nat, priority: nat, m': Machine)
    requires MachineInv(m) && SchedInv(m.kernel.sched) && KernelInv(k') && ProcessAdded(m.kernel, k', p, entry, priority)
    requires m' == WithFrame(m, k', entry, k'.sched.procs[p])
    ensures Cpus(m') == Cpus(m)[p := InitialContext(entry, StackEnd(k'.sched.procs[p]))]
    ensures MachineInv(m')
  {
    hide MachineInv, KernelInv, SchedInv, WithProcess, PlacedWith;
    SpawnedWith(m, k', p, entry, priority, m');
    AllPlaced(m, m', p, InitialContext(entry, StackEnd(k'.sched.procs[p])));
    PlacedCpus(m, m', p, InitialContext(entry, StackEnd(k'.sched.procs[p])));
  }

  lemma NothingSpawned(m: Machine, k': Kernel, m': Machine)
    requires MachineInv(m) && KernelInv(k') && NothingAdded(m.kernel, k') && m' == m.(kernel := k')
    ensures Cpus(m') == Cpus(m) && MachineInv(m')
  {
    forall q | q in Procs(m') ensures Placed(m', q) && Unmoved(m, m', q) {
      assert Placed(m, q);
    }
    SameCpus(m, m');
  }

  /** Creating a process, whether it succeeds or not. */
  lemma SpawnEffect(m: Machine, entry: nat, priority: nat, m': Machine, p: nat)
    requires MachineInv(m) && Possible(m, Spawn(entry, priority))
    requires Known(m.kernel.sched) && (m', p) == CreateProcess(m, entry, priority)
    ensures MachineInv(m')
    ensures p == 0 ==> Cpus(m') == Cpus(m)
    ensures p != 0 ==> p in Procs(m') && p !in Procs(m) && Cpus(m') == Cpus(m)[p := InitialContext(entry, StackEnd(Procs(m')[p]))]
  {
    var k' := Create(m.kernel, entry, priority).0;
    CreateKeepsInv(m.kernel, entry, priority);
    CreateMeaning(m.kernel, entry, priority);
    if p == 0 {
      NothingSpawned(m, k', m');
    } else {
      SpawnNew(m, k', p, entry, priority, m');
    }
  }

  /** What the first dispatch changes, and what it does not. */
  ghost predicate Booted(m: Machine, m': Machine, p: nat) {
    && Current(m) == 0 && Current(m') == p && p != 0 && p in Procs(m) && Procs(m').Keys == Procs(m).Keys
    && (forall q :: q in Procs(m) ==> Procs(m')[q].kernelStack == Procs(m)[q].kernelStack && Procs(m')[q].rsp == Procs(m)[q].rsp)
    && m'.ctx.rsp == Procs(m)[p].rsp && AgreeOutside(m.mem, m'.mem, Procs(m)[p].kernelStack, StackEnd(Procs(m)[p]))
  }

  lemma BootedPlaced(m: Machine, m': Machine, p: nat, q: nat)
    requires MachineInv(m) && Booted(m, m', p) && q in Procs(m)
    ensures Placed(m', q) && ContextOf(m', q) == if q == p then m'.ctx else ContextOf(m, q)
  {
    assert Placed(m, q);
    if q != p {
      OthersFrame(m, m'.mem, p, q);
    }
  }

  /** The pushed return address is the only word written. */
  lemma BootMemory(mem: Ram, c: Pcb, a: nat)
    requires c.kernelStack <= a < StackEnd(c)
    ensures AgreeOutside(mem, mem[a := c.rip], c.kernelStack, StackEnd(c))
  {
  }

  lemma BootShape(m: Machine, unset: Regs, m': Machine, p: nat)
    requires BootStep(m, unset, m') && Current(m) == 0 && p == m.kernel.sched.queue[0] && p in Procs(m)
    ensures Current(m') == p && Procs(m').Keys == Procs(m).Keys
    ensures forall q :: q in Procs(m) ==> Procs(m')[q].kernelStack == Procs(m)[q].kernelStack && Procs(m')[q].rsp == Procs(m)[q].rsp
    ensures Procs(m)[p].rsp >= 8 && m'.ctx.rsp == Procs(m)[p].rsp && m'.mem == m.mem[Procs(m)[p].rsp - 8 := Procs(m)[p].rip]
  {
    DispatchKeepsStacks(m.kernel.sched);
  }

  lemma BootRoom(m: Machine, p: nat)
    requires MachineInv(m) && Current(m) == 0 && p in Procs(m)
    ensures p != 0 && Procs(m)[p].kernelStack + 8 <= Procs(m)[p].rsp < StackEnd(Procs(m)[p])
  {
    assert Placed(m, p);
  }

  lemma BootParts(m: Machine, unset: Regs, m': Machine, p: nat)
    requires BootStep(m, unset, m') && Current(m) == 0 && p == m.kernel.sched.queue[0] && p in Procs(m) && p != 0
    requires Procs(m)[p].kernelStack + 8 <= Procs(m)[p].rsp < StackEnd(Procs(m)[p])
    ensures Booted(m, m', p)
  {
    BootShape(m, unset, m', p);
    BootMemory(m.mem, Procs(m)[p], Procs(m)[p].rsp - 8);
  }

  lemma BootIsBooted(m: Machine, unset: Regs, m': Machine)
    requires MachineInv(m) && Possible(m, Boot(unset)) && BootStep(m, unset, m')
    ensures Booted(m, m', m.kernel.sched.queue[0])
  {
    var p := m.kernel.sched.queue[0];
    BootRoom(m, p);
    BootParts(m, unset, m', p);
  }

  /** The first dispatch: the head of the queue starts at its entry point. */
  lemma BootFirst(m: Machine, unset: Regs, m': Machine)
    requires MachineInv(m) && Possible(m, Boot(unset)) && BootStep(m, unset, m')
    ensures var p := m.kernel.sched.queue[0];
            && p in Procs(m) && Current(m') == p && Cpus(m') == Cpus(m)[p := m'.ctx]
            && var c := Procs(m)[p]; m'.ctx.rip == c.rip && m'.ctx.rsp == c.rsp && m'.ctx.regs == unset.(rbp := c.rbp)
    ensures m'.ctx.rflags / 512 % 2 == 1 && m'.ctx.cs == m.ctx.cs && m'.ctx.ss == m.ctx.ss
    ensures MachineInv(m')
  {
    var p := m.kernel.sched.queue[0];
    BootIsBooted(m, unset, m');
    OnlyInterruptFlag(m.ctx.rflags);
    DispatchKeeps(m.kernel);
    forall q | q in Procs(m') ensures Placed(m', q) && ContextOf(m', q) == if q == p then m'.ctx else ContextOf(m, q) {
      BootedPlaced(m, m', p, q);
    }
    OneMoreCpu(m, m', p, m'.ctx);
  }

  /** Others' use of heap and frames is a step of no processor. */
  lemma ServeUnnoticed(m: Machine, op: SchedRuns.Op, m': Machine)
    requires MachineInv(m) && Possible(m, Serve(op)) && Known(m.kernel.sched) && m' == m.(kernel := Apply(m.kernel, op))
    ensures Cpus(m') == Cpus(m) && MachineInv(m')
  {
    hide KernelInv;
    StepKeeps(m.kernel, op, m'.kernel);
    SameSched(m, m');
  }

  lemma SameSched(m: Machine, m': Machine)
    requires MachineInv(m) && KernelInv(m'.kernel) && m' == m.(kernel := m'.kernel) && m'.kernel.sched == m.kernel.sched
    ensures Cpus(m') == Cpus(m) && MachineInv(m')
  {
    hide KernelInv;
    forall p | p in Procs(m') ensures Placed(m', p) && ContextOf(m', p) == ContextOf(m, p) {
      assert Placed(m, p);
    }
  }

  // ---------------------------------------------------------------- runs

  ghost predicate Step(m: Machine, e: Event, m': Machine) {
    Known(m.kernel.sched) && Possible(m, e) &&
    match e
    case Interrupt(scratch) => exists sp: nat :: TickStep(m, scratch, sp, m')
    case Execute(ctx, mem) => m' == m.(ctx := ctx, mem := mem)
    case Spawn(entry, priority) => m' == CreateProcess(m, entry, priority).0
    case Remove(p) => m' == m.(kernel := Kill(m.kernel, p))
    case Boot(unset) => BootStep(m, unset, m')
    case Serve(op) => m' == m.(kernel := Apply(m.kernel, op))
  }

  /** What a step of the machine is to the kernel: an operation of its runs, or nothing.  So
      what those runs keep, by themselves or next to the paging code, machine runs keep. */
  lemma StepOfKernel(m: Machine, e: Event, m': Machine)
    requires SchedInv(m.kernel.sched) && Step(m, e, m')
    ensures if e.Execute? then m'.kernel == m.kernel else exists op :: SchedRuns.Step(m.kernel, op, m'.kernel)
  {
    hide MayCreate, SchedInv, Preempt, FirstDispatch, Create, Kill;
    match e
    case Interrupt(scratch) =>
      var sp: nat :| TickStep(m, scratch, sp, m');
      assert SchedRuns.Step(m.kernel, TickOp(sp), m'.kernel);
    case Execute(_, _) =>
    case Spawn(entry, priority) => assert SchedRuns.Step(m.kernel, CreateOp(entry, priority), m'.kernel);
    case Remove(p) => assert SchedRuns.Step(m.kernel, KillOp(p), m'.kernel);
    case Boot(_) => assert SchedRuns.Step(m.kernel, DispatchOp, m'.kernel);
    case Serve(op) => assert SchedRuns.Step(m.kernel, op, m'.kernel);
  }

  /** Steps that are not steps of virtual processor `p`. */
  predicate Undisturbed(m: Machine, e: Event, p: nat)
    requires e.Boot? ==> m.kernel.sched.queue != []
  {
    match e
    case Execute(_, _) => p != Current(m)
    case Remove(x) => p != x
    case Boot(_) => p != m.kernel.sched.queue[0]
    case _ => true
  }

  /** What one step does to the virtual processors.  Timer and memory managers are invisible;
      a step of a program is a step of one processor, and a new processor starts fresh. */
  ghost predicate StepsAlone(m: Machine, e: Event, m': Machine) {
    match e
    case Interrupt(_) => Cpus(m') == Cpus(m)
    case Execute(ctx, _) => Cpus(m') == Cpus(m)[Current(m) := ctx]
    case Spawn(entry, _) => Cpus(m') == Cpus(m) || exists p :: Started(m, entry, m', p)
    case Remove(p) => Cpus(m') == Cpus(m) - {p}
    case Boot(_) =>
      && m.kernel.sched.queue != [] && m.kernel.sched.queue[0] in Procs(m)
      && var p := m.kernel.sched.queue[0];
      && Current(m') == p && m'.ctx.rip == Procs(m)[p].rip && Cpus(m') == Cpus(m)[p := m'.ctx]
    case Serve(_) => Cpus(m') == Cpus(m)
  }

  ghost predicate Started(m: Machine, entry: nat, m': Machine, p: nat) {
    p in Procs(m') && p !in Procs(m) && Cpus(m') == Cpus(m)[p := InitialContext(entry, StackEnd(Procs(m')[p]))]
  }

  /** One processor refines one processor per process, and stays in order. */
  lemma StepRefines(m: Machine, e: Event, m': Machine)
    requires MachineInv(m) && Step(m, e, m')
    ensures StepsAlone(m, e, m') && MachineInv(m')
  {
    hide MachineInv;
    match e
    case Interrupt(scratch) =>
      var sp: nat :| TickStep(m, scratch, sp, m');
      TickInvisible(m, scratch, sp, m');
    case Execute(ctx, mem) => ExecuteOwn(m, ctx, mem, m');
    case Spawn(entry, priority) =>
      var (n, p) := CreateProcess(m, entry, priority);
      SpawnEffect(m, entry, priority, n, p);
      assert p != 0 ==> Started(m, entry, m', p);
    case Remove(p) => RemoveOne(m, p, m');
    case Boot(unset) => BootFirst(m, unset, m');
    case Serve(op) => ServeUnnoticed(m, op, m');
  }

  ghost predicate StepAt(ms: seq<Machine>, es: seq<Event>, k: nat)
    requires k + 1 < |ms| && k < |es|
  {
    Step(ms[k], es[k], ms[k + 1])
  }

  ghost predicate IsMachineRun(ms: seq<Machine>, es: seq<Event>) {
    |ms| == |es| + 1 && forall k {:trigger StepAt(ms, es, k)} :: 0 <= k < |es| ==> StepAt(ms, es, k)
  }

  /** Runs may start on any heap that is in order, without processes. */
  lemma StartInOrder(m: Machine)
    requires HeapSpec.Inv(m.kernel.heap, m.kernel.frames) && m.kernel.sched == Sched(map[], [], 0, 1, 0, 0)
    ensures MachineInv(m)
  {
  }

  lemma {:induction false} RunKeepsMachine(ms: seq<Machine>, es: seq<Event>, k: nat)
    requires IsMachineRun(ms, es) && MachineInv(ms[0]) && k <= |es|
    ensures MachineInv(ms[k])
  {
    hide MachineInv, StepsAlone, Step;
    if k > 0 {
      RunKeepsMachine(ms, es, k - 1);
      assert StepAt(ms, es, k - 1);
      StepRefines(ms[k - 1], es[k - 1], ms[k]);
    }
  }

  lemma StepLeavesContext(m: Machine, e: Event, m': Machine, p: nat)
    requires MachineInv(m) && Step(m, e, m') && p in Procs(m) && Undisturbed(m, e, p)
    ensures p in Procs(m') && ContextOf(m', p) == ContextOf(m, p)
  {
    hide MachineInv, Step;
    StepRefines(m, e, m');
    AloneLeaves(m, e, m', p);
  }

  lemma AloneLeaves(m: Machine, e: Event, m': Machine, p: nat)
    requires StepsAlone(m, e, m') && p in Procs(m) && Undisturbed(m, e, p)
    ensures p in Procs(m') && ContextOf(m', p) == ContextOf(m, p)
  {
    assert p in Cpus(m') && Cpus(m')[p] == Cpus(m)[p];
  }

  /** Neither run, removed nor first dispatched between `i` and `j`. */
  ghost predicate Untouched(ms: seq<Machine>, es: seq<Event>, i: nat, j: nat, p: nat)
    requires IsMachineRun(ms, es) && i <= j <= |es|
  {
    forall k {:trigger StepAt(ms, es, k)} :: i <= k < j ==>
      StepAt(ms, es, k) && Undisturbed(ms[k], es[k], p)
  }

  lemma UntouchedBefore(ms: seq<Machine>, es: seq<Event>, i: nat, j: nat, p: nat)
    requires IsMachineRun(ms, es) && i < j <= |es| && Untouched(ms, es, i, j, p)
    ensures Untouched(ms, es, i, j - 1, p) && StepAt(ms, es, j - 1) && Undisturbed(ms[j - 1], es[j - 1], p)
  {
    hide Step, Undisturbed;
    assert StepAt(ms, es, j - 1);
  }

  /** Whatever else happens -- interrupts, switches, other programs, creations, removals
      -- a process's processor is exactly as it was left. */
  lemma ContextKept(ms: seq<Machine>, es: seq<Event>, i: nat, j: nat, p: nat)
    requires IsMachineRun(ms, es) && MachineInv(ms[0]) && i <= j <= |es| && p in Procs(ms[i]) && Untouched(ms, es, i, j, p)
    ensures p in Procs(ms[j]) && ContextOf(ms[j], p) == ContextOf(ms[i], p)
  {
    hide MachineInv;
    ResumesWithStack(ms, es, i, j, p);
  }

  /** A preempted process resumes with exactly the registers, flags, stack and
      instruction it was interrupted with. */
  lemma ResumesExactly(ms: seq<Machine>, es: seq<Event>, i: nat, j: nat, p: nat)
    requires IsMachineRun(ms, es) && MachineInv(ms[0]) && i <= j <= |es| && p in Procs(ms[i]) && Untouched(ms, es, i, j, p)
    requires Current(ms[i]) == p && Current(ms[j]) == p
    ensures ms[j].ctx == ms[i].ctx
  {
    hide MachineInv;
    ContextKept(ms, es, i, j, p);
  }

  lemma SpawnedFresh(m: Machine, e: Event, m': Machine, p: nat)
    requires MachineInv(m) && Step(m, e, m') && e.Spawn? && p in Procs(m') && p !in Procs(m)
    ensures ContextOf(m', p) == InitialContext(e.entry, StackEnd(Procs(m')[p]))
  {
    hide MachineInv, Possible, CreateProcess;
    StepRefines(m, e, m');
    assert p in Cpus(m') && p !in Cpus(m);
  }

  lemma RunSpawnedFresh(ms: seq<Machine>, es: seq<Event>, i: nat, p: nat)
    requires IsMachineRun(ms, es) && i < |es| && MachineInv(ms[i]) && es[i].Spawn?
    requires p in Procs(ms[i + 1]) && p !in Procs(ms[i])
    ensures ContextOf(ms[i + 1], p) == InitialContext(es[i].entry, StackEnd(Procs(ms[i + 1])[p]))
  {
    hide MachineInv;
    assert StepAt(ms, es, i);
    SpawnedFresh(ms[i], es[i], ms[i + 1], p);
  }

  /** A process created at step `i` first runs at its entry point, with zero registers,
      its stack pointer on top of its stack of 8192 bytes, the kernel's segments, and interrupts on. */
  lemma StartsFresh(ms: seq<Machine>, es: seq<Event>, i: nat, j: nat, p: nat)
    requires IsMachineRun(ms, es) && MachineInv(ms[0]) && i < j <= |es| && es[i].Spawn?
    requires p in Procs(ms[i + 1]) && p !in Procs(ms[i]) && Untouched(ms, es, i + 1, j, p) && Current(ms[j]) == p
    ensures ms[j].ctx == Context(Regs(0, 0, 0, 0, 0, 0, 0, 0, 0, 0, 0, 0, 0, 0, 0),
                                 es[i].entry, 0x08, 0x202, Procs(ms[i + 1])[p].kernelStack + 8192, 0x10)
  {
    hide MachineInv;
    RunKeepsMachine(ms, es, i);
    RunSpawnedFresh(ms, es, i, p);
    ContextKept(ms, es, i + 1, j, p);
  }

  // ---------------------------------------------------------------- stacks in use

  /** The words at and above the stack pointer of `p` are the same in `mem`. */
  ghost predicate StackKept(m: Machine, mem: Ram, p: nat)
    requires p in Procs(m)
  {
    AgreeOn(m.mem, mem, ContextOf(m, p).rsp, StackEnd(Procs(m)[p]))
  }

  lemma OtherStackKept(m: Machine, mem: Ram, p: nat)
    requires MachineInv(m) && p in Procs(m) && AgreeOn(m.mem, mem, Procs(m)[p].kernelStack, StackEnd(Procs(m)[p]))
    ensures StackKept(m, mem, p)
  {
    assert Placed(m, p);
  }

  lemma TickKeepsStack(m: Machine, scratch: Ram, sp: nat, p: nat)
    requires MachineInv(m) && Possible(m, Interrupt(scratch)) && Aligned(m.ctx.rsp) == sp + FRAME_SIZE && p in Procs(m)
    ensures StackKept(m, Saved(m, scratch, sp), p)
  {
    assert Placed(m, Current(m));
    SlotFacts(Procs(m)[Current(m)], m.ctx, sp);
    if p == Current(m) {
      SavedBelow(m.mem, scratch, m.ctx, sp, Procs(m)[p].kernelStack);
    } else {
      TickMemory(m, scratch, sp);
      OthersStack(m.kernel, m.mem, Saved(m, scratch, sp), Current(m), p);
      OtherStackKept(m, Saved(m, scratch, sp), p);
    }
  }

  /** No step of another processor touches the part of a process's stack that is in use. */
  lemma StepKeepsStack(m: Machine, e: Event, m': Machine, p: nat)
    requires MachineInv(m) && Step(m, e, m') && p in Procs(m) && Undisturbed(m, e, p)
    ensures StackKept(m, m'.mem, p)
  {
    hide MachineInv;
    match e
    case Interrupt(scratch) =>
      var sp: nat :| TickStep(m, scratch, sp, m');
      TickKeepsStack(m, scratch, sp, p);
    case Execute(ctx, mem) => OtherStackKept(m, mem, p);
    case Spawn(entry, priority) => SpawnKeepsStack(m, entry, priority, m', p);
    case Remove(x) =>
    case Boot(unset) => BootKeepsStack(m, unset, m', p);
    case Serve(_) =>
  }

  lemma BootKeepsStack(m: Machine, unset: Regs, m': Machine, p: nat)
    requires MachineInv(m) && Step(m, Boot(unset), m') && p in Procs(m) && p != m.kernel.sched.queue[0]
    ensures StackKept(m, m'.mem, p)
  {
    hide KernelInv;
    BootIsBooted(m, unset, m');
    OthersStack(m.kernel, m.mem, m'.mem, m.kernel.sched.queue[0], p);
    OtherStackKept(m, m'.mem, p);
  }

  lemma SpawnKeepsStack(m: Machine, entry: nat, priority: nat, m': Machine, p: nat)
    requires MachineInv(m) && Possible(m, Spawn(entry, priority)) && p in Procs(m)
    requires Known(m.kernel.sched) && m' == CreateProcess(m, entry, priority).0
    ensures StackKept(m, m'.mem, p)
  {
    hide KernelInv, Inv, MayCreate, ThreeObtained, SameHeld;
    var (k', q) := Create(m.kernel, entry, priority);
    CreateKeepsInv(m.kernel, entry, priority);
    CreateMeaning(m.kernel, entry, priority);
    if q != 0 {
      NewFrame(m, k', q, entry, priority);
      OthersStack(k', m.mem, m'.mem, q, p);
      OtherStackKept(m, m'.mem, p);
    }
  }

  /** The kernel stack of `p` is where it was. */
  ghost predicate StackStays(m: Machine, m': Machine, p: nat) {
    p in Procs(m) ==> p !in Procs(m') || StackEnd(Procs(m')[p]) == StackEnd(Procs(m)[p])
  }

  lemma SpawnKeepsStackPlace(m: Machine, entry: nat, priority: nat, m': Machine, p: nat)
    requires KernelInv(m.kernel) && Step(m, Spawn(entry, priority), m') && p in Procs(m)
    ensures StackStays(m, m', p)
  {
    hide KernelInv;
    var c := CreatedSched(m.kernel, entry, priority);
  }

  lemma TickKeepsStackPlace(m: Machine, sp: nat, p: nat)
    requires SchedInv(m.kernel.sched) && p in Procs(m)
    ensures Known(m.kernel.sched)
    ensures var procs := Preempt(m.kernel.sched, sp).0.procs; p in procs && procs[p].kernelStack == Procs(m)[p].kernelStack
  {
    PreemptKeepsStacks(m.kernel.sched, sp);
  }

  lemma StepKeepsStackPlace(m: Machine, e: Event, m': Machine, p: nat)
    requires KernelInv(m.kernel) && Step(m, e, m')
    ensures StackStays(m, m', p)
  {
    hide SchedInv, Inv, ProcsHold, MayCreate;
    if p in Procs(m) {
      match e
      case Interrupt(scratch) =>
        var sp: nat :| TickStep(m, scratch, sp, m');
        TickKeepsStackPlace(m, sp, p);
      case Execute(_, _) =>
      case Spawn(entry, priority) => SpawnKeepsStackPlace(m, entry, priority, m', p);
      case Remove(_) =>
      case Boot(unset) => DispatchKeepsStacks(m.kernel.sched);
      case Serve(_) =>
    }
  }

  /** What a stretch of a run leaves of a process: the process itself, its virtual
      processor, where its stack is, and what is on it. */
  ghost predicate Preserved(m: Machine, m': Machine, p: nat)
    requires p in Procs(m)
  {
    && p in Procs(m') && ContextOf(m', p) == ContextOf(m, p) && StackEnd(Procs(m')[p]) == StackEnd(Procs(m)[p])
    && StackKept(m, m'.mem, p)
  }

  lemma StepPreserves(m: Machine, e: Event, m': Machine, p: nat)
    requires MachineInv(m) && Step(m, e, m') && p in Procs(m) && Undisturbed(m, e, p)
    ensures Preserved(m, m', p)
  {
    StepLeavesContext(m, e, m', p);
    StepKeepsStackPlace(m, e, m', p);
    StepKeepsStack(m, e, m', p);
  }

  lemma PreservedSelf(m: Machine, p: nat)
    requires p in Procs(m)
    ensures Preserved(m, m, p)
  {
  }

  lemma PreservedTransitive(m0: Machine, m1: Machine, m2: Machine, p: nat)
    requires p in Procs(m0) && Preserved(m0, m1, p) && Preserved(m1, m2, p)
    ensures Preserved(m0, m2, p)
  {
  }

  lemma RunStepPreserves(ms: seq<Machine>, es: seq<Event>, k: nat, p: nat)
    requires IsMachineRun(ms, es) && k < |es| && MachineInv(ms[k]) && p in Procs(ms[k])
    requires StepAt(ms, es, k) && Undisturbed(ms[k], es[k], p)
    ensures Preserved(ms[k], ms[k + 1], p)
  {
    StepPreserves(ms[k], es[k], ms[k + 1], p);
  }

  /** A process that is preempted finds, when it resumes, not only its registers but also
      everything at and above its stack pointer as it left it. */
  lemma {:induction false} ResumesWithStack(ms: seq<Machine>, es: seq<Event>, i: nat, j: nat, p: nat)
    requires IsMachineRun(ms, es) && MachineInv(ms[0]) && i <= j <= |es| && p in Procs(ms[i]) && Untouched(ms, es, i, j, p)
    ensures Preserved(ms[i], ms[j], p)
    decreases j
  {
    hide MachineInv, StackKept, Step;
    if i == j {
      PreservedSelf(ms[i], p);
    } else {
      UntouchedBefore(ms, es, i, j, p);
      ResumesWithStack(ms, es, i, j - 1, p);
      RunKeepsMachine(ms, es, j - 1);
      RunStepPreserves(ms, es, j - 1, p);
      PreservedTransitive(ms[i], ms[j - 1], ms[j], p);
    }
  }
}
