/** From the creation of a process to the first instruction it runs, in numbers. */
module FirstRun {
  import opened HeapSpec
  import opened SchedSpec
  import opened KernelLaws
  import SchedRuns
  import opened Interrupts
  import opened Multiplex
  import opened Words

  /** While nobody runs, process `p` waits for its first dispatch, at `entry` and on the stack `ks`. */
  predicate Poised(m: Machine, p: nat, entry: nat, ks: nat) {
    && p in Procs(m)
    && var c := Procs(m)[p];
    c.rip == entry && c.kernelStack == ks && c.rsp == ks + 8192 - 176 && c.rbp == ks + 8192
  }

  lemma SpawnPoises(m: Machine, entry: nat, priority: nat, m': Machine, p: nat)
    requires MachineInv(m) && Step(m, Spawn(entry, priority), m') && p in Procs(m') && p !in Procs(m)
    ensures Poised(m', p, entry, Procs(m')[p].kernelStack)
  {
    hide Inv, ProcsHold, MayCreate, ThreeObtained, SameHeld;
    CreateMeaning(m.kernel, entry, priority);
  }

  /** Once a process runs, there is always one that does. */
  lemma IdleBefore(m: Machine, e: Event, m': Machine)
    requires MachineInv(m) && Step(m, e, m') && Current(m') == 0
    ensures Current(m) == 0
  {
    hide Inv, ProcsHold, MayCreate;
    match e
    case Interrupt(scratch) =>
      var sp: nat :| TickStep(m, scratch, sp, m');
      TickKeys(m, Saved(m, scratch, sp), sp);
    case Execute(_, _) =>
    case Spawn(entry, priority) => CreateMeaning(m.kernel, entry, priority);
    case Remove(_) =>
    case Boot(_) =>
    case Serve(_) =>
  }

  lemma SpawnLeavesPoised(m: Machine, entry': nat, priority: nat, m': Machine, p: nat, entry: nat, ks: nat)
    requires MachineInv(m) && Step(m, Spawn(entry', priority), m') && Poised(m, p, entry, ks)
    ensures Poised(m', p, entry, ks)
  {
    hide MachineInv, Inv, ProcsHold, MayCreate, ThreeObtained, SameHeld;
    SpawnKeepsProc(m, entry', priority, m', p);
  }

  lemma SpawnKeepsProc(m: Machine, entry: nat, priority: nat, m': Machine, p: nat)
    requires MachineInv(m) && Step(m, Spawn(entry, priority), m') && p in Procs(m)
    ensures p in Procs(m') && Procs(m')[p] == Procs(m)[p]
  {
    hide Inv, ProcsHold, MayCreate, ThreeObtained, SameHeld;
    CreateMeaning(m.kernel, entry, priority);
  }

  lemma StaysPoised(m: Machine, e: Event, m': Machine, p: nat, entry: nat, ks: nat)
    requires MachineInv(m) && Step(m, e, m') && e != Remove(p) && Current(m') == 0 && Poised(m, p, entry, ks)
    ensures Poised(m', p, entry, ks)
  {
    hide MachineInv, MayCreate;
    IdleBefore(m, e, m');
    match e
    case Interrupt(_) => NobodyInterrupted(m);
    case Execute(_, _) =>
    case Spawn(entry', priority) => SpawnLeavesPoised(m, entry', priority, m', p, entry, ks);
    case Remove(_) =>
    case Boot(_) => SchedRuns.DispatchKeepsStacks(m.kernel.sched);
    case Serve(_) =>
  }

  lemma NobodyInterrupted(m: Machine)
    requires MachineInv(m) && Current(m) == 0
    ensures Current(m) !in Procs(m)
  {
  }

  lemma {:induction false} RunPoised(ms: seq<Machine>, es: seq<Event>, i: nat, k: nat, p: nat)
    requires IsMachineRun(ms, es) && MachineInv(ms[0]) && i < k <= |es| && es[i].Spawn?
    requires p in Procs(ms[i + 1]) && p !in Procs(ms[i]) && forall j :: i < j < k ==> es[j] != Remove(p)
    ensures Current(ms[k]) == 0 ==> Poised(ms[k], p, es[i].entry, Procs(ms[i + 1])[p].kernelStack)
    decreases k
  {
    hide MachineInv, Step;
    RunKeepsMachine(ms, es, k - 1);
    assert StepAt(ms, es, k - 1);
    if i + 1 == k {
      SpawnPoises(ms[i], es[i].entry, es[i].priority, ms[k], p);
    } else if Current(ms[k]) == 0 {
      RunPoised(ms, es, i, k - 1, p);
      IdleBefore(ms[k - 1], es[k - 1], ms[k]);
      StaysPoised(ms[k - 1], es[k - 1], ms[k], p, es[i].entry, Procs(ms[i + 1])[p].kernelStack);
    }
  }

  /** A dispatch from `m` to `m'` starts at `entry`, with the stack pointer just below the first
      frame on the stack of 8192 bytes at `ks`, the base pointer at its top, and interrupts on;
      what else the registers hold was never set.  The entry point is also pushed. */
  predicate Launched(m: Machine, unset: Regs, m': Machine, entry: nat, ks: nat) {
    && m'.ctx.rip == entry && m'.ctx.rsp == ks + 8016 && m'.ctx.regs == unset.(rbp := ks + 8192)
    && m'.ctx.rflags / 512 % 2 == 1 && m'.ctx.rflags % 512 == m.ctx.rflags % 512 && m'.ctx.rflags / 1024 == m.ctx.rflags / 1024
    && m'.ctx.cs == m.ctx.cs && m'.ctx.ss == m.ctx.ss && m'.mem == m.mem[ks + 8008 := entry]
  }

  lemma BootLaunches(m: Machine, unset: Regs, m': Machine, p: nat, entry: nat, ks: nat)
    requires Known(m.kernel.sched) && BootStep(m, unset, m') && Current(m') == p && Poised(m, p, entry, ks)
    ensures Launched(m, unset, m', entry, ks)
  {
    OnlyInterruptFlag(m.ctx.rflags);
  }

  /** Over every run of the machine: the process that a creation at step `i` adds, and the first
      dispatch at step `j` picks, starts at the entry point of that very creation. */
  lemma FirstRunFresh(ms: seq<Machine>, es: seq<Event>, i: nat, j: nat, p: nat)
    requires IsMachineRun(ms, es) && MachineInv(ms[0]) && i < j < |es|
    requires es[i].Spawn? && p in Procs(ms[i + 1]) && p !in Procs(ms[i])
    requires es[j].Boot? && Current(ms[j + 1]) == p && forall k :: i < k < j ==> es[k] != Remove(p)
    ensures Launched(ms[j], es[j].unset, ms[j + 1], es[i].entry, Procs(ms[i + 1])[p].kernelStack)
  {
    hide MachineInv, Poised, Step, Launched;
    RunPoised(ms, es, i, j, p);
    assert StepAt(ms, es, j);
    BootIdle(ms[j], es[j].unset, ms[j + 1]);
    BootLaunches(ms[j], es[j].unset, ms[j + 1], p, es[i].entry, Procs(ms[i + 1])[p].kernelStack);
  }

  lemma BootIdle(m: Machine, unset: Regs, m': Machine)
    requires Step(m, Boot(unset), m')
    ensures Current(m) == 0 && Known(m.kernel.sched) && BootStep(m, unset, m')
  {
  }
}
