/** The process manager itself: control blocks linked into a ready queue, and the
    processor and memory they run on. */
module Process {
  import opened Words
  import opened Frames
  import opened HeapSpec
  import opened KHeap
  import opened Links
  import opened SchedSpec
  import opened SchedLaws
  import opened KernelLaws
  import opened Interrupts
  import opened Multiplex

  class Scheduler {
    /** The control blocks, by address. */
    var mem: Memory<Pcb>
    var head: nat
    var tail: nat
    var current: nat
    var nextPid: nat
    var count: nat
    var ticks: nat
    const heap: KHeap
    const cpu: Cpu

    /** The ready queue from head to tail. */
    ghost var queue: seq<nat>

    ghost predicate Linked()
      reads this
    {
      && Chained(mem, queue)
      && head == (if queue == [] then 0 else queue[0])
      && tail == PrevOf(queue, |queue|)
    }

    ghost function View(): Sched
      reads this
    {
      Sched(DataOf(mem), queue, current, nextPid, count, ticks)
    }

    ghost function KernelView(): Kernel
      reads this, heap, heap.pmm, heap.pmm.bitmap
      requires heap.Linked() && heap.pmm.Valid()
    {
      Kernel(View(), heap.View(), heap.pmm.View())
    }

    ghost function MachineView(): Machine
      reads this, cpu, heap, heap.pmm, heap.pmm.bitmap
      requires heap.Linked() && heap.pmm.Valid()
    {
      Machine(cpu.Now(), cpu.mem, KernelView())
    }

    ghost predicate Valid()
      reads this, heap, heap.pmm, heap.pmm.bitmap
    {
      heap.Valid() && Linked() && KernelInv(KernelView())
    }

    constructor (heap: KHeap, cpu: Cpu)
      requires heap.Valid()
      ensures this.heap == heap && this.cpu == cpu && Valid()
      ensures View() == Sched(map[], [], 0, 1, 0, 0)
    {
      NobodyKeepsInv(heap.View(), heap.pmm.View());
      this.heap, this.cpu := heap, cpu;
      mem := map[];
      head, tail, current := 0, 0, 0;
      nextPid, count, ticks := 1, 0, 0;
      queue := [];
    }

    // -------------------------------------------------------------- the ready queue

    method Update(p: nat, c: Pcb)
      requires Linked() && p in mem
      modifies this`mem
      ensures Linked() && p in mem && DataOf(mem) == DataOf(old(mem))[p := c]
    {
      SameLinksChained(mem, mem[p := mem[p].(data := c)], queue);
      mem := mem[p := mem[p].(data := c)];
    }

    method QueueEnqueue(proc: nat)
      requires Linked() && (proc != 0 ==> proc in mem && proc !in queue)
      modifies this`mem, this`head, this`tail, this`queue
      ensures Linked() && DataOf(mem) == DataOf(old(mem))
      ensures queue == if proc == 0 then old(queue) else old(queue) + [proc]
    {
      if proc == 0 {
        return;
      }
      InMemory(mem, queue);
      ghost var was := mem;
      mem := mem[proc := mem[proc].(next := 0)];
      if tail == 0 {
        head := proc;
        tail := proc;
        mem := mem[proc := mem[proc].(prev := 0)];
      } else {
        mem := mem[proc := mem[proc].(prev := tail)];
        mem := mem[tail := mem[tail].(next := proc)];
        tail := proc;
      }
      AppendChain(was, queue, proc, mem);
      queue := queue + [proc];
    }

    method QueueDequeue() returns (proc: nat)
      requires Linked()
      modifies this`mem, this`head, this`tail, this`queue
      ensures Linked() && DataOf(mem) == DataOf(old(mem))
      ensures if old(queue) == [] then proc == 0 && queue == [] else proc == old(queue)[0] && queue == old(queue)[1..]
      ensures proc != 0 || old(queue) == []
    {
      if head == 0 {
        InMemory(mem, queue);
        return 0;
      }
      Neighbours(mem, queue, 0);
      ghost var was := mem;
      proc := head;
      head := mem[proc].next;
      if head == 0 {
        tail := 0;
      } else {
        mem := mem[head := mem[head].(prev := 0)];
      }
      mem := mem[proc := mem[proc].(next := 0, prev := 0)];
      RemoveChain(was, queue, 0, mem);
      assert Without(queue, 0) == queue[1..];
      queue := queue[1..];
    }

    /** Take a process out of the queue by way of its neighbours. */
    method Unlink(proc: nat, ghost i: nat)
      requires Linked() && i < |queue| && queue[i] == proc
      modifies this`mem, this`head, this`tail, this`queue
      ensures Linked() && DataOf(mem) == DataOf(old(mem)) && queue == Without(old(queue), i)
    {
      Neighbours(mem, queue, i);
      ghost var was := mem;
      var next, prev := mem[proc].next, mem[proc].prev;
      if prev != 0 {
        mem := mem[prev := mem[prev].(next := next)];
      }
      if next != 0 {
        mem := mem[next := mem[next].(prev := prev)];
      }
      if head == proc {
        head := next;
      }
      if tail == proc {
        tail := prev;
      }
      RemoveChain(was, queue, i, mem);
      queue := Without(queue, i);
    }

    // -------------------------------------------------------------- scheduling

    /** The timer's part of the scheduler: count the tick and, when the quantum is used up,
        go on with the head of the queue. */
    method PreemptHandler(stackPtr: nat) returns (sp: nat)
      requires Linked() && Known(View()) && current !in queue
      modifies this
      ensures Linked() && (View(), sp) == Preempt(old(View()), stackPtr)
    {
      ticks := (ticks + 1) % WORD32;
      if current == 0 {
        return stackPtr;
      }
      var c := mem[current].data;
      Update(current, c.(ticks := (c.ticks + 1) % WORD32, slice := (c.slice - 1) % WORD32));
      if mem[current].data.slice <= 0 {
        // The process just put in the queue makes sure that there is a next one.
        sp := SwitchFrom(stackPtr);
        return;
      }
      sp := stackPtr;
    }

    method SwitchFrom(stackPtr: nat) returns (sp: nat)
      requires Linked() && Known(View()) && current in mem && current !in queue && current != 0
      modifies this`mem, this`head, this`tail, this`queue, this`current
      ensures Linked() && (View(), sp) == Switch(old(View()), stackPtr)
    {
      InMemory(mem, queue);
      var prev := current;
      ghost var s := View().(procs := View().procs[prev := View().procs[prev].(rsp := stackPtr)]);
      Update(prev, mem[prev].data.(rsp := stackPtr));
      assert View() == s;
      Update(prev, mem[prev].data.(state := READY));
      QueueEnqueue(prev);
      assert View() == Requeue(s, prev);
      InMemory(mem, queue);
      var next := QueueDequeue();
      assert next in DataOf(mem);
      Update(next, mem[next].data.(state := RUNNING, slice := SLICE));
      current := next;
      sp := mem[next].data.rsp;
    }

    method PickNext() returns (next: nat)
      requires Linked() && Known(View()) && current !in queue
      modifies this`mem, this`head, this`tail, this`queue
      ensures Linked() && (View(), next) == SchedSpec.PickNext(old(View()))
    {
      if current != 0 && mem[current].data.state == RUNNING && mem[current].data.slice > 0 {
        return current;
      }
      if current != 0 {
        Update(current, mem[current].data.(state := READY));
        QueueEnqueue(current);
      }
      InMemory(mem, queue);
      next := QueueDequeue();
      if next == 0 {
        return;
      }
      assert next in DataOf(mem);
      Update(next, mem[next].data.(state := RUNNING, slice := SLICE));
    }

    // -------------------------------------------------------------- the processor

    /** Switch to a process that has not run yet; nobody is saved.  The registers its
        control block does not define are `unset`. */
    method ContextSwitch(next: nat, unset: Regs)
      requires next in mem && View().procs[next].rsp >= 8
      modifies cpu
      ensures var c := View().procs[next];
              && cpu.Now() == Context(unset.(rbp := c.rbp), c.rip, old(cpu.cs), WithInterrupts(old(cpu.rflags)), c.rsp, old(cpu.ss))
              && cpu.mem == old(cpu.mem)[c.rsp - 8 := c.rip]
    {
      var c := mem[next].data;
      cpu.regs := unset.(rbp := c.rbp);
      cpu.rsp := c.rsp;
      cpu.Push(c.rip);
      cpu.rflags := WithInterrupts(cpu.rflags);
      var target := cpu.Pop();
      cpu.rip := target;
    }

    /** A first dispatch, given that the scheduler has already chosen. */
    method SwitchToFirst(ghost s: Sched, unset: Regs)
      requires heap.Linked() && heap.pmm.Valid() && Known(s) && s.queue != []
      requires View() == FirstDispatch(s) && s.procs[s.queue[0]].rsp >= 8
      modifies cpu
      ensures BootStep(old(MachineView().(kernel := KernelView().(sched := s))), unset, MachineView())
    {
      assert current in DataOf(mem);
      ContextSwitch(current, unset);
    }

    method TakeFirst() returns (first: nat)
      requires Linked() && Known(View()) && current == 0
      modifies this`mem, this`head, this`tail, this`queue, this`current
      ensures Linked() && View() == FirstDispatch(old(View()))
      ensures first == if old(queue) == [] then 0 else old(queue)[0]
      ensures first == 0 <==> old(queue) == []
    {
      InMemory(mem, queue);
      first := QueueDequeue();
      if first == 0 {
        return;
      }
      assert first in DataOf(mem);
      Update(first, mem[first].data.(state := RUNNING));
      current := first;
    }

    method StartFirst(unset: Regs)
      requires Linked() && Known(View()) && current == 0 && heap.Linked() && heap.pmm.Valid()
      requires queue != [] ==> View().procs[queue[0]].rsp >= 8
      modifies this, cpu
      ensures Linked()
      ensures if old(queue) == [] then MachineView() == old(MachineView()) else BootStep(old(MachineView()), unset, MachineView())
    {
      ghost var s := View();
      var first := TakeFirst();
      if first == 0 {
        return;
      }
      SwitchToFirst(s, unset);
    }

    method SchedulerStart(unset: Regs)
      requires heap.Valid() && Linked() && MachineInv(MachineView()) && current == 0
      modifies this, cpu
      ensures Linked()
      ensures if old(queue) == [] then MachineView() == old(MachineView()) else BootStep(old(MachineView()), unset, MachineView())
    {
      BootReady(MachineView());
      StartFirst(unset);
    }

    method ChooseNext() returns (switched: bool)
      requires Linked() && Known(View()) && current !in queue
      modifies this`mem, this`head, this`tail, this`queue, this`current
      ensures Linked() && View() == SchedSpec.DoSchedule(old(View())) && switched == Switches(old(View()))
    {
      var running := current;
      var next := PickNext();
      if next == 0 {
        return false;
      }
      if next == running {
        return false;
      }
      current := next;
      return true;
    }

    /** A cooperative switch.  It leaves a running process where it is. */
    method DoSchedule(unset: Regs)
      requires heap.Valid() && Linked() && MachineInv(MachineView())
      modifies this, cpu
      ensures heap.Valid() && Linked() && Known(old(View())) && View() == SchedSpec.DoSchedule(old(View()))
      ensures if old(current) != 0 || old(queue) == [] then MachineView() == old(MachineView())
              else BootStep(old(MachineView()), unset, MachineView())
    {
      hide MachineInv, KernelInv, Inv, Chained, BootStep;
      ghost var s := View();
      ScheduleReady(MachineView());
      var switched := ChooseNext();
      if switched {
        SwitchToFirst(s, unset);
      }
    }

    /** Entry of the stub and the handler.  What it leaves on the stack below the frame is `scratch`. */
    method EnterHandler(vector: nat, scratch: Ram, ghost sp: nat)
      requires Linked() && Known(View()) && current !in queue
      requires heap.Linked() && heap.pmm.Valid() && Aligned(cpu.rsp) == sp + FRAME_SIZE
      modifies this, cpu
      ensures Linked() && (View(), cpu.rsp) == Preempt(old(View()), sp) && cpu.mem == Saved(old(MachineView()), scratch, sp)
    {
      hide StoreFrame, Preempt, Known, Chained;
      cpu.TimerEntry(vector);
      var next := PreemptHandler(cpu.regs.rdi);
      cpu.mem := cpu.mem + scratch;
      cpu.rsp := next;
    }

    method LeaveHandler(ghost m: Machine, ghost sp: nat)
      requires heap.Linked() && heap.pmm.Valid() && KernelView() == m.kernel.(sched := View())
      requires Known(m.kernel.sched) && (View(), cpu.rsp) == Preempt(m.kernel.sched, sp)
      modifies cpu
      ensures cpu.mem == old(cpu.mem) && MachineView() == Tick(m, cpu.mem, sp)
    {
      cpu.RestoreAndReturn();
    }

    method TimerStub(vector: nat, scratch: Ram, ghost sp: nat)
      requires Linked() && Known(View()) && current !in queue
      requires heap.Linked() && heap.pmm.Valid() && Aligned(cpu.rsp) == sp + FRAME_SIZE
      modifies this, cpu
      ensures Linked() && TickStep(old(MachineView()), scratch, sp, MachineView())
    {
      ghost var m := MachineView();
      EnterHandler(vector, scratch, sp);
      LeaveHandler(m, sp);
    }

    /** One timer interrupt, from the interrupted instruction to the resumed one. */
    method TimerInterrupt(vector: nat, scratch: Ram, ghost sp: nat)
      requires Valid() && MachineInv(MachineView()) && Possible(MachineView(), Interrupt(scratch))
      requires Aligned(cpu.rsp) == sp + FRAME_SIZE
      modifies this, cpu
      ensures Valid() && MachineInv(MachineView())
      ensures TickStep(old(MachineView()), scratch, sp, MachineView()) && Cpus(MachineView()) == Cpus(old(MachineView()))
    {
      hide Inv, Chained, ProcsHold, TickStep;
      ghost var m := MachineView();
      TimerStub(vector, scratch, sp);
      TickInvisible(m, scratch, sp, MachineView());
    }

    // -------------------------------------------------------------- creation and removal

    method FreePtr(ptr: nat, ghost size: nat)
      requires heap.Valid() && Holds(heap.View(), ptr, size)
      modifies heap
      ensures heap.pmm.View() == old(heap.pmm.View())
      ensures heap.Valid() && heap.View() == Give(old(heap.View()), ptr) && Returned(old(heap.View()), heap.View(), ptr)
    {
      HoldsIsBlock(heap.View(), heap.pmm.View(), ptr, size);
      GiveStep(heap.View(), heap.pmm.View(), ptr, size);
      heap.Kfree(ptr);
    }

    method FreeProcess(proc: nat, ghost was: Pcb)
      requires heap.Valid() && ProcHolds(heap.View(), proc, was)
      requires proc in mem && mem[proc].data == was.(state := TERMINATED)
      modifies heap
      ensures heap.pmm.View() == old(heap.pmm.View())
      ensures heap.Valid() && heap.View() == GiveAll(old(heap.View()), proc, was)
    {
      var c := mem[proc].data;
      HoldsIsBlock(heap.View(), heap.pmm.View(), c.kernelStack, STACK_SIZE);
      HoldsIsBlock(heap.View(), heap.pmm.View(), c.userStack, STACK_SIZE);
      if c.kernelStack != 0 {
        FreePtr(c.kernelStack, STACK_SIZE);
      }
      if c.userStack != 0 {
        FreePtr(c.userStack, STACK_SIZE);
      }
      FreePtr(proc, PCB_SIZE);
    }

    method Detach(proc: nat)
      requires Linked() && proc in mem && proc in queue
      modifies this`mem, this`head, this`tail, this`queue
      ensures Linked() && queue == Unqueue(old(queue), proc) && proc !in queue
      ensures DataOf(mem) == DataOf(old(mem))[proc := old(mem)[proc].data.(state := TERMINATED)]
      ensures proc in mem && mem[proc].data == old(mem)[proc].data.(state := TERMINATED)
    {
      Update(proc, mem[proc].data.(state := TERMINATED));
      InQueue(queue, proc);
      ghost var i := IndexOfProc(queue, proc);
      WithoutGone(queue, i);
      Unlink(proc, i);
      assert proc in DataOf(mem);
    }

    /** The same, as the heap sees it: not at all. */
    method Withdraw(proc: nat)
      requires heap.Valid() && Linked() && proc in mem && proc in queue
      modifies this`mem, this`head, this`tail, this`queue
      ensures unchanged(heap) && unchanged(heap.pmm) && unchanged(heap.pmm.bitmap)
      ensures heap.Valid() && heap.View() == old(heap.View()) && heap.pmm.View() == old(heap.pmm.View())
      ensures Linked() && proc !in queue && proc in mem && mem[proc].data == old(mem)[proc].data.(state := TERMINATED)
      ensures var s := old(View());
              View() == s.(procs := s.procs[proc := s.procs[proc].(state := TERMINATED)], queue := Unqueue(s.queue, proc))
    {
      ghost var h, f := heap.View(), heap.pmm.View();
      Detach(proc);
      assert unchanged(heap) && unchanged(heap.pmm) && unchanged(heap.pmm.bitmap);
      assert heap.View() == h && heap.pmm.View() == f;
    }

    /** The control block's memory goes back to the heap. */
    method Forget(proc: nat)
      requires Linked() && proc !in queue
      modifies this`mem
      ensures Linked() && DataOf(mem) == DataOf(old(mem)) - {proc}
    {
      InMemory(mem, queue);
      SameLinksChained(mem, mem - {proc}, queue);
      mem := mem - {proc};
    }

    /** The same, as the scheduler sees it: not at all. */
    method FreeMemory(proc: nat, ghost was: Pcb)
      requires heap.Valid() && Linked() && ProcHolds(heap.View(), proc, was)
      requires proc in mem && mem[proc].data == was.(state := TERMINATED)
      modifies heap
      ensures unchanged(this) && heap.pmm.View() == old(heap.pmm.View())
      ensures heap.Valid() && heap.View() == GiveAll(old(heap.View()), proc, was) && Linked() && View() == old(View())
    {
      ghost var s := View();
      FreeProcess(proc, was);
      assert unchanged(this);
      assert View() == s && Linked();
    }

    /** Drop the control block and stop counting the process: the heap does not notice. */
    method DropProcess(proc: nat)
      requires heap.Valid() && Linked() && proc !in queue
      modifies this`mem, this`count
      ensures unchanged(heap) && unchanged(heap.pmm) && unchanged(heap.pmm.bitmap)
      ensures heap.Valid() && heap.View() == old(heap.View()) && heap.pmm.View() == old(heap.pmm.View())
      ensures Linked() && DataOf(mem) == DataOf(old(mem)) - {proc} && count == Less1(old(count))
    {
      Forget(proc);
      count := Less1(count);
    }

    /** Free the memory and stop counting the process. */
    method Dispose(proc: nat, ghost was: Pcb)
      requires heap.Valid() && Linked() && ProcHolds(heap.View(), proc, was) && proc !in queue
      requires proc in mem && mem[proc].data == was.(state := TERMINATED)
      modifies this`mem, this`count, heap
      ensures heap.Valid() && Linked() && heap.View() == GiveAll(old(heap.View()), proc, was)
      ensures heap.pmm.View() == old(heap.pmm.View())
      ensures View() == old(View()).(procs := old(View()).procs - {proc}, count := Less1(old(count)))
    {
      hide Inv, Chained, GiveAll;
      FreeMemory(proc, was);
      DropProcess(proc);
    }

    /** Unlink the process and free its memory, in that order. */
    method RemoveProcess(proc: nat)
      requires heap.Valid() && Linked() && proc in mem && proc in queue && proc != 0
      requires ProcHolds(heap.View(), proc, mem[proc].data)
      modifies this, heap
      ensures heap.Valid() && Linked() && View() == SchedSpec.Removed(old(View()), proc)
      ensures heap.View() == GiveAll(old(heap.View()), proc, old(mem)[proc].data) && heap.pmm.View() == old(heap.pmm.View())
    {
      ghost var c, s := mem[proc].data, View();
      Withdraw(proc);
      ghost var s1 := View();
      Dispose(proc, c);
      RemovedIs(s, proc, c.(state := TERMINATED), s1, View());
    }

    method ProcessKill(proc: nat)
      requires Valid() && (proc != 0 ==> proc in mem && proc != current)
      modifies this, heap
      ensures Valid() && KernelView() == Kill(old(KernelView()), proc)
    {
      if proc == 0 {
        return;
      }
      ghost var k := KernelView();
      KillReady(k, proc);
      RemoveProcess(proc);
      KilledIs(k, proc, KernelView());
    }

    method InitProcess(proc: nat, priority: nat)
      requires Linked() && Known(View()) && proc !in mem
      modifies this`mem, this`nextPid
      ensures Linked() && View() == Begun(old(View()), proc, priority) && proc in mem
    {
      var parent := if current != 0 then mem[current].data.pid else 0;
      var c := Pcb(nextPid, parent, READY, priority, SLICE, 0, 0, 0, 0, 0, 0, 0);
      InMemory(mem, queue);
      SameLinksChained(mem, mem[proc := Node(c, 0, 0)], queue);
      mem := mem[proc := Node(c, 0, 0)];
      nextPid := More1(nextPid);
    }

    method FreeBoth(kernelStack: nat, proc: nat)
      requires heap.Valid() && Holds(heap.View(), proc, PCB_SIZE) && Holds(heap.View(), kernelStack, STACK_SIZE) && proc != kernelStack
      modifies heap
      ensures heap.pmm.View() == old(heap.pmm.View())
      ensures heap.Valid() && heap.View() == Give(Give(old(heap.View()), kernelStack), proc)
    {
      FreePtr(kernelStack, STACK_SIZE);
      FreePtr(proc, PCB_SIZE);
    }

    /** The user stack, or neither stack and no control block. */
    method AllocateUserStack(proc: nat, kernelStack: nat) returns (userStack: nat)
      requires heap.Valid() && Holds(heap.View(), proc, PCB_SIZE) && Holds(heap.View(), kernelStack, STACK_SIZE) && proc != kernelStack
      requires MayMalloc(heap.View(), heap.pmm.View(), STACK_SIZE)
      modifies heap, heap.pmm`usedPages, heap.pmm.bitmap
      ensures heap.Valid()
      ensures (heap.View(), heap.pmm.View(), userStack) == CreateUserStack(old(heap.View()), old(heap.pmm.View()), proc, kernelStack)
    {
      MallocStep(heap.View(), heap.pmm.View(), STACK_SIZE);
      userStack := heap.Kmalloc(STACK_SIZE);
      if userStack == 0 {
        FreeBoth(kernelStack, proc);
      }
    }

    /** Both stacks, or neither and no control block. */
    method AllocateStacks(proc: nat) returns (kernelStack: nat, userStack: nat)
      requires heap.Valid() && Holds(heap.View(), proc, PCB_SIZE) && MayCreateStacks(heap.View(), heap.pmm.View())
      modifies heap, heap.pmm`usedPages, heap.pmm.bitmap
      ensures heap.Valid()
      ensures (heap.View(), heap.pmm.View(), kernelStack, userStack) == CreateStacks(old(heap.View()), old(heap.pmm.View()), proc)
    {
      AllocatesApart(heap.View(), heap.pmm.View(), proc);
      kernelStack := heap.Kmalloc(STACK_SIZE);
      userStack := 0;
      if kernelStack == 0 {
        FreePtr(proc, PCB_SIZE);
        return;
      }
      userStack := AllocateUserStack(proc, kernelStack);
    }

    /** The same, as scheduler and processor see it: not at all. */
    method AllocateMemory(proc: nat) returns (kernelStack: nat, userStack: nat)
      requires heap.Valid() && Linked() && Holds(heap.View(), proc, PCB_SIZE) && MayCreateStacks(heap.View(), heap.pmm.View())
      modifies heap, heap.pmm`usedPages, heap.pmm.bitmap
      ensures unchanged(this) && unchanged(cpu)
      ensures heap.Valid() && Linked() && View() == old(View()) && cpu.mem == old(cpu.mem)
      ensures (heap.View(), heap.pmm.View(), kernelStack, userStack) == CreateStacks(old(heap.View()), old(heap.pmm.View()), proc)
    {
      ghost var s, ram := View(), cpu.mem;
      kernelStack, userStack := AllocateStacks(proc);
      assert unchanged(this) && unchanged(cpu);
      assert View() == s && cpu.mem == ram && Linked();
    }

    /** Fill in the stacks and build the first frame. */
    method PrepareStack(proc: nat, entry: nat, kernelStack: nat, userStack: nat)
      requires Linked() && proc in mem
      modifies this`mem, cpu`mem
      ensures Linked() && proc in mem
      ensures var c := Stacked(old(mem)[proc].data, entry, kernelStack, userStack);
              && DataOf(mem) == DataOf(old(mem))[proc := c]
              && cpu.mem == StoreFrame(old(cpu.mem), c.rsp, InitialContext(entry, StackEnd(c)), 0, 0)
      ensures var c := mem[proc].data;
              && c.kernelStack == kernelStack && c.userStack == userStack
              && c.rip == entry && c.rsp == kernelStack + 8192 - 176 && c.rbp == kernelStack + 8192 && c.rflags == 0x202
      ensures LoadContext(cpu.mem, kernelStack + 8016)
           == Context(Regs(0, 0, 0, 0, 0, 0, 0, 0, 0, 0, 0, 0, 0, 0, 0), entry, 0x08, 0x202, kernelStack + 8192, 0x10)
    {
      hide Chained, StoreFrame, LoadContext;
      LoadStored(cpu.mem, kernelStack + 8016, InitialContext(entry, kernelStack + 8192), 0, 0);
      Update(proc, mem[proc].data.(kernelStack := kernelStack, userStack := userStack));
      assert DataOf(mem)[proc] == mem[proc].data;
      var top := kernelStack + STACK_SIZE;
      var stack := cpu.BuildInitialFrame(entry, top);
      Update(proc, mem[proc].data.(rsp := stack, rbp := top, rip := entry, rflags := 0x202));
      assert DataOf(mem)[proc] == mem[proc].data;
    }

    method FinishProcess(proc: nat, entry: nat, kernelStack: nat, userStack: nat)
      requires Linked() && proc in mem && proc !in queue && proc != 0
      modifies this, cpu`mem
      ensures Linked()
      ensures var c := Stacked(old(mem)[proc].data, entry, kernelStack, userStack);
              && View() == old(View()).(procs := old(View()).procs[proc := c], queue := old(queue) + [proc], count := More1(old(count)))
              && cpu.mem == StoreFrame(old(cpu.mem), c.rsp, InitialContext(entry, StackEnd(c)), 0, 0)
    {
      hide Chained, StoreFrame, LoadContext;
      PrepareStack(proc, entry, kernelStack, userStack);
      QueueEnqueue(proc);
      count := More1(count);
    }

    /** First fields and stacks. */
    method BeginProcess(proc: nat, priority: nat) returns (kernelStack: nat, userStack: nat)
      requires heap.Valid() && Holds(heap.View(), proc, PCB_SIZE) && MayCreateStacks(heap.View(), heap.pmm.View())
      requires Linked() && Known(View()) && proc !in mem
      modifies this`mem, this`nextPid, heap, heap.pmm`usedPages, heap.pmm.bitmap
      ensures heap.Valid() && Linked() && View() == Begun(old(View()), proc, priority) && cpu.mem == old(cpu.mem)
      ensures (heap.View(), heap.pmm.View(), kernelStack, userStack) == CreateStacks(old(heap.View()), old(heap.pmm.View()), proc)
      ensures proc in mem
    {
      InitProcess(proc, priority);
      kernelStack, userStack := AllocateMemory(proc);
      assert proc in DataOf(mem);
    }

    /** Second half: the heap does not notice. */
    method EndProcess(proc: nat, entry: nat, kernelStack: nat, userStack: nat, ghost s: Sched, ghost priority: nat)
      requires heap.Valid() && Known(s) && Linked() && proc in mem && proc !in s.procs && proc !in queue && proc != 0
      requires View() == Begun(s, proc, priority)
      modifies this, cpu`mem
      ensures unchanged(heap) && unchanged(heap.pmm) && unchanged(heap.pmm.bitmap)
      ensures heap.Valid() && heap.View() == old(heap.View()) && heap.pmm.View() == old(heap.pmm.View())
      ensures Linked() && View() == Enroll(s, entry, priority, proc, kernelStack, userStack)
      ensures cpu.mem == if userStack == 0 then old(cpu.mem) else FirstFrame(old(cpu.mem), entry, kernelStack)
    {
      ghost var h, f := heap.View(), heap.pmm.View();
      ConcludeProcess(proc, entry, kernelStack, userStack, s, priority);
      assert unchanged(heap) && unchanged(heap.pmm) && unchanged(heap.pmm.bitmap);
      assert heap.View() == h && heap.pmm.View() == f;
    }

    /** With the memory for the control block at hand. */
    method BuildProcess(proc: nat, entry: nat, priority: nat) returns (kernelStack: nat, userStack: nat)
      requires heap.Valid() && Holds(heap.View(), proc, PCB_SIZE) && MayCreateStacks(heap.View(), heap.pmm.View())
      requires Linked() && Known(View()) && proc !in mem && proc !in queue && proc != 0
      modifies this, heap, heap.pmm`usedPages, heap.pmm.bitmap, cpu`mem
      ensures heap.Valid() && Linked()
      ensures (heap.View(), heap.pmm.View(), kernelStack, userStack) == CreateStacks(old(heap.View()), old(heap.pmm.View()), proc)
      ensures View() == Enroll(old(View()), entry, priority, proc, kernelStack, userStack)
      ensures cpu.mem == if userStack == 0 then old(cpu.mem) else FirstFrame(old(cpu.mem), entry, kernelStack)
    {
      ghost var s := View();
      kernelStack, userStack := BeginProcess(proc, priority);
      EndProcess(proc, entry, kernelStack, userStack, s, priority);
    }

    /** Admit the process begun, or drop it for want of a stack. */
    method ConcludeProcess(proc: nat, entry: nat, kernelStack: nat, userStack: nat, ghost s: Sched, ghost priority: nat)
      requires Known(s) && Linked() && proc in mem && proc !in s.procs && proc !in queue && proc != 0
      requires View() == Begun(s, proc, priority)
      modifies this, cpu`mem
      ensures Linked() && View() == Enroll(s, entry, priority, proc, kernelStack, userStack)
      ensures cpu.mem == if userStack == 0 then old(cpu.mem) else FirstFrame(old(cpu.mem), entry, kernelStack)
    {
      if userStack == 0 {
        Forget(proc);
        EnrollsNone(s, proc, priority);
        return;
      }
      assert View().procs[proc] == mem[proc].data;
      FinishProcess(proc, entry, kernelStack, userStack);
      EnrollsOne(s, proc, entry, priority, kernelStack, userStack);
    }

    method AllocateProcess(entry: nat, priority: nat) returns (proc: nat, kernelStack: nat)
      requires heap.Valid() && Linked() && Known(View()) && ProcsHold(heap.View(), View().procs) && MayCreate(heap.View(), heap.pmm.View())
      modifies this, heap, heap.pmm`usedPages, heap.pmm.bitmap, cpu`mem
      ensures heap.Valid() && Linked()
      ensures (KernelView(), proc) == Create(old(KernelView()), entry, priority)
      ensures proc == 0 ==> cpu.mem == old(cpu.mem)
      ensures proc != 0 ==> cpu.mem == FirstFrame(old(cpu.mem), entry, kernelStack)
      ensures proc != 0 ==> HasStack(View(), proc, kernelStack)
    {
      if count >= MAX_PROCESSES {
        return 0, 0;
      }
      proc, kernelStack := AllocateBelowLimit(entry, priority);
    }

    /** Memory for a control block; processes and processor do not notice. */
    method AllocateBlock() returns (block: nat)
      requires heap.Valid() && MayMalloc(heap.View(), heap.pmm.View(), PCB_SIZE)
      modifies heap, heap.pmm`usedPages, heap.pmm.bitmap
      ensures unchanged(this) && unchanged(cpu)
      ensures heap.Valid() && View() == old(View()) && cpu.mem == old(cpu.mem) && cpu.Now() == old(cpu.Now())
      ensures (heap.View(), heap.pmm.View(), block) == HeapSpec.Kmalloc(old(heap.View()), old(heap.pmm.View()), PCB_SIZE)
    {
      hide Inv, Chained, MayMalloc;
      ghost var s, ram, ctx := View(), cpu.mem, cpu.Now();
      block := heap.Kmalloc(PCB_SIZE);
      assert unchanged(this) && unchanged(cpu);
      assert View() == s && cpu.mem == ram && cpu.Now() == ctx;
    }

    method AllocateBelowLimit(entry: nat, priority: nat) returns (proc: nat, kernelStack: nat)
      requires heap.Valid() && Linked() && Known(View()) && ProcsHold(heap.View(), View().procs) && MayCreate(heap.View(), heap.pmm.View())
      requires count < MAX_PROCESSES
      modifies this, heap, heap.pmm`usedPages, heap.pmm.bitmap, cpu`mem
      ensures heap.Valid() && Linked()
      ensures (KernelView(), proc) == Create(old(KernelView()), entry, priority)
      ensures proc == 0 ==> cpu.mem == old(cpu.mem)
      ensures proc != 0 ==> cpu.mem == FirstFrame(old(cpu.mem), entry, kernelStack)
      ensures proc != 0 ==> HasStack(View(), proc, kernelStack)
    {
      ghost var k := KernelView();
      kernelStack := 0;
      proc := AllocateBlock();
      if proc == 0 {
        CreateFails(k, entry, priority, heap.View(), heap.pmm.View());
        return;
      }
      ControlBlockFresh(k, heap.View(), heap.pmm.View(), proc);
      proc, kernelStack := CreateFrom(proc, entry, priority, k);
    }

    /** The rest of a creation, once there is memory for the control block. */
    method CreateFrom(block: nat, entry: nat, priority: nat, ghost k: Kernel) returns (proc: nat, kernelStack: nat)
      requires heap.Valid() && Linked() && View() == k.sched && Known(k.sched) && k.sched.count < MAX_PROCESSES
      requires block !in k.sched.procs && block !in k.sched.queue
      requires Holds(heap.View(), block, PCB_SIZE) && MayCreateStacks(heap.View(), heap.pmm.View())
      requires (heap.View(), heap.pmm.View(), block) == HeapSpec.Kmalloc(k.heap, k.frames, PCB_SIZE) && block != 0
      modifies this, heap, heap.pmm`usedPages, heap.pmm.bitmap, cpu`mem
      ensures heap.Valid() && Linked()
      ensures (KernelView(), proc) == Create(k, entry, priority)
      ensures proc == 0 ==> cpu.mem == old(cpu.mem)
      ensures proc != 0 ==> cpu.mem == FirstFrame(old(cpu.mem), entry, kernelStack)
      ensures proc != 0 ==> HasStack(View(), proc, kernelStack)
    {
      var userStack;
      kernelStack, userStack := BuildProcess(block, entry, priority);
      CreateParts(k, entry, priority, KernelView(), block, kernelStack, userStack);
      proc := if userStack == 0 then 0 else block;
    }

    method CreateOnMachine(entry: nat, priority: nat) returns (proc: nat)
      requires heap.Valid() && Linked() && Known(View()) && ProcsHold(heap.View(), View().procs) && MayCreate(heap.View(), heap.pmm.View())
      modifies this, heap, heap.pmm`usedPages, heap.pmm.bitmap, cpu`mem
      ensures heap.Valid() && Linked()
      ensures (MachineView(), proc) == CreateProcess(old(MachineView()), entry, priority)
    {
      hide Inv, Chained, ProcsHold, MayCreate, CreateMemory;
      ghost var m := MachineView();
      var kernelStack;
      proc, kernelStack := AllocateProcess(entry, priority);
      CreatedMachine(m, entry, priority, KernelView(), MachineView(), proc, kernelStack);
    }

    method ProcessCreate(entry: nat, priority: nat) returns (proc: nat)
      requires Valid() && MayCreate(heap.View(), heap.pmm.View())
      modifies this, heap, heap.pmm`usedPages, heap.pmm.bitmap, cpu`mem
      ensures Valid() && Known(old(View()))
      ensures (MachineView(), proc) == CreateProcess(old(MachineView()), entry, priority)
      ensures proc != 0 ==> proc in View().procs && Initial(old(View()), View().procs[proc], entry, priority)
    {
      ghost var m := MachineView();
      proc := CreateOnMachine(entry, priority);
      CreatedKernel(m, entry, priority, KernelView(), proc);
    }
  }

  lemma CreatedKernel(m: Machine, entry: nat, priority: nat, k': Kernel, p: nat)
    requires KernelInv(m.kernel) && MayCreate(m.kernel.heap, m.kernel.frames) && Known(m.kernel.sched)
    requires var (m', q) := CreateProcess(m, entry, priority); k' == m'.kernel && p == q
    ensures KernelInv(k')
    ensures p != 0 ==> p in k'.sched.procs && Initial(m.kernel.sched, k'.sched.procs[p], entry, priority)
  {
    CreateKeepsInv(m.kernel, entry, priority);
    CreateMeaning(m.kernel, entry, priority);
  }

  predicate HasStack(s: Sched, p: nat, ks: nat) {
    p in s.procs && s.procs[p].kernelStack == ks && s.procs[p].rsp == ks + STACK_SIZE - FRAME_SIZE
  }

  lemma FirstFrameAt(mem: Ram, entry: nat, c: Pcb)
    requires c.rsp == c.kernelStack + STACK_SIZE - FRAME_SIZE
    ensures FirstFrame(mem, entry, c.kernelStack) == StoreFrame(mem, c.rsp, InitialContext(entry, StackEnd(c)), 0, 0)
  {
  }

  lemma CreatedShape(m: Machine, entry: nat, priority: nat, k': Kernel, p: nat)
    requires Known(m.kernel.sched) && (k', p) == Create(m.kernel, entry, priority)
    ensures p == 0 ==> CreateProcess(m, entry, priority) == (m.(kernel := k'), 0)
    ensures p != 0 ==> p in k'.sched.procs && CreateProcess(m, entry, priority) == (WithFrame(m, k', entry, k'.sched.procs[p]), p)
  {
  }

  lemma CreatedMachine(m: Machine, entry: nat, priority: nat, k': Kernel, m': Machine, p: nat, ks: nat)
    requires Known(m.kernel.sched) && (k', p) == Create(m.kernel, entry, priority)
    requires m'.kernel == k' && m'.ctx == m.ctx && (p != 0 ==> HasStack(k'.sched, p, ks))
    requires m'.mem == if p == 0 then m.mem else FirstFrame(m.mem, entry, ks)
    ensures (m', p) == CreateProcess(m, entry, priority)
  {
    CreatedShape(m, entry, priority, k', p);
    if p != 0 {
      FirstFrameAt(m.mem, entry, k'.sched.procs[p]);
    }
  }

  lemma ControlBlockFresh(k: Kernel, h: Heap, f: FrameMap, p: nat)
    requires Known(k.sched) && Inv(k.heap, k.frames) && ProcsHold(k.heap, k.sched.procs)
    requires MayCreate(k.heap, k.frames) && (h, f, p) == HeapSpec.Kmalloc(k.heap, k.frames, PCB_SIZE) && p != 0
    ensures p !in k.sched.procs && p !in k.sched.queue && Holds(h, p, PCB_SIZE) && MayCreateStacks(h, f)
  {
    MallocStep(k.heap, k.frames, PCB_SIZE);
    HoldsNone(k.heap, p, PCB_SIZE);
    assert p in k.sched.procs ==> ProcHolds(k.heap, p, k.sched.procs[p]);
  }

  /** Without memory for the control block nothing but the frames may have changed. */
  lemma CreateFails(k: Kernel, entry: nat, priority: nat, h: Heap, f: FrameMap)
    requires Known(k.sched) && k.sched.count < MAX_PROCESSES && MayMalloc(k.heap, k.frames, PCB_SIZE)
    requires HeapSpec.Kmalloc(k.heap, k.frames, PCB_SIZE) == (h, f, 0)
    ensures Create(k, entry, priority) == (Kernel(k.sched, h, f), 0)
  {
  }

  lemma CreateParts(k: Kernel, entry: nat, priority: nat, k': Kernel, p: nat, ks: nat, us: nat)
    requires Known(k.sched) && k.sched.count < MAX_PROCESSES
    requires var (h1, f1, p1) := HeapSpec.Kmalloc(k.heap, k.frames, PCB_SIZE);
             p1 == p != 0 && (k'.heap, k'.frames, ks, us) == CreateStacks(h1, f1, p)
    requires k'.sched == Enroll(k.sched, entry, priority, p, ks, us)
    ensures Create(k, entry, priority) == (k', if us == 0 then 0 else p)
    ensures us != 0 ==> HasStack(k'.sched, p, ks)
  {
  }

  /** The words of a new stack's first frame. */
  function FirstFrame(mem: Ram, entry: nat, kernelStack: nat): Ram {
    var top := kernelStack + STACK_SIZE;
    StoreFrame(mem, top - FRAME_SIZE, InitialContext(entry, top), 0, 0)
  }

  lemma EnrollsNone(s: Sched, p: nat, priority: nat)
    requires Known(s) && p !in s.procs
    ensures Begun(s, p, priority).procs - {p} == s.procs
  {
  }

  lemma EnrollsOne(s: Sched, p: nat, entry: nat, priority: nat, ks: nat, us: nat)
    requires Known(s) && us != 0
    ensures var b := Begun(s, p, priority); var c := Stacked(b.procs[p], entry, ks, us);
            b.(procs := b.procs[p := c], queue := b.queue + [p], count := More1(b.count)) == Enroll(s, entry, priority, p, ks, us)
  {
    var b := Begun(s, p, priority);
    var c := Stacked(b.procs[p], entry, ks, us);
    assert b.procs[p := c] == s.procs[p := c];
  }

  /** The kernel stack is not the control block. */
  lemma AllocatesApart(h: Heap, f: FrameMap, p: nat)
    requires Inv(h, f) && Holds(h, p, PCB_SIZE) && MayMalloc(h, f, STACK_SIZE)
    ensures var (h', f', ks) := HeapSpec.Kmalloc(h, f, STACK_SIZE);
            Holds(h', p, PCB_SIZE) && (ks != 0 ==> Holds(h', ks, STACK_SIZE) && ks != p)
  {
    MallocStep(h, f, STACK_SIZE);
    HoldsLess(h, p, PCB_SIZE, 0);
  }

  lemma WithoutGone(list: seq<nat>, i: nat)
    requires Distinct(list) && i < |list|
    ensures list[i] !in Without(list, i)
  {
  }

  lemma RemovedIs(s: Sched, p: nat, c: Pcb, s1: Sched, s': Sched)
    requires s1 == s.(procs := s.procs[p := c], queue := Unqueue(s.queue, p))
    requires s' == s1.(procs := s1.procs - {p}, count := Less1(s1.count))
    ensures s' == SchedSpec.Removed(s, p)
  {
    assert s.procs[p := c] - {p} == s.procs - {p};
  }

  /** The parts of a removal, put together. */
  lemma KilledIs(k: Kernel, p: nat, k': Kernel)
    requires KernelInv(k) && p in k.sched.procs && p != k.sched.current && p != 0
    requires k'.sched == SchedSpec.Removed(k.sched, p) && k'.heap == GiveAll(k.heap, p, k.sched.procs[p]) && k'.frames == k.frames
    ensures k' == Kill(k, p) && KernelInv(k')
  {
    KillMeaning(k, p);
  }

  /** A process that may be killed waits in the queue, once, and owns its memory. */
  lemma KillReady(k: Kernel, p: nat)
    requires KernelInv(k) && p in k.sched.procs && p != k.sched.current
    ensures p in k.sched.queue && p != 0 && ProcHolds(k.heap, p, k.sched.procs[p])
  {
    assert p in Members(k.sched);
  }

  /** With the fields a new control block is given first; the others are not set yet. */
  function Begun(s: Sched, p: nat, priority: nat): Sched
    requires Known(s)
  {
    var parent := if s.current != 0 then s.procs[s.current].pid else 0;
    s.(procs := s.procs[p := Pcb(s.nextPid, parent, READY, priority, SLICE, 0, 0, 0, 0, 0, 0, 0)], nextPid := More1(s.nextPid))
  }

  function Stacked(c: Pcb, entry: nat, kernelStack: nat, userStack: nat): Pcb {
    c.(kernelStack := kernelStack, userStack := userStack, rsp := kernelStack + STACK_SIZE - FRAME_SIZE,
       rbp := kernelStack + STACK_SIZE, rip := entry, rflags := 0x202)
  }

  predicate Switches(s: Sched)
    requires Known(s)
  {
    var next := SchedSpec.PickNext(s).1;
    next != 0 && next != s.current
  }

  /** A cooperative switch happens exactly when nobody runs and somebody is ready. */
  lemma SwitchesWhenIdle(s: Sched)
    requires SchedInv(s)
    ensures Known(s) && (Switches(s) <==> s.current == 0 && s.queue != [])
    ensures SchedSpec.DoSchedule(s) == if Switches(s) then FirstDispatch(s) else s
  {
    DoScheduleMeaning(s);
  }

  /** What a cooperative switch finds. */
  lemma ScheduleReady(m: Machine)
    requires MachineInv(m)
    ensures var s := m.kernel.sched;
            && Known(s) && s.current !in s.queue && (Switches(s) <==> s.current == 0 && s.queue != [])
            && SchedSpec.DoSchedule(s) == (if Switches(s) then FirstDispatch(s) else s)
            && (s.current == 0 && s.queue != [] ==> s.procs[s.queue[0]].rsp >= 8)
  {
    BootReady(m);
    SwitchesWhenIdle(m.kernel.sched);
  }

  /** No processes: nothing is owned. */
  lemma NobodyKeepsInv(h: Heap, f: FrameMap)
    requires Inv(h, f)
    ensures KernelInv(Kernel(Sched(map[], [], 0, 1, 0, 0), h, f))
  {
  }

  function DataOf(mem: Memory<Pcb>): map<nat, Pcb> {
    map p | p in mem :: mem[p].data
  }
}
