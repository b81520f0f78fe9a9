/** The scheduler as a value, and what one call of the process code does to it.
    Processes are named by the address of their control block; 0 is no process.
    Class `Process.Scheduler` refines the operations on linked control blocks. */
module SchedSpec {
  import opened Frames
  import opened HeapSpec
  import Interrupts

  const MAX_PROCESSES: nat := 256
  const STACK_SIZE: nat := 8192
  const PCB_SIZE: nat := 256
  const SLICE: nat := 20
  const WORD32: nat := 0x1_0000_0000

  datatype ProcState = READY | RUNNING | WAITING | SLEEPING | TERMINATED

  /** The fields of a control block that the scheduler uses. */
  datatype Pcb = Pcb(pid: nat, parentPid: nat, state: ProcState, priority: nat, slice: nat, ticks: nat,
                     kernelStack: nat, userStack: nat, rsp: nat, rbp: nat, rip: nat, rflags: nat)

  datatype Sched = Sched(procs: map<nat, Pcb>, queue: seq<nat>, current: nat, nextPid: nat, count: nat, ticks: nat)

  /** A 32-bit counter counted up or down. */
  function More1(n: nat): nat { (n + 1) % WORD32 }

  function Less1(n: nat): nat { (n - 1) % WORD32 }

  /** Every process named is known. */
  ghost predicate Known(s: Sched) {
    (s.current != 0 ==> s.current in s.procs) && forall i :: 0 <= i < |s.queue| ==> s.queue[i] in s.procs
  }

  /** Take the head off the queue and give it a full quantum. */
  function Dispatch(s: Sched): Sched
    requires s.queue != [] && s.queue[0] in s.procs
  {
    var p := s.queue[0];
    s.(queue := s.queue[1..], procs := s.procs[p := s.procs[p].(state := RUNNING, slice := SLICE)])
  }

  /** Put a process at the end of the queue, ready. */
  function Requeue(s: Sched, p: nat): Sched
    requires p in s.procs
  {
    s.(queue := s.queue + [p], procs := s.procs[p := s.procs[p].(state := READY)])
  }

  /** The running process gives up the processor at `sp`, and the head of the queue goes on. */
  function Switch(s: Sched, sp: nat): (Sched, nat)
    requires Known(s) && s.current in s.procs
  {
    var s1 := Requeue(s.(procs := s.procs[s.current := s.procs[s.current].(rsp := sp)]), s.current);
    var next := s1.queue[0];
    var s2 := Dispatch(s1).(current := next);
    (s2, s2.procs[next].rsp)
  }

  /** One timer interrupt: the new state, and the stack pointer to continue on. */
  function Preempt(s: Sched, sp: nat): (Sched, nat)
    requires Known(s)
  {
    var s1 := s.(ticks := (s.ticks + 1) % WORD32);
    if s.current == 0 then (s1, sp) else
    var c := s.procs[s.current];
    var c1 := c.(ticks := (c.ticks + 1) % WORD32, slice := (c.slice - 1) % WORD32);
    var s2 := s1.(procs := s.procs[s.current := c1]);
    if c1.slice != 0 then (s2, sp) else Switch(s2, sp)
  }

  /** First dispatch: the quantum is the one the process was created with. */
  function FirstDispatch(s: Sched): Sched
    requires Known(s)
  {
    if s.queue == [] then s else
    var p := s.queue[0];
    s.(queue := s.queue[1..], current := p, procs := s.procs[p := s.procs[p].(state := RUNNING)])
  }

  /** The choice of a cooperative switch; 0 if nobody is ready. */
  function PickNext(s: Sched): (Sched, nat)
    requires Known(s)
  {
    if s.current != 0 && s.procs[s.current].state == RUNNING && s.procs[s.current].slice > 0 then (s, s.current) else
    var s1 := if s.current != 0 then Requeue(s, s.current) else s;
    if s1.queue == [] then (s1, 0) else (Dispatch(s1), s1.queue[0])
  }

  function DoSchedule(s: Sched): Sched
    requires Known(s)
  {
    var (s1, next) := PickNext(s);
    if next == 0 || next == s.current then s1 else s1.(current := next)
  }

  // ---------------------------------------------------------------- creation and removal

  /** The scheduler together with the memory it allocates from. */
  datatype Kernel = Kernel(sched: Sched, heap: Heap, frames: FrameMap)

  function NewPcb(s: Sched, entry: nat, priority: nat, kernelStack: nat, userStack: nat): Pcb
    requires Known(s)
  {
    Pcb(s.nextPid, if s.current != 0 then s.procs[s.current].pid else 0, READY, priority, SLICE, 0, kernelStack, userStack,
        kernelStack + STACK_SIZE - Interrupts.FRAME_SIZE, kernelStack + STACK_SIZE, entry, 0x202)
  }

  ghost predicate MayCreateStacks(h: Heap, f: FrameMap) {
    && MayMalloc(h, f, STACK_SIZE)
    && var (h1, f1, ks) := Kmalloc(h, f, STACK_SIZE);
    ks != 0 ==> MayMalloc(h1, f1, STACK_SIZE)
  }

  /** The allocations of a creation each fit, or find new memory at or behind the heap's end. */
  ghost predicate MayCreate(h: Heap, f: FrameMap) {
    && MayMalloc(h, f, PCB_SIZE)
    && var (h1, f1, p) := Kmalloc(h, f, PCB_SIZE);
    p != 0 ==> MayCreateStacks(h1, f1)
  }

  /** Freeing pointers obtained a moment ago. */
  function Give(h: Heap, ptr: nat): Heap {
    if ptr != 0 && IsBlock(h, ptr) then Kfree(h, ptr) else h
  }

  /** The user stack of the process at `p`; if it fails, what was obtained before is given back. */
  function CreateUserStack(h: Heap, f: FrameMap, p: nat, ks: nat): (Heap, FrameMap, nat) {
    var (h1, f1, us) := Kmalloc(h, f, STACK_SIZE);
    if us == 0 then (Give(Give(h1, ks), p), f1, 0) else (h1, f1, us)
  }

  /** Both stacks.  A failure is reported as a null user stack. */
  function CreateStacks(h: Heap, f: FrameMap, p: nat): (Heap, FrameMap, nat, nat) {
    var (h1, f1, ks) := Kmalloc(h, f, STACK_SIZE);
    if ks == 0 then (Give(h1, p), f1, 0, 0) else
    var (h', f', us) := CreateUserStack(h1, f1, p, ks);
    (h', f', ks, us)
  }

  /** The memory of a process: control block, kernel stack, user stack. */
  function CreateMemory(h: Heap, f: FrameMap): (Heap, FrameMap, nat, nat, nat) {
    var (h1, f1, p) := Kmalloc(h, f, PCB_SIZE);
    if p == 0 then (h1, f1, 0, 0, 0) else
    var (h', f', ks, us) := CreateStacks(h1, f1, p);
    (h', f', p, ks, us)
  }

  /** The scheduler with a new process at the end of the queue. */
  function Admitted(s: Sched, p: nat, c: Pcb): Sched {
    s.(nextPid := More1(s.nextPid), procs := s.procs[p := c], queue := s.queue + [p], count := More1(s.count))
  }

  /** What is made of the memory obtained.  The process identifier is used up as soon
      as there is a control block. */
  function Enroll(s: Sched, entry: nat, priority: nat, p: nat, ks: nat, us: nat): Sched
    requires Known(s)
  {
    if us != 0 then Admitted(s, p, NewPcb(s, entry, priority, ks, us))
    else if p != 0 then s.(nextPid := More1(s.nextPid))
    else s
  }

  /** The new process, or 0 if there are too many or memory ran out. */
  function Create(k: Kernel, entry: nat, priority: nat): (Kernel, nat)
    requires Known(k.sched)
  {
    if k.sched.count >= MAX_PROCESSES then (k, 0) else
    var (h, f, p, ks, us) := CreateMemory(k.heap, k.frames);
    (Kernel(Enroll(k.sched, entry, priority, p, ks, us), h, f), if us != 0 then p else 0)
  }

  function IndexOfProc(queue: seq<nat>, p: nat): (i: nat)
    ensures i <= |queue|
    ensures i < |queue| ==> queue[i] == p
    ensures forall j :: 0 <= j < i ==> queue[j] != p
  {
    if queue == [] || queue[0] == p then 0 else 1 + IndexOfProc(queue[1..], p)
  }

  function Unqueue(queue: seq<nat>, p: nat): seq<nat> {
    var i := IndexOfProc(queue, p);
    if i < |queue| then queue[..i] + queue[i + 1..] else queue
  }

  /** The scheduler without process `p`. */
  function Removed(s: Sched, p: nat): Sched {
    s.(procs := s.procs - {p}, queue := Unqueue(s.queue, p), count := Less1(s.count))
  }

  /** Take a process off the queue and give back its three allocations. */
  function Kill(k: Kernel, p: nat): Kernel
    requires p != 0 ==> p in k.sched.procs
  {
    if p == 0 then k else
    var c := k.sched.procs[p];
    Kernel(Removed(k.sched, p), Give(Give(Give(k.heap, c.kernelStack), c.userStack), p), k.frames)
  }

  // ---------------------------------------------------------------- the invariant

  ghost predicate NoDuplicates(q: seq<nat>) {
    forall i, j :: 0 <= i < j < |q| ==> q[i] != q[j]
  }

  function SetOf(q: seq<nat>): set<nat> { set p | p in q }

  function Members(s: Sched): set<nat> {
    SetOf(s.queue) + (if s.current != 0 then {s.current} else {})
  }

  /** The queue holds every ready process once, the current process is the one
      running and not queued, and the count is right.  Quanta stay in 1 .. 20. */
  ghost predicate SchedInv(s: Sched) {
    && NoDuplicates(s.queue) && s.current !in s.queue
    && s.procs.Keys == Members(s) && 0 !in s.procs
    && (forall i :: 0 <= i < |s.queue| ==> s.queue[i] in s.procs && s.procs[s.queue[i]].state == READY)
    && (s.current != 0 ==> s.procs[s.current].state == RUNNING && 1 <= s.procs[s.current].slice <= SLICE)
    && (s.current == 0 ==> forall i :: 0 <= i < |s.queue| ==> s.procs[s.queue[i]].slice == SLICE)
    && s.count == |s.queue| + (if s.current != 0 then 1 else 0) && s.count <= MAX_PROCESSES
  }
}
