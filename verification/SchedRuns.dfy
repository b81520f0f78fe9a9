/** Whole runs of the kernel: timer interrupts, creations, removals and cooperative
    switches in any order, and in between whatever programs and drivers do with the heap
    and the page frames. */
module SchedRuns {
  import opened Frames
  import opened HeapSpec
  import opened SchedSpec
  import opened SchedLaws
  import opened KernelLaws

  /** The last three are calls by others: `kmalloc`, `kfree`, and any use of the frame
      allocator, by the paging code for one. */
  datatype Op =
    | TickOp(sp: nat)
    | CreateOp(entry: nat, priority: nat)
    | KillOp(p: nat)
    | ScheduleOp
    | DispatchOp
    | MallocOp(request: nat)
    | GiveOp(ptr: nat)
    | FramesOp(frames: FrameMap)

  predicate ByOthers(op: Op) { op.MallocOp? || op.GiveOp? || op.FramesOp? }

  /** Others free no memory of a process. */
  ghost predicate Allowed(k: Kernel, op: Op) {
    match op
    case CreateOp(_, _) => MayCreate(k.heap, k.frames)
    case KillOp(p) => p == 0 || (p in k.sched.procs && p != k.sched.current)
    case DispatchOp => k.sched.current == 0
    case MallocOp(request) => MayMalloc(k.heap, k.frames, request)
    case GiveOp(ptr) => ptr == 0 || (IsBlock(k.heap, ptr) && ptr !in Owned(k.sched.procs))
    case FramesOp(frames) => Frames.Valid(frames)
    case _ => true
  }

  /** The operation can be carried out at all. */
  predicate Defined(k: Kernel, op: Op) {
    match op
    case KillOp(p) => p != 0 ==> p in k.sched.procs
    case MallocOp(request) => request <= MAX_REQUEST
    case GiveOp(ptr) => ptr == 0 || IsBlock(k.heap, ptr)
    case _ => true
  }

  function Apply(k: Kernel, op: Op): Kernel
    requires Known(k.sched) && Defined(k, op)
  {
    match op
    case TickOp(sp) => k.(sched := Preempt(k.sched, sp).0)
    case CreateOp(entry, priority) => Create(k, entry, priority).0
    case KillOp(p) => Kill(k, p)
    case ScheduleOp => k.(sched := DoSchedule(k.sched))
    case DispatchOp => k.(sched := FirstDispatch(k.sched))
    case MallocOp(request) => var (h, f, _) := Kmalloc(k.heap, k.frames, request); k.(heap := h, frames := f)
    case GiveOp(ptr) => k.(heap := Kfree(k.heap, ptr))
    case FramesOp(frames) => k.(frames := frames)
  }

  ghost predicate Step(k: Kernel, op: Op, k': Kernel) {
    Known(k.sched) && Allowed(k, op) && k' == Apply(k, op)
  }

  ghost predicate StepAt(states: seq<Kernel>, ops: seq<Op>, k: nat)
    requires k + 1 < |states| && k < |ops|
  {
    Step(states[k], ops[k], states[k + 1])
  }

  ghost predicate IsRun(states: seq<Kernel>, ops: seq<Op>) {
    |states| == |ops| + 1 && forall k {:trigger StepAt(states, ops, k)} :: 0 <= k < |ops| ==> StepAt(states, ops, k)
  }

  // ---------------------------------------------------------------- what every step keeps

  /** Timer and switches touch neither the heap nor what a process owns. */
  lemma SchedStepKeeps(k: Kernel, s': Sched)
    requires KernelInv(k) && SchedInv(s') && s'.procs.Keys == k.sched.procs.Keys
    requires forall p :: p in s'.procs ==>
      s'.procs[p].kernelStack == k.sched.procs[p].kernelStack && s'.procs[p].userStack == k.sched.procs[p].userStack
    ensures KernelInv(k.(sched := s'))
  {
    hide SchedInv, Inv;
    StacksHeld(k.heap, k.sched.procs, s'.procs);
  }

  lemma StacksHeld(h: Heap, procs: map<nat, Pcb>, procs': map<nat, Pcb>)
    requires ProcsHold(h, procs) && procs'.Keys == procs.Keys
    requires forall p :: p in procs' ==> procs'[p].kernelStack == procs[p].kernelStack && procs'[p].userStack == procs[p].userStack
    ensures ProcsHold(h, procs')
  {
    forall p {:trigger procs'[p]} | p in procs'
      ensures ProcHolds(h, p, procs'[p]) && PtrSet(p, procs'[p]) == PtrSet(p, procs[p])
    {
      assert ProcHolds(h, p, procs[p]);
    }
  }

  /** A timer interrupt changes at most state, quantum, tick count and saved stack pointer. */
  lemma PreemptKeepsStacks(s: Sched, sp: nat)
    requires SchedInv(s)
    ensures var s' := Preempt(s, sp).0;
            && s'.procs.Keys == s.procs.Keys
            && forall p :: p in s.procs ==> s'.procs[p].(state := s.procs[p].state, slice := s.procs[p].slice,
                                                         ticks := s.procs[p].ticks, rsp := s.procs[p].rsp) == s.procs[p]
  {
    if s.current != 0 {
      if s.procs[s.current].slice > 1 {
        PreemptStays(s, sp);
      } else {
        PreemptSwitches(s, sp);
      }
    }
  }

  lemma TickKeeps(k: Kernel, sp: nat)
    requires KernelInv(k)
    ensures KernelInv(k.(sched := Preempt(k.sched, sp).0))
  {
    PreemptKeepsInv(k.sched, sp);
    PreemptKeepsStacks(k.sched, sp);
    SchedStepKeeps(k, Preempt(k.sched, sp).0);
  }

  lemma DispatchKeepsStacks(s: Sched)
    requires Known(s)
    ensures var procs := FirstDispatch(s).procs;
            procs.Keys == s.procs.Keys && forall p :: p in s.procs ==> procs[p] == s.procs[p].(state := procs[p].state)
  {
  }

  lemma DispatchKeeps(k: Kernel)
    requires KernelInv(k) && k.sched.current == 0
    ensures KernelInv(k.(sched := FirstDispatch(k.sched)))
  {
    DispatchKeepsInv(k.sched);
    DispatchKeepsStacks(k.sched);
    SchedStepKeeps(k, FirstDispatch(k.sched));
  }

  lemma ScheduleKeeps(k: Kernel)
    requires KernelInv(k)
    ensures KernelInv(k.(sched := DoSchedule(k.sched)))
  {
    DoScheduleMeaning(k.sched);
    if k.sched.current == 0 && k.sched.queue != [] {
      DispatchKeeps(k);
    }
  }

  lemma OthersKeep(k: Kernel, op: Op, k': Kernel)
    requires KernelInv(k) && Step(k, op, k') && ByOthers(op)
    ensures KernelInv(k')
  {
    hide KernelInv;
    match op
    case MallocOp(request) =>
      OtherMalloc(k, request);
      OthersKeepInv(k, k'.heap, k'.frames);
    case GiveOp(ptr) =>
      OtherFree(k, ptr);
      OthersKeepInv(k, k'.heap, k'.frames);
    case FramesOp(frames) => FramesKeepInv(k, frames);
  }

  lemma StepKeeps(k: Kernel, op: Op, k': Kernel)
    requires KernelInv(k) && Step(k, op, k')
    ensures KernelInv(k')
  {
    hide KernelInv;
    match op
    case TickOp(sp) => TickKeeps(k, sp);
    case CreateOp(entry, priority) => CreateKeepsInv(k, entry, priority);
    case KillOp(p) =>
      if p != 0 {
        KillMeaning(k, p);
      }
    case ScheduleOp => ScheduleKeeps(k);
    case DispatchOp => DispatchKeeps(k);
    case _ => OthersKeep(k, op, k');
  }

  /** Over every run the ready queue, the running process, the process count, the
      quanta and the ownership of memory stay consistent. */
  lemma {:induction false} RunKeeps(states: seq<Kernel>, ops: seq<Op>, k: nat)
    requires IsRun(states, ops) && KernelInv(states[0]) && k <= |ops|
    ensures KernelInv(states[k])
  {
    hide KernelInv;
    if k > 0 {
      RunKeeps(states, ops, k - 1);
      assert StepAt(states, ops, k - 1);
      StepKeeps(states[k - 1], ops[k - 1], states[k]);
    }
  }

  // ---------------------------------------------------------------- nothing leaks

  lemma OwnedSame(procs: map<nat, Pcb>, procs': map<nat, Pcb>)
    requires procs'.Keys == procs.Keys
    requires forall p :: p in procs ==> procs'[p].kernelStack == procs[p].kernelStack && procs'[p].userStack == procs[p].userStack
    ensures Owned(procs') == Owned(procs)
  {
    assert forall p :: p in procs ==> PtrSet(p, procs'[p]) == PtrSet(p, procs[p]);
  }

  lemma DispatchKeepsUnowned(k: Kernel)
    requires SchedInv(k.sched)
    ensures Known(k.sched) && Unowned(k.(sched := FirstDispatch(k.sched))) == Unowned(k)
  {
    DispatchKeepsStacks(k.sched);
    OwnedSame(k.sched.procs, FirstDispatch(k.sched).procs);
  }

  /** What others hold after an operation, if they held `held` before: what they allocate
      is added, what they free is taken away, and nothing the kernel does for processes counts. */
  function HeldAfter(k: Kernel, op: Op, held: set<nat>): set<nat> {
    match op
    case MallocOp(request) =>
      if request > MAX_REQUEST || Kmalloc(k.heap, k.frames, request).2 == 0 then held
      else held + {Kmalloc(k.heap, k.frames, request).2}
    case GiveOp(ptr) => held - {ptr}
    case _ => held
  }

  lemma TickKeepsUnowned(k: Kernel, sp: nat)
    requires SchedInv(k.sched)
    ensures Known(k.sched) && Unowned(k.(sched := Preempt(k.sched, sp).0)) == Unowned(k)
  {
    PreemptKeepsStacks(k.sched, sp);
    OwnedSame(k.sched.procs, Preempt(k.sched, sp).0.procs);
  }

  lemma ScheduleKeepsUnowned(k: Kernel)
    requires SchedInv(k.sched)
    ensures Known(k.sched) && Unowned(k.(sched := DoSchedule(k.sched))) == Unowned(k)
  {
    DoScheduleMeaning(k.sched);
    DispatchKeepsUnowned(k);
  }

  lemma MallocHeld(k: Kernel, request: nat)
    requires KernelInv(k) && MayMalloc(k.heap, k.frames, request)
    ensures var (h', f', p) := Kmalloc(k.heap, k.frames, request);
            Unowned(Kernel(k.sched, h', f')) == if p == 0 then Unowned(k) else Unowned(k) + {p}
  {
    hide KernelInv, Inv, MayMalloc;
    OtherMalloc(k, request);
    OwnedLive(k);
  }

  lemma FreeHeld(k: Kernel, p: nat)
    requires KernelInv(k) && (p == 0 || (IsBlock(k.heap, p) && p !in Owned(k.sched.procs)))
    ensures Unowned(k.(heap := Kfree(k.heap, p))) == Unowned(k) - {p}
  {
    hide KernelInv, Inv;
    OtherFree(k, p);
  }

  /** The live allocations no process owns change just as others allocate and free. */
  lemma StepHeld(k: Kernel, op: Op, k': Kernel)
    requires KernelInv(k) && Step(k, op, k')
    ensures Unowned(k') == HeldAfter(k, op, Unowned(k))
  {
    hide SchedInv, Inv, ProcsHold;
    match op
    case TickOp(sp) => TickKeepsUnowned(k, sp);
    case CreateOp(entry, priority) => CreateKeepsUnowned(k, entry, priority);
    case KillOp(p) =>
      if p != 0 {
        KillKeepsUnowned(k, p);
      }
    case ScheduleOp => ScheduleKeepsUnowned(k);
    case DispatchOp => DispatchKeepsUnowned(k);
    case MallocOp(request) => MallocHeld(k, request);
    case GiveOp(ptr) => FreeHeld(k, ptr);
    case FramesOp(_) =>
  }

  /** What others hold after `k` operations. */
  function Held(states: seq<Kernel>, ops: seq<Op>, k: nat): set<nat>
    requires k <= |ops| < |states|
  {
    if k == 0 then Unowned(states[0]) else HeldAfter(states[k - 1], ops[k - 1], Held(states, ops, k - 1))
  }

  lemma {:induction false} UnownedHeld(states: seq<Kernel>, ops: seq<Op>, k: nat)
    requires IsRun(states, ops) && KernelInv(states[0]) && k <= |ops|
    ensures Unowned(states[k]) == Held(states, ops, k)
  {
    hide KernelInv;
    if k > 0 {
      UnownedHeld(states, ops, k - 1);
      RunKeeps(states, ops, k - 1);
      assert StepAt(states, ops, k - 1);
      StepHeld(states[k - 1], ops[k - 1], states[k]);
    }
  }

  /** No leak: over every run, creations that failed halfway included, the live allocations are
      those of the processes and, apart from them, what others held at the start and have
      allocated since, without what they have freed. */
  lemma NoLeak(states: seq<Kernel>, ops: seq<Op>, k: nat)
    requires IsRun(states, ops) && KernelInv(states[0]) && k <= |ops|
    ensures var owned := Owned(states[k].sched.procs);
            Pointers(states[k].heap) == owned + Held(states, ops, k) && owned !! Held(states, ops, k)
  {
    hide KernelInv;
    UnownedHeld(states, ops, k);
    RunKeeps(states, ops, k);
    OwnedLive(states[k]);
  }

  /** So the number of live allocations follows the number of processes, three for each. */
  lemma LiveCountFollows(states: seq<Kernel>, ops: seq<Op>, k: nat)
    requires IsRun(states, ops) && KernelInv(states[0]) && k <= |ops|
    ensures |Pointers(states[k].heap)| == 3 * states[k].sched.count + |Held(states, ops, k)|
  {
    hide KernelInv;
    UnownedHeld(states, ops, k);
    RunKeeps(states, ops, k);
    LiveCount(states[k]);
  }

  // ---------------------------------------------------------------- bounded waiting

  lemma IndexAppended(q: seq<nat>, p: nat, x: nat)
    requires x in q
    ensures IndexOfProc(q + [p], x) == IndexOfProc(q, x)
  {
    InQueue(q, x);
    var i := IndexOfProc(q, x);
    assert (q + [p])[i] == x;
    assert forall j :: 0 <= j < i ==> (q + [p])[j] == q[j] != x;
  }

  lemma IndexUnqueued(q: seq<nat>, p: nat, x: nat)
    requires NoDuplicates(q) && x in q && p in q && x != p
    ensures x in Unqueue(q, p)
    ensures IndexOfProc(Unqueue(q, p), x) == IndexOfProc(q, x) - (if IndexOfProc(q, p) < IndexOfProc(q, x) then 1 else 0)
  {
    InQueue(q, x);
    InQueue(q, p);
    var i, j, q' := IndexOfProc(q, p), IndexOfProc(q, x), Unqueue(q, p);
    UnqueueMembers(q, p);
    var j' := if i < j then j - 1 else j;
    assert q'[j'] == x;
    IndexUnique(q', j');
  }

  /** The process is ready, while another one runs. */
  ghost predicate Waiting(s: Sched, p: nat) {
    s.current in s.procs && s.current != 0 && p in s.queue
  }

  /** The process still waits, `fall` ticks closer to its turn. */
  ghost predicate Closer(s: Sched, s': Sched, p: nat, fall: nat) {
    Waiting(s, p) && Waiting(s', p) && Rank(s', p) == Rank(s, p) - fall
  }

  /** A creation changes the scheduler at most by a new process at the end of the queue. */
  lemma CreatedSched(k: Kernel, entry: nat, priority: nat) returns (c: Pcb)
    requires KernelInv(k) && MayCreate(k.heap, k.frames)
    ensures var (k', q) := Create(k, entry, priority);
            if q == 0 then k'.sched == k.sched.(nextPid := k'.sched.nextPid)
            else q !in k.sched.procs && k'.sched == Admitted(k.sched, q, c)
  {
    hide Inv, ProcsHold, ThreeObtained, SameHeld, MayCreate;
    CreateMeaning(k, entry, priority);
    var (k', q) := Create(k, entry, priority);
    c :| q != 0 ==> q in k'.sched.procs && c == k'.sched.procs[q];
  }

  lemma AdmittedRank(s: Sched, q: nat, c: Pcb, p: nat)
    requires Waiting(s, p) && q !in s.procs
    ensures Closer(s, Admitted(s, q, c), p, 0)
  {
    IndexAppended(s.queue, q, p);
    assert Admitted(s, q, c).queue[IndexOfProc(s.queue, p)] == p;
  }

  lemma RemovedRank(s: Sched, x: nat, p: nat)
    requires SchedInv(s) && x in s.procs && x != s.current && Waiting(s, p) && p != x
    ensures Closer(s, Removed(s, x), p, if IndexOfProc(s.queue, x) < IndexOfProc(s.queue, p) then SLICE else 0)
  {
    assert x in Members(s);
    IndexUnqueued(s.queue, x, p);
  }

  /** How far one operation moves a waiting process that is not removed and does not run next:
      a tick by one, the removal of a process ahead by a whole quantum, creations and whatever
      others do with heap and frames not at all. */
  function Fall(s: Sched, op: Op, p: nat): nat {
    if op.TickOp? then 1
    else if op.KillOp? && op.p != 0 && IndexOfProc(s.queue, op.p) < IndexOfProc(s.queue, p) then SLICE
    else 0
  }

  lemma StepRank(k: Kernel, op: Op, k': Kernel, p: nat)
    requires KernelInv(k) && Step(k, op, k') && op != KillOp(p) && Waiting(k.sched, p)
    requires k'.sched.current != p
    ensures Closer(k.sched, k'.sched, p, Fall(k.sched, op, p))
    ensures !op.TickOp? ==> k'.sched.current == k.sched.current
  {
    hide SchedInv, Inv, ProcsHold;
    match op
    case TickOp(sp) => TickRank(k.sched, sp, p);
    case CreateOp(entry, priority) =>
      var c := CreatedSched(k, entry, priority);
      var q := Create(k, entry, priority).1;
      if q != 0 {
        AdmittedRank(k.sched, q, c, p);
      }
    case KillOp(x) =>
      if x != 0 {
        RemovedRank(k.sched, x, p);
      }
    case ScheduleOp => DoScheduleMeaning(k.sched);
    case _ =>
  }

  /** The process has the processor at none of the first `k` states. */
  ghost predicate NotRun(states: seq<Kernel>, k: nat, p: nat)
    requires k < |states|
  {
    forall j :: 0 <= j <= k ==> states[j].sched.current != p
  }

  ghost predicate NotKilled(ops: seq<Op>, k: nat, p: nat)
    requires k <= |ops|
  {
    forall j :: 0 <= j < k ==> ops[j] != KillOp(p)
  }

  function Ticks(ops: seq<Op>, k: nat): nat
    requires k <= |ops|
  {
    if k == 0 then 0 else Ticks(ops, k - 1) + if ops[k - 1].TickOp? then 1 else 0
  }

  /** A quantum for each removal of a process ahead of `p`. */
  function Skipped(states: seq<Kernel>, ops: seq<Op>, k: nat, p: nat): nat
    requires k <= |ops| < |states|
  {
    if k == 0 then 0
    else Skipped(states, ops, k - 1, p) + if ops[k - 1].TickOp? then 0 else Fall(states[k - 1].sched, ops[k - 1], p)
  }

  /** As long as a waiting process has not run, its rank has gone down by exactly one per tick
      and a quantum for each removal of a process ahead of it. */
  lemma {:induction false} WaitingRank(states: seq<Kernel>, ops: seq<Op>, k: nat, p: nat)
    requires IsRun(states, ops) && KernelInv(states[0]) && k <= |ops| && Waiting(states[0].sched, p)
    requires NotKilled(ops, k, p) && NotRun(states, k, p)
    ensures Waiting(states[k].sched, p)
    ensures Rank(states[k].sched, p) + Ticks(ops, k) + Skipped(states, ops, k, p) == Rank(states[0].sched, p)
  {
    hide KernelInv;
    if k > 0 {
      WaitingRank(states, ops, k - 1, p);
      RunKeeps(states, ops, k - 1);
      assert StepAt(states, ops, k - 1);
      StepRank(states[k - 1], ops[k - 1], states[k], p);
    }
  }

  lemma {:induction false} NoneSkipped(states: seq<Kernel>, ops: seq<Op>, k: nat, p: nat)
    requires k <= |ops| < |states| && forall j :: 0 <= j < k ==> !ops[j].KillOp?
    ensures Skipped(states, ops, k, p) == 0
  {
    if k > 0 {
      NoneSkipped(states, ops, k - 1, p);
    }
  }

  /** Without removals that is just one per tick. */
  lemma WaitingRankExact(states: seq<Kernel>, ops: seq<Op>, k: nat, p: nat)
    requires IsRun(states, ops) && KernelInv(states[0]) && k <= |ops| && Waiting(states[0].sched, p)
    requires (forall j :: 0 <= j < k ==> !ops[j].KillOp?) && NotRun(states, k, p)
    ensures Waiting(states[k].sched, p) && Rank(states[k].sched, p) + Ticks(ops, k) == Rank(states[0].sched, p)
  {
    hide KernelInv;
    WaitingRank(states, ops, k, p);
    NoneSkipped(states, ops, k, p);
  }

  lemma RankPositive(s: Sched, p: nat)
    requires SchedInv(s) && Waiting(s, p)
    ensures Rank(s, p) >= 1
  {
  }

  /** A waiting process that is not removed runs within as many ticks as its rank: what is left of
      the quantum, and 20 for each process ahead of it. */
  lemma BoundedWaiting(states: seq<Kernel>, ops: seq<Op>, p: nat)
    requires IsRun(states, ops) && KernelInv(states[0]) && Waiting(states[0].sched, p)
    requires NotKilled(ops, |ops|, p)
    requires var s := states[0].sched; Ticks(ops, |ops|) >= s.procs[s.current].slice + 20 * IndexOfProc(s.queue, p)
    ensures exists j :: 0 <= j <= |ops| && states[j].sched.current == p
  {
    hide SchedInv, Inv, ProcsHold;
    if NotRun(states, |ops|, p) {
      WaitingRank(states, ops, |ops|, p);
      RunKeeps(states, ops, |ops|);
      RankPositive(states[|ops|].sched, p);
    }
  }
}
