/** Processes and the heap together: what each process owns, and that creating and
    removing processes, successfully or not, neither leaks nor shares memory. */
module KernelLaws {
  import opened Frames
  import opened HeapSpec
  import opened HeapLaws
  import opened SchedSpec

  // ---------------------------------------------------------------- pointers

  /** `ptr` was returned by `kmalloc`, not freed since, and has room for `size` bytes. */
  ghost predicate Holds(h: Heap, ptr: nat, size: nat) {
    exists b :: b in Live(h.blocks) && b.addr + HEADER == ptr && b.size >= size
  }

  lemma HoldsIsBlock(h: Heap, f: FrameMap, ptr: nat, size: nat)
    requires Inv(h, f) && Holds(h, ptr, size)
    ensures IsBlock(h, ptr) && ptr > HEADER && BlockAt(h, ptr) in Live(h.blocks) && BlockAt(h, ptr).size >= size
  {
    var b :| b in Live(h.blocks) && b.addr + HEADER == ptr && b.size >= size;
    var i :| 0 <= i < |h.blocks| && h.blocks[i] == b;
    IndexOfAddress(h.blocks, i);
  }

  /** An allocation adds the new pointer to the live ones and touches no other. */
  lemma ServedHolds(h: Heap, h': Heap, p: nat, size: nat)
    requires Served(h.blocks, h', p, size)
    ensures Holds(h', p, size)
    ensures forall x, n :: x != p ==> (Holds(h', x, n) <==> Holds(h, x, n))
  {
    var b := BlockAt(h', p);
    assert b in Live(h'.blocks);
    forall x, n | x != p ensures Holds(h', x, n) <==> Holds(h, x, n) {
      if Holds(h, x, n) {
        var c :| c in Live(h.blocks) && c.addr + HEADER == x && c.size >= n;
        assert c in Live(h'.blocks);
      }
    }
  }

  lemma ServedFresh(h: Heap, f: FrameMap, h': Heap, f': FrameMap, p: nat, size: nat)
    requires Inv(h', f') && Served(h.blocks, h', p, size)
    ensures !Holds(h, p, 0)
  {
    if Holds(h, p, 0) {
      var c :| c in Live(h.blocks) && c.addr + HEADER == p;
      assert c in Live(h'.blocks);
      var i :| 0 <= i < |h'.blocks| && h'.blocks[i] == c;
      IndexOfAddress(h'.blocks, i);
    }
  }

  /** A free takes exactly the one pointer out. */
  lemma GiveHolds(h: Heap, f: FrameMap, p: nat)
    requires Inv(h, f) && Holds(h, p, 0)
    ensures Inv(Give(h, p), f) && !Holds(Give(h, p), p, 0)
    ensures forall x, n :: x != p ==> (Holds(Give(h, p), x, n) <==> Holds(h, x, n))
  {
    HoldsIsBlock(h, f, p, 0);
    KfreeMeaning(h, f, p);
    var h' := Give(h, p);
    forall x, n | x != p ensures Holds(h', x, n) <==> Holds(h, x, n) {
      if Holds(h, x, n) {
        var c :| c in Live(h.blocks) && c.addr + HEADER == x && c.size >= n;
        assert c in Live(h'.blocks);
      }
    }
    if Holds(h', p, 0) {
      var c :| c in Live(h'.blocks) && c.addr + HEADER == p;
      var i :| 0 <= i < |h.blocks| && h.blocks[i] == c;
      IndexOfAddress(h.blocks, i);
    }
  }

  /** The same live pointers, with the same room. */
  ghost predicate SameHeld(h: Heap, h': Heap) {
    forall x, n :: Holds(h', x, n) <==> Holds(h, x, n)
  }

  // ---------------------------------------------------------------- what processes own

  function PtrSet(p: nat, c: Pcb): set<nat> { {p, c.kernelStack, c.userStack} }

  /** Control block and two stacks, three different live allocations. */
  ghost predicate ProcHolds(h: Heap, p: nat, c: Pcb) {
    && Holds(h, p, PCB_SIZE) && Holds(h, c.kernelStack, STACK_SIZE) && Holds(h, c.userStack, STACK_SIZE)
    && p != c.kernelStack && p != c.userStack && c.kernelStack != c.userStack
  }

  ghost predicate ProcsHold(h: Heap, procs: map<nat, Pcb>) {
    && (forall p {:trigger procs[p]} :: p in procs ==> ProcHolds(h, p, procs[p]))
    && (forall p, q {:trigger procs[p], procs[q]} :: p in procs && q in procs && p != q ==> PtrSet(p, procs[p]) !! PtrSet(q, procs[q]))
  }

  ghost predicate KernelInv(k: Kernel) {
    SchedInv(k.sched) && Inv(k.heap, k.frames) && ProcsHold(k.heap, k.sched.procs)
  }

  /** All allocations that belong to processes. */
  function Owned(procs: map<nat, Pcb>): set<nat> {
    set p, x | p in procs && x in PtrSet(p, procs[p]) :: x
  }

  lemma OwnedAdded(procs: map<nat, Pcb>, p: nat, c: Pcb)
    requires p !in procs
    ensures Owned(procs[p := c]) == Owned(procs) + PtrSet(p, c)
  {
    var procs' := procs[p := c];
    forall x ensures x in Owned(procs') <==> x in Owned(procs) || x in PtrSet(p, c) {
      if x in Owned(procs) {
        var q :| q in procs && x in PtrSet(q, procs[q]);
        assert q in procs' && x in PtrSet(q, procs'[q]);
      }
      if x in PtrSet(p, c) {
        assert p in procs' && x in PtrSet(p, procs'[p]);
      }
    }
  }

  lemma OwnedApart(h: Heap, procs: map<nat, Pcb>, p: nat)
    requires ProcsHold(h, procs) && p in procs
    ensures ProcsHold(h, procs - {p}) && Owned(procs - {p}) !! PtrSet(p, procs[p])
  {
    var rest := procs - {p};
    forall q | q in rest ensures q in procs && rest[q] == procs[q] && PtrSet(q, procs[q]) !! PtrSet(p, procs[p]) {}
  }

  lemma OwnedSplit(h: Heap, procs: map<nat, Pcb>, p: nat)
    requires ProcsHold(h, procs) && p in procs
    ensures var rest := procs - {p};
            ProcsHold(h, rest) && Owned(procs) == Owned(rest) + PtrSet(p, procs[p]) && Owned(rest) !! PtrSet(p, procs[p])
  {
    OwnedApart(h, procs, p);
    OwnedAdded(procs - {p}, p, procs[p]);
    assert (procs - {p})[p := procs[p]] == procs;
  }

  lemma PtrSetSize(h: Heap, p: nat, c: Pcb)
    requires ProcHolds(h, p, c)
    ensures |PtrSet(p, c)| == 3
  {
    assert PtrSet(p, c) == {p} + {c.kernelStack} + {c.userStack};
  }

  lemma DisjointSize(a: set<nat>, b: set<nat>)
    requires a !! b
    ensures |a + b| == |a| + |b|
  {
  }

  lemma OwnedGrows(h: Heap, procs: map<nat, Pcb>, p: nat)
    requires ProcsHold(h, procs) && p in procs
    ensures ProcsHold(h, procs - {p}) && |Owned(procs)| == |Owned(procs - {p})| + 3
  {
    OwnedSplit(h, procs, p);
    PtrSetSize(h, p, procs[p]);
    DisjointSize(Owned(procs - {p}), PtrSet(p, procs[p]));
  }

  lemma OneLess(keys: set<nat>, p: nat)
    requires p in keys
    ensures |keys| == |keys - {p}| + 1
  {
    assert keys == keys - {p} + {p};
  }

  lemma {:induction false} OwnedCount(h: Heap, procs: map<nat, Pcb>, keys: set<nat>)
    requires ProcsHold(h, procs) && keys == procs.Keys
    ensures |Owned(procs)| == 3 * |keys|
    decreases keys
  {
    if keys == {} {
      assert Owned(procs) == {};
    } else {
      var p :| p in keys;
      OwnedGrows(h, procs, p);
      OneLess(keys, p);
      OwnedCount(h, procs - {p}, keys - {p});
    }
  }

  lemma {:induction false} QueueSize(q: seq<nat>)
    requires NoDuplicates(q)
    ensures |SetOf(q)| == |q|
  {
    if q == [] {
      assert SetOf(q) == {};
    } else {
      var n := |q| - 1;
      QueueSize(q[..n]);
      assert q == q[..n] + [q[n]];
      assert SetOf(q) == SetOf(q[..n]) + {q[n]};
      assert q[n] !in SetOf(q[..n]);
    }
  }

  lemma ProcsCount(s: Sched)
    requires SchedInv(s)
    ensures |s.procs.Keys| == s.count
  {
    QueueSize(s.queue);
    if s.current != 0 {
      DisjointSize(SetOf(s.queue), {s.current});
    }
  }

  /** Live allocations attributable to processes: three for each one counted. */
  lemma ThreePerProcess(k: Kernel)
    requires KernelInv(k)
    ensures |Owned(k.sched.procs)| == 3 * k.sched.count
    ensures forall x :: x in Owned(k.sched.procs) ==> Holds(k.heap, x, 0)
  {
    OwnedCount(k.heap, k.sched.procs, k.sched.procs.Keys);
    ProcsCount(k.sched);
    forall x | x in Owned(k.sched.procs) ensures Holds(k.heap, x, 0) {
      var p :| p in k.sched.procs && x in PtrSet(p, k.sched.procs[p]);
      PtrHeld(k.heap, p, k.sched.procs[p], x);
    }
  }

  lemma PtrHeld(h: Heap, p: nat, c: Pcb, x: nat)
    requires ProcHolds(h, p, c) && x in PtrSet(p, c)
    ensures Holds(h, x, 0)
  {
    HoldsLess(h, x, if x == p then PCB_SIZE else STACK_SIZE, 0);
  }

  lemma HoldsLess(h: Heap, x: nat, n: nat, m: nat)
    requires Holds(h, x, n) && m <= n
    ensures Holds(h, x, m)
  {
  }

  lemma HoldsNone(h: Heap, x: nat, n: nat)
    requires !Holds(h, x, 0)
    ensures !Holds(h, x, n)
  {
  }

  /** The kernel stacks of different processes share no byte. */
  lemma StacksApart(k: Kernel, p: nat, q: nat, byte: nat)
    requires KernelInv(k) && p in k.sched.procs && q in k.sched.procs && p != q
    requires k.sched.procs[p].kernelStack <= byte < k.sched.procs[p].kernelStack + STACK_SIZE
    ensures !(k.sched.procs[q].kernelStack <= byte < k.sched.procs[q].kernelStack + STACK_SIZE)
  {
    var a, b := k.sched.procs[p].kernelStack, k.sched.procs[q].kernelStack;
    HoldsIsBlock(k.heap, k.frames, a, STACK_SIZE);
    HoldsIsBlock(k.heap, k.frames, b, STACK_SIZE);
    assert a in PtrSet(p, k.sched.procs[p]) && b in PtrSet(q, k.sched.procs[q]);
    assert a != b;
    BlocksDisjoint(k.heap.blocks, BlockAt(k.heap, a), BlockAt(k.heap, b));
  }

  lemma BlocksDisjoint(bs: seq<Block>, a: Block, b: Block)
    requires Ordered(bs) && a in bs && b in bs && a != b
    ensures BlockEnd(a) <= b.addr || BlockEnd(b) <= a.addr
  {
    var i :| 0 <= i < |bs| && bs[i] == a;
    var j :| 0 <= j < |bs| && bs[j] == b;
    if i < j {
      Apart(bs, i, j);
    } else {
      Apart(bs, j, i);
    }
  }

  // ---------------------------------------------------------------- creation

  /** From `h` to `h'` just `p` became live. */
  ghost predicate Obtained(h: Heap, h': Heap, p: nat, size: nat) {
    !Holds(h, p, 0) && Holds(h', p, size) && forall x, n :: x != p ==> (Holds(h', x, n) <==> Holds(h, x, n))
  }

  /** From `h` to `h'` just `p` ceased to be live. */
  ghost predicate Returned(h: Heap, h': Heap, p: nat) {
    !Holds(h', p, 0) && forall x, n :: x != p ==> (Holds(h', x, n) <==> Holds(h, x, n))
  }

  lemma ObtainedReturned(h: Heap, h1: Heap, h2: Heap, p: nat, size: nat)
    requires Obtained(h, h1, p, size) && Returned(h1, h2, p)
    ensures SameHeld(h, h2)
  {
    forall x, n ensures Holds(h2, x, n) <==> Holds(h, x, n) {
      if x == p {
        HoldsNone(h2, x, n);
        HoldsNone(h, x, n);
      }
    }
  }

  lemma SameHeldObtained(h: Heap, h1: Heap, h2: Heap, p: nat, size: nat)
    requires Obtained(h, h1, p, size) && SameHeld(h1, h2)
    ensures Obtained(h, h2, p, size)
  {
  }

  lemma MallocStep(h: Heap, f: FrameMap, size: nat)
    requires Inv(h, f) && size > 0 && MayMalloc(h, f, size)
    ensures var (h', f', p) := Kmalloc(h, f, size);
            Inv(h', f') && if p == 0 then h' == h else Obtained(h, h', p, size)
  {
    KmallocMeaning(h, f, size);
    var (h', f', p) := Kmalloc(h, f, size);
    if p != 0 {
      ServedHolds(h, h', p, AlignUp(size, 8));
      ServedFresh(h, f, h', f', p, AlignUp(size, 8));
      HoldsLess(h', p, AlignUp(size, 8), size);
    }
  }

  lemma GiveStep(h: Heap, f: FrameMap, p: nat, size: nat)
    requires Inv(h, f) && Holds(h, p, size)
    ensures Inv(Give(h, p), f) && Returned(h, Give(h, p), p)
  {
    HoldsLess(h, p, size, 0);
    GiveHolds(h, f, p);
  }

  /** After all three allocations succeeded. */
  ghost predicate ThreeObtained(h: Heap, h': Heap, p: nat, ks: nat, us: nat) {
    && Holds(h', p, PCB_SIZE) && Holds(h', ks, STACK_SIZE) && Holds(h', us, STACK_SIZE)
    && p != ks && p != us && ks != us
    && !Holds(h, p, 0) && !Holds(h, ks, 0) && !Holds(h, us, 0)
    && forall x, n :: x != p && x != ks && x != us ==> (Holds(h', x, n) <==> Holds(h, x, n))
  }

  lemma ObtainedThree(h: Heap, h1: Heap, h2: Heap, h3: Heap, p: nat, ks: nat, us: nat)
    requires Obtained(h, h1, p, PCB_SIZE) && Obtained(h1, h2, ks, STACK_SIZE) && Obtained(h2, h3, us, STACK_SIZE)
    ensures ThreeObtained(h, h3, p, ks, us)
  {
    HoldsLess(h1, p, PCB_SIZE, 0);
    HoldsLess(h2, ks, STACK_SIZE, 0);
  }

  lemma UnwindTwo(h: Heap, h1: Heap, h2: Heap, f: FrameMap, p: nat, ks: nat)
    requires Inv(h2, f) && Obtained(h, h1, p, PCB_SIZE) && Obtained(h1, h2, ks, STACK_SIZE)
    ensures Inv(Give(Give(h2, ks), p), f) && SameHeld(h, Give(Give(h2, ks), p))
  {
    GiveStep(h2, f, ks, STACK_SIZE);
    ObtainedReturned(h1, h2, Give(h2, ks), ks, STACK_SIZE);
    SameHeldObtained(h, h1, Give(h2, ks), p, PCB_SIZE);
    GiveStep(Give(h2, ks), f, p, PCB_SIZE);
    ObtainedReturned(h, Give(h2, ks), Give(Give(h2, ks), p), p, PCB_SIZE);
  }

  lemma CreateStacksMeaning(h: Heap, h1: Heap, f1: FrameMap, p: nat)
    requires Inv(h1, f1) && Obtained(h, h1, p, PCB_SIZE) && MayCreateStacks(h1, f1)
    ensures var (h', f', ks, us) := CreateStacks(h1, f1, p);
            Inv(h', f') && if us == 0 then SameHeld(h, h') else ThreeObtained(h, h', p, ks, us)
  {
    MallocStep(h1, f1, STACK_SIZE);
    var (h2, f2, ks) := Kmalloc(h1, f1, STACK_SIZE);
    if ks == 0 {
      GiveStep(h2, f2, p, PCB_SIZE);
      ObtainedReturned(h, h2, Give(h2, p), p, PCB_SIZE);
    } else {
      MallocStep(h2, f2, STACK_SIZE);
      var (h3, f3, us) := Kmalloc(h2, f2, STACK_SIZE);
      if us == 0 {
        UnwindTwo(h, h1, h3, f3, p, ks);
      } else {
        ObtainedThree(h, h1, h2, h3, p, ks, us);
      }
    }
  }

  /** Three new allocations, or the same live ones as before. */
  lemma CreateMemoryMeaning(h: Heap, f: FrameMap)
    requires Inv(h, f) && MayCreate(h, f)
    ensures var (h', f', p, ks, us) := CreateMemory(h, f);
            Inv(h', f') && if us == 0 then SameHeld(h, h') else ThreeObtained(h, h', p, ks, us)
  {
    MallocStep(h, f, PCB_SIZE);
    var (h1, f1, p) := Kmalloc(h, f, PCB_SIZE);
    if p != 0 {
      CreateStacksMeaning(h, h1, f1, p);
    }
  }

  lemma AdmittedKeepsInv(s: Sched, p: nat, c: Pcb)
    requires SchedInv(s) && s.count < MAX_PROCESSES && p !in s.procs && p != 0 && c.state == READY && c.slice == SLICE
    ensures SchedInv(Admitted(s, p, c))
  {
    var s' := Admitted(s, p, c);
    forall x ensures x in s'.queue <==> x in s.queue || x == p {
      assert s'.queue == s.queue + [p];
    }
    assert s'.procs.Keys == Members(s');
  }

  lemma SameHeldProcs(h: Heap, h': Heap, procs: map<nat, Pcb>)
    requires ProcsHold(h, procs)
    requires forall p, x, n :: p in procs && x in PtrSet(p, procs[p]) ==> (Holds(h', x, n) <==> Holds(h, x, n))
    ensures ProcsHold(h', procs)
  {
    forall p {:trigger procs[p]} | p in procs ensures ProcHolds(h', p, procs[p]) {
      var c := procs[p];
      assert ProcHolds(h, p, c);
      assert p in PtrSet(p, c) && c.kernelStack in PtrSet(p, c) && c.userStack in PtrSet(p, c);
    }
  }

  /** What the control block of a new process says: ready, with a full quantum of 20 ticks, to
      start at `entry`, with its first frame of 176 bytes on top of a stack of 8192. */
  predicate Initial(s: Sched, c: Pcb, entry: nat, priority: nat)
    requires Known(s)
  {
    && c.pid == s.nextPid && c.parentPid == (if s.current != 0 then s.procs[s.current].pid else 0)
    && c.state == READY && c.priority == priority && c.slice == 20 && c.ticks == 0
    && c.rip == entry && c.rbp == c.kernelStack + 8192 && c.rsp == c.kernelStack + 8192 - 176 && c.rflags == 0x202
  }

  /** `p` is new, queued last, and holds three allocations nobody held before. */
  ghost predicate ProcessAdded(k: Kernel, k': Kernel, p: nat, entry: nat, priority: nat)
    requires Known(k.sched)
  {
    && p !in k.sched.procs && p in k'.sched.procs
    && var c := k'.sched.procs[p];
    && Initial(k.sched, c, entry, priority) && ThreeObtained(k.heap, k'.heap, p, c.kernelStack, c.userStack)
    && k'.sched == k.sched.(nextPid := (k.sched.nextPid + 1) % 0x1_0000_0000, procs := k.sched.procs[p := c],
                            queue := k.sched.queue + [p], count := (k.sched.count + 1) % 0x1_0000_0000)
  }

  /** The same processes, and the same allocations live; at most an identifier is used up. */
  ghost predicate NothingAdded(k: Kernel, k': Kernel) {
    SameHeld(k.heap, k'.heap) && k'.sched == k.sched.(nextPid := k'.sched.nextPid)
  }

  lemma EnrollKeepsInv(k: Kernel, entry: nat, priority: nat, h': Heap, f': FrameMap, p: nat, ks: nat, us: nat)
    requires KernelInv(k) && k.sched.count < MAX_PROCESSES && Inv(h', f')
    requires if us == 0 then SameHeld(k.heap, h') else ThreeObtained(k.heap, h', p, ks, us)
    ensures us != 0 ==> p != 0 && p !in k.sched.procs
    ensures KernelInv(Kernel(Enroll(k.sched, entry, priority, p, ks, us), h', f'))
  {
    if us == 0 {
      SameHeldProcs(k.heap, h', k.sched.procs);
    } else {
      AdmitMeaning(k, h', f', p, NewPcb(k.sched, entry, priority, ks, us));
    }
  }

  /** Creating a process, successfully or not, keeps scheduler and heap consistent. */
  lemma CreateKeepsInv(k: Kernel, entry: nat, priority: nat)
    requires KernelInv(k) && MayCreate(k.heap, k.frames)
    ensures KernelInv(Create(k, entry, priority).0)
  {
    if k.sched.count < MAX_PROCESSES {
      CreateMemoryMeaning(k.heap, k.frames);
      var (h', f', p, ks, us) := CreateMemory(k.heap, k.frames);
      EnrollKeepsInv(k, entry, priority, h', f', p, ks, us);
    }
  }

  /** On success the process holds three allocations nobody held before; a failure
      leaves the live allocations as they were, whatever had been obtained in between. */
  lemma CreateMeaning(k: Kernel, entry: nat, priority: nat)
    requires KernelInv(k) && MayCreate(k.heap, k.frames)
    ensures var (k', p) := Create(k, entry, priority);
            if p == 0 then NothingAdded(k, k') else ProcessAdded(k, k', p, entry, priority)
  {
    hide KernelInv, Inv, MayCreate, ThreeObtained, ProcessAdded;
    if k.sched.count < MAX_PROCESSES {
      CreatedParts(k, entry, priority);
      var (h', f', p, ks, us) := CreateMemory(k.heap, k.frames);
      if us != 0 {
        EnrolledAs(k, entry, priority, h', f', p, ks, us);
      }
    }
  }

  lemma CreatedParts(k: Kernel, entry: nat, priority: nat)
    requires KernelInv(k) && MayCreate(k.heap, k.frames) && k.sched.count < MAX_PROCESSES
    ensures Known(k.sched)
    ensures var (h', f', p, ks, us) := CreateMemory(k.heap, k.frames);
            if us == 0 then SameHeld(k.heap, h') else p != 0 && p !in k.sched.procs && ThreeObtained(k.heap, h', p, ks, us)
  {
    CreateMemoryMeaning(k.heap, k.frames);
    var (h', f', p, ks, us) := CreateMemory(k.heap, k.frames);
    EnrollKeepsInv(k, entry, priority, h', f', p, ks, us);
  }

  lemma EnrolledAs(k: Kernel, entry: nat, priority: nat, h': Heap, f': FrameMap, p: nat, ks: nat, us: nat)
    requires Known(k.sched) && us != 0 && p !in k.sched.procs && ThreeObtained(k.heap, h', p, ks, us)
    ensures ProcessAdded(k, Kernel(Enroll(k.sched, entry, priority, p, ks, us), h', f'), p, entry, priority)
  {
    hide ThreeObtained;
  }

  /** The memory a creation asks for, one after the other: 256 bytes for the control block and
      twice 8192 for the stacks. */
  predicate Serves(h: Heap, f: FrameMap, p: nat, ks: nat, us: nat) {
    && var (h1, f1, p1) := Kmalloc(h, f, 256);
    p == p1 != 0
    && var (h2, f2, p2) := Kmalloc(h1, f1, 8192);
    ks == p2 != 0 && us == Kmalloc(h2, f2, 8192).2 != 0
  }

  /** A creation succeeds exactly while there are fewer than 256 processes and all three
      requests are served; the process then has just these.  One that fails uses up an identifier
      if there was memory for a control block, and with 256 processes nothing is done at all. */
  lemma CreateSucceeds(k: Kernel, entry: nat, priority: nat)
    requires Known(k.sched)
    ensures var (k', p) := Create(k, entry, priority);
            && (p != 0 <==> k.sched.count < 256 && exists q, ks, us :: Serves(k.heap, k.frames, q, ks, us))
            && (p != 0 ==> p in k'.sched.procs && Serves(k.heap, k.frames, p, k'.sched.procs[p].kernelStack, k'.sched.procs[p].userStack))
            && (k.sched.count >= 256 ==> k' == k)
            && (p == 0 && k.sched.count < 256 ==>
                  k'.sched.nextPid == if Kmalloc(k.heap, k.frames, 256).2 == 0 then k.sched.nextPid else (k.sched.nextPid + 1) % 0x1_0000_0000)
  {
    hide Serves, CreateMemory, Kmalloc;
    MemoryServed(k.heap, k.frames);
  }

  lemma MemoryServed(h: Heap, f: FrameMap)
    ensures var (_, _, p, ks, us) := CreateMemory(h, f);
            && (if us != 0 then Serves(h, f, p, ks, us) else forall q, ks', us' :: !Serves(h, f, q, ks', us'))
            && p == Kmalloc(h, f, 256).2
  {
  }

  lemma PointerNotNew(h: Heap, h': Heap, q: nat, d: Pcb, p: nat, c: Pcb, x: nat)
    requires ProcHolds(h, q, d) && x in PtrSet(q, d) && ThreeObtained(h, h', p, c.kernelStack, c.userStack)
    ensures x !in PtrSet(p, c) && forall n :: Holds(h', x, n) <==> Holds(h, x, n)
  {
    PtrHeld(h, q, d, x);
    assert x !in PtrSet(p, c);
  }

  lemma PointersOfOwner(h: Heap, h': Heap, procs: map<nat, Pcb>, p: nat, c: Pcb)
    requires ProcsHold(h, procs) && ThreeObtained(h, h', p, c.kernelStack, c.userStack)
    ensures p !in procs
  {
    HoldsNone(h, p, PCB_SIZE);
    assert p in procs ==> ProcHolds(h, p, procs[p]);
  }

  /** New pointers collide with nothing that processes own. */
  lemma NewPointersFresh(h: Heap, h': Heap, procs: map<nat, Pcb>, p: nat, c: Pcb)
    requires ProcsHold(h, procs) && ThreeObtained(h, h', p, c.kernelStack, c.userStack)
    ensures p !in procs && ProcsHold(h', procs)
    ensures forall q, x :: q in procs && x in PtrSet(q, procs[q]) ==> x !in PtrSet(p, c)
  {
    forall q, x | q in procs && x in PtrSet(q, procs[q])
      ensures x !in PtrSet(p, c) && forall n :: Holds(h', x, n) <==> Holds(h, x, n)
    {
      assert ProcHolds(h, q, procs[q]);
      PointerNotNew(h, h', q, procs[q], p, c, x);
    }
    PointersOfOwner(h, h', procs, p, c);
    SameHeldProcs(h, h', procs);
  }

  lemma AdmitMeaning(k: Kernel, h': Heap, f': FrameMap, p: nat, c: Pcb)
    requires KernelInv(k) && Inv(h', f') && ThreeObtained(k.heap, h', p, c.kernelStack, c.userStack)
    requires k.sched.count < MAX_PROCESSES && c.state == READY && c.slice == SLICE
    ensures p != 0 && p !in k.sched.procs && KernelInv(Kernel(Admitted(k.sched, p, c), h', f'))
  {
    HoldsIsBlock(h', f', p, PCB_SIZE);
    NewPointersFresh(k.heap, h', k.sched.procs, p, c);
    AdmittedKeepsInv(k.sched, p, c);
    AddProc(h', k.sched.procs, p, c);
  }

  lemma AddProc(h: Heap, procs: map<nat, Pcb>, p: nat, c: Pcb)
    requires ProcsHold(h, procs) && ProcHolds(h, p, c) && p !in procs
    requires forall q, x :: q in procs && x in PtrSet(q, procs[q]) ==> x !in PtrSet(p, c)
    ensures ProcsHold(h, procs[p := c])
  {
  }

  // ---------------------------------------------------------------- removal

  lemma UnqueueMembers(q: seq<nat>, p: nat)
    requires NoDuplicates(q)
    ensures var q' := Unqueue(q, p);
            NoDuplicates(q') && SetOf(q') == SetOf(q) - {p} && |q'| == |q| - (if p in q then 1 else 0)
  {
    var i, q' := IndexOfProc(q, p), Unqueue(q, p);
    if i < |q| {
      assert forall j :: 0 <= j < |q'| ==> q'[j] == q[if j < i then j else j + 1];
      forall x ensures x in q' <==> x in q && x != p {
        if x in q && x != p {
          var j :| 0 <= j < |q| && q[j] == x;
          assert q'[if j < i then j else j - 1] == x;
        }
      }
    } else {
      assert p !in q;
    }
  }

  /** The others stay in the queue, as they were. */
  lemma StillQueued(s: Sched, p: nat, i: nat)
    requires SchedInv(s) && p in s.procs && i < |Unqueue(s.queue, p)|
    ensures var q := Unqueue(s.queue, p)[i]; q in s.queue && q != p && q in s.procs
  {
    UnqueueMembers(s.queue, p);
    assert Unqueue(s.queue, p)[i] in SetOf(Unqueue(s.queue, p));
  }

  lemma OthersKnown(s: Sched, p: nat)
    requires SchedInv(s) && p in s.procs && p != s.current
    ensures p in s.queue && Removed(s, p).procs.Keys == Members(Removed(s, p))
  {
    UnqueueMembers(s.queue, p);
    assert p in Members(s);
  }

  lemma OneFewer(s: Sched, p: nat)
    requires SchedInv(s) && p in s.queue
    ensures Removed(s, p).count == s.count - 1 && |Removed(s, p).queue| == |s.queue| - 1
  {
    UnqueueMembers(s.queue, p);
    assert Less1(s.count) == s.count - 1;
  }

  lemma KillKeepsSched(s: Sched, p: nat)
    requires SchedInv(s) && p in s.procs && p != s.current
    ensures SchedInv(Removed(s, p))
  {
    UnqueueMembers(s.queue, p);
    OthersKnown(s, p);
    OneFewer(s, p);
    var s' := Removed(s, p);
    forall i | 0 <= i < |s'.queue| ensures s'.queue[i] in s'.procs && s'.procs[s'.queue[i]] == s.procs[s'.queue[i]] && s'.queue[i] in s.queue {
      StillQueued(s, p, i);
    }
  }

  lemma ReturnedThree(h: Heap, h1: Heap, h2: Heap, h3: Heap, p: nat, c: Pcb)
    requires Returned(h, h1, c.kernelStack) && Returned(h1, h2, c.userStack) && Returned(h2, h3, p)
    ensures AllReturned(h, h3, p, c)
  {
    forall x | x in PtrSet(p, c) ensures !Holds(h3, x, 0) {
      assert x == p || x == c.kernelStack || x == c.userStack;
    }
  }

  /** The heap after the three allocations of a process are given back. */
  function GiveAll(h: Heap, p: nat, c: Pcb): Heap {
    Give(Give(Give(h, c.kernelStack), c.userStack), p)
  }

  lemma GiveAllMeaning(h: Heap, f: FrameMap, p: nat, c: Pcb)
    requires Inv(h, f) && ProcHolds(h, p, c)
    ensures Inv(GiveAll(h, p, c), f) && AllReturned(h, GiveAll(h, p, c), p, c)
  {
    var h1 := Give(h, c.kernelStack);
    GiveStep(h, f, c.kernelStack, STACK_SIZE);
    var h2 := Give(h1, c.userStack);
    GiveStep(h1, f, c.userStack, STACK_SIZE);
    GiveStep(h2, f, p, PCB_SIZE);
    ReturnedThree(h, h1, h2, Give(h2, p), p, c);
  }

  /** Just the allocations of the process ceased to be live. */
  ghost predicate AllReturned(h: Heap, h': Heap, p: nat, c: Pcb) {
    && (forall x :: x in PtrSet(p, c) ==> !Holds(h', x, 0))
    && (forall x, n :: x !in PtrSet(p, c) ==> (Holds(h', x, n) <==> Holds(h, x, n)))
  }

  /** Removing a process other than the current one keeps scheduler and heap
      consistent, gives back its three allocations and touches no other. */
  lemma KillMeaning(k: Kernel, p: nat)
    requires KernelInv(k) && p in k.sched.procs && p != k.sched.current
    ensures KernelInv(Kill(k, p)) && AllReturned(k.heap, Kill(k, p).heap, p, k.sched.procs[p])
  {
    var procs: map<nat, Pcb>, c := k.sched.procs, k.sched.procs[p];
    assert ProcHolds(k.heap, p, c);
    KillKeepsSched(k.sched, p);
    GiveAllMeaning(k.heap, k.frames, p, c);
    OthersApart(k.heap, procs, p);
    SameHeldProcs(k.heap, GiveAll(k.heap, p, c), procs - {p});
  }

  /** The others keep their order in the queue, and everything else about them. */
  lemma KillUnlists(k: Kernel, p: nat, i: nat)
    requires KernelInv(k) && p in k.sched.procs && i < |k.sched.queue| && k.sched.queue[i] == p
    ensures Kill(k, p).frames == k.frames && Kill(k, 0) == k
    ensures Kill(k, p).sched == k.sched.(procs := k.sched.procs - {p}, queue := k.sched.queue[..i] + k.sched.queue[i + 1..],
                                         count := k.sched.count - 1)
  {
    hide Inv, ProcsHold, Give;
    assert IndexOfProc(k.sched.queue, p) == i;
    OneFewer(k.sched, p);
  }

  /** The current process must not be removed: it stays the current one. */
  lemma KillExactly(k: Kernel, p: nat)
    requires KernelInv(k) && p in k.sched.procs
    ensures KernelInv(Kill(k, p)) <==> p != k.sched.current
  {
    if p != k.sched.current {
      KillMeaning(k, p);
    } else {
      DanglingCurrent(k, p);
    }
  }

  lemma DanglingCurrent(k: Kernel, p: nat)
    requires p == k.sched.current && p in k.sched.procs && p != 0
    ensures var s := Kill(k, p).sched; s.current == p && p !in s.procs && !SchedInv(s)
  {
    var s := Kill(k, p).sched;
    assert p in Members(s) && p !in s.procs.Keys;
  }

  lemma OthersApart(h: Heap, procs: map<nat, Pcb>, p: nat)
    requires ProcsHold(h, procs) && p in procs
    ensures var rest := procs - {p};
            ProcsHold(h, rest) && forall q, x :: q in rest && x in PtrSet(q, rest[q]) ==> x !in PtrSet(p, procs[p])
  {
    var rest := procs - {p};
    forall q, x | q in rest && x in PtrSet(q, rest[q]) ensures x !in PtrSet(p, procs[p]) {
      assert PtrSet(q, procs[q]) !! PtrSet(p, procs[p]);
    }
  }

  // ---------------------------------------------------------------- what nobody's process owns

  /** All pointers handed out and not freed. */
  function Pointers(h: Heap): set<nat> {
    set b | b in Live(h.blocks) :: b.addr + HEADER
  }

  lemma PointersHeld(h: Heap, x: nat)
    ensures x in Pointers(h) <==> Holds(h, x, 0)
  {
    if Holds(h, x, 0) {
      var b :| b in Live(h.blocks) && b.addr + HEADER == x;
    }
  }

  /** Live allocations of the kernel that belong to no process. */
  function Unowned(k: Kernel): set<nat> { Pointers(k.heap) - Owned(k.sched.procs) }

  lemma OwnedLive(k: Kernel)
    requires KernelInv(k)
    ensures Owned(k.sched.procs) <= Pointers(k.heap)
  {
    ThreePerProcess(k);
    forall x | x in Owned(k.sched.procs) ensures x in Pointers(k.heap) {
      PointersHeld(k.heap, x);
    }
  }

  lemma SubsetSize(a: set<nat>, b: set<nat>)
    requires b <= a
    ensures |a| == |a - b| + |b|
  {
    DisjointSize(a - b, b);
    assert a - b + b == a;
  }

  /** Every live allocation is a process's or nobody's, and three for each process are. */
  lemma LiveCount(k: Kernel)
    requires KernelInv(k)
    ensures |Pointers(k.heap)| == |Unowned(k)| + 3 * k.sched.count
  {
    OwnedLive(k);
    SubsetSize(Pointers(k.heap), Owned(k.sched.procs));
    ThreePerProcess(k);
  }

  lemma PointersAdded(h: Heap, h': Heap, p: nat, c: Pcb)
    requires ThreeObtained(h, h', p, c.kernelStack, c.userStack)
    ensures Pointers(h') == Pointers(h) + PtrSet(p, c) && Pointers(h) !! PtrSet(p, c)
  {
    HoldsLess(h', p, PCB_SIZE, 0);
    HoldsLess(h', c.kernelStack, STACK_SIZE, 0);
    HoldsLess(h', c.userStack, STACK_SIZE, 0);
    forall x ensures (x in Pointers(h') <==> x in Pointers(h) || x in PtrSet(p, c)) && !(x in Pointers(h) && x in PtrSet(p, c)) {
      PointersHeld(h, x);
      PointersHeld(h', x);
      assert x in PtrSet(p, c) <==> x == p || x == c.kernelStack || x == c.userStack;
    }
  }

  lemma PointersSame(h: Heap, h': Heap)
    requires SameHeld(h, h')
    ensures Pointers(h') == Pointers(h)
  {
    forall x ensures x in Pointers(h') <==> x in Pointers(h) {
      PointersHeld(h, x);
      PointersHeld(h', x);
    }
  }

  lemma PointersReturned(h: Heap, h': Heap, p: nat, c: Pcb)
    requires AllReturned(h, h', p, c)
    ensures Pointers(h') == Pointers(h) - PtrSet(p, c)
  {
    forall x ensures x in Pointers(h') <==> x in Pointers(h) && x !in PtrSet(p, c) {
      PointersHeld(h, x);
      PointersHeld(h', x);
    }
  }

  lemma AddedKeepsUnowned(k: Kernel, k': Kernel, p: nat, c: Pcb)
    requires k'.sched.procs == k.sched.procs[p := c] && p !in k.sched.procs
    requires ThreeObtained(k.heap, k'.heap, p, c.kernelStack, c.userStack)
    ensures Unowned(k') == Unowned(k)
  {
    PointersAdded(k.heap, k'.heap, p, c);
    OwnedAdded(k.sched.procs, p, c);
    SameRest(Pointers(k.heap), Owned(k.sched.procs), PtrSet(p, c));
  }

  lemma SameRest(a: set<nat>, b: set<nat>, c: set<nat>)
    requires a !! c
    ensures (a + c) - (b + c) == a - b
  {
  }

  /** What creating a process takes, and a creation that fails takes, belongs to the process. */
  lemma CreateKeepsUnowned(k: Kernel, entry: nat, priority: nat)
    requires KernelInv(k) && MayCreate(k.heap, k.frames)
    ensures Unowned(Create(k, entry, priority).0) == Unowned(k)
  {
    CreateMeaning(k, entry, priority);
    var (k', p) := Create(k, entry, priority);
    if p == 0 {
      PointersSame(k.heap, k'.heap);
    } else {
      AddedKeepsUnowned(k, k', p, k'.sched.procs[p]);
    }
  }

  lemma KillKeepsUnowned(k: Kernel, p: nat)
    requires KernelInv(k) && p in k.sched.procs && p != k.sched.current
    ensures Unowned(Kill(k, p)) == Unowned(k)
  {
    KillMeaning(k, p);
    PointersReturned(k.heap, Kill(k, p).heap, p, k.sched.procs[p]);
    OwnedSplit(k.heap, k.sched.procs, p);
  }

  // ---------------------------------------------------------------- other users of the heap

  /** What processes own is live in `h'` as it was in `h`. */
  ghost predicate OwnedHeld(h: Heap, h': Heap, procs: map<nat, Pcb>) {
    forall x, n :: x in Owned(procs) ==> (Holds(h', x, n) <==> Holds(h, x, n))
  }

  /** Whatever leaves the heap in order and what processes own alone keeps the kernel in order. */
  lemma OthersKeepInv(k: Kernel, h': Heap, f': FrameMap)
    requires KernelInv(k) && Inv(h', f') && OwnedHeld(k.heap, h', k.sched.procs)
    ensures KernelInv(Kernel(k.sched, h', f'))
  {
    SameHeldProcs(k.heap, h', k.sched.procs);
  }

  lemma FramesKeepInv(k: Kernel, f': FrameMap)
    requires KernelInv(k) && Frames.Valid(f')
    ensures KernelInv(k.(frames := f'))
  {
  }

  /** An allocation of somebody else: the pointer is nobody's, and no process notices. */
  lemma OtherMalloc(k: Kernel, request: nat)
    requires KernelInv(k) && MayMalloc(k.heap, k.frames, request)
    ensures var (h', f', p) := Kmalloc(k.heap, k.frames, request);
            && Inv(h', f') && OwnedHeld(k.heap, h', k.sched.procs)
            && p !in Pointers(k.heap) && Pointers(h') == if p == 0 then Pointers(k.heap) else Pointers(k.heap) + {p}
  {
    var (h', f', p) := Kmalloc(k.heap, k.frames, request);
    OwnedLive(k);
    PointersNotNull(k.heap, k.frames);
    if request > 0 {
      MallocStep(k.heap, k.frames, request);
      if p != 0 {
        ObtainedPointers(k.heap, h', p, request);
      }
    }
  }

  lemma PointersNotNull(h: Heap, f: FrameMap)
    requires Inv(h, f)
    ensures 0 !in Pointers(h)
  {
  }

  lemma ObtainedPointers(h: Heap, h': Heap, p: nat, size: nat)
    requires Obtained(h, h', p, size)
    ensures Pointers(h') == Pointers(h) + {p} && p !in Pointers(h)
    ensures forall x, n :: x in Pointers(h) ==> (Holds(h', x, n) <==> Holds(h, x, n))
  {
    HoldsLess(h', p, size, 0);
    forall x ensures x in Pointers(h') <==> x in Pointers(h) || x == p {
      PointersHeld(h, x);
      PointersHeld(h', x);
    }
    PointersHeld(h, p);
  }

  lemma ReturnedPointers(h: Heap, h': Heap, p: nat)
    requires Returned(h, h', p)
    ensures Pointers(h') == Pointers(h) - {p}
  {
    forall x ensures x in Pointers(h') <==> x in Pointers(h) && x != p {
      PointersHeld(h, x);
      PointersHeld(h', x);
    }
  }

  /** A block is free or live. */
  lemma BlockHeld(h: Heap, f: FrameMap, p: nat)
    requires Inv(h, f) && IsBlock(h, p)
    ensures if BlockAt(h, p).free then p !in Pointers(h) else Holds(h, p, 0)
  {
    var b := BlockAt(h, p);
    if b.free {
      PointersHeld(h, p);
      if Holds(h, p, 0) {
        HoldsIsBlock(h, f, p, 0);
      }
    } else {
      assert b in Live(h.blocks);
    }
  }

  /** Somebody else frees a block no process owns; no process notices. */
  lemma OtherFree(k: Kernel, p: nat)
    requires KernelInv(k) && (p == 0 || (IsBlock(k.heap, p) && p !in Owned(k.sched.procs)))
    ensures var h' := Kfree(k.heap, p);
            && Inv(h', k.frames) && OwnedHeld(k.heap, h', k.sched.procs) && Pointers(h') == Pointers(k.heap) - {p}
  {
    if p == 0 {
      PointersNotNull(k.heap, k.frames);
    } else {
      BlockHeld(k.heap, k.frames, p);
      if !BlockAt(k.heap, p).free {
        GiveStep(k.heap, k.frames, p, 0);
        ReturnedPointers(k.heap, Kfree(k.heap, p), p);
      }
    }
  }
}
