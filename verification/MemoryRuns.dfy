/** One frame allocator, three kinds of client: the paging code, the kernel with its heap and
    its processes, and anybody who frees only pages it holds.  Whatever they do in whatever
    order, they never meet in a frame -- as long as the heap grows in place. */
module MemoryRuns {
  import opened Frames
  import opened HeapLaws
  import opened HeapPlace
  import opened HeapSpec
  import opened KernelLaws
  import opened PageTables
  import opened PagingLaws
  import PagingRuns
  import SchedRuns
  import opened SchedSpec
  import opened Words

  /** The frame allocator is `space.frames`; `held` are the frames of the third client. */
  datatype System = System(space: Space, sched: Sched, heap: Heap, held: set<nat>)

  datatype Op =
    | PagingOp(paging: PagingRuns.Op)
    | KernelOp(kernel: SchedRuns.Op)
    | PageOp
    | GivePageOp(page: nat)

  function KernelOf(s: System): Kernel { Kernel(s.sched, s.heap, s.space.frames) }

  /** The allocations of a creation each fit or continue the heap. */
  predicate CreatesInPlace(h: Heap, f: FrameMap) {
    && MallocsInPlace(h, f, PCB_SIZE)
    && var (h1, f1, p) := Kmalloc(h, f, PCB_SIZE);
    p != 0 ==>
      && MallocsInPlace(h1, f1, STACK_SIZE)
      && var (h2, f2, ks) := Kmalloc(h1, f1, STACK_SIZE);
      ks != 0 ==> MallocsInPlace(h2, f2, STACK_SIZE)
  }

  /** The frames change only by way of the heap, which grows in place. */
  predicate StaysInPlace(k: Kernel, op: SchedRuns.Op) {
    match op
    case MallocOp(request) => MallocsInPlace(k.heap, k.frames, request)
    case CreateOp(_, _) => CreatesInPlace(k.heap, k.frames)
    case FramesOp(_) => false
    case _ => true
  }

  /** Each client uses the allocator only by way of its own operations. */
  ghost predicate Step(s: System, op: Op, s': System) {
    match op
    case PagingOp(p) => !p.OtherOp? && PagingRuns.Step(s.space, p, s'.space) && s' == s.(space := s'.space)
    case KernelOp(o) =>
      && StaysInPlace(KernelOf(s), o) && SchedRuns.Step(KernelOf(s), o, KernelOf(s'))
      && s'.space == s.space.(frames := s'.space.frames) && s'.held == s.held
    case PageOp =>
      var (f, p) := Alloc(s.space.frames);
      s' == s.(space := s.space.(frames := f), held := if p == 0 then s.held else s.held + {p / PAGE_SIZE})
    case GivePageOp(page) =>
      && page % PAGE_SIZE == 0 && page / PAGE_SIZE in s.held
      && s' == s.(space := s.space.(frames := Free(s.space.frames, page)), held := s.held - {page / PAGE_SIZE})
  }

  /** The frame holds a page table. */
  predicate IsTable(mem: map<nat, Table>, i: nat) { i * PAGE_SIZE in mem }

  /** The heap reaches into the frame. */
  predicate InHeap(bs: seq<Block>, i: nat) {
    Start(bs) / PAGE_SIZE <= i && i * PAGE_SIZE < End(bs)
  }

  /** No frame has two uses. */
  ghost predicate OneUse(mem: map<nat, Table>, bs: seq<Block>, held: set<nat>) {
    forall i: nat :: (IsTable(mem, i) ==> !InHeap(bs, i) && i !in held) && (InHeap(bs, i) ==> i !in held)
  }

  /** Each client is in order on its own, all their frames are marked used, and none is used twice. */
  ghost predicate SystemInv(s: System) {
    && PageTables.Inv(s.space) && KernelInv(KernelOf(s)) && Placed(s.heap.blocks, s.space.frames)
    && s.held <= s.space.frames.used
    && OneUse(s.space.mem, s.heap.blocks, s.held)
  }

  lemma TablesUsed(s: Space, i: nat)
    requires PageTables.Owned(s) && IsTable(s.mem, i)
    ensures i in s.frames.used
  {
    assert i * PAGE_SIZE / PAGE_SIZE == i;
  }

  lemma TableFrame(s: Space, t: nat)
    requires PageTables.Owned(s) && t in s.mem
    ensures IsTable(s.mem, t / PAGE_SIZE)
  {
    assert t / PAGE_SIZE * PAGE_SIZE == t;
  }

  // ---------------------------------------------------------------- paging

  lemma PagingKeeps(s: System, op: PagingRuns.Op, s': System)
    requires SystemInv(s) && Step(s, PagingOp(op), s')
    ensures SystemInv(s')
  {
    hide PageTables.Inv, KernelInv, Placed, PagingRuns.Step;
    PagingRuns.StepFresh(s.space, op, s'.space);
    FreshOneUse(s, s'.space);
    MoreFramesKernel(KernelOf(s), s'.space);
  }

  lemma MoreFramesKernel(k: Kernel, s': Space)
    requires KernelInv(k) && Placed(k.heap.blocks, k.frames) && PageTables.Inv(s') && k.frames.used <= s'.frames.used
    ensures KernelInv(k.(frames := s'.frames)) && Placed(k.heap.blocks, s'.frames)
  {
    FramesKeepInv(k, s'.frames);
    MoreFrames(k.heap.blocks, k.frames, s'.frames);
  }

  lemma FreshOneUse(s: System, space': Space)
    requires SystemInv(s) && FreshTables(s.space, space') && PageTables.Inv(space')
    ensures OneUse(space'.mem, s.heap.blocks, s.held)
  {
    forall i: nat | IsTable(space'.mem, i) ensures !InHeap(s.heap.blocks, i) && i !in s.held {
      if !IsTable(s.space.mem, i) {
        assert i * PAGE_SIZE / PAGE_SIZE == i;
        assert i !in s.space.frames.used;
      }
    }
  }

  // ---------------------------------------------------------------- the kernel

  /** What the heap takes in addition was free. */
  ghost predicate GrowsFresh(bs: seq<Block>, f: FrameMap, bs': seq<Block>) {
    forall i: nat :: InHeap(bs', i) ==> InHeap(bs, i) || i !in f.used
  }

  /** A contiguous draw is free frames throughout. */
  lemma DrawnWereFree(f: FrameMap, f': FrameMap, pages: seq<nat>, i: nat)
    requires DrawnFrom(f, f', pages) && Contiguous(pages) && |pages| > 0
    requires pages[0] / PAGE_SIZE <= i && i * PAGE_SIZE < pages[0] + |pages| * PAGE_SIZE
    ensures i !in f.used
  {
    assert pages[0] in pages;
    var k := i - pages[0] / PAGE_SIZE;
    assert pages[k] == pages[0] + k * PAGE_SIZE;
    assert pages[k] in pages && pages[k] / PAGE_SIZE == i;
  }

  lemma ExtendedFresh(h: Heap, f: FrameMap, min: nat)
    requires HeapSpec.Inv(h, f) && Placed(h.blocks, f) && min <= WORD - PAGE_SIZE && GrowsInPlace(h, f, min)
    requires Complete(Grow(f, min).1, min)
    ensures ExpandSize(min) >= HEADER
    ensures var bs := Append(h, Grow(f, min).1[0], min).blocks; Tiled(bs) && GrowsFresh(h.blocks, f, bs)
  {
    var (f', pages) := Grow(f, min);
    ExpandSizeMeaning(min);
    GrowInPlaceMeaning(h, f, min);
    DrawMeaning(f, ExpandSize(min) / PAGE_SIZE);
    AppendExtent(h, pages[0], min);
    var bs := Append(h, pages[0], min).blocks;
    forall i: nat | InHeap(bs, i) && !InHeap(h.blocks, i) ensures i !in f.used {
      DrawnWereFree(f, f', pages, i);
    }
  }

  lemma OccupySameExtent(bs: seq<Block>, i: nat, size: nat)
    requires Tiled(bs) && i < |bs|
    ensures SameExtent(bs, Occupied(bs, i, size))
  {
    SplitKeepsLayout(bs, i, size);
    SetFreeKeepsLayout(Split(bs, i, size), i, false);
  }

  lemma AllocateFresh(h: Heap, f: FrameMap, size: nat)
    requires HeapSpec.Inv(h, f) && Placed(h.blocks, f) && size + HEADER <= WORD - PAGE_SIZE && AllocatesInPlace(h, f, size)
    ensures GrowsFresh(h.blocks, f, Allocate(h, f, size).0.blocks)
  {
    var i, min := FirstFit(h.blocks, size, 0), size + HEADER;
    if i < |h.blocks| {
      OccupySameExtent(h.blocks, i, size);
    } else if Complete(Grow(f, min).1, min) {
      ExtendedFresh(h, f, min);
      OccupySameExtent(Append(h, Grow(f, min).1[0], min).blocks, i, size);
    }
  }

  /** From one heap in place to another that grew only by frames that were free. */
  ghost predicate Extends(h: Heap, f: FrameMap, h': Heap, f': FrameMap) {
    && HeapSpec.Inv(h', f') && Placed(h'.blocks, f')
    && f.used <= f'.used && GrowsFresh(h.blocks, f, h'.blocks)
  }

  lemma ExtendsTransitive(h: Heap, f: FrameMap, h1: Heap, f1: FrameMap, h2: Heap, f2: FrameMap)
    requires Extends(h, f, h1, f1) && Extends(h1, f1, h2, f2)
    ensures Extends(h, f, h2, f2)
  {
  }

  lemma MallocExtends(h: Heap, f: FrameMap, request: nat)
    requires HeapSpec.Inv(h, f) && Placed(h.blocks, f) && MallocsInPlace(h, f, request)
    ensures MayMalloc(h, f, request)
    ensures var (h', f', p) := Kmalloc(h, f, request); Extends(h, f, h', f')
  {
    KmallocInPlace(h, f, request);
    KmallocMeaning(h, f, request);
    if request > 0 {
      AlignUpMeaning(request, 8);
      AllocateFresh(h, f, AlignUp(request, 8));
    }
  }

  lemma FreeExtends(h: Heap, f: FrameMap, ptr: nat)
    requires HeapSpec.Inv(h, f) && Placed(h.blocks, f) && (ptr == 0 || IsBlock(h, ptr))
    ensures Extends(h, f, Kfree(h, ptr), f)
  {
    KfreeMeaning(h, f, ptr);
    KfreeInPlace(h, f, ptr);
  }

  lemma GiveExtends(h: Heap, f: FrameMap, h1: Heap, f1: FrameMap, ptr: nat)
    requires Extends(h, f, h1, f1)
    ensures Extends(h, f, Give(h1, ptr), f1)
  {
    if ptr != 0 && IsBlock(h1, ptr) {
      FreeExtends(h1, f1, ptr);
      ExtendsTransitive(h, f, h1, f1, Give(h1, ptr), f1);
    }
  }

  lemma NextMalloc(h: Heap, f: FrameMap, h1: Heap, f1: FrameMap, request: nat)
    requires Extends(h, f, h1, f1) && MallocsInPlace(h1, f1, request)
    ensures MayMalloc(h1, f1, request)
    ensures var (h2, f2, p) := Kmalloc(h1, f1, request); Extends(h, f, h2, f2)
  {
    MallocExtends(h1, f1, request);
    var (h2, f2, p) := Kmalloc(h1, f1, request);
    ExtendsTransitive(h, f, h1, f1, h2, f2);
  }

  /** A creation in place extends the heap, however far it gets. */
  lemma CreateExtends(h: Heap, f: FrameMap)
    requires HeapSpec.Inv(h, f) && Placed(h.blocks, f) && CreatesInPlace(h, f)
    ensures Extends(h, f, CreateMemory(h, f).0, CreateMemory(h, f).1)
  {
    hide Extends, MallocsInPlace, Kmalloc, Give, Placed, HeapSpec.Inv;
    MallocExtends(h, f, PCB_SIZE);
    var (h1, f1, p) := Kmalloc(h, f, PCB_SIZE);
    if p != 0 {
      NextMalloc(h, f, h1, f1, STACK_SIZE);
      var (h2, f2, ks) := Kmalloc(h1, f1, STACK_SIZE);
      GiveExtends(h, f, h2, f2, p);
      if ks != 0 {
        NextMalloc(h, f, h2, f2, STACK_SIZE);
        var (h3, f3, us) := Kmalloc(h2, f2, STACK_SIZE);
        GiveExtends(h, f, h3, f3, ks);
        GiveExtends(h, f, Give(h3, ks), f3, p);
      }
    }
  }

  lemma NothingExtends(h: Heap, f: FrameMap)
    requires HeapSpec.Inv(h, f) && Placed(h.blocks, f)
    ensures Extends(h, f, h, f)
  {
  }

  lemma KillExtends(h: Heap, f: FrameMap, p: nat, c: Pcb)
    requires HeapSpec.Inv(h, f) && Placed(h.blocks, f)
    ensures Extends(h, f, GiveAll(h, p, c), f)
  {
    hide Extends, Give, Placed, HeapSpec.Inv;
    NothingExtends(h, f);
    GiveExtends(h, f, h, f, c.kernelStack);
    GiveExtends(h, f, Give(h, c.kernelStack), f, c.userStack);
    GiveExtends(h, f, Give(Give(h, c.kernelStack), c.userStack), f, p);
  }

  /** What one step of the kernel does to the heap. */
  lemma KernelFresh(k: Kernel, op: SchedRuns.Op, k': Kernel)
    requires KernelInv(k) && Placed(k.heap.blocks, k.frames) && SchedRuns.Step(k, op, k') && StaysInPlace(k, op)
    ensures Extends(k.heap, k.frames, k'.heap, k'.frames) && KernelInv(k')
  {
    hide Extends, SchedInv, ProcsHold, Placed, HeapSpec.Inv, CreatesInPlace, MallocsInPlace, CreateMemory;
    SchedRuns.StepKeeps(k, op, k');
    NothingExtends(k.heap, k.frames);
    match op
    case CreateOp(_, _) => CreateExtends(k.heap, k.frames);
    case KillOp(p) =>
      if p != 0 {
        KillExtends(k.heap, k.frames, p, k.sched.procs[p]);
      }
    case MallocOp(request) => MallocExtends(k.heap, k.frames, request);
    case GiveOp(ptr) => FreeExtends(k.heap, k.frames, ptr);
    case _ =>
  }

  lemma KernelKeeps(s: System, op: SchedRuns.Op, s': System)
    requires SystemInv(s) && Step(s, KernelOp(op), s')
    ensures SystemInv(s')
  {
    hide SchedRuns.Step, StaysInPlace, SchedInv, ProcsHold;
    KernelFresh(KernelOf(s), op, KernelOf(s'));
    MoreFramesTables(s.space, s'.space.frames);
    ExtendsOneUse(s, s');
  }

  lemma ExtendsOneUse(s: System, s': System)
    requires SystemInv(s) && GrowsFresh(s.heap.blocks, s.space.frames, s'.heap.blocks)
    ensures OneUse(s.space.mem, s'.heap.blocks, s.held)
  {
    forall i: nat | InHeap(s'.heap.blocks, i) ensures !IsTable(s.space.mem, i) && i !in s.held {
      if IsTable(s.space.mem, i) {
        TablesUsed(s.space, i);
      }
    }
  }

  lemma MoreFramesTables(s: Space, f: FrameMap)
    requires PageTables.Inv(s) && Frames.Valid(f) && s.frames.used <= f.used
    ensures PageTables.Inv(s.(frames := f))
  {
  }

  // ---------------------------------------------------------------- the third client

  lemma PageKeeps(s: System, s': System)
    requires SystemInv(s) && Step(s, PageOp, s')
    ensures SystemInv(s')
  {
    hide SchedInv, ProcsHold;
    AllocMeaning(s.space.frames);
    var (f, p) := Alloc(s.space.frames);
    MoreFramesTables(s.space, f);
    MoreFrames(s.heap.blocks, s.space.frames, f);
    FramesKeepInv(KernelOf(s), f);
    if p != 0 && IsTable(s.space.mem, p / PAGE_SIZE) {
      TablesUsed(s.space, p / PAGE_SIZE);
    }
  }

  lemma GivePageKeeps(s: System, page: nat, s': System)
    requires SystemInv(s) && Step(s, GivePageOp(page), s')
    ensures SystemInv(s')
  {
    hide SchedInv, ProcsHold;
    FramesKeepInv(KernelOf(s), s'.space.frames);
    forall t | t in s.space.mem ensures t / PAGE_SIZE in s'.space.frames.used {
      TableFrame(s.space, t);
    }
  }

  // ---------------------------------------------------------------- runs

  lemma StepKeeps(s: System, op: Op, s': System)
    requires SystemInv(s) && Step(s, op, s')
    ensures SystemInv(s')
  {
    hide SystemInv, Step;
    match op
    case PagingOp(p) => PagingKeeps(s, p, s');
    case KernelOp(o) => KernelKeeps(s, o, s');
    case PageOp => PageKeeps(s, s');
    case GivePageOp(page) => GivePageKeeps(s, page, s');
  }

  ghost predicate StepAt(states: seq<System>, ops: seq<Op>, k: nat)
    requires k + 1 < |states| && k < |ops|
  {
    Step(states[k], ops[k], states[k + 1])
  }

  ghost predicate IsRun(states: seq<System>, ops: seq<Op>) {
    |states| == |ops| + 1 && forall k {:trigger StepAt(states, ops, k)} :: 0 <= k < |ops| ==> StepAt(states, ops, k)
  }

  lemma {:induction false} RunKeeps(states: seq<System>, ops: seq<Op>, k: nat)
    requires IsRun(states, ops) && SystemInv(states[0]) && k <= |ops|
    ensures SystemInv(states[k])
  {
    hide SystemInv, Step;
    if k > 0 {
      RunKeeps(states, ops, k - 1);
      assert StepAt(states, ops, k - 1);
      StepKeeps(states[k - 1], ops[k - 1], states[k]);
    }
  }

  /** The frame of `byte` is in use, and by neither page tables nor the third client. */
  predicate HeapsOwn(s: System, byte: nat) {
    byte / PAGE_SIZE in s.space.frames.used && !IsTable(s.space.mem, byte / PAGE_SIZE) && byte / PAGE_SIZE !in s.held
  }

  lemma BlockHeapsOwn(s: System, b: Block, byte: nat)
    requires SystemInv(s) && b in s.heap.blocks && b.addr <= byte < BlockEnd(b)
    ensures HeapsOwn(s, byte)
  {
    hide PageTables.Inv, KernelInv;
    var bs := s.heap.blocks;
    var i :| 0 <= i < |bs| && bs[i] == b;
    WithinExtent(bs, i);
    assert InHeap(bs, byte / PAGE_SIZE);
  }

  /** Over any mix of mapping, allocating and freeing, of timer interrupts, creations and
      removals, whatever fails in between: a frame that holds a page table is no heap memory and
      nobody else's, and no byte of a heap block lies in either. */
  lemma NoFrameTwice(states: seq<System>, ops: seq<Op>, k: nat, b: Block, byte: nat)
    requires IsRun(states, ops) && SystemInv(states[0]) && k <= |ops|
    requires b in states[k].heap.blocks && b.addr <= byte < BlockEnd(b)
    ensures var s := states[k]; OneUse(s.space.mem, s.heap.blocks, s.held) && HeapsOwn(s, byte)
  {
    hide PageTables.Inv, KernelInv;
    RunKeeps(states, ops, k);
    BlockHeapsOwn(states[k], b, byte);
  }

  /** So no byte of a process's kernel stack ever lies in a page table or in anybody else's frame. */
  lemma StacksNoTables(states: seq<System>, ops: seq<Op>, k: nat, p: nat, byte: nat)
    requires IsRun(states, ops) && SystemInv(states[0]) && k <= |ops| && p in states[k].sched.procs
    requires var ks := states[k].sched.procs[p].kernelStack; ks <= byte < ks + STACK_SIZE
    ensures HeapsOwn(states[k], byte)
  {
    hide SchedInv, HeapSpec.Inv, PageTables.Inv;
    RunKeeps(states, ops, k);
    var s := states[k];
    var c := s.sched.procs[p];
    assert ProcHolds(s.heap, p, c);
    var b :| b in Live(s.heap.blocks) && b.addr + HEADER == c.kernelStack && b.size >= STACK_SIZE;
    BlockHeapsOwn(s, b, byte);
  }
}
