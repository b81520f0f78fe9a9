/** Consequences for users of the heap: separation, undo, accounting, and what all of
    this owes to where expansions find their memory. */
module HeapTheorems {
  import opened Frames
  import opened Words
  import opened HeapSpec
  import opened HeapLaws
  import opened HeapPlace

  // ---------------------------------------------------------------- separation

  /** Byte ranges of blocks, header included, never overlap; so a payload meets
      neither another payload nor any header. */
  lemma BlocksApart(h: Heap, f: FrameMap, a: Block, b: Block, byte: nat)
    requires Inv(h, f) && a in h.blocks && b in h.blocks
    requires a.addr <= byte < BlockEnd(a) && b.addr <= byte < BlockEnd(b)
    ensures a == b
  {
    var i :| 0 <= i < |h.blocks| && h.blocks[i] == a;
    var j :| 0 <= j < |h.blocks| && h.blocks[j] == b;
    if i < j {
      Apart(h.blocks, i, j);
    } else if j < i {
      Apart(h.blocks, j, i);
    }
  }

  /** A heap in place occupies used frames only. */
  lemma BytesInUsedFrames(bs: seq<Block>, f: FrameMap, a: Block, byte: nat)
    requires Placed(bs, f) && a in bs && a.addr <= byte < BlockEnd(a)
    ensures byte / PAGE_SIZE in f.used
  {
    var i :| 0 <= i < |bs| && bs[i] == a;
    WithinExtent(bs, i);
  }

  // ---------------------------------------------------------------- undo

  lemma CutMerges(bs: seq<Block>, i: nat, size: nat)
    requires i < |bs| && bs[i].free && bs[i].size >= size + HEADER
    ensures var cut := bs[..i] + Pieces(bs[i], size) + bs[i + 1..]; MergeNext(cut, i) == bs
  {
    var cut := bs[..i] + Pieces(bs[i], size) + bs[i + 1..];
    assert Merged(cut[i], cut[i + 1]) == bs[i];
    assert cut[i + 2..] == bs[i + 1..];
    assert bs == bs[..i] + [bs[i]] + bs[i + 1..];
  }

  lemma FreedIsSplit(bs: seq<Block>, i: nat, size: nat)
    requires i < |bs| && bs[i].free
    ensures Freed(Occupied(bs, i, size), i) == Split(bs, i, size)
  {
  }

  lemma FreeAlone(bs: seq<Block>, i: nat)
    requires NoAdjacentFree(bs) && i < |bs| && bs[i].free
    ensures i > 0 ==> !bs[i - 1].free
    ensures i + 1 < |bs| ==> !bs[i + 1].free
  {
    if i > 0 {
      var j := i - 1;
      assert bs[j + 1] == bs[i];
    }
  }

  /** Freeing what was just cut off or taken whole gives the list back. */
  lemma OccupiedReleased(bs: seq<Block>, i: nat, size: nat)
    requires NoAdjacentFree(bs) && CanOccupy(bs, i, size)
    ensures Coalesce(Freed(Occupied(bs, i, size), i), i) == bs
  {
    FreedIsSplit(bs, i, size);
    FreeAlone(bs, i);
    if bs[i].size >= size + HEADER + MIN_BLOCK {
      CutMerges(bs, i, size);
    }
  }

  /** An allocation served from the list is undone completely by freeing it. */
  lemma KfreeUndoesKmalloc(h: Heap, f: FrameMap, request: nat)
    requires Inv(h, f) && 0 < request <= MAX_REQUEST
    requires FirstFit(h.blocks, AlignUp(request, 8), 0) < |h.blocks|
    ensures var (h1, f1, p) := Kmalloc(h, f, request);
            && f1 == f && IsBlock(h1, p)
            && Kfree(h1, p).blocks == h.blocks && Kfree(h1, p).total == h.total
  {
    var size := AlignUp(request, 8);
    var i := FirstFit(h.blocks, size, 0);
    AlignUpMeaning(request, 8);
    var (h1, _, p) := Kmalloc(h, f, request);
    OccupyLaid(h.blocks, i, size);
    IndexOfAddress(h1.blocks, i);
    OccupiedReleased(h.blocks, i, size);
  }

  // ---------------------------------------------------------------- accounting

  /** How far the counter has drifted below the bytes really in use, modulo 2^64. */
  function Drift(h: Heap): nat { (Covered(h.blocks, false) - h.used) % WORD }

  /** What rounding to whole blocks adds to one allocation. */
  function Slack(h: Heap, f: FrameMap, size: nat): int
    requires size + HEADER <= WORD - PAGE_SIZE
  {
    var i := FirstFit(h.blocks, size, 0);
    if i < |h.blocks| then Given(h.blocks[i].size, size) - size
    else if Complete(Grow(f, size + HEADER).1, size + HEADER) then Given(ExpandSize(size + HEADER) - HEADER, size) - size
    else 0
  }

  /** The slack is how much bigger than needed the block behind the new pointer is. */
  lemma SlackMeaning(h: Heap, f: FrameMap, size: nat)
    requires Inv(h, f) && size % 8 == 0 && size + HEADER <= WORD - PAGE_SIZE && MayAllocate(h, f, size)
    ensures var (h', _, p) := Allocate(h, f, size);
            p != 0 ==> IsBlock(h', p) && Slack(h, f, size) == BlockAt(h', p).size - size
  {
    AllocateMeaning(h, f, size);
    var (h', f', p) := Allocate(h, f, size);
    if p != 0 {
      var i := FirstFit(h.blocks, size, 0);
      ExpandSizeMeaning(size + HEADER);
      IndexOfAddress(h'.blocks, i);
    }
  }

  /** Going from `a` to `b` adds `s` modulo 2^64. */
  predicate Moves(a: int, s: int, b: int) { b == (a + s) % WORD }

  lemma MovesTwice(a: int, s: int, b: int, t: int, c: int)
    requires Moves(a, s, b) && Moves(b, t, c)
    ensures Moves(a, s + t, c)
  {
    ModStep(a + s, t);
  }

  /** Both terms of the difference move; only the difference of the moves shows. */
  lemma DriftMoves(inUse: int, counter: int, d: int, e: int)
    ensures (inUse + d - (counter + e) % WORD) % WORD == ((inUse - counter) % WORD + d - e) % WORD
  {
    ModAgain(inUse + d, counter + e);
    ModStep(inUse - counter, d - e);
  }

  lemma ModMultiple(a: int, k: int)
    ensures (a + k * WORD) % WORD == a % WORD
  {
  }

  lemma ModAgain(a: int, b: int)
    ensures (a - b % WORD) % WORD == (a - b) % WORD
  {
    assert b == b / WORD * WORD + b % WORD;
    ModMultiple(a - b, b / WORD);
  }

  lemma ModStep(a: int, s: int)
    ensures (a % WORD + s) % WORD == (a + s) % WORD
  {
    assert a == a / WORD * WORD + a % WORD;
    ModMultiple(a % WORD + s, a / WORD);
  }

  lemma OccupyDrift(h: Heap, i: nat, size: nat)
    requires CanOccupy(h.blocks, i, size)
    ensures Moves(Drift(h), Given(h.blocks[i].size, size) - size, Drift(Occupy(h, i, size)))
  {
    OccupyCovered(h.blocks, i, size, false);
    DriftMoves(Covered(h.blocks, false), h.used, Given(h.blocks[i].size, size) + HEADER, size + HEADER);
  }

  lemma AppendDrift(h: Heap, addr: nat, min: nat)
    requires ExpandSize(min) >= HEADER
    ensures Drift(Append(h, addr, min)) == Drift(h)
  {
    var b := Block(addr, ExpandSize(min) - HEADER, true);
    CoveredConcat(h.blocks, [b], false);
    CoveredSmall(b, b, false);
  }

  lemma StandsStill(h: Heap)
    ensures Moves(Drift(h), 0, Drift(h))
  {
  }

  lemma AllocateDrift(h: Heap, f: FrameMap, size: nat)
    requires size % 8 == 0 && size + HEADER <= WORD - PAGE_SIZE
    ensures Moves(Drift(h), Slack(h, f, size), Drift(Allocate(h, f, size).0))
  {
    hide Drift, Moves, Draw, Split, Given, AlignUp;
    var i := FirstFit(h.blocks, size, 0);
    if i < |h.blocks| {
      OccupyDrift(h, i, size);
    } else {
      var pages := Grow(f, size + HEADER).1;
      if Complete(pages, size + HEADER) {
        ExpandSizeMeaning(size + HEADER);
        AppendDrift(h, pages[0], size + HEADER);
        OccupyDrift(Append(h, pages[0], size + HEADER), i, size);
      } else {
        StandsStill(h);
      }
    }
  }

  lemma SlackBound(h: Heap, f: FrameMap, size: nat)
    requires SizesAligned(h.blocks) && size % 8 == 0 && size + HEADER <= WORD - PAGE_SIZE
    ensures IsSlack(Slack(h, f, size))
  {
    var i := FirstFit(h.blocks, size, 0);
    if i < |h.blocks| {
      GivenSlack(h.blocks[i].size, size);
    } else {
      ExpandSlack(size);
    }
  }

  lemma ExpandSlack(size: nat)
    requires size % 8 == 0 && size + HEADER <= WORD - PAGE_SIZE
    ensures ExpandSize(size + HEADER) >= HEADER
    ensures IsSlack(Given(ExpandSize(size + HEADER) - HEADER, size) - size)
  {
    ExpandSizeMeaning(size + HEADER);
    PagesAreEights(ExpandSize(size + HEADER));
    EightsMinusHeader(ExpandSize(size + HEADER));
    GivenSlack(ExpandSize(size + HEADER) - HEADER, size);
  }

  lemma KfreeDrift(h: Heap, ptr: nat)
    requires ptr == 0 || IsBlock(h, ptr)
    ensures Drift(Kfree(h, ptr)) == Drift(h)
  {
    if ptr != 0 && !BlockAt(h, ptr).free {
      var i := IndexOf(h.blocks, ptr - HEADER, 0);
      var freed := h.blocks[i].size + HEADER;
      CoveredSetFree(h.blocks, i, true, false);
      CoveredCoalesce(Freed(h.blocks, i), i, false);
      DriftMoves(Covered(h.blocks, false), h.used, -freed, -freed);
      assert Release(h, i).used == (h.used + -freed) % WORD;
    }
  }

  // ---------------------------------------------------------------- runs

  /** `OtherOp` stands for whatever other clients of the frame allocator do in between. */
  datatype Op = MallocOp(request: nat) | FreeOp(ptr: nat) | OtherOp(frames: FrameMap)

  datatype State = State(heap: Heap, frames: FrameMap)

  /** Requests that do not wrap around, and pointers to blocks of the list. */
  predicate Allowed(s: State, op: Op) {
    match op
    case MallocOp(request) => request <= MAX_REQUEST
    case FreeOp(ptr) => ptr == 0 || IsBlock(s.heap, ptr)
    case OtherOp(frames) => forall i :: i in frames.used ==> i < frames.total
  }

  function Apply(s: State, op: Op): State
    requires Allowed(s, op)
  {
    match op
    case MallocOp(request) => var (h, f, _) := Kmalloc(s.heap, s.frames, request); State(h, f)
    case FreeOp(ptr) => State(Kfree(s.heap, ptr), s.frames)
    case OtherOp(frames) => s.(frames := frames)
  }

  ghost predicate Step(s: State, op: Op, s': State) {
    Allowed(s, op) && s' == Apply(s, op)
  }

  ghost predicate StepAt(states: seq<State>, ops: seq<Op>, k: nat)
    requires k + 1 < |states| && k < |ops|
  {
    Step(states[k], ops[k], states[k + 1])
  }

  ghost predicate IsRun(states: seq<State>, ops: seq<Op>) {
    |states| == |ops| + 1 && forall k {:trigger StepAt(states, ops, k)} :: 0 <= k < |ops| ==> StepAt(states, ops, k)
  }

  /** Every expansion of the run finds its memory behind the heap. */
  ghost predicate AllBehind(states: seq<State>, ops: seq<Op>)
    requires IsRun(states, ops)
  {
    forall k {:trigger StepAt(states, ops, k)} :: 0 <= k < |ops| && ops[k].MallocOp? ==> MayMalloc(states[k].heap, states[k].frames, ops[k].request)
  }

  /** Every expansion directly continues the heap, and nobody frees the heap's frames. */
  ghost predicate AllInPlace(states: seq<State>, ops: seq<Op>)
    requires IsRun(states, ops)
  {
    forall k {:trigger StepAt(states, ops, k)} :: 0 <= k < |ops| ==> StaysInPlace(states[k], ops[k])
  }

  predicate KeepsFrames(bs: seq<Block>, f: FrameMap, f': FrameMap) {
    forall i :: i in f.used && Start(bs) / PAGE_SIZE <= i && i * PAGE_SIZE < End(bs) ==> i in f'.used
  }

  predicate StaysInPlace(s: State, op: Op) {
    match op
    case MallocOp(request) => MallocsInPlace(s.heap, s.frames, request)
    case FreeOp(_) => true
    case OtherOp(frames) => KeepsFrames(s.heap.blocks, s.frames, frames)
  }

  lemma StepKeeps(s: State, op: Op, s': State)
    requires Inv(s.heap, s.frames) && Step(s, op, s')
    requires op.MallocOp? ==> MayMalloc(s.heap, s.frames, op.request)
    ensures Inv(s'.heap, s'.frames)
  {
    match op
    case MallocOp(request) => KmallocMeaning(s.heap, s.frames, request);
    case FreeOp(ptr) => KfreeMeaning(s.heap, s.frames, ptr);
    case OtherOp(_) =>
  }

  /** Over every run whose expansions lie behind the heap, contiguous or not: blocks are in
      order and apart, no two neighbours are free, and they add up to the heap size. */
  lemma {:induction false} RunKeeps(states: seq<State>, ops: seq<Op>, k: nat)
    requires IsRun(states, ops) && AllBehind(states, ops) && Inv(states[0].heap, states[0].frames) && k <= |ops|
    ensures Inv(states[k].heap, states[k].frames)
  {
    if k > 0 {
      RunKeeps(states, ops, k - 1);
      assert StepAt(states, ops, k - 1);
      StepKeeps(states[k - 1], ops[k - 1], states[k]);
    }
  }

  lemma StepKeepsPlace(s: State, op: Op, s': State)
    requires Inv(s.heap, s.frames) && Placed(s.heap.blocks, s.frames) && Step(s, op, s') && StaysInPlace(s, op)
    ensures op.MallocOp? ==> MayMalloc(s.heap, s.frames, op.request)
    ensures Placed(s'.heap.blocks, s'.frames)
  {
    match op
    case MallocOp(request) => KmallocInPlace(s.heap, s.frames, request);
    case FreeOp(ptr) => KfreeInPlace(s.heap, s.frames, ptr);
    case OtherOp(_) =>
  }

  /** If they directly continue it, the blocks also tile frames of the heap's own. */
  lemma {:induction false} RunKeepsPlace(states: seq<State>, ops: seq<Op>, k: nat)
    requires IsRun(states, ops) && AllInPlace(states, ops) && k <= |ops|
    requires Inv(states[0].heap, states[0].frames) && Placed(states[0].heap.blocks, states[0].frames)
    ensures Inv(states[k].heap, states[k].frames) && Placed(states[k].heap.blocks, states[k].frames)
  {
    if k > 0 {
      RunKeepsPlace(states, ops, k - 1);
      assert StepAt(states, ops, k - 1);
      StepKeepsPlace(states[k - 1], ops[k - 1], states[k]);
      StepKeeps(states[k - 1], ops[k - 1], states[k]);
    }
  }

  function SlackOf(s: State, op: Op): int {
    if op.MallocOp? && 0 < op.request <= MAX_REQUEST then Slack(s.heap, s.frames, AlignUp(op.request, 8)) else 0
  }

  lemma StepDrift(s: State, op: Op)
    requires ListInv(s.heap) && Allowed(s, op)
    ensures Moves(Drift(s.heap), SlackOf(s, op), Drift(Apply(s, op).heap))
    ensures IsSlack(SlackOf(s, op))
  {
    match op
    case MallocOp(request) =>
      if request > 0 {
        AlignUpMeaning(request, 8);
        AllocateDrift(s.heap, s.frames, AlignUp(request, 8));
        SlackBound(s.heap, s.frames, AlignUp(request, 8));
      }
    case FreeOp(ptr) => KfreeDrift(s.heap, ptr);
    case OtherOp(_) =>
  }

  /** The slack of all allocations up to step `k`. */
  function TotalSlack(states: seq<State>, ops: seq<Op>, k: nat): int
    requires k <= |ops| < |states|
  {
    if k == 0 then 0 else TotalSlack(states, ops, k - 1) + SlackOf(states[k - 1], ops[k - 1])
  }

  lemma RunStepDrift(states: seq<State>, ops: seq<Op>, k: nat)
    requires IsRun(states, ops) && AllBehind(states, ops) && Inv(states[0].heap, states[0].frames) && k < |ops|
    ensures Moves(Drift(states[k].heap), SlackOf(states[k], ops[k]), Drift(states[k + 1].heap))
    ensures IsSlack(SlackOf(states[k], ops[k]))
  {
    RunKeeps(states, ops, k);
    assert StepAt(states, ops, k);
    StepDrift(states[k], ops[k]);
  }

  /** At every point of such a run the counter is short of the bytes in use by the slack
      of all allocations ever made, freed or not. */
  lemma {:induction false} AccountingLaw(states: seq<State>, ops: seq<Op>, k: nat)
    requires IsRun(states, ops) && AllBehind(states, ops) && Inv(states[0].heap, states[0].frames) && k <= |ops|
    ensures Moves(Drift(states[0].heap), TotalSlack(states, ops, k), Drift(states[k].heap))
  {
    if k > 0 {
      AccountingLaw(states, ops, k - 1);
      RunStepDrift(states, ops, k - 1);
      MovesTwice(Drift(states[0].heap), TotalSlack(states, ops, k - 1), Drift(states[k - 1].heap),
                 SlackOf(states[k - 1], ops[k - 1]), Drift(states[k].heap));
    }
  }

  // ---------------------------------------------------------------- freeing everything

  ghost predicate NoMalloc(ops: seq<Op>) {
    forall j :: 0 <= j < |ops| ==> !ops[j].MallocOp?
  }

  lemma FreedIsGone(h: Heap, f: FrameMap, ptr: nat, b: Block)
    requires Inv(h, f) && (ptr == 0 || IsBlock(h, ptr)) && b in Live(Kfree(h, ptr).blocks)
    ensures b in Live(h.blocks) && ptr != b.addr + HEADER
  {
    KfreeMeaning(h, f, ptr);
    var i :| 0 <= i < |h.blocks| && h.blocks[i] == b;
    IndexOfAddress(h.blocks, i);
  }

  /** Without allocations a live block was live before, and was not freed in the step. */
  lemma StepFrees(s: State, op: Op, s': State, b: Block)
    requires Inv(s.heap, s.frames) && Step(s, op, s') && !op.MallocOp? && b in Live(s'.heap.blocks)
    ensures b in Live(s.heap.blocks) && op != Op.FreeOp(b.addr + HEADER)
  {
    if op.FreeOp? {
      FreedIsGone(s.heap, s.frames, op.ptr, b);
    }
  }

  lemma StepKeepsStart(s: State, op: Op, s': State)
    requires Inv(s.heap, s.frames) && Step(s, op, s') && !op.MallocOp?
    ensures Inv(s'.heap, s'.frames) && s'.heap.total == s.heap.total && SameStart(s.heap.blocks, s'.heap.blocks)
  {
    StepKeeps(s, op, s');
    if op.FreeOp? {
      KfreeMeaning(s.heap, s.frames, op.ptr);
    }
  }

  /** Freeing keeps the heap where it starts. */
  lemma {:induction false} FreeingRun(states: seq<State>, ops: seq<Op>, k: nat)
    requires IsRun(states, ops) && Inv(states[0].heap, states[0].frames) && k <= |ops| && NoMalloc(ops)
    ensures Inv(states[k].heap, states[k].frames) && states[k].heap.total == states[0].heap.total
    ensures SameStart(states[0].heap.blocks, states[k].heap.blocks)
  {
    if k > 0 {
      FreeingRun(states, ops, k - 1);
      assert StepAt(states, ops, k - 1);
      StepKeepsStart(states[k - 1], ops[k - 1], states[k]);
    }
  }

  /** A block whose pointer has been freed is no longer live. */
  lemma {:induction false} FreedForGood(states: seq<State>, ops: seq<Op>, k: nat, b: Block)
    requires IsRun(states, ops) && Inv(states[0].heap, states[0].frames) && k <= |ops| && NoMalloc(ops)
    requires b in Live(states[k].heap.blocks)
    ensures b in Live(states[0].heap.blocks) && forall j :: 0 <= j < k ==> ops[j] != Op.FreeOp(b.addr + HEADER)
  {
    if k > 0 {
      FreeingRun(states, ops, k - 1);
      assert StepAt(states, ops, k - 1);
      StepFrees(states[k - 1], ops[k - 1], states[k], b);
      FreedForGood(states, ops, k - 1, b);
    }
  }

  /** Freeing every live block, in whatever order and whatever others do to the frames,
      collapses the heap to one free block. */
  lemma FreeAllCollapses(states: seq<State>, ops: seq<Op>)
    requires IsRun(states, ops) && Inv(states[0].heap, states[0].frames) && states[0].heap.blocks != [] && NoMalloc(ops)
    requires forall b :: b in Live(states[0].heap.blocks) ==> Op.FreeOp(b.addr + HEADER) in ops
    ensures var h := states[0].heap;
            h.total >= HEADER && states[|ops|].heap.blocks == [Block(Start(h.blocks), h.total - HEADER, true)]
  {
    var n, h' := |ops|, states[|ops|].heap;
    forall b ensures b !in Live(h'.blocks) {
      if b in Live(h'.blocks) {
        FreedForGood(states, ops, n, b);
      }
    }
    FreeingRun(states, ops, n);
    OneFree(h');
  }

  /** Nothing live: one free block with everything in it. */
  lemma OneFree(h: Heap)
    requires ListInv(h) && h.blocks != [] && Live(h.blocks) == {}
    ensures h.total >= HEADER && h.blocks == [Block(Start(h.blocks), h.total - HEADER, true)]
  {
    if |h.blocks| > 1 {
      SomeLive(h.blocks);
    }
    assert h.blocks == [h.blocks[0]];
    assert h.blocks[0] in h.blocks && h.blocks[0] !in Live(h.blocks);
    CoveredSmall(h.blocks[0], h.blocks[0], true);
  }

  // ---------------------------------------------------------------- merging trusts list order

  /** Merging goes by list order and never looks at addresses: when the last block is
      free and new memory is appended behind it, the merged block claims the bytes right
      after the old heap, which are the new bytes only if the memory really starts there. */
  lemma MergeTrustsOrder(h: Heap, addr: nat, min: nat)
    requires h.blocks != [] && h.blocks[|h.blocks| - 1].free && ExpandSize(min) >= HEADER
    ensures var bs := MergeNext(Append(h, addr, min).blocks, |h.blocks| - 1);
            && End(bs) == End(h.blocks) + ExpandSize(min)
            && (End(bs) == End(Append(h, addr, min).blocks) <==> addr == End(h.blocks))
  {
    var n := |h.blocks| - 1;
    var bs := Append(h, addr, min).blocks;
    assert bs[n] == h.blocks[n];
  }
}
