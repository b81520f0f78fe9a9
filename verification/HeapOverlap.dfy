/** A run in which new memory lies before the heap's end, and what becomes of the heap:
    a split header lands on the header of a live block.  The heap lies in frames 2 to 5;
    everything else about the machine, its size in particular, is left open. */
module HeapOverlap {
  import opened Frames
  import opened HeaderWords
  import opened HeapChain
  import opened HeapLaws
  import opened HeapSpec
  import opened HeapTheorems
  import opened Links
  import opened Words

  /** Frames 0 to 5 are in use, those of the heap and others; 6 to 8 are free. */
  ghost predicate Ready(f: FrameMap) {
    Frames.Valid(f) && f.total > 8 && (forall i :: 0 <= i < 6 ==> i in f.used) && forall i :: 6 <= i < 9 ==> i !in f.used
  }

  const A: Block := Block(0x2000, 136, false)
  const B: Block := Block(0x20A8, 16184, false)

  /** The heap after its initialisation, and after allocations of 136 and 16184 bytes. */
  const Fresh: Heap := Heap([Block(0x2000, 16352, true)], 16384, 0)
  const Half: Heap := Heap([A, B.(free := true)], 16384, 168)
  const Full: Heap := Heap([A, B], 16384, 16384)

  /** After an allocation of 100 bytes that got frames 1, 6, 7 and 8. */
  const Grown: Heap := Heap([A, B, Block(0x1000, 104, false), Block(0x1088, 16216, true)], 32768, 16520)

  /** The multiples of 8 for which the block at 0x1088, cut to that size, has its rest start
      within a header's length of 0x20A8, where live block `B` has its header. */
  predicate Colliding(n: nat) { 4072 <= n <= 4120 && n % 8 == 0 }

  /** What an allocation of `n` bytes then makes of the list. */
  function Last(n: nat): seq<Block>
    requires n + HEADER <= 16216
  {
    [A, B, Block(0x1000, 104, false), Block(0x1088, n, false), Block(0x10A8 + n, 16216 - n - HEADER, true)]
  }

  lemma FirstTwo(f: FrameMap)
    ensures Kmalloc(Fresh, f, 136).0 == Half && Kmalloc(Fresh, f, 136).1 == f
    ensures Kmalloc(Half, f, 16184).0 == Full && Kmalloc(Half, f, 16184).1 == f
  {
    assert AlignUp(136, 8) == 136 && AlignUp(16184, 8) == 16184;
    assert FirstFit(Fresh.blocks, 136, 0) == 0;
    assert Split(Fresh.blocks, 0, 136) == Half.blocks[0 := A.(free := true)];
    assert FirstFit(Half.blocks, 16184, 1) == 1;
    assert FirstFit(Half.blocks, 16184, 0) == 1;
  }

  /** With everything before frame `n` in use and `n` free, `n` comes next. */
  lemma NextDrawn(f: FrameMap, n: nat)
    requires 0 < n < f.total && n !in f.used && forall i :: 0 <= i < n ==> i in f.used
    ensures Alloc(f) == (With(f, {n}), n * PAGE_SIZE)
  {
    var i := LowestFree(f, 0);
    assert i == n;
  }

  function With(f: FrameMap, frames: set<nat>): FrameMap { f.(used := f.used + frames) }

  lemma DrawNext(f: FrameMap, n: nat, f1: FrameMap, pages: seq<nat>, f2: FrameMap, p: nat)
    requires Draw(f, n) == (f1, pages) && |pages| == n && Alloc(f1) == (f2, p) && p != 0
    ensures Draw(f, n + 1) == (f2, pages + [p])
  {
  }

  /** Frame 1 released: it is drawn first, then the three behind the heap. */
  lemma FourDrawn(f: FrameMap)
    requires Ready(f)
    ensures var f0 := Free(f, PAGE_SIZE); Draw(f0, 4) == (With(f, {6, 7, 8}), [0x1000, 0x6000, 0x7000, 0x8000])
  {
    var f0, f1, f2, f3 := Free(f, PAGE_SIZE), f, With(f, {6}), With(f, {6, 7});
    NextDrawn(f0, 1);
    assert With(f0, {1}).used == f.used;
    NextDrawn(f1, 6);
    NextDrawn(f2, 7);
    NextDrawn(f3, 8);
    assert With(f2, {7}).used == f3.used && With(f3, {8}).used == With(f, {6, 7, 8}).used;
    DrawNext(f0, 0, f0, [], f1, 0x1000);
    DrawNext(f0, 1, f1, [] + [0x1000], f2, 0x6000);
    DrawNext(f0, 2, f2, [] + [0x1000] + [0x6000], f3, 0x7000);
    DrawNext(f0, 3, f3, [] + [0x1000] + [0x6000] + [0x7000], With(f, {6, 7, 8}), 0x8000);
    assert [] + [0x1000] + [0x6000] + [0x7000] + [0x8000] == [0x1000, 0x6000, 0x7000, 0x8000];
  }

  lemma ThirdGrows(f: FrameMap)
    requires Ready(f)
    ensures Kmalloc(Full, Free(f, PAGE_SIZE), 100) == (Grown, With(f, {6, 7, 8}), 0x1020)
  {
    var f0 := Free(f, PAGE_SIZE);
    FourDrawn(f);
    assert AlignUp(100, 8) == 104;
    assert Grow(f0, 104 + HEADER) == Draw(f0, 4);
    assert FirstFit(Full.blocks, 104, 2) == 2;
    assert FirstFit(Full.blocks, 104, 1) == 2;
    assert FirstFit(Full.blocks, 104, 0) == 2;
    var h := Append(Full, 0x1000, 136);
    assert h.blocks == [A, B, Block(0x1000, 16352, true)];
    assert Split(h.blocks, 2, 104) == [A, B, Block(0x1000, 104, true), Block(0x1088, 16216, true)];
    assert Occupy(h, 2, 104).blocks == Grown.blocks;
    assert Kmalloc(Full, f0, 100) == Allocate(Full, f0, 104);
  }

  lemma FourthCollides(f: FrameMap, n: nat)
    requires Colliding(n)
    ensures Kmalloc(Grown, f, n).0.blocks == Last(n)
  {
    AlignUpMeaning(n, 8);
    assert AlignUp(n, 8) == n;
    assert FirstFit(Grown.blocks, n, 3) == 3;
    assert FirstFit(Grown.blocks, n, 2) == 3;
    assert FirstFit(Grown.blocks, n, 1) == 3;
    assert FirstFit(Grown.blocks, n, 0) == 3;
    assert Split(Grown.blocks, 3, n)
        == [A, B, Block(0x1000, 104, false), Block(0x1088, n, true), Block(0x10A8 + n, 16216 - n - HEADER, true)];
  }

  lemma NotHeld(n: nat)
    requires Colliding(n)
    ensures forall mem, list :: !HoldsList(mem, list, Last(n))
  {
    assert Meet(Last(n)[1].addr, Last(n)[4].addr);
    forall mem, list ensures !HoldsList(mem, list, Last(n)) {
      if HoldsList(mem, list, Last(n)) {
        HeldApart(mem, list, Last(n));
      }
    }
  }

  lemma FreshInOrder(f: FrameMap)
    requires Ready(f)
    ensures HeapSpec.Inv(Fresh, f)
  {
    CoveredSmall(Fresh.blocks[0], Fresh.blocks[0], true);
  }

  /** On every machine whose frames are as in `Ready`, for every such `n`: five steps from an
      initialised heap that is in order -- two allocations, the release of frame 1 by whoever
      has it, two more allocations -- to a list that memory cannot hold. */
  lemma OverlapReached(f: FrameMap, n: nat) returns (states: seq<State>, ops: seq<HeapTheorems.Op>)
    requires Ready(f) && Colliding(n)
    ensures IsRun(states, ops) && |ops| == 5
    ensures states[0] == State(Fresh, f) && HeapSpec.Inv(Fresh, f) && states[4].heap == Grown
    ensures ops[2] == OtherOp(Free(f, PAGE_SIZE)) && forall i :: 0 <= i < 5 && i != 2 ==> ops[i].MallocOp?
    ensures ops[4] == MallocOp(n) && states[5].heap.blocks == Last(n)
    ensures forall mem, list :: !HoldsList(mem, list, Last(n))
  {
    hide HoldsList, Occupy, Append, FirstFit, Grow;
    NotHeld(n);
    FreshInOrder(f);
    FirstTwo(f);
    ThirdGrows(f);
    var f0, f1 := Free(f, PAGE_SIZE), With(f, {6, 7, 8});
    FourthCollides(f1, n);
    ops := [MallocOp(136), MallocOp(16184), OtherOp(f0), MallocOp(100), MallocOp(n)];
    var s0, s1, s2, s3, s4 := State(Fresh, f), State(Half, f), State(Full, f), State(Full, f0), State(Grown, f1);
    states := [s0, s1, s2, s3, s4, Apply(s4, ops[4])];
  }

  // ---------------------------------------------------------------- the last step in memory

  const GrownList: seq<nat> := [0x2000, 0x20A8, 0x1000, 0x1088]

  /** The words of the headers before the last step. */
  lemma GrownWords(mem: Ram)
    requires HoldsList(mem, GrownList, Grown.blocks)
    ensures NodeAt(mem, 0x2000) == Node(Header(136, false), 0x20A8, 0)
    ensures NodeAt(mem, 0x20A8) == Node(Header(16184, false), 0x1000, 0x2000)
    ensures NodeAt(mem, 0x1088) == Node(Header(16216, true), 0, 0x1000)
  {
    var bs := BlocksIn(mem, GrownList);
    assert bs[0] == BlockIn(mem, 0x2000) && bs[1] == BlockIn(mem, 0x20A8) && bs[3] == BlockIn(mem, 0x1088);
    LinksOf(mem, GrownList, 0);
    LinksOf(mem, GrownList, 1);
    LinksOf(mem, GrownList, 3);
  }

  /** With 4096 bytes the header of live block `B` is overwritten by the new one, and the walk
      along `next` from the start of the heap ends there, after two of the blocks. */
  lemma HeaderOverwritten(mem: Ram)
    requires HoldsList(mem, GrownList, Grown.blocks)
    ensures Word(mem, 0x1088) >= 4096 + HEADER
    ensures var mem' := CutWords(mem, 0x1088, 4096, 0x20A8);
            && NodeAt(mem', 0x2000).next == 0x20A8
            && NodeAt(mem', 0x20A8) == Node(Header(12088, true), 0, 0x1088)
  {
    GrownWords(mem);
    CutNodes(mem, 0x1088, 4096, 0x20A8, 0x2000);
    CutNodes(mem, 0x1088, 4096, 0x20A8, 0x20A8);
  }

  /** With 4088 bytes no two headers have the same address, but the flag of the new one lands
      on the size of live block `B`, 16184 bytes before and 16129 after, and its link back on
      `B`'s link forward: the walk then misses the live block at 0x1000. */
  lemma LiveBlockSpoiled(mem: Ram)
    requires HoldsList(mem, GrownList, Grown.blocks)
    ensures Word(mem, 0x1088) >= 4088 + HEADER
    ensures var mem' := CutWords(mem, 0x1088, 4088, 0x20A0);
            && NodeAt(mem', 0x20A8).data == Header(16129, false)
            && NodeAt(mem', 0x2000).next == 0x20A8 && NodeAt(mem', 0x20A8).next == 0x1088
            && NodeAt(mem', 0x1088).next == 0x20A0 && NodeAt(mem', 0x20A0).next == 0
  {
    GrownWords(mem);
    var m1 := mem[0x1088 := 4088][0x20A0 := 12096];
    assert WithFlag(16184, true) == 16129;
    assert SetFlag(m1, 0x20A0, true) == m1[0x20A8 := 16129];
  }
}
