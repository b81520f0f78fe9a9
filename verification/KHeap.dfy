/** The kernel heap itself: the words of block headers in memory, linked both ways. */
module KHeap {
  import opened Frames
  import opened HeaderWords
  import opened HeapChain
  import opened HeapLaws
  import opened HeapSpec
  import opened Links
  import opened Pmm
  import opened Words

  class KHeap {
    /** Memory, as far as the heap code reads and writes it.  Headers merged away stay behind. */
    var mem: Ram
    var heapStart: nat
    var totalHeapSize: nat
    var usedHeapSize: nat
    const pmm: Pmm

    /** The addresses of the blocks in list order. */
    ghost var list: seq<nat>

    /** Memory holds a list of headers, no two of which share a byte. */
    ghost predicate Linked()
      reads this
    {
      Spelled(mem, list) && heapStart == if list == [] then 0 else list[0]
    }

    ghost function Blocks(): (bs: seq<Block>)
      reads this
      requires Linked()
    {
      BlocksIn(mem, list)
    }

    ghost function View(): Heap
      reads this
      requires Linked()
    {
      Heap(Blocks(), totalHeapSize, usedHeapSize)
    }

    ghost predicate Valid()
      reads this, pmm, pmm.bitmap
    {
      pmm.Valid() && Linked() && Inv(View(), pmm.View())
    }

    constructor (pmm: Pmm)
      requires pmm.Valid()
      ensures this.pmm == pmm && Valid() && View() == Heap([], 0, 0)
    {
      this.pmm := pmm;
      mem := map[];
      heapStart, totalHeapSize, usedHeapSize := 0, 0, 0;
      list := [];
    }

    /** One more frame, unless there is none. */
    method DrawPage(ghost f: FrameMap, i: nat, ghost pages: seq<nat>, first: nat) returns (page: nat, newMem: nat)
      requires pmm.Valid() && Drawing(f, i, pmm.View(), pages, first)
      modifies pmm`usedPages, pmm.bitmap
      ensures pmm.Valid()
      ensures page != 0 ==> Drawing(f, i + 1, pmm.View(), pages + [page], newMem)
      ensures page == 0 ==> Stopped(f, i + 1, pmm.View(), pages)
    {
      ghost var now := pmm.View();
      page := pmm.AllocPage();
      newMem := if i == 0 then page else first;
      DrawingNext(f, i, now, pages, first, pmm.View(), page);
    }

    /** Draw frames one by one; the first is taken for the address of all. */
    method DrawPages(numPages: nat) returns (newMem: nat)
      requires pmm.Valid()
      modifies pmm`usedPages, pmm.bitmap
      ensures pmm.Valid() && pmm.View() == Draw(old(pmm.View()), numPages).0
      ensures var pages := Draw(old(pmm.View()), numPages).1;
              newMem == if 0 < |pages| == numPages then pages[0] else 0
    {
      newMem := 0;
      ghost var f, pages := pmm.View(), [];
      for i := 0 to numPages
        invariant pmm.Valid() && Drawing(f, i, pmm.View(), pages, newMem)
      {
        var page;
        page, newMem := DrawPage(f, i, pages, newMem);
        if page == 0 {
          DrawStopped(f, i + 1, numPages);
          return 0;
        }
        pages := pages + [page];
      }
    }

    method ExpandHeap(minSize: nat) returns (block: nat)
      requires pmm.Valid() && Linked() && minSize <= WORD - PAGE_SIZE && ExpandApart(Blocks(), pmm.View(), minSize)
      modifies this`mem, this`list, this`heapStart, this`totalHeapSize, pmm`usedPages, pmm.bitmap
      ensures pmm.Valid() && Linked() && pmm.View() == Grow(old(pmm.View()), minSize).0
      ensures ExpandSize(minSize) >= HEADER
      ensures var pages := Grow(old(pmm.View()), minSize).1;
              if Complete(pages, minSize) then block == pages[0] != 0 && View() == Append(old(View()), pages[0], minSize)
              else block == 0 && View() == old(View())
    {
      ExpandSizeMeaning(minSize);
      GrownNotNull(pmm.View(), minSize);
      var expandSize := EXPAND;
      if minSize > expandSize {
        expandSize := AlignUp(minSize, PAGE_SIZE);
      }
      assert expandSize == ExpandSize(minSize);
      var newMem := DrawPages(expandSize / PAGE_SIZE);
      if newMem == 0 {
        return 0;
      }
      RoomInList(mem, list, newMem);
      AppendBlock(newMem, expandSize);
      return newMem;
    }

    /** Put a new free block at the end of the list. */
    method AppendBlock(newMem: nat, expandSize: nat)
      requires Linked() && newMem != 0 && Room(list, newMem) && expandSize >= HEADER
      modifies this`mem, this`list, this`heapStart, this`totalHeapSize
      ensures Linked()
      ensures View() == AppendMemory(old(View()), newMem, expandSize)
    {
      hide Spelled, NewWords, LinkWords, Room;
      AppendedChain(mem, list, newMem, expandSize - HEADER);
      NewBeside(mem, list, newMem, expandSize - HEADER);
      NewInMemory(newMem, expandSize - HEADER);
      totalHeapSize := totalHeapSize + expandSize;
      NotNull(mem, list);
      if heapStart == 0 {
        heapStart := newMem;
      } else {
        var current := FindLast();
        LinkInMemory(current, newMem);
      }
      list := list + [newMem];
    }

    /** The header of a free block, not linked yet. */
    method NewInMemory(newBlock: nat, size: nat)
      modifies this`mem
      ensures mem == NewWords(old(mem), newBlock, size)
    {
      mem := mem[newBlock := size];
      mem := SetFlag(mem, newBlock, true);
      mem := mem[newBlock + NEXT := 0];
      mem := mem[newBlock + PREV := 0];
    }

    method LinkInMemory(last: nat, newBlock: nat)
      modifies this`mem
      ensures mem == LinkWords(old(mem), last, newBlock)
    {
      mem := mem[last + NEXT := newBlock];
      mem := mem[newBlock + PREV := last];
    }

    method FindLast() returns (current: nat)
      requires Spelled(mem, list) && list != [] && heapStart == list[0]
      ensures current == list[|list| - 1]
    {
      current := heapStart;
      LinksOf(mem, list, 0);
      ghost var i := 0;
      while Word(mem, current + NEXT) != 0
        invariant 0 <= i < |list| && current == list[i]
        invariant Word(mem, current + NEXT) == NextOf(list, i)
        decreases |list| - i
      {
        current := Word(mem, current + NEXT);
        i := i + 1;
        LinksOf(mem, list, i);
      }
      NotNull(mem, list);
    }

    method SplitBlock(block: nat, size: nat, ghost i: nat)
      requires Linked() && i < |list| && list[i] == block && CutApart(Blocks(), i, size)
      modifies this`mem, this`list
      ensures Linked() && Blocks() == Split(old(Blocks()), i, size)
      ensures i < |list| && list[i] == block
    {
      if Word(mem, block) >= size + HEADER + MIN_BLOCK {
        RoomInList(mem, list, block + HEADER + size);
        CutBlock(block, size, i);
      }
    }

    method CutBlock(block: nat, size: nat, ghost i: nat)
      requires Linked() && i < |list| && list[i] == block
      requires Word(mem, block) >= size + HEADER + MIN_BLOCK && Room(list, block + HEADER + size)
      modifies this`mem, this`list
      ensures Linked() && Blocks() == Split(old(Blocks()), i, size)
      ensures i < |list| && list[i] == block
    {
      hide Spelled, CutWords, Split;
      CutChain(mem, list, i, size);
      var newBlock := block + HEADER + size;
      CutInMemory(block, size, newBlock);
      list := InsertAfter(list, i, newBlock);
    }

    /** The writes of a cut, wherever the new header lies. */
    method CutInMemory(block: nat, size: nat, newBlock: nat)
      requires Word(mem, block) >= size + HEADER
      modifies this`mem
      ensures mem == CutWords(old(mem), block, size, newBlock)
    {
      hide Word, SetFlag;
      var originalSize := Word(mem, block);
      mem := mem[block := size];
      mem := mem[newBlock := originalSize - size - HEADER];
      mem := SetFlag(mem, newBlock, true);
      mem := mem[newBlock + NEXT := Word(mem, block + NEXT)];
      mem := mem[newBlock + PREV := block];
      if Word(mem, block + NEXT) != 0 {
        mem := mem[Word(mem, block + NEXT) + PREV := newBlock];
      }
      mem := mem[block + NEXT := newBlock];
    }

    method CoalesceBlocks(block: nat, ghost i: nat)
      requires Linked() && i < |list| && list[i] == block && FlagSet(Word(mem, block + FLAG))
      modifies this`mem, this`list
      ensures Linked() && Blocks() == Coalesce(old(Blocks()), i)
    {
      CoalesceNext(block, i);
      CoalescePrevious(block, i);
    }

    method CoalesceNext(block: nat, ghost i: nat)
      requires Linked() && i < |list| && list[i] == block && FlagSet(Word(mem, block + FLAG))
      modifies this`mem, this`list
      ensures Linked() && Blocks() == MergeNext(old(Blocks()), i)
      ensures i < |list| && list[i] == block && FlagSet(Word(mem, block + FLAG))
    {
      LinksOf(mem, list, i);
      var next := Word(mem, block + NEXT);
      if next != 0 && FlagSet(Word(mem, next + FLAG)) {
        Absorb(block, next, i);
        assert list[i] == block && Blocks()[i].free;
      }
    }

    method CoalescePrevious(block: nat, ghost i: nat)
      requires Linked() && i < |list| && list[i] == block && FlagSet(Word(mem, block + FLAG))
      modifies this`mem, this`list
      ensures Linked() && Blocks() == if i > 0 && old(Blocks())[i - 1].free then MergeNext(old(Blocks()), i - 1) else old(Blocks())
    {
      LinksOf(mem, list, i);
      var prev := Word(mem, block + PREV);
      if prev != 0 && FlagSet(Word(mem, prev + FLAG)) {
        Absorb(prev, block, i - 1);
      }
    }

    /** Merge block `b` into its predecessor `a` in the list, wherever the two are in memory.
        What `b`'s header says stays there. */
    method Absorb(a: nat, b: nat, ghost i: nat)
      requires Linked() && i + 1 < |list| && list[i] == a && list[i + 1] == b && FlagSet(Word(mem, b + FLAG))
      modifies this`mem, this`list
      ensures Linked() && Blocks() == MergeNext(old(Blocks()), i) && list == Without(old(list), i + 1)
      ensures FlagSet(Word(mem, b + FLAG))
    {
      hide Spelled, AbsorbWords, MergeNext, FlagSet;
      AbsorbChain(mem, list, i);
      AbsorbKeepsFlag(mem, list, i);
      AbsorbInMemory(a, b);
      list := Without(list, i + 1);
    }

    method AbsorbInMemory(a: nat, b: nat)
      modifies this`mem
      ensures mem == AbsorbWords(old(mem), a, b)
    {
      mem := mem[a := Word(mem, a) + HEADER + Word(mem, b)];
      mem := mem[a + NEXT := Word(mem, b + NEXT)];
      if Word(mem, a + NEXT) != 0 {
        mem := mem[Word(mem, a + NEXT) + PREV := a];
      }
    }

    /** Give the heap its first memory: four frames from the lowest free one on, if frame 0
        is not among the free ones and there are four. */
    method Init()
      requires Valid() && View() == Heap([], 0, 0)
      modifies this, pmm`usedPages, pmm.bitmap
      ensures Valid()
      ensures Initialised(old(pmm.View()), View(), pmm.View())
    {
      ghost var f := pmm.View();
      heapStart := ExpandHeap(EXPAND);
      FirstMemory(f, View(), pmm.View());
    }

    method FindFit(size: nat) returns (current: nat, ghost i: nat)
      requires Linked()
      ensures i == FirstFit(Blocks(), size, 0)
      ensures current == if i < |list| then list[i] else 0
    {
      current := heapStart;
      i := 0;
      NotNull(mem, list);
      while current != 0
        invariant 0 <= i <= |list| && current == if i < |list| then list[i] else 0
        invariant FirstFit(Blocks(), size, 0) == FirstFit(Blocks(), size, i)
        decreases |list| - i
      {
        if FlagSet(Word(mem, current + FLAG)) && Word(mem, current) >= size {
          return;
        }
        LinksOf(mem, list, i);
        current := Word(mem, current + NEXT);
        i := i + 1;
      }
    }

    /** Cut the block to size if worthwhile and mark it used. */
    method TakeBlock(block: nat, size: nat, ghost i: nat)
      requires Linked() && i < |list| && list[i] == block && CutApart(Blocks(), i, size)
      modifies this`mem, this`list, this`usedHeapSize
      ensures Linked() && View() == Occupy(old(View()), i, size)
    {
      hide Spelled, SetFlag, Split;
      SplitBlock(block, size, i);
      FlagChain(mem, list, i, false);
      mem := SetFlag(mem, block, false);
      usedHeapSize := (usedHeapSize + size + HEADER) % WORD;
    }

    method Kmalloc(request: nat) returns (ptr: nat)
      requires Valid() && MayMalloc(View(), pmm.View(), request)
      modifies this, pmm`usedPages, pmm.bitmap
      ensures Valid()
      ensures (View(), pmm.View(), ptr) == HeapSpec.Kmalloc(old(View()), old(pmm.View()), request)
    {
      if request == 0 {
        return 0;
      }
      KmallocMeaning(View(), pmm.View(), request);
      AlignUpMeaning(request, 8);
      BehindWritesApart(View(), pmm.View(), AlignUp(request, 8));
      var size := AlignUp(request, 8);
      ptr := AllocateBlock(size);
    }

    /** The search, and the expansion when it fails.  The list in memory follows the list of
        blocks as long as no header written meets another. */
    method AllocateBlock(size: nat) returns (ptr: nat)
      requires pmm.Valid() && Linked() && size + HEADER <= WORD - PAGE_SIZE && WritesApart(View(), pmm.View(), size)
      modifies this, pmm`usedPages, pmm.bitmap
      ensures pmm.Valid() && Linked()
      ensures var (h, f, p) := Allocate(old(View()), old(pmm.View()), size); View() == h && pmm.View() == f && ptr == p
    {
      var current, i := FindFit(size);
      if current != 0 {
        NotNull(mem, list);
        TakeBlock(current, size, i);
        return current + HEADER;
      }
      NotNull(mem, list);
      ptr := AllocateNew(size);
    }

    method AllocateNew(size: nat) returns (ptr: nat)
      requires pmm.Valid() && Linked() && size + HEADER <= WORD - PAGE_SIZE
      requires FirstFit(Blocks(), size, 0) == |list| && WritesApart(View(), pmm.View(), size)
      modifies this, pmm`usedPages, pmm.bitmap
      ensures pmm.Valid() && Linked() && ExpandSize(size + HEADER) >= HEADER
      ensures var (f, pages) := Grow(old(pmm.View()), size + HEADER);
              && pmm.View() == f
              && if Complete(pages, size + HEADER) then
                  ptr == pages[0] + HEADER && View() == Occupy(Append(old(View()), pages[0], size + HEADER), old(|list|), size)
                 else ptr == 0 && View() == old(View())
    {
      hide Spelled, Draw, Split;
      ghost var i := |list|;
      var newBlock := ExpandHeap(size + HEADER);
      if newBlock == 0 {
        return 0;
      }
      assert Blocks()[i].addr == newBlock;
      TakeBlock(newBlock, size, i);
      return newBlock + HEADER;
    }

    /** A pointer may also be one that was freed before and whose header, merged away or not,
        still says so: then nothing happens. */
    method Kfree(ptr: nat)
      requires Valid() && (ptr == 0 || IsBlock(View(), ptr) || SaysFree(mem, ptr))
      modifies this
      ensures Valid()
      ensures View() == if ptr == 0 || old(IsBlock(View(), ptr)) then HeapSpec.Kfree(old(View()), ptr) else old(View())
      ensures old(SaysFree(mem, ptr)) ==> View() == old(View()) && mem == old(mem)
    {
      hide Spelled, Coalesce, Inv;
      if ptr == 0 {
        return;
      }
      var block := ptr - HEADER;
      if FlagSet(Word(mem, block + FLAG)) {
        return;
      }
      KfreeKeepsInv(View(), pmm.View(), ptr);
      ghost var i := IndexOf(Blocks(), block, 0);
      assert list[i] == Blocks()[i].addr == block;
      ReleaseBlock(block, i);
    }

    method MarkFree(block: nat, ghost i: nat)
      requires Linked() && i < |list| && list[i] == block
      modifies this`mem, this`usedHeapSize
      ensures Linked() && FlagSet(Word(mem, block + FLAG)) && Blocks() == Freed(old(Blocks()), i)
      ensures usedHeapSize == (old(usedHeapSize) - old(Blocks())[i].size - HEADER) % WORD
    {
      hide Spelled, SetFlag;
      FlagChain(mem, list, i, true);
      mem := SetFlag(mem, block, true);
      assert Blocks()[i] == BlockIn(mem, block);
      usedHeapSize := (usedHeapSize - Word(mem, block) - HEADER) % WORD;
    }

    /** Mark the block free, take it off the counter and merge it with its neighbours. */
    method ReleaseBlock(block: nat, ghost i: nat)
      requires Linked() && i < |list| && list[i] == block
      modifies this`mem, this`list, this`usedHeapSize
      ensures Linked() && View() == Release(old(View()), i)
    {
      hide Spelled, MergeNext, Coalesce, FlagSet;
      MarkFree(block, i);
      CoalesceBlocks(block, i);
    }
  }

  /** Before the address `ptr` there is a header whose block is free. */
  predicate SaysFree(mem: Ram, ptr: nat) {
    ptr >= HEADER && FlagSet(Word(mem, ptr - HEADER + FLAG))
  }

  lemma NotNull(mem: Ram, list: seq<nat>)
    requires Spelled(mem, list)
    ensures forall i :: 0 <= i < |list| ==> list[i] != 0
  {
    InMemory(NodesAt(mem, list), list);
  }

  /** After `i` pages drawn without failure, the first of them at `newMem`. */
  predicate Drawing(f: FrameMap, i: nat, now: FrameMap, pages: seq<nat>, newMem: nat) {
    Draw(f, i) == (now, pages) && |pages| == i && newMem == if i == 0 then 0 else pages[0]
  }

  /** The `n`-th page was not to be had. */
  predicate Stopped(f: FrameMap, n: nat, now: FrameMap, pages: seq<nat>) {
    Draw(f, n) == (now, pages) && |pages| < n
  }

  lemma DrawingNext(f: FrameMap, i: nat, now: FrameMap, pages: seq<nat>, first: nat, after: FrameMap, page: nat)
    requires Drawing(f, i, now, pages, first) && (after, page) == Alloc(now)
    ensures page != 0 ==> Drawing(f, i + 1, after, pages + [page], if i == 0 then page else first)
    ensures page == 0 ==> Stopped(f, i + 1, after, pages)
  {
    assert Draw(f, i + 1) == (after, if page == 0 then pages else pages + [page]);
  }

  /** A draw that stopped short stays as it is. */
  lemma {:induction false} DrawStopped(f: FrameMap, i: nat, n: nat)
    requires 0 < i <= n && |Draw(f, i).1| < i
    ensures Draw(f, n) == Draw(f, i)
    decreases n - i
  {
    if i < n {
      assert Draw(f, i + 1) == Draw(f, i);
      DrawStopped(f, i + 1, n);
    }
  }

  lemma GrownNotNull(f: FrameMap, min: nat)
    requires Frames.Valid(f)
    ensures var pages := Grow(f, min).1; Complete(pages, min) ==> pages[0] != 0
  {
    DrawMeaning(f, ExpandSize(min) / PAGE_SIZE);
    var pages := Grow(f, min).1;
    assert Complete(pages, min) ==> pages[0] in pages;
  }

  lemma KfreeKeepsInv(h: Heap, f: FrameMap, ptr: nat)
    requires Inv(h, f) && (ptr == 0 || IsBlock(h, ptr))
    ensures Inv(HeapSpec.Kfree(h, ptr), f)
  {
    KfreeMeaning(h, f, ptr);
  }

  /** What `kheap_init` makes of an empty heap. */
  ghost predicate Initialised(f: FrameMap, h': Heap, f': FrameMap) {
    if Enough(f, 4) then
      && h' == Heap([Block(LowestFree(f, 0) * 4096, 16384 - 32, true)], 16384, 0)
      && |f'.used| == |f.used| + 4
    else h' == Heap([], 0, 0) && Spent(f, f')
  }

  lemma FirstFrames(f: FrameMap)
    requires Frames.Valid(f)
    ensures PagesFor(EXPAND) == 4
    ensures var (f', pages) := Grow(f, EXPAND);
            if Enough(f, 4) then Complete(pages, EXPAND) && pages[0] == LowestFree(f, 0) * PAGE_SIZE && |f'.used| == |f.used| + 4
            else !Complete(pages, EXPAND) && Spent(f, f')
  {
    GrowSucceeds(f, EXPAND);
    DrawSucceeds(f, 4);
    if !Enough(f, 4) {
      DrawFails(f, 4);
    }
  }

  lemma FirstMemory(f: FrameMap, h': Heap, f': FrameMap)
    requires Frames.Valid(f) && ExpandSize(EXPAND) >= HEADER && f' == Grow(f, EXPAND).0
    requires var pages := Grow(f, EXPAND).1;
             h' == if Complete(pages, EXPAND) then Append(Heap([], 0, 0), pages[0], EXPAND) else Heap([], 0, 0)
    ensures Inv(h', f') && Initialised(f, h', f')
  {
    var h := Heap([], 0, 0);
    FirstFrames(f);
    GrowMeaning(h, f, EXPAND);
    var pages := Grow(f, EXPAND).1;
    if Complete(pages, EXPAND) {
      AppendLaid(h, pages[0], EXPAND);
      AppendKeepsList(h, pages[0], EXPAND);
    }
  }
}
