/** The kernel heap as a value: the list of blocks, and what `kmalloc` and `kfree`
    do to it.  Class `KHeap.KHeap` refines this on linked block headers. */
module HeapSpec {
  import opened Frames
  import opened Words

  const HEADER: nat := 32
  const MIN_BLOCK: nat := 16
  const EXPAND: nat := 4 * PAGE_SIZE

  /** Above this the size computations of an allocation would wrap around. */
  const MAX_REQUEST: nat := WORD - 2 * PAGE_SIZE

  datatype Block = Block(addr: nat, size: nat, free: bool)

  /** `used` is the 64-bit statistics counter, not derived from the blocks. */
  datatype Heap = Heap(blocks: seq<Block>, total: nat, used: nat)

  function AlignUp(size: nat, alignment: nat): nat
    requires alignment > 0
  {
    var s := (size + alignment - 1) % WORD;
    s - s % alignment
  }

  function BlockEnd(b: Block): nat { b.addr + HEADER + b.size }

  // ---------------------------------------------------------------- operations

  function FirstFit(bs: seq<Block>, size: nat, i: nat): (r: nat)
    requires i <= |bs|
    ensures i <= r <= |bs|
    ensures r < |bs| ==> bs[r].free && bs[r].size >= size
    ensures forall j :: i <= j < r ==> !(bs[j].free && bs[j].size >= size)
    decreases |bs| - i
  {
    if i == |bs| || (bs[i].free && bs[i].size >= size) then i else FirstFit(bs, size, i + 1)
  }

  /** A block cut after `size` bytes: the front part, and a free block from the rest. */
  function Pieces(b: Block, size: nat): seq<Block>
    requires b.size >= size + HEADER
  {
    [b.(size := size), Block(b.addr + HEADER + size, b.size - size - HEADER, true)]
  }

  /** Cut block `i` to `size` bytes if the rest is big enough to be a block. */
  function Split(bs: seq<Block>, i: nat, size: nat): seq<Block>
    requires i < |bs|
  {
    if bs[i].size >= size + HEADER + MIN_BLOCK then bs[..i] + Pieces(bs[i], size) + bs[i + 1..] else bs
  }

  /** Hand block `i` out for `size` bytes. */
  function Occupy(h: Heap, i: nat, size: nat): Heap
    requires i < |h.blocks|
  {
    var bs := Split(h.blocks, i, size);
    h.(blocks := bs[i := bs[i].(free := false)], used := (h.used + size + HEADER) % WORD)
  }

  function Merged(a: Block, b: Block): Block { a.(size := a.size + HEADER + b.size) }

  /** Block `i` takes over its successor if that is free. */
  function MergeNext(bs: seq<Block>, i: nat): seq<Block>
    requires i < |bs|
  {
    if i + 1 < |bs| && bs[i + 1].free then
      bs[..i] + [Merged(bs[i], bs[i + 1])] + bs[i + 2..]
    else bs
  }

  function Coalesce(bs: seq<Block>, i: nat): seq<Block>
    requires i < |bs| && bs[i].free
  {
    var bs' := MergeNext(bs, i);
    if i > 0 && bs'[i - 1].free then MergeNext(bs', i - 1) else bs'
  }

  function ExpandSize(min: nat): nat {
    if min > EXPAND then AlignUp(min, PAGE_SIZE) else EXPAND
  }

  /** The frames one expansion draws. */
  function Grow(f: FrameMap, min: nat): (FrameMap, seq<nat>) {
    Draw(f, ExpandSize(min) / PAGE_SIZE)
  }

  predicate Complete(pages: seq<nat>, min: nat) {
    |pages| > 0 && |pages| == ExpandSize(min) / PAGE_SIZE
  }

  /** A new free block at the end of the list; its address is taken on trust. */
  function AppendMemory(h: Heap, addr: nat, expandSize: nat): Heap
    requires expandSize >= HEADER
  {
    h.(blocks := h.blocks + [Block(addr, expandSize - HEADER, true)], total := h.total + expandSize)
  }

  function Append(h: Heap, addr: nat, min: nat): Heap
    requires ExpandSize(min) >= HEADER
  {
    AppendMemory(h, addr, ExpandSize(min))
  }

  /** The first block that fits, or the memory of an expansion. */
  function Allocate(h: Heap, f: FrameMap, size: nat): (Heap, FrameMap, nat)
    requires size + HEADER <= WORD - PAGE_SIZE
  {
    var i := FirstFit(h.blocks, size, 0);
    if i < |h.blocks| then (Occupy(h, i, size), f, h.blocks[i].addr + HEADER) else
    var (f', pages) := Grow(f, size + HEADER);
    if !Complete(pages, size + HEADER) then (h, f', 0) else
    (Occupy(Append(h, pages[0], size + HEADER), i, size), f', pages[0] + HEADER)
  }

  function Kmalloc(h: Heap, f: FrameMap, request: nat): (Heap, FrameMap, nat)
    requires request <= MAX_REQUEST
  {
    if request == 0 then (h, f, 0) else Allocate(h, f, AlignUp(request, 8))
  }

  function IndexOf(bs: seq<Block>, addr: nat, i: nat): (r: nat)
    requires i <= |bs|
    ensures i <= r <= |bs|
    ensures r < |bs| ==> bs[r].addr == addr
    ensures forall j :: i <= j < r ==> bs[j].addr != addr
    decreases |bs| - i
  {
    if i == |bs| || bs[i].addr == addr then i else IndexOf(bs, addr, i + 1)
  }

  function Freed(bs: seq<Block>, i: nat): (r: seq<Block>)
    requires i < |bs|
    ensures |r| == |bs| && r[i] == bs[i].(free := true)
  {
    bs[i := bs[i].(free := true)]
  }

  function Release(h: Heap, i: nat): Heap
    requires i < |h.blocks|
  {
    h.(blocks := Coalesce(Freed(h.blocks, i), i), used := (h.used - h.blocks[i].size - HEADER) % WORD)
  }

  predicate IsBlock(h: Heap, ptr: nat) {
    ptr >= HEADER && IndexOf(h.blocks, ptr - HEADER, 0) < |h.blocks|
  }

  /** Freeing null or a block that is already free changes nothing. */
  function Kfree(h: Heap, ptr: nat): Heap
    requires ptr == 0 || IsBlock(h, ptr)
  {
    if ptr == 0 then h else
    var i := IndexOf(h.blocks, ptr - HEADER, 0);
    if h.blocks[i].free then h else Release(h, i)
  }

  // ---------------------------------------------------------------- the invariant

  ghost predicate NoAdjacentFree(bs: seq<Block>) {
    forall i :: 0 <= i < |bs| - 1 ==> !(bs[i].free && bs[i + 1].free)
  }

  ghost predicate SizesAligned(bs: seq<Block>) {
    forall i :: 0 <= i < |bs| ==> bs[i].size % 8 == 0
  }

  /** Bytes covered by the blocks, headers included; of the used ones only unless `all`. */
  function Covered(bs: seq<Block>, all: bool): nat {
    if bs == [] then 0 else
    Covered(bs[..|bs| - 1], all) + if bs[|bs| - 1].free && !all then 0 else bs[|bs| - 1].size + HEADER
  }

  /** Free space is in maximal blocks, and the blocks add up to the size of the heap. */
  ghost predicate ListInv(h: Heap) {
    NoAdjacentFree(h.blocks) && SizesAligned(h.blocks) && Covered(h.blocks, true) == h.total
  }

  predicate Before(bs: seq<Block>, i: nat, j: nat)
    requires i < |bs| && j < |bs|
  {
    BlockEnd(bs[i]) <= bs[j].addr
  }

  /** List order is address order, and no two blocks share a byte.  There may be gaps. */
  ghost predicate Ordered(bs: seq<Block>) {
    forall i, j {:trigger Before(bs, i, j)} :: 0 <= i < j < |bs| ==> Before(bs, i, j)
  }

  ghost predicate AddressesAligned(bs: seq<Block>) {
    forall i :: 0 <= i < |bs| ==> bs[i].addr > 0 && bs[i].addr % 8 == 0
  }

  function Start(bs: seq<Block>): nat { if bs == [] then 0 else bs[0].addr }

  function End(bs: seq<Block>): nat { if bs == [] then 0 else BlockEnd(bs[|bs| - 1]) }

  ghost predicate Inv(h: Heap, f: FrameMap) {
    Frames.Valid(f) && ListInv(h) && Ordered(h.blocks) && AddressesAligned(h.blocks)
  }

  /** If the next expansion finds its frames at all, the first of them lies behind the
      heap.  Nothing is said of the others. */
  predicate GrowsBehind(h: Heap, f: FrameMap, min: nat) {
    var pages := Grow(f, min).1;
    Complete(pages, min) ==> h.blocks == [] || pages[0] >= End(h.blocks)
  }

  /** An allocation either fits or finds its new memory behind the heap. */
  predicate MayAllocate(h: Heap, f: FrameMap, size: nat) {
    FirstFit(h.blocks, size, 0) == |h.blocks| ==> GrowsBehind(h, f, size + HEADER)
  }

  /** What a `kmalloc` needs of the frame allocator for the blocks to stay apart. */
  predicate MayMalloc(h: Heap, f: FrameMap, request: nat) {
    request <= MAX_REQUEST && (request > 0 ==> MayAllocate(h, f, AlignUp(request, 8)))
  }

  /** The blocks handed out. */
  function Live(bs: seq<Block>): set<Block> {
    set b | b in bs && !b.free
  }
}
