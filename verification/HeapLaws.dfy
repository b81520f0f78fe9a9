/** What the heap operations promise about the list of blocks. */
module HeapLaws {
  import opened Frames
  import opened Words
  import opened HeapSpec

  // ---------------------------------------------------------------- sizes

  /** Rounding up reaches the request exactly when the sum does not wrap around. */
  lemma AlignUpMeaning(size: nat, alignment: nat)
    requires alignment in {8, PAGE_SIZE} && size < WORD
    ensures AlignUp(size, alignment) % alignment == 0
    ensures AlignUp(size, alignment) >= size <==> size <= WORD - alignment
    ensures size <= WORD - alignment ==> AlignUp(size, alignment) < size + alignment
  {
    if size + alignment - 1 >= WORD {
      assert (size + alignment - 1) % WORD == size + alignment - 1 - WORD;
    }
  }

  /** An expansion is 16 KB, or whole pages just enough if that is too little. */
  lemma ExpandSizeMeaning(min: nat)
    requires min <= WORD - PAGE_SIZE
    ensures ExpandSize(min) % 4096 == 0 && ExpandSize(min) >= 16384
    ensures if min <= 16384 then ExpandSize(min) == 16384 else min <= ExpandSize(min) < min + 4096
  {
    AlignUpMeaning(min, PAGE_SIZE);
  }

  lemma {:induction false} CoveredConcat(a: seq<Block>, b: seq<Block>, all: bool)
    ensures Covered(a + b, all) == Covered(a, all) + Covered(b, all)
    decreases |b|
  {
    if b == [] {
      assert a + b == a;
    } else {
      CoveredConcat(a, b[..|b| - 1], all);
      assert (a + b)[..|a + b| - 1] == a + b[..|b| - 1];
    }
  }

  lemma CoveredSmall(a: Block, b: Block, all: bool)
    ensures Covered([a], all) == if a.free && !all then 0 else a.size + HEADER
    ensures Covered([a, b], all) == Covered([a], all) + Covered([b], all)
  {
    assert [a][..0] == [];
    assert [a, b] == [a] + [b];
    CoveredConcat([a], [b], all);
  }

  /** A list with the stretch `i .. i + n` replaced. */
  lemma CoveredReplace(bs: seq<Block>, i: nat, n: nat, new_: seq<Block>, all: bool)
    requires i + n <= |bs|
    ensures Covered(bs[..i] + new_ + bs[i + n..], all) == Covered(bs, all) - Covered(bs[i..i + n], all) + Covered(new_, all)
  {
    assert bs == bs[..i] + bs[i..i + n] + bs[i + n..];
    CoveredConcat(bs[..i] + new_, bs[i + n..], all);
    CoveredConcat(bs[..i], new_, all);
    CoveredConcat(bs[..i] + bs[i..i + n], bs[i + n..], all);
    CoveredConcat(bs[..i], bs[i..i + n], all);
  }

  lemma CoveredSetFree(bs: seq<Block>, i: nat, free: bool, all: bool)
    requires i < |bs| && bs[i].free != free
    ensures Covered(bs[i := bs[i].(free := free)], all)
         == Covered(bs, all) + if all then 0 else if free then -(bs[i].size + HEADER) else bs[i].size + HEADER
  {
    var b := bs[i].(free := free);
    CoveredReplace(bs, i, 1, [b], all);
    assert bs[i := b] == bs[..i] + [b] + bs[i + 1..];
    assert bs[i..i + 1] == [bs[i]];
    CoveredSmall(b, b, all);
    CoveredSmall(bs[i], b, all);
  }

  lemma CoveredSplit(bs: seq<Block>, i: nat, size: nat, all: bool)
    requires i < |bs| && bs[i].free
    ensures Covered(Split(bs, i, size), all) == Covered(bs, all)
  {
    if bs[i].size >= size + HEADER + MIN_BLOCK {
      var ps := Pieces(bs[i], size);
      CoveredReplace(bs, i, 1, ps, all);
      assert bs[i..i + 1] == [bs[i]];
      assert ps == [ps[0], ps[1]];
      CoveredSmall(ps[0], ps[1], all);
      CoveredSmall(ps[1], ps[1], all);
      CoveredSmall(bs[i], bs[i], all);
    }
  }

  lemma CoveredMerge(bs: seq<Block>, i: nat, all: bool)
    requires i < |bs| && bs[i].free
    ensures Covered(MergeNext(bs, i), all) == Covered(bs, all)
  {
    if i + 1 < |bs| && bs[i + 1].free {
      var a := Merged(bs[i], bs[i + 1]);
      CoveredReplace(bs, i, 2, [a], all);
      assert bs[i..i + 2] == [bs[i], bs[i + 1]];
      CoveredSmall(bs[i], bs[i + 1], all);
      CoveredSmall(bs[i + 1], a, all);
      CoveredSmall(a, a, all);
    }
  }

  lemma CoveredCoalesce(bs: seq<Block>, i: nat, all: bool)
    requires i < |bs| && bs[i].free
    ensures Covered(Coalesce(bs, i), all) == Covered(bs, all)
  {
    CoveredMerge(bs, i, all);
    var bs1 := MergeNext(bs, i);
    if i > 0 && bs1[i - 1].free {
      CoveredMerge(bs1, i - 1, all);
    }
  }

  // ---------------------------------------------------------------- addresses

  lemma Apart(bs: seq<Block>, i: nat, j: nat)
    requires Ordered(bs) && i < j < |bs|
    ensures BlockEnd(bs[i]) <= bs[j].addr
  {
    assert Before(bs, i, j);
  }

  lemma IndexOfAddress(bs: seq<Block>, i: nat)
    requires Ordered(bs) && i < |bs|
    ensures IndexOf(bs, bs[i].addr, 0) == i
  {
    var r := IndexOf(bs, bs[i].addr, 0);
    if r < i {
      Apart(bs, r, i);
    }
  }

  lemma EndsLast(bs: seq<Block>, i: nat)
    requires Ordered(bs) && i < |bs|
    ensures BlockEnd(bs[i]) <= End(bs)
  {
    if i < |bs| - 1 {
      Apart(bs, i, |bs| - 1);
    }
  }

  lemma EightsAdd(a: nat, b: nat)
    requires a % 8 == 0 && b % 8 == 0
    ensures (a + HEADER + b) % 8 == 0
  {
  }

  lemma PagesAreEights(a: nat)
    requires a % PAGE_SIZE == 0
    ensures a % 8 == 0
  {
    var k := a / PAGE_SIZE;
    assert a == 8 * (512 * k);
  }

  lemma EightsMinusHeader(a: nat)
    requires a % 8 == 0
    ensures (a - HEADER) % 8 == 0
  {
    var k := a / 8;
    assert a - HEADER == 8 * (k - 4);
  }

  /** Appending keeps list order and address order the same exactly behind the end. */
  lemma OrderedOnlyBehind(h: Heap, addr: nat, min: nat)
    requires Ordered(h.blocks) && ExpandSize(min) >= HEADER
    ensures Ordered(Append(h, addr, min).blocks) <==> h.blocks == [] || addr >= End(h.blocks)
  {
    var n, bs := |h.blocks|, Append(h, addr, min).blocks;
    forall i, j | 0 <= i < j < |bs| && (h.blocks == [] || addr >= End(h.blocks)) ensures Before(bs, i, j) {
      if j < n {
        Apart(h.blocks, i, j);
      } else {
        EndsLast(h.blocks, i);
      }
    }
    if Ordered(bs) && n > 0 {
      Apart(bs, n - 1, n);
      assert bs[n - 1] == h.blocks[n - 1];
    }
  }

  // ---------------------------------------------------------------- splitting

  ghost predicate CanOccupy(bs: seq<Block>, i: nat, size: nat) {
    i < |bs| && bs[i].free && bs[i].size >= size
  }

  lemma SplitKeepsOrder(bs: seq<Block>, i: nat, size: nat)
    requires Ordered(bs) && i < |bs|
    ensures Ordered(Split(bs, i, size))
  {
    var bs' := Split(bs, i, size);
    if |bs'| > |bs| {
      forall j, k | 0 <= j < k < |bs'| ensures Before(bs', j, k) {
        var j0, k0 := if j > i then j - 1 else j, if k > i then k - 1 else k;
        assert j != i && j != i + 1 ==> bs'[j] == bs[j0];
        assert k != i && k != i + 1 ==> bs'[k] == bs[k0];
        if j0 < k0 {
          Apart(bs, j0, k0);
        }
      }
    }
  }

  lemma SplitKeepsAddresses(bs: seq<Block>, i: nat, size: nat)
    requires AddressesAligned(bs) && i < |bs| && size % 8 == 0
    ensures AddressesAligned(Split(bs, i, size))
  {
    var bs' := Split(bs, i, size);
    if |bs'| > |bs| {
      EightsAdd(bs[i].addr, size);
      forall j | 0 <= j < |bs'| ensures bs'[j].addr > 0 && bs'[j].addr % 8 == 0 {
        if j > i + 1 {
          assert bs'[j] == bs[j - 1];
        }
      }
    }
  }

  lemma SetFreeKeepsOrder(bs: seq<Block>, i: nat, free: bool)
    requires Ordered(bs) && i < |bs|
    ensures Ordered(bs[i := bs[i].(free := free)])
  {
    var bs' := bs[i := bs[i].(free := free)];
    forall j, k | 0 <= j < k < |bs'| ensures Before(bs', j, k) {
      Apart(bs, j, k);
    }
  }

  /** The size handed out for a request of `size` from a block of `available` bytes. */
  function Given(available: nat, size: nat): nat {
    if available >= size + HEADER + MIN_BLOCK then size else available
  }

  predicate IsSlack(x: int) { 0 <= x <= 40 && x % 8 == 0 }

  lemma GivenSlack(available: nat, size: nat)
    requires available >= size && available % 8 == 0 && size % 8 == 0
    ensures size <= Given(available, size) && IsSlack(Given(available, size) - size)
  {
  }

  /** The list after block `i` is handed out for `size` bytes. */
  function Occupied(bs: seq<Block>, i: nat, size: nat): (r: seq<Block>)
    requires i < |bs|
    ensures i < |r| && r[i] == Block(bs[i].addr, Given(bs[i].size, size), false)
  {
    var bs' := Split(bs, i, size);
    bs'[i := bs'[i].(free := false)]
  }

  /** Two free neighbours may exist only in front of block `i`. */
  ghost predicate CanonicalBut(bs: seq<Block>, i: nat) {
    forall j :: 0 <= j < |bs| - 1 && j + 1 != i ==> !(bs[j].free && bs[j + 1].free)
  }

  lemma OccupyKeepsCanonical(bs: seq<Block>, i: nat, size: nat)
    requires CanOccupy(bs, i, size) && CanonicalBut(bs, i)
    ensures NoAdjacentFree(Occupied(bs, i, size))
  {
    var bs' := Occupied(bs, i, size);
    forall j | 0 <= j < |bs'| - 1 ensures !(bs'[j].free && bs'[j + 1].free) {
      if |bs'| > |bs| && j > i {
        assert j > i + 1 ==> bs'[j] == bs[j - 1];
        assert bs'[j + 1] == bs[j];
      }
    }
  }

  lemma OccupyKeepsSizes(bs: seq<Block>, i: nat, size: nat)
    requires SizesAligned(bs) && CanOccupy(bs, i, size) && size % 8 == 0
    ensures SizesAligned(Occupied(bs, i, size))
  {
    var bs' := Occupied(bs, i, size);
    forall j | 0 <= j < |bs'| ensures bs'[j].size % 8 == 0 {
      if |bs'| > |bs| && j > i + 1 {
        assert bs'[j] == bs[j - 1];
      }
    }
  }

  lemma OccupyLiveStays(bs: seq<Block>, i: nat, size: nat, b: Block)
    requires CanOccupy(bs, i, size) && b in Live(bs)
    ensures b in Live(Occupied(bs, i, size))
  {
    var bs' := Occupied(bs, i, size);
    var j :| 0 <= j < |bs| && bs[j] == b;
    assert bs'[if |bs'| > |bs| && j > i then j + 1 else j] == b;
  }

  lemma OccupyLiveNew(bs: seq<Block>, i: nat, size: nat, b: Block)
    requires CanOccupy(bs, i, size) && b in Live(Occupied(bs, i, size))
    ensures b in Live(bs) || b == Occupied(bs, i, size)[i]
  {
    var bs' := Occupied(bs, i, size);
    var j :| 0 <= j < |bs'| && bs'[j] == b;
    if j != i {
      assert bs[if |bs'| > |bs| && j > i then j - 1 else j] == b;
    }
  }

  /** The block handed out is the only change to the set of live blocks. */
  lemma OccupyLive(bs: seq<Block>, i: nat, size: nat)
    requires CanOccupy(bs, i, size)
    ensures var bs' := Occupied(bs, i, size); Live(bs') == Live(bs) + {bs'[i]}
  {
    var bs' := Occupied(bs, i, size);
    forall b | b in Live(bs) ensures b in Live(bs') {
      OccupyLiveStays(bs, i, size, b);
    }
    forall b | b in Live(bs') ensures b in Live(bs) + {bs'[i]} {
      OccupyLiveNew(bs, i, size, b);
    }
  }

  lemma OccupyCovered(bs: seq<Block>, i: nat, size: nat, all: bool)
    requires CanOccupy(bs, i, size)
    ensures Covered(Occupied(bs, i, size), all) == Covered(bs, all) + if all then 0 else Given(bs[i].size, size) + HEADER
  {
    CoveredSplit(bs, i, size, all);
    CoveredSetFree(Split(bs, i, size), i, false, all);
  }

  // ---------------------------------------------------------------- merging

  /** A merge may claim a gap, never a byte of another block. */
  lemma MergeKeepsOrder(bs: seq<Block>, i: nat)
    requires Ordered(bs) && i < |bs|
    ensures Ordered(MergeNext(bs, i))
  {
    var bs' := MergeNext(bs, i);
    if |bs'| < |bs| {
      Apart(bs, i, i + 1);
      forall j, k | 0 <= j < k < |bs'| ensures Before(bs', j, k) {
        var k0 := if k > i then k + 1 else k;
        assert k != i ==> bs'[k] == bs[k0];
        assert j > i ==> bs'[j] == bs[j + 1];
        Apart(bs, if j >= i then j + 1 else j, k0);
      }
    }
  }

  lemma MergeKeepsAddresses(bs: seq<Block>, i: nat)
    requires AddressesAligned(bs) && i < |bs|
    ensures AddressesAligned(MergeNext(bs, i)) && MergeNext(bs, i) != [] && Start(MergeNext(bs, i)) == Start(bs)
  {
    var bs' := MergeNext(bs, i);
    if |bs'| < |bs| {
      forall j | 0 <= j < |bs'| ensures bs'[j].addr > 0 && bs'[j].addr % 8 == 0 {
        if j > i {
          assert bs'[j] == bs[j + 1];
        }
      }
    }
  }

  lemma CoalesceKeepsOrder(bs: seq<Block>, i: nat)
    requires Ordered(bs) && AddressesAligned(bs) && i < |bs| && bs[i].free
    ensures var bs' := Coalesce(bs, i); Ordered(bs') && AddressesAligned(bs') && bs' != [] && Start(bs') == Start(bs)
  {
    MergeKeepsOrder(bs, i);
    MergeKeepsAddresses(bs, i);
    var bs1 := MergeNext(bs, i);
    if i > 0 && bs1[i - 1].free {
      MergeKeepsOrder(bs1, i - 1);
      MergeKeepsAddresses(bs1, i - 1);
    }
  }

  lemma MergeKeepsSizes(bs: seq<Block>, i: nat)
    requires SizesAligned(bs) && i < |bs|
    ensures SizesAligned(MergeNext(bs, i))
  {
    var bs' := MergeNext(bs, i);
    if i + 1 < |bs| && bs[i + 1].free {
      forall j | 0 <= j < |bs'| ensures bs'[j].size % 8 == 0 {
        if j > i {
          assert bs'[j] == bs[j + 1];
        }
      }
    }
  }

  lemma MergeLive(bs: seq<Block>, i: nat)
    requires i < |bs| && bs[i].free
    ensures Live(MergeNext(bs, i)) == Live(bs)
  {
    var bs' := MergeNext(bs, i);
    if i + 1 < |bs| && bs[i + 1].free {
      forall b | b in Live(bs) ensures b in Live(bs') {
        var j :| 0 <= j < |bs| && bs[j] == b;
        assert bs'[if j > i + 1 then j - 1 else j] == b;
      }
      forall b | b in Live(bs') ensures b in Live(bs) {
        var j :| 0 <= j < |bs'| && bs'[j] == b;
        assert bs[if j > i then j + 1 else j] == b;
      }
    }
  }

  lemma CoalesceLive(bs: seq<Block>, i: nat)
    requires i < |bs| && bs[i].free
    ensures Live(Coalesce(bs, i)) == Live(bs)
  {
    MergeLive(bs, i);
    var bs1 := MergeNext(bs, i);
    if i > 0 && bs1[i - 1].free {
      MergeLive(bs1, i - 1);
    }
  }

  /** After a block is freed, the only free neighbours are itself and those next to it;
      merging both ways leaves none. */
  lemma CoalesceKeepsCanonical(bs: seq<Block>, i: nat)
    requires i < |bs| && bs[i].free
    requires forall j :: 0 <= j < |bs| - 1 && j != i && j + 1 != i ==> !(bs[j].free && bs[j + 1].free)
    ensures NoAdjacentFree(Coalesce(bs, i))
  {
    var bs1 := MergeNext(bs, i);
    var bs2 := Coalesce(bs, i);
    var cut := |bs| - |bs1|;
    forall j | 0 <= j < |bs1| - 1 && j + 1 != i ensures !(bs1[j].free && bs1[j + 1].free) {
      if j >= i {
        assert bs1[j + 1] == bs[j + 1 + cut];
        assert j > i ==> bs1[j] == bs[j + cut];
      }
    }
    if |bs2| < |bs1| {
      forall j | 0 <= j < |bs2| - 1 ensures !(bs2[j].free && bs2[j + 1].free) {
        if j >= i - 1 {
          assert bs2[j + 1] == bs1[j + 2];
          assert j > i - 1 ==> bs2[j] == bs1[j + 1];
        }
      }
    }
  }

  // ---------------------------------------------------------------- the list

  lemma OccupyKeepsList(h: Heap, i: nat, size: nat)
    requires CanOccupy(h.blocks, i, size) && CanonicalBut(h.blocks, i) && SizesAligned(h.blocks) && size % 8 == 0
    requires Covered(h.blocks, true) == h.total
    ensures ListInv(Occupy(h, i, size))
  {
    var h' := Occupy(h, i, size);
    OccupyKeepsCanonical(h.blocks, i, size);
    OccupyKeepsSizes(h.blocks, i, size);
    OccupyCovered(h.blocks, i, size, true);
    assert h'.blocks == Occupied(h.blocks, i, size) && h'.total == h.total;
  }

  lemma AppendCovered(h: Heap, addr: nat, min: nat)
    requires Covered(h.blocks, true) == h.total && ExpandSize(min) >= HEADER
    ensures Covered(Append(h, addr, min).blocks, true) == Append(h, addr, min).total
  {
    var b := Block(addr, ExpandSize(min) - HEADER, true);
    CoveredConcat(h.blocks, [b], true);
    CoveredSmall(b, b, true);
  }

  lemma AppendSizes(h: Heap, addr: nat, min: nat)
    requires SizesAligned(h.blocks) && ExpandSize(min) >= HEADER && ExpandSize(min) % PAGE_SIZE == 0
    ensures SizesAligned(Append(h, addr, min).blocks)
  {
    PagesAreEights(ExpandSize(min));
    EightsMinusHeader(ExpandSize(min));
  }

  lemma AppendCanonical(h: Heap, addr: nat, min: nat)
    requires NoAdjacentFree(h.blocks) && ExpandSize(min) >= HEADER
    ensures CanonicalBut(Append(h, addr, min).blocks, |h.blocks|)
  {
    var bs := Append(h, addr, min).blocks;
    forall j | 0 <= j < |bs| - 1 && j + 1 != |h.blocks| ensures !(bs[j].free && bs[j + 1].free) {
      assert bs[j] == h.blocks[j] && bs[j + 1] == h.blocks[j + 1];
    }
  }

  lemma AppendLive(h: Heap, addr: nat, min: nat)
    requires ExpandSize(min) >= HEADER
    ensures Live(Append(h, addr, min).blocks) == Live(h.blocks)
  {
  }

  lemma AppendKeepsList(h: Heap, addr: nat, min: nat)
    requires ListInv(h) && min <= WORD - PAGE_SIZE
    ensures ExpandSize(min) >= HEADER
    ensures var h' := Append(h, addr, min);
            CanonicalBut(h'.blocks, |h.blocks|) && SizesAligned(h'.blocks) && Covered(h'.blocks, true) == h'.total
            && Live(h'.blocks) == Live(h.blocks)
  {
    ExpandSizeMeaning(min);
    AppendCovered(h, addr, min);
    AppendSizes(h, addr, min);
    AppendCanonical(h, addr, min);
    AppendLive(h, addr, min);
  }

  lemma ReleaseKeepsList(h: Heap, i: nat)
    requires ListInv(h) && i < |h.blocks| && !h.blocks[i].free
    ensures ListInv(Release(h, i))
  {
    var bs := Freed(h.blocks, i);
    CoalesceKeepsCanonical(bs, i);
    MergeKeepsSizes(bs, i);
    var bs1 := MergeNext(bs, i);
    if i > 0 && bs1[i - 1].free {
      MergeKeepsSizes(bs1, i - 1);
    }
    CoveredSetFree(h.blocks, i, true, true);
    CoveredCoalesce(bs, i, true);
  }

  lemma GrowKeepsList(h: Heap, h1: Heap, addr: nat, size: nat)
    requires ListInv(h) && size % 8 == 0 && size + HEADER <= WORD - PAGE_SIZE && ExpandSize(size + HEADER) >= HEADER
    requires h1 == Append(h, addr, size + HEADER)
    ensures ListInv(Occupy(h1, |h.blocks|, size))
  {
    ExpandSizeMeaning(size + HEADER);
    AppendKeepsList(h, addr, size + HEADER);
    OccupyKeepsList(h1, |h.blocks|, size);
  }

  /** The arithmetic of the list alone.  That memory holds this list is another matter when
      new memory lies before the end; see `HeapOverlap`. */
  lemma AllocateKeepsList(h: Heap, f: FrameMap, size: nat)
    requires ListInv(h) && size % 8 == 0 && size + HEADER <= WORD - PAGE_SIZE
    ensures ListInv(Allocate(h, f, size).0)
  {
    var i := FirstFit(h.blocks, size, 0);
    if i < |h.blocks| {
      OccupyKeepsList(h, i, size);
    } else {
      var pages := Grow(f, size + HEADER).1;
      if Complete(pages, size + HEADER) {
        ExpandSizeMeaning(size + HEADER);
        GrowKeepsList(h, Append(h, pages[0], size + HEADER), pages[0], size);
      }
    }
  }

  lemma KfreeKeepsList(h: Heap, ptr: nat)
    requires ListInv(h) && (ptr == 0 || IsBlock(h, ptr))
    ensures ListInv(Kfree(h, ptr))
  {
    if ptr != 0 {
      var i := IndexOf(h.blocks, ptr - HEADER, 0);
      if !h.blocks[i].free {
        ReleaseKeepsList(h, i);
      }
    }
  }

  // ---------------------------------------------------------------- kmalloc

  ghost predicate CanAppend(h: Heap, addr: nat, min: nat) {
    && min <= WORD - PAGE_SIZE && addr > 0 && addr % PAGE_SIZE == 0
    && (h.blocks == [] || addr >= End(h.blocks))
  }

  lemma GrowMeaning(h: Heap, f: FrameMap, min: nat)
    requires Frames.Valid(f) && min <= WORD - PAGE_SIZE && GrowsBehind(h, f, min)
    ensures var (f', pages) := Grow(f, min);
            && Frames.Valid(f') && f.used <= f'.used && f'.total == f.total
            && (Complete(pages, min) ==> CanAppend(h, pages[0], min))
  {
    DrawMeaning(f, ExpandSize(min) / PAGE_SIZE);
    var pages := Grow(f, min).1;
    if Complete(pages, min) {
      assert pages[0] in pages;
    }
  }

  lemma AppendLaid(h: Heap, addr: nat, min: nat)
    requires Ordered(h.blocks) && AddressesAligned(h.blocks) && CanAppend(h, addr, min)
    ensures ExpandSize(min) >= HEADER
    ensures var bs := Append(h, addr, min).blocks; Ordered(bs) && AddressesAligned(bs)
  {
    ExpandSizeMeaning(min);
    OrderedOnlyBehind(h, addr, min);
    PagesAreEights(addr);
  }

  lemma OccupyLaid(bs: seq<Block>, i: nat, size: nat)
    requires Ordered(bs) && AddressesAligned(bs) && i < |bs| && size % 8 == 0
    ensures Ordered(Occupied(bs, i, size)) && AddressesAligned(Occupied(bs, i, size))
  {
    SplitKeepsOrder(bs, i, size);
    SplitKeepsAddresses(bs, i, size);
    SetFreeKeepsOrder(Split(bs, i, size), i, false);
  }

  /** The block behind a pointer. */
  function BlockAt(h: Heap, ptr: nat): Block
    requires IsBlock(h, ptr)
  {
    h.blocks[IndexOf(h.blocks, ptr - HEADER, 0)]
  }

  /** The answer to a request: an aligned block that was not live, big enough but by
      at most 40 bytes too big, as the only change to the set of live blocks. */
  ghost predicate Served(bs: seq<Block>, h': Heap, p: nat, size: nat) {
    && p % 8 == 0 && IsBlock(h', p)
    && var b := BlockAt(h', p);
    && !b.free && b.addr + HEADER == p && b !in Live(bs)
    && Live(h'.blocks) == Live(bs) + {b}
    && IsSlack(b.size - size)
  }

  lemma OccupyServes(h: Heap, i: nat, size: nat)
    requires Ordered(h.blocks) && AddressesAligned(h.blocks) && SizesAligned(h.blocks)
    requires CanOccupy(h.blocks, i, size) && size % 8 == 0
    ensures Served(h.blocks, Occupy(h, i, size), h.blocks[i].addr + HEADER, size)
  {
    var h' := Occupy(h, i, size);
    OccupyLaid(h.blocks, i, size);
    OccupyLive(h.blocks, i, size);
    IndexOfAddress(h'.blocks, i);
    assert BlockAt(h', h.blocks[i].addr + HEADER) == h'.blocks[i];
    GivenSlack(h.blocks[i].size, size);
    NotLive(h.blocks, i, h'.blocks[i]);
  }

  lemma NotLive(bs: seq<Block>, i: nat, b: Block)
    requires Ordered(bs) && i < |bs| && bs[i].free && b.addr == bs[i].addr && !b.free
    ensures b !in Live(bs)
  {
    if b in Live(bs) {
      var j :| 0 <= j < |bs| && bs[j] == b;
      IndexOfAddress(bs, j);
      IndexOfAddress(bs, i);
    }
  }

  lemma KmallocGrows(h: Heap, f: FrameMap, size: nat)
    requires Inv(h, f) && size % 8 == 0 && size + HEADER <= WORD - PAGE_SIZE && GrowsBehind(h, f, size + HEADER)
    requires Complete(Grow(f, size + HEADER).1, size + HEADER)
    ensures ExpandSize(size + HEADER) >= HEADER
    ensures var (f', pages) := Grow(f, size + HEADER);
            var h' := Occupy(Append(h, pages[0], size + HEADER), |h.blocks|, size);
            Ordered(h'.blocks) && AddressesAligned(h'.blocks) && Served(h.blocks, h', pages[0] + HEADER, size)
  {
    var min, i := size + HEADER, |h.blocks|;
    GrowMeaning(h, f, min);
    ExpandSizeMeaning(min);
    var pages := Grow(f, min).1;
    AppendKeepsList(h, pages[0], min);
    AppendLaid(h, pages[0], min);
    var h1 := Append(h, pages[0], min);
    OccupyLaid(h1.blocks, i, size);
    OccupyServes(h1, i, size);
  }

  lemma AllocateMeaning(h: Heap, f: FrameMap, size: nat)
    requires Inv(h, f) && size % 8 == 0 && size + HEADER <= WORD - PAGE_SIZE && MayAllocate(h, f, size)
    ensures var (h', f', p) := Allocate(h, f, size);
            && Inv(h', f') && f.used <= f'.used && f'.total == f.total
            && if p == 0 then h' == h else Served(h.blocks, h', p, size)
  {
    AllocateKeepsList(h, f, size);
    var i := FirstFit(h.blocks, size, 0);
    if i < |h.blocks| {
      OccupyLaid(h.blocks, i, size);
      OccupyServes(h, i, size);
    } else {
      GrowMeaning(h, f, size + HEADER);
      if Complete(Grow(f, size + HEADER).1, size + HEADER) {
        KmallocGrows(h, f, size);
      }
    }
  }

  /** `kmalloc` keeps the blocks apart and the heap well formed, whether or not it succeeds. */
  lemma KmallocMeaning(h: Heap, f: FrameMap, request: nat)
    requires Inv(h, f) && MayMalloc(h, f, request)
    ensures var (h', f', p) := Kmalloc(h, f, request);
            && Inv(h', f') && f.used <= f'.used && f'.total == f.total
            && if p == 0 then h' == h else Served(h.blocks, h', p, AlignUp(request, 8)) && AlignUp(request, 8) >= request > 0
  {
    if request > 0 {
      AlignUpMeaning(request, 8);
      AllocateMeaning(h, f, AlignUp(request, 8));
    }
  }

  // ---------------------------------------------------------------- when memory runs out

  /** The frames an expansion needs. */
  function PagesFor(min: nat): nat { ExpandSize(min) / PAGE_SIZE }

  /** An expansion finds its memory exactly if there are enough frames, and its address is
      then that of the lowest free one. */
  lemma GrowSucceeds(f: FrameMap, min: nat)
    requires Frames.Valid(f) && min <= WORD - PAGE_SIZE
    ensures var pages := Grow(f, min).1;
            && (Complete(pages, min) <==> Enough(f, PagesFor(min)))
            && (Complete(pages, min) ==> pages[0] == LowestFree(f, 0) * PAGE_SIZE)
  {
    ExpandSizeMeaning(min);
    DrawSucceeds(f, PagesFor(min));
    if Complete(Grow(f, min).1, min) {
      FirstDrawn(f, PagesFor(min));
    }
  }

  /** The condition under which blocks stay apart, in terms of the lowest free frame. */
  lemma GrowsBehindExactly(h: Heap, f: FrameMap, min: nat)
    requires Frames.Valid(f) && min <= WORD - PAGE_SIZE
    ensures GrowsBehind(h, f, min) <==>
            (Enough(f, PagesFor(min)) ==> h.blocks == [] || LowestFree(f, 0) * PAGE_SIZE >= End(h.blocks))
  {
    GrowSucceeds(f, min);
  }

  predicate CanServe(h: Heap, f: FrameMap, size: nat) {
    FirstFit(h.blocks, size, 0) < |h.blocks| || Enough(f, PagesFor(size + HEADER))
  }

  /** A request is served exactly if a block fits or there are frames enough for an expansion. */
  lemma KmallocSucceeds(h: Heap, f: FrameMap, request: nat)
    requires Frames.Valid(f) && request <= MAX_REQUEST
    ensures Kmalloc(h, f, request).2 != 0 <==> request > 0 && CanServe(h, f, AlignUp(request, 8))
    ensures request == 0 ==> Kmalloc(h, f, request) == (h, f, 0)
  {
    if request > 0 {
      AlignUpMeaning(request, 8);
      GrowSucceeds(f, AlignUp(request, 8) + HEADER);
    }
  }

  /** A request that fails leaves the blocks alone, but it costs frame 0 if that was free and
      otherwise every free frame there was; it costs nothing exactly if none was free. */
  lemma KmallocFails(h: Heap, f: FrameMap, request: nat)
    requires Frames.Valid(f) && 0 < request <= MAX_REQUEST && Kmalloc(h, f, request).2 == 0
    ensures var (h', f', _) := Kmalloc(h, f, request);
            h' == h && Spent(f, f') && (f' == f <==> AllUsed(f))
  {
    var size := AlignUp(request, 8);
    AlignUpMeaning(request, 8);
    GrowSucceeds(f, size + HEADER);
    DrawFails(f, PagesFor(size + HEADER));
    FailureCosts(f, PagesFor(size + HEADER));
  }

  // ---------------------------------------------------------------- kfree

  lemma FreedLive(bs: seq<Block>, i: nat)
    requires Ordered(bs) && i < |bs| && !bs[i].free
    ensures Live(bs[i := bs[i].(free := true)]) == Live(bs) - {bs[i]}
  {
    var bs' := bs[i := bs[i].(free := true)];
    forall b | b in Live(bs) - {bs[i]} ensures b in Live(bs') {
      var j :| 0 <= j < |bs| && bs[j] == b;
      assert bs'[j] == b;
    }
    forall b | b in Live(bs') ensures b in Live(bs) - {bs[i]} {
      var j :| 0 <= j < |bs'| && bs'[j] == b;
      assert bs[j] == b;
      IndexOfAddress(bs, j);
      IndexOfAddress(bs, i);
    }
  }

  ghost predicate SameStart(bs: seq<Block>, bs': seq<Block>) {
    (bs == [] <==> bs' == []) && Start(bs') == Start(bs)
  }

  /** `kfree` of a live block takes exactly that block out of the live ones and keeps
      the others apart; of a free one it changes nothing. */
  lemma KfreeMeaning(h: Heap, f: FrameMap, ptr: nat)
    requires Inv(h, f) && (ptr == 0 || IsBlock(h, ptr))
    ensures var h' := Kfree(h, ptr);
            && Inv(h', f) && SameStart(h.blocks, h'.blocks) && h'.total == h.total
            && if ptr == 0 || BlockAt(h, ptr).free then h' == h else Live(h'.blocks) == Live(h.blocks) - {BlockAt(h, ptr)}
  {
    KfreeKeepsList(h, ptr);
    if ptr != 0 && !BlockAt(h, ptr).free {
      var i := IndexOf(h.blocks, ptr - HEADER, 0);
      SetFreeKeepsOrder(h.blocks, i, true);
      CoalesceKeepsOrder(Freed(h.blocks, i), i);
      FreedLive(h.blocks, i);
      CoalesceLive(Freed(h.blocks, i), i);
    }
  }
}
