/** The whole new state after a `kmalloc` or a `kfree`, in bytes.  A header has 32 bytes, sizes are
    multiples of 8, a rest is split off from 32 + 16 bytes on, memory is added by 16 KB or more. */
module HeapExact {
  import opened Frames
  import opened Words
  import opened HeapSpec
  import opened HeapLaws

  /** `s` is the request rounded up to a multiple of 8. */
  predicate Rounded(request: nat, s: nat) { s % 8 == 0 && request <= s < request + 8 }

  /** `e` is 16 KB, or `min` rounded up to whole pages if that is more. */
  predicate Expansion(min: nat, e: nat) {
    if min > 16384 then e % 4096 == 0 && min <= e < min + 4096 else e == 16384
  }

  /** No free block among the first `n` has `s` bytes. */
  predicate NoneFits(bs: seq<Block>, s: nat, n: nat)
    requires n <= |bs|
  {
    forall j :: 0 <= j < n ==> !(bs[j].free && bs[j].size >= s)
  }

  lemma RoundedIs(request: nat, s: nat)
    requires request <= 0xFFFF_FFFF_FFFF_E000 && Rounded(request, s)
    ensures AlignUp(request, 8) == s && s + 32 <= WORD - PAGE_SIZE
  {
    AlignUpMeaning(request, 8);
    SameMultiple(AlignUp(request, 8), s, request);
  }

  lemma SameMultiple(a: nat, b: nat, n: nat)
    requires a % 8 == 0 && b % 8 == 0 && n <= a < n + 8 && n <= b < n + 8
    ensures a == b
  {
  }

  lemma ExpansionIs(min: nat, e: nat)
    requires min <= WORD - PAGE_SIZE && Expansion(min, e)
    ensures ExpandSize(min) == e && e % 4096 == 0
  {
    ExpandSizeMeaning(min);
    if min > 16384 {
      SamePages(ExpandSize(min), e, min);
    }
  }

  lemma SamePages(a: nat, b: nat, n: nat)
    requires a % 4096 == 0 && b % 4096 == 0 && n <= a < n + 4096 && n <= b < n + 4096
    ensures a == b
  {
  }

  lemma OccupyExactly(h: Heap, i: nat, s: nat)
    requires i < |h.blocks|
    ensures var b := h.blocks[i]; var h' := Occupy(h, i, s);
            && h'.blocks == h.blocks[..i]
                            + (if b.size >= s + 48 then [Block(b.addr, s, false), Block(b.addr + 32 + s, b.size - s - 32, true)]
                               else [Block(b.addr, b.size, false)])
                            + h.blocks[i + 1..]
            && h'.used == (h.used + s + 32) % 0x1_0000_0000_0000_0000 && h'.total == h.total
  {
  }

  /** A request takes the first free block it fits in: a block of `s + 48` bytes or more is
      handed out at exactly `s` bytes, and the rest, less a header, becomes a free block behind
      it; a smaller one is handed out whole. */
  lemma KmallocFits(h: Heap, f: FrameMap, request: nat, s: nat, i: nat)
    requires 0 < request <= 0xFFFF_FFFF_FFFF_E000 && Rounded(request, s)
    requires i < |h.blocks| && h.blocks[i].free && h.blocks[i].size >= s && NoneFits(h.blocks, s, i)
    ensures var b := h.blocks[i]; var (h', f', p) := Kmalloc(h, f, request);
            && p == b.addr + 32 && f' == f && h'.total == h.total
            && h'.used == (h.used + s + 32) % 0x1_0000_0000_0000_0000
            && h'.blocks == h.blocks[..i]
                            + (if b.size >= s + 48 then [Block(b.addr, s, false), Block(b.addr + 32 + s, b.size - s - 32, true)]
                               else [Block(b.addr, b.size, false)])
                            + h.blocks[i + 1..]
  {
    RoundedIs(request, s);
    assert FirstFit(h.blocks, s, 0) == i;
    OccupyExactly(h, i, s);
  }

  /** If it fits nowhere, `e` bytes of new memory go to the end of the list for it, if that
      many whole pages can be drawn, and are cut in the same way; else the heap is as it was. */
  lemma KmallocExpands(h: Heap, f: FrameMap, request: nat, s: nat, e: nat)
    requires 0 < request <= 0xFFFF_FFFF_FFFF_E000 && Rounded(request, s) && Expansion(s + 32, e) && NoneFits(h.blocks, s, |h.blocks|)
    ensures var (h', f', p) := Kmalloc(h, f, request);
            && f' == Draw(f, e / 4096).0
            && var pages := Draw(f, e / 4096).1;
            if |pages| < e / 4096 then p == 0 && h' == h else
            && |pages| == e / 4096 && p == pages[0] + 32 && h'.total == h.total + e
            && h'.used == (h.used + s + 32) % 0x1_0000_0000_0000_0000
            && h'.blocks == h.blocks
                            + (if e - 32 >= s + 48 then [Block(pages[0], s, false), Block(pages[0] + 32 + s, e - 32 - s - 32, true)]
                               else [Block(pages[0], e - 32, false)])
  {
    hide Split, Occupy, Draw, Append;
    RoundedIs(request, s);
    ExpansionIs(s + 32, e);
    assert FirstFit(h.blocks, s, 0) == |h.blocks|;
    DrawAtMost(f, e / 4096);
    var pages := Draw(f, e / 4096).1;
    if |pages| == e / 4096 {
      AppendExactly(h, pages[0], s, e);
    }
  }

  lemma AppendExactly(h: Heap, addr: nat, s: nat, e: nat)
    requires s + 32 <= WORD - PAGE_SIZE && Expansion(s + 32, e)
    ensures ExpandSize(s + 32) == e
    ensures var h' := Occupy(Append(h, addr, s + 32), |h.blocks|, s);
            && h'.total == h.total + e && h'.used == (h.used + s + 32) % 0x1_0000_0000_0000_0000
            && h'.blocks == h.blocks
                            + (if e - 32 >= s + 48 then [Block(addr, s, false), Block(addr + 32 + s, e - 32 - s - 32, true)]
                               else [Block(addr, e - 32, false)])
  {
    ExpansionIs(s + 32, e);
    var h1 := Append(h, addr, s + 32);
    OccupyExactly(h1, |h.blocks|, s);
    assert h1.blocks[..|h.blocks|] == h.blocks && h1.blocks[|h.blocks| + 1..] == [];
  }

  lemma {:induction false} DrawAtMost(f: FrameMap, n: nat)
    ensures |Draw(f, n).1| <= n
  {
    if n > 0 {
      DrawAtMost(f, n - 1);
    }
  }

  /** A block freed becomes one free block with the free ones on either side, headers between
      them included; nothing else in the list changes. */
  lemma KfreeExactly(h: Heap, f: FrameMap, ptr: nat, i: nat)
    requires Inv(h, f) && i < |h.blocks| && h.blocks[i].addr + 32 == ptr && !h.blocks[i].free
    ensures IsBlock(h, ptr)
    ensures var bs := h.blocks; var h' := Kfree(h, ptr);
            var left, right := i > 0 && bs[i - 1].free, i + 1 < |bs| && bs[i + 1].free;
            && h'.total == h.total && h'.used == (h.used - bs[i].size - 32) % 0x1_0000_0000_0000_0000
            && h'.blocks == bs[..if left then i - 1 else i]
                            + [Block(if left then bs[i - 1].addr else bs[i].addr,
                                     (if left then bs[i - 1].size + 32 else 0) + bs[i].size + (if right then 32 + bs[i + 1].size else 0),
                                     true)]
                            + bs[if right then i + 2 else i + 1..]
  {
    hide Coalesce, Covered, Before;
    IndexOfAddress(h.blocks, i);
    CoalesceExactly(Freed(h.blocks, i), i);
    FreedParts(h.blocks, i);
  }

  lemma FreedParts(bs: seq<Block>, i: nat)
    requires i < |bs|
    ensures var fs := Freed(bs, i);
            && (forall j :: 0 <= j < |bs| && j != i ==> fs[j] == bs[j])
            && fs[..i] == bs[..i] && fs[i + 1..] == bs[i + 1..]
            && (i > 0 ==> fs[..i - 1] == bs[..i - 1]) && (i + 1 < |bs| ==> fs[i + 2..] == bs[i + 2..])
  {
    var fs := Freed(bs, i);
    assert forall j :: 0 <= j < |bs| && j != i ==> fs[j] == bs[j];
    assert fs[..i] == bs[..i] && fs[i + 1..] == bs[i + 1..];
    assert i > 0 ==> fs[..i - 1] == bs[..i - 1];
    assert i + 1 < |bs| ==> fs[i + 2..] == bs[i + 2..];
  }

  lemma CoalesceExactly(bs: seq<Block>, i: nat)
    requires i < |bs| && bs[i].free
    ensures var left, right := i > 0 && bs[i - 1].free, i + 1 < |bs| && bs[i + 1].free;
            Coalesce(bs, i) == bs[..if left then i - 1 else i]
                               + [Block(if left then bs[i - 1].addr else bs[i].addr,
                                        (if left then bs[i - 1].size + 32 else 0) + bs[i].size + (if right then 32 + bs[i + 1].size else 0),
                                        true)]
                               + bs[if right then i + 2 else i + 1..]
  {
    hide MergeNext;
    MergeRight(bs, i);
    var right := i + 1 < |bs| && bs[i + 1].free;
    var b := Block(bs[i].addr, bs[i].size + (if right then 32 + bs[i + 1].size else 0), true);
    MergeLeft(bs, i, b, bs[if right then i + 2 else i + 1..]);
  }

  lemma MergeRight(bs: seq<Block>, i: nat)
    requires i < |bs| && bs[i].free
    ensures var right := i + 1 < |bs| && bs[i + 1].free;
            MergeNext(bs, i) == bs[..i] + [Block(bs[i].addr, bs[i].size + (if right then 32 + bs[i + 1].size else 0), true)]
                                + bs[if right then i + 2 else i + 1..]
  {
  }

  lemma MergeLeft(bs: seq<Block>, i: nat, b: Block, rest: seq<Block>)
    requires i < |bs| && b.free
    ensures i > 0 ==> (bs[..i] + [b] + rest)[i - 1] == bs[i - 1]
    ensures i > 0 ==> MergeNext(bs[..i] + [b] + rest, i - 1) == bs[..i - 1] + [bs[i - 1].(size := bs[i - 1].size + 32 + b.size)] + rest
  {
    var bs1 := bs[..i] + [b] + rest;
    assert bs1[i] == b && bs1[i + 1..] == rest;
    assert i > 0 ==> bs1[i - 1] == bs[i - 1] && bs1[..i - 1] == bs[..i - 1];
  }
}
