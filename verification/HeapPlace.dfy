/** Where the heap lies when every expansion directly continues it: one stretch of whole
    frames of its own, tiled by the blocks without gaps. */
module HeapPlace {
  import opened Frames
  import opened Words
  import opened HeapSpec
  import opened HeapLaws

  /** Each block ends where the next one starts. */
  ghost predicate Tiled(bs: seq<Block>) {
    forall i :: 0 <= i < |bs| - 1 ==> bs[i + 1].addr == BlockEnd(bs[i])
  }

  /** The heap's bytes lie in frames the frame allocator considers used. */
  ghost predicate InUsedFrames(bs: seq<Block>, f: FrameMap) {
    forall i: nat :: Start(bs) / PAGE_SIZE <= i && i * PAGE_SIZE < End(bs) ==> i in f.used
  }

  ghost predicate Placed(bs: seq<Block>, f: FrameMap) {
    && Tiled(bs) && InUsedFrames(bs, f)
    && (bs != [] ==> Start(bs) > 0) && Start(bs) % PAGE_SIZE == 0 && End(bs) % PAGE_SIZE == 0
  }

  /** If the next expansion finds its frames at all, they directly continue the heap. */
  predicate GrowsInPlace(h: Heap, f: FrameMap, min: nat) {
    var pages := Grow(f, min).1;
    Complete(pages, min) ==> Contiguous(pages) && (h.blocks == [] || pages[0] == End(h.blocks))
  }

  predicate AllocatesInPlace(h: Heap, f: FrameMap, size: nat) {
    FirstFit(h.blocks, size, 0) == |h.blocks| ==> GrowsInPlace(h, f, size + HEADER)
  }

  predicate MallocsInPlace(h: Heap, f: FrameMap, request: nat) {
    request <= MAX_REQUEST && (request > 0 ==> AllocatesInPlace(h, f, AlignUp(request, 8)))
  }

  // ---------------------------------------------------------------- tiled lists

  lemma {:induction false} TiledApart(bs: seq<Block>, i: nat, j: nat)
    requires Tiled(bs) && i < j < |bs|
    ensures BlockEnd(bs[i]) <= bs[j].addr
    decreases j
  {
    assert bs[j - 1 + 1].addr == BlockEnd(bs[j - 1]);
    if i < j - 1 {
      TiledApart(bs, i, j - 1);
    }
  }

  lemma WithinExtent(bs: seq<Block>, i: nat)
    requires Tiled(bs) && i < |bs|
    ensures Start(bs) <= bs[i].addr && BlockEnd(bs[i]) <= End(bs)
  {
    if i > 0 {
      TiledApart(bs, 0, i);
    }
    if i < |bs| - 1 {
      TiledApart(bs, i, |bs| - 1);
    }
  }

  /** Lists tile end to end. */
  lemma TiledConcat(a: seq<Block>, b: seq<Block>)
    ensures Tiled(a + b) <==> Tiled(a) && Tiled(b) && (a != [] && b != [] ==> Start(b) == End(a))
    ensures a != [] ==> Start(a + b) == Start(a)
    ensures b != [] ==> End(a + b) == End(b)
  {
    var c := a + b;
    assert forall j :: 0 <= j < |a| ==> c[j] == a[j];
    assert forall j :: 0 <= j < |b| ==> b[j] == c[|a| + j];
    if Tiled(c) && a != [] && b != [] {
      assert c[|a| - 1 + 1].addr == BlockEnd(c[|a| - 1]);
    }
  }

  ghost predicate SameExtent(bs: seq<Block>, bs': seq<Block>) {
    (bs == [] <==> bs' == []) && Start(bs') == Start(bs) && End(bs') == End(bs)
  }

  /** Replacing a stretch by another one of the same extent keeps the layout. */
  lemma SpliceKeepsLayout(pre: seq<Block>, old_: seq<Block>, new_: seq<Block>, post: seq<Block>)
    requires Tiled(pre + old_ + post) && old_ != [] && Tiled(new_) && SameExtent(old_, new_)
    ensures Tiled(pre + new_ + post) && SameExtent(pre + old_ + post, pre + new_ + post)
  {
    TiledConcat(pre, old_);
    TiledConcat(pre + old_, post);
    TiledConcat(pre, new_);
    TiledConcat(pre + new_, post);
  }

  lemma ReplaceKeepsLayout(bs: seq<Block>, i: nat, n: nat, new_: seq<Block>)
    requires Tiled(bs) && 0 < n && i + n <= |bs|
    requires Tiled(new_) && SameExtent(bs[i..i + n], new_)
    ensures var bs' := bs[..i] + new_ + bs[i + n..]; Tiled(bs') && SameExtent(bs, bs')
  {
    assert bs == bs[..i] + bs[i..i + n] + bs[i + n..];
    SpliceKeepsLayout(bs[..i], bs[i..i + n], new_, bs[i + n..]);
  }

  // ---------------------------------------------------------------- operations keep the tiling

  lemma SplitKeepsLayout(bs: seq<Block>, i: nat, size: nat)
    requires Tiled(bs) && i < |bs|
    ensures Tiled(Split(bs, i, size)) && SameExtent(bs, Split(bs, i, size))
  {
    if bs[i].size >= size + HEADER + MIN_BLOCK {
      ReplaceKeepsLayout(bs, i, 1, Pieces(bs[i], size));
    }
  }

  lemma SetFreeKeepsLayout(bs: seq<Block>, i: nat, free: bool)
    requires Tiled(bs) && i < |bs|
    ensures var bs' := bs[i := bs[i].(free := free)]; Tiled(bs') && SameExtent(bs, bs')
  {
    assert bs[i := bs[i].(free := free)] == bs[..i] + [bs[i].(free := free)] + bs[i + 1..];
    ReplaceKeepsLayout(bs, i, 1, [bs[i].(free := free)]);
  }

  lemma MergeKeepsLayout(bs: seq<Block>, i: nat)
    requires Tiled(bs) && i < |bs|
    ensures Tiled(MergeNext(bs, i)) && SameExtent(bs, MergeNext(bs, i))
  {
    if i + 1 < |bs| && bs[i + 1].free {
      assert bs[i..i + 2] == [bs[i], bs[i + 1]];
      ReplaceKeepsLayout(bs, i, 2, [Merged(bs[i], bs[i + 1])]);
    }
  }

  lemma CoalesceKeepsLayout(bs: seq<Block>, i: nat)
    requires Tiled(bs) && i < |bs| && bs[i].free
    ensures Tiled(Coalesce(bs, i)) && SameExtent(bs, Coalesce(bs, i))
  {
    MergeKeepsLayout(bs, i);
    var bs1 := MergeNext(bs, i);
    if i > 0 && bs1[i - 1].free {
      MergeKeepsLayout(bs1, i - 1);
    }
  }

  // ---------------------------------------------------------------- expansions

  ghost predicate AppendsInPlace(h: Heap, addr: nat, min: nat) {
    CanAppend(h, addr, min) && (h.blocks == [] || addr == End(h.blocks))
  }

  /** Tiling survives an expansion exactly when the new memory starts where the heap ends. */
  lemma TiledOnlyInPlace(h: Heap, addr: nat, min: nat)
    requires Tiled(h.blocks) && ExpandSize(min) >= HEADER
    ensures Tiled(Append(h, addr, min).blocks) <==> h.blocks == [] || addr == End(h.blocks)
  {
    TiledConcat(h.blocks, [Block(addr, ExpandSize(min) - HEADER, true)]);
  }

  predicate Drawn(pages: seq<nat>, i: nat)
    requires |pages| > 0
  {
    pages[0] + i * PAGE_SIZE in pages
  }

  /** Every frame the new block covers was drawn for it. */
  ghost predicate CoversDrawn(pages: seq<nat>)
    requires |pages| > 0
  {
    forall i {:trigger Drawn(pages, i)} :: 0 <= i < |pages| ==> Drawn(pages, i)
  }

  /** An expansion takes its frames for one stretch, whatever they are: the new block covers
      no frame that was not drawn for it exactly when the draw is contiguous. */
  lemma CoversDrawnOnly(pages: seq<nat>)
    requires |pages| > 0
    requires forall i :: 0 <= i < |pages| ==> pages[i] % PAGE_SIZE == 0
    requires forall i, j :: 0 <= i < j < |pages| ==> pages[i] < pages[j]
    ensures CoversDrawn(pages) <==> Contiguous(pages)
  {
    if CoversDrawn(pages) {
      forall k | 0 <= k < |pages| ensures pages[k] == pages[0] + k * PAGE_SIZE {
        NthDrawn(pages, k);
      }
    }
    if Contiguous(pages) {
      forall i | 0 <= i < |pages| ensures Drawn(pages, i) {
        assert pages[i] == pages[0] + i * PAGE_SIZE;
      }
    }
  }

  lemma {:induction false} NthDrawn(pages: seq<nat>, k: nat)
    requires k < |pages| && CoversDrawn(pages)
    requires forall i :: 0 <= i < |pages| ==> pages[i] % PAGE_SIZE == 0
    requires forall i, j :: 0 <= i < j < |pages| ==> pages[i] < pages[j]
    ensures pages[k] == pages[0] + k * PAGE_SIZE
  {
    if k > 0 {
      NthDrawn(pages, k - 1);
      assert Drawn(pages, k);
      var j :| 0 <= j < |pages| && pages[j] == pages[0] + k * PAGE_SIZE;
      NextMultiple(pages[k - 1], pages[k]);
      assert j <= k;
    }
  }

  lemma NextMultiple(a: nat, b: nat)
    requires a % PAGE_SIZE == 0 && b % PAGE_SIZE == 0 && a < b
    ensures a + PAGE_SIZE <= b
  {
  }

  /** A contiguous draw backs every byte of the new memory. */
  lemma DrawnFramesBack(f: FrameMap, f': FrameMap, pages: seq<nat>, i: nat)
    requires DrawnFrom(f, f', pages) && Contiguous(pages) && |pages| > 0
    requires pages[0] / PAGE_SIZE <= i && i * PAGE_SIZE < pages[0] + |pages| * PAGE_SIZE
    ensures i in f'.used
  {
    assert pages[0] in pages;
    var k := i - pages[0] / PAGE_SIZE;
    assert pages[k] == pages[0] + k * PAGE_SIZE;
    assert pages[k] in pages;
    assert pages[k] / PAGE_SIZE == i;
  }

  /** The new memory is made of whole frames just drawn. */
  ghost predicate Backed(addr: nat, size: nat, f': FrameMap) {
    forall i: nat :: addr / PAGE_SIZE <= i && i * PAGE_SIZE < addr + size ==> i in f'.used
  }

  lemma GrowInPlaceMeaning(h: Heap, f: FrameMap, min: nat)
    requires Frames.Valid(f) && min <= WORD - PAGE_SIZE && GrowsInPlace(h, f, min)
    ensures var (f', pages) := Grow(f, min);
            Complete(pages, min) ==> AppendsInPlace(h, pages[0], min) && Backed(pages[0], ExpandSize(min), f')
  {
    ExpandSizeMeaning(min);
    GrowMeaning(h, f, min);
    DrawMeaning(f, ExpandSize(min) / PAGE_SIZE);
    var (f', pages) := Grow(f, min);
    if Complete(pages, min) {
      forall i: nat | pages[0] / PAGE_SIZE <= i && i * PAGE_SIZE < pages[0] + ExpandSize(min) ensures i in f'.used {
        DrawnFramesBack(f, f', pages, i);
      }
    }
  }

  lemma MoreFrames(bs: seq<Block>, f: FrameMap, f': FrameMap)
    requires Placed(bs, f) && f.used <= f'.used
    ensures Placed(bs, f')
  {
  }

  lemma AppendExtent(h: Heap, addr: nat, min: nat)
    requires Tiled(h.blocks) && AppendsInPlace(h, addr, min)
    ensures ExpandSize(min) >= HEADER && ExpandSize(min) % PAGE_SIZE == 0
    ensures var bs := Append(h, addr, min).blocks;
            && Tiled(bs) && Start(bs) == (if h.blocks == [] then addr else Start(h.blocks))
            && End(bs) == addr + ExpandSize(min)
  {
    ExpandSizeMeaning(min);
    TiledConcat(h.blocks, [Block(addr, ExpandSize(min) - HEADER, true)]);
  }

  lemma AppendPlaced(h: Heap, f: FrameMap, f': FrameMap, addr: nat, min: nat)
    requires Placed(h.blocks, f) && f.used <= f'.used && AppendsInPlace(h, addr, min)
    requires Backed(addr, ExpandSize(min), f')
    ensures ExpandSize(min) >= HEADER
    ensures Placed(Append(h, addr, min).blocks, f')
  {
    AppendExtent(h, addr, min);
    var bs := Append(h, addr, min).blocks;
    forall k: nat | Start(bs) / PAGE_SIZE <= k && k * PAGE_SIZE < End(bs) ensures k in f'.used {
      if h.blocks != [] && k * PAGE_SIZE < End(h.blocks) {
        assert k in f.used;
      }
    }
  }

  lemma SameExtentPlaced(bs: seq<Block>, bs': seq<Block>, f: FrameMap)
    requires Placed(bs, f) && Tiled(bs') && SameExtent(bs, bs')
    ensures Placed(bs', f)
  {
  }

  lemma OccupyPlaced(bs: seq<Block>, i: nat, size: nat, f: FrameMap)
    requires Placed(bs, f) && i < |bs|
    ensures Placed(Occupied(bs, i, size), f)
  {
    SplitKeepsLayout(bs, i, size);
    SetFreeKeepsLayout(Split(bs, i, size), i, false);
    SameExtentPlaced(bs, Occupied(bs, i, size), f);
  }

  lemma AllocateInPlace(h: Heap, f: FrameMap, size: nat)
    requires Inv(h, f) && Placed(h.blocks, f)
    requires size % 8 == 0 && size + HEADER <= WORD - PAGE_SIZE && AllocatesInPlace(h, f, size)
    ensures var (h', f', p) := Allocate(h, f, size); Placed(h'.blocks, f')
  {
    var min, i := size + HEADER, FirstFit(h.blocks, size, 0);
    if i < |h.blocks| {
      OccupyPlaced(h.blocks, i, size, f);
    } else {
      var (f', pages) := Grow(f, min);
      GrowMeaning(h, f, min);
      GrowInPlaceMeaning(h, f, min);
      if Complete(pages, min) {
        AppendPlaced(h, f, f', pages[0], min);
        OccupyPlaced(Append(h, pages[0], min).blocks, i, size, f');
      } else {
        MoreFrames(h.blocks, f, f');
      }
    }
  }

  /** A `kmalloc` whose expansion, if any, continues the heap keeps it tiling frames of its own. */
  lemma KmallocInPlace(h: Heap, f: FrameMap, request: nat)
    requires Inv(h, f) && Placed(h.blocks, f) && MallocsInPlace(h, f, request)
    ensures MayMalloc(h, f, request)
    ensures var (h', f', p) := Kmalloc(h, f, request); Placed(h'.blocks, f')
  {
    if request > 0 {
      AlignUpMeaning(request, 8);
      AllocateInPlace(h, f, AlignUp(request, 8));
    }
  }

  lemma KfreeInPlace(h: Heap, f: FrameMap, ptr: nat)
    requires Placed(h.blocks, f) && (ptr == 0 || IsBlock(h, ptr))
    ensures var h' := Kfree(h, ptr); Placed(h'.blocks, f) && SameExtent(h.blocks, h'.blocks)
  {
    if ptr != 0 && !BlockAt(h, ptr).free {
      var i := IndexOf(h.blocks, ptr - HEADER, 0);
      SetFreeKeepsLayout(h.blocks, i, true);
      CoalesceKeepsLayout(Freed(h.blocks, i), i);
      SameExtentPlaced(h.blocks, Coalesce(Freed(h.blocks, i), i), f);
    }
  }

  // ---------------------------------------------------------------- canonical form

  ghost predicate Canonical(bs: seq<Block>) {
    Tiled(bs) && NoAdjacentFree(bs)
  }

  lemma LiveTail(bs: seq<Block>)
    requires Tiled(bs) && bs != []
    ensures Live(bs[1..]) == if bs[0].free then Live(bs) else Live(bs) - {bs[0]}
  {
    forall b | b in bs[1..] ensures b != bs[0] {
      var j :| 0 <= j < |bs| - 1 && bs[1..][j] == b;
      TiledApart(bs, 0, j + 1);
    }
    forall b | b in Live(bs) && b != bs[0] ensures b in Live(bs[1..]) {
      var j :| 0 <= j < |bs| && bs[j] == b;
      assert bs[1..][j - 1] == b;
    }
  }

  /** A well formed list of two or more blocks has one in use. */
  lemma SomeLive(bs: seq<Block>)
    requires NoAdjacentFree(bs) && |bs| > 1
    ensures Live(bs) != {}
  {
    var i := if bs[0].free then 1 else 0;
    assert !(bs[0].free && bs[0 + 1].free);
    assert bs[i] in Live(bs);
  }

  /** In a tiled list, the first block that is used marks the end of a free first block. */
  lemma FirstFreeEnds(as_: seq<Block>, cs: seq<Block>)
    requires Canonical(as_) && Canonical(cs) && as_ != [] && cs != []
    requires Start(as_) == Start(cs) && End(as_) == End(cs) && Live(as_) == Live(cs)
    requires as_[0].free && cs[0].free
    ensures BlockEnd(as_[0]) <= BlockEnd(cs[0])
  {
    if |cs| > 1 {
      assert cs[1] in cs && cs[1] in Live(cs);
      assert cs[1] in Live(as_);
      var j :| 0 <= j < |as_| && as_[j] == cs[1];
      TiledApart(as_, 0, j);
    } else {
      WithinExtent(as_, 0);
    }
  }

  lemma FirstSame(as_: seq<Block>, cs: seq<Block>)
    requires Canonical(as_) && Canonical(cs) && as_ != [] && cs != []
    requires Start(as_) == Start(cs) && End(as_) == End(cs) && Live(as_) == Live(cs)
    ensures as_[0] == cs[0]
  {
    if as_[0].free && cs[0].free {
      FirstFreeEnds(as_, cs);
      FirstFreeEnds(cs, as_);
    } else {
      var xs, ys := if as_[0].free then cs else as_, if as_[0].free then as_ else cs;
      assert xs[0] in Live(xs);
      assert xs[0] in Live(ys);
      var j :| 0 <= j < |ys| && ys[j] == xs[0];
      if j > 0 {
        TiledApart(ys, 0, j);
      }
    }
  }

  /** The list of blocks is determined by where the heap starts and ends and which
      blocks are in use: all free space is in maximal blocks between them. */
  lemma {:induction false} Determined(as_: seq<Block>, cs: seq<Block>)
    requires Canonical(as_) && Canonical(cs) && as_ != [] && cs != []
    requires Start(as_) == Start(cs) && End(as_) == End(cs) && Live(as_) == Live(cs)
    ensures as_ == cs
    decreases |as_|
  {
    FirstSame(as_, cs);
    LiveTail(as_);
    LiveTail(cs);
    assert as_ == [as_[0]] + as_[1..] && cs == [cs[0]] + cs[1..];
    if |as_| == 1 || |cs| == 1 {
      if |as_| > 1 {
        WithinExtent(as_, 1);
      } else if |cs| > 1 {
        WithinExtent(cs, 1);
      }
    } else {
      Determined(as_[1..], cs[1..]);
    }
  }
}
