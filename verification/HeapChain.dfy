/** The list of blocks in memory: how the writes of the heap code cut, merge and append
    blocks, as long as no header meets another. */
module HeapChain {
  import opened Frames
  import opened HeaderWords
  import opened HeapLaws
  import opened HeapSpec
  import opened Links
  import opened Words

  // ---------------------------------------------------------------- memory that holds a list

  function BlockIn(mem: Ram, a: nat): Block {
    Block(a, Word(mem, a), FlagSet(Word(mem, a + FLAG)))
  }

  /** The blocks whose headers are at the addresses of `list`. */
  function BlocksIn(mem: Ram, list: seq<nat>): (bs: seq<Block>)
    ensures |bs| == |list|
    ensures forall i :: 0 <= i < |list| ==> bs[i] == BlockIn(mem, list[i])
  {
    seq(|list|, i requires 0 <= i < |list| => BlockIn(mem, list[i]))
  }

  /** No two headers share a byte. */
  predicate Separate(list: seq<nat>) {
    forall i, j :: 0 <= i < j < |list| ==> !Meet(list[i], list[j])
  }

  /** A header at `b` would share no byte with one of the list. */
  predicate Room(list: seq<nat>, b: nat) {
    forall j :: 0 <= j < |list| ==> !Meet(list[j], b)
  }

  /** The headers at the addresses of `list` are linked in this order, and none meets another. */
  ghost predicate Spelled(mem: Ram, list: seq<nat>) {
    Chained(NodesAt(mem, list), list) && Separate(list)
  }

  /** The list in memory is the list of blocks `bs`. */
  ghost predicate HoldsList(mem: Ram, list: seq<nat>, bs: seq<Block>) {
    Spelled(mem, list) && BlocksIn(mem, list) == bs
  }

  lemma LinksOf(mem: Ram, list: seq<nat>, i: nat)
    requires Chained(NodesAt(mem, list), list) && i < |list|
    ensures list[i] != 0 && NodeAt(mem, list[i]).next == NextOf(list, i) && NodeAt(mem, list[i]).prev == PrevOf(list, i)
    ensures i + 1 < |list| ==> list[i + 1] != 0
    ensures i > 0 ==> list[i - 1] != 0
  {
    Neighbours(NodesAt(mem, list), list, i);
    InMemory(NodesAt(mem, list), list);
  }

  // ---------------------------------------------------------------- where headers may go

  /** A header at `addr` would share no byte with the header of a block of the list. */
  predicate HeaderFree(bs: seq<Block>, addr: nat) {
    forall j :: 0 <= j < |bs| ==> !Meet(bs[j].addr, addr)
  }

  predicate HeadersApart(bs: seq<Block>) {
    forall i, j :: 0 <= i < j < |bs| ==> !Meet(bs[i].addr, bs[j].addr)
  }

  /** Cutting block `i`, if it is cut, puts the new header where it meets no other. */
  predicate CutApart(bs: seq<Block>, i: nat, size: nat)
    requires i < |bs|
  {
    bs[i].size >= size + HEADER + MIN_BLOCK ==> HeaderFree(bs, bs[i].addr + HEADER + size)
  }

  /** If an expansion finds its frames, the header at the start of the first meets no other. */
  predicate ExpandApart(bs: seq<Block>, f: FrameMap, min: nat) {
    var pages := Grow(f, min).1;
    Complete(pages, min) ==> HeaderFree(bs, pages[0])
  }

  /** No header an allocation of `size` writes meets another one. */
  predicate WritesApart(h: Heap, f: FrameMap, size: nat)
    requires size + HEADER <= WORD - PAGE_SIZE
  {
    var i, pages := FirstFit(h.blocks, size, 0), Grow(f, size + HEADER).1;
    if i < |h.blocks| then CutApart(h.blocks, i, size) else
    && ExpandApart(h.blocks, f, size + HEADER)
    && (Complete(pages, size + HEADER) ==>
          ExpandSize(size + HEADER) >= HEADER && CutApart(Append(h, pages[0], size + HEADER).blocks, i, size))
  }

  lemma RoomInList(mem: Ram, list: seq<nat>, addr: nat)
    ensures HeaderFree(BlocksIn(mem, list), addr) <==> Room(list, addr)
  {
    var bs := BlocksIn(mem, list);
    assert forall j :: 0 <= j < |list| ==> bs[j].addr == list[j];
  }

  /** Memory that holds a list keeps its headers apart. */
  lemma HeldApart(mem: Ram, list: seq<nat>, bs: seq<Block>)
    requires HoldsList(mem, list, bs)
    ensures HeadersApart(bs)
  {
    assert forall j :: 0 <= j < |list| ==> bs[j].addr == list[j];
  }

  /** The headers of blocks in order are apart, and stay so when one is cut. */
  lemma OrderedCutApart(bs: seq<Block>, i: nat, size: nat)
    requires Ordered(bs) && i < |bs|
    ensures CutApart(bs, i, size)
  {
    forall j | 0 <= j < |bs| && bs[i].size >= size + HEADER + MIN_BLOCK ensures !Meet(bs[j].addr, bs[i].addr + HEADER + size) {
      if j < i {
        Apart(bs, j, i);
      } else if i < j {
        Apart(bs, i, j);
      }
    }
  }

  lemma BehindIsFree(bs: seq<Block>, addr: nat)
    requires Ordered(bs) && (bs == [] || addr >= End(bs))
    ensures HeaderFree(bs, addr)
  {
    forall j | 0 <= j < |bs| ensures !Meet(bs[j].addr, addr) {
      EndsLast(bs, j);
    }
  }

  /** When expansions stay behind the heap, no header written meets another. */
  lemma BehindWritesApart(h: Heap, f: FrameMap, size: nat)
    requires Inv(h, f) && size + HEADER <= WORD - PAGE_SIZE && MayAllocate(h, f, size)
    ensures WritesApart(h, f, size)
  {
    var i, pages := FirstFit(h.blocks, size, 0), Grow(f, size + HEADER).1;
    if i < |h.blocks| {
      OrderedCutApart(h.blocks, i, size);
    } else if Complete(pages, size + HEADER) {
      BehindIsFree(h.blocks, pages[0]);
      GrowMeaning(h, f, size + HEADER);
      AppendLaid(h, pages[0], size + HEADER);
      OrderedCutApart(Append(h, pages[0], size + HEADER).blocks, i, size);
    }
  }

  // ---------------------------------------------------------------- cutting

  lemma CutNode(mem: Ram, list: seq<nat>, i: nat, size: nat, b: nat, j: nat)
    requires Spelled(mem, list) && i < |list| && j < |list| && Word(mem, list[i]) >= size + HEADER && Room(list, b)
    ensures var n := NodeAt(mem, list[j]);
            NodeAt(CutWords(mem, list[i], size, b), list[j]) ==
              if j == i then n.(data := n.data.(size := size), next := b)
              else if j == i + 1 then n.(prev := b)
              else n
  {
    hide CutWords, NodeAt;
    LinksOf(mem, list, i);
    LinksOf(mem, list, j);
    CutNodes(mem, list[i], size, b, list[j]);
  }

  lemma CutNewNode(mem: Ram, list: seq<nat>, i: nat, size: nat, b: nat)
    requires Spelled(mem, list) && i < |list| && Word(mem, list[i]) >= size + HEADER && Room(list, b) && b != 0
    ensures NodeAt(CutWords(mem, list[i], size, b), b) == Node(Header(Word(mem, list[i]) - size - HEADER, true), NextOf(list, i), list[i])
  {
    hide CutWords;
    LinksOf(mem, list, i);
    CutNodes(mem, list[i], size, b, b);
  }

  /** The writes of a cut turn memory that holds the list into memory that holds the split
      list, as long as the 32 bytes of the new header meet no header of the list. */
  lemma CutChain(mem: Ram, list: seq<nat>, i: nat, size: nat)
    requires Spelled(mem, list) && i < |list| && Word(mem, list[i]) >= size + HEADER + MIN_BLOCK
    requires Room(list, list[i] + HEADER + size)
    ensures var b := list[i] + HEADER + size;
            HoldsList(CutWords(mem, list[i], size, b), InsertAfter(list, i, b), Split(BlocksIn(mem, list), i, size))
  {
    hide CutWords, NodeAt;
    var b := list[i] + HEADER + size;
    var mem', list' := CutWords(mem, list[i], size, b), InsertAfter(list, i, b);
    CutNewNode(mem, list, i, size, b);
    forall j | 0 <= j < |list|
      ensures var n := NodeAt(mem, list[j]);
              NodeAt(mem', list[j]) == if j == i then n.(data := n.data.(size := size), next := b) else if j == i + 1 then n.(prev := b) else n
    {
      CutNode(mem, list, i, size, b, j);
    }
    CutLinks(mem, mem', list, i, size, b);
    CutBlocks(mem, mem', list, i, size);
  }

  lemma CutLinks(mem: Ram, mem': Ram, list: seq<nat>, i: nat, size: nat, b: nat)
    requires Spelled(mem, list) && i < |list| && Room(list, b) && b != 0
    requires NodeAt(mem', b).next == NextOf(list, i) && NodeAt(mem', b).prev == list[i]
    requires forall j :: 0 <= j < |list| ==>
      var n := NodeAt(mem, list[j]);
      NodeAt(mem', list[j]) == if j == i then n.(data := n.data.(size := size), next := b) else if j == i + 1 then n.(prev := b) else n
    ensures Spelled(mem', InsertAfter(list, i, b))
  {
    hide NodeAt, Separate;
    var list' := InsertAfter(list, i, b);
    var nodes, nodes' := NodesAt(mem, list), NodesAt(mem', list');
    LinksOf(mem, list, i);
    SeparateInserted(list, i, b);
    assert list[i] == list'[i] && b == list'[i + 1];
    forall j | 0 <= j < |list| ensures list[j] in list' {
      assert list[j] == list'[if j <= i then j else j + 1];
    }
    forall a | a in nodes && a != list[i] && a != b && a != NextOf(list, i) ensures a in nodes' && nodes'[a] == nodes[a] {
      var j :| 0 <= j < |list| && list[j] == a;
    }
    InsertChain(nodes, list, i, b, nodes');
  }

  lemma SeparateInserted(list: seq<nat>, i: nat, b: nat)
    requires Separate(list) && i < |list| && Room(list, b)
    ensures Separate(InsertAfter(list, i, b)) && b !in list
  {
    var list' := InsertAfter(list, i, b);
    forall j, k | 0 <= j < k < |list'| ensures !Meet(list'[j], list'[k]) {
      var j0, k0 := if j > i then j - 1 else j, if k > i then k - 1 else k;
      assert j != i + 1 ==> list'[j] == list[j0];
      assert k != i + 1 ==> list'[k] == list[k0];
    }
  }

  lemma CutBlocks(mem: Ram, mem': Ram, list: seq<nat>, i: nat, size: nat)
    requires i < |list| && Word(mem, list[i]) >= size + HEADER + MIN_BLOCK
    requires var b := list[i] + HEADER + size; NodeAt(mem', b).data == Header(Word(mem, list[i]) - size - HEADER, true)
    requires forall j :: 0 <= j < |list| ==>
      var n, n' := NodeAt(mem, list[j]), NodeAt(mem', list[j]); n'.data == if j == i then n.data.(size := size) else n.data
    ensures BlocksIn(mem', InsertAfter(list, i, list[i] + HEADER + size)) == Split(BlocksIn(mem, list), i, size)
  {
    var list' := InsertAfter(list, i, list[i] + HEADER + size);
    var bs := BlocksIn(mem, list);
    var bs' := bs[..i] + Pieces(bs[i], size) + bs[i + 1..];
    forall k | 0 <= k < |list'| ensures bs'[k] == BlockIn(mem', list'[k]) {
      if k <= i {
        assert list'[k] == list[k] && NodeAt(mem', list[k]).data == NodeAt(mem', list'[k]).data;
      } else if k > i + 1 {
        assert list'[k] == list[k - 1] && bs'[k] == bs[k - 1];
        assert NodeAt(mem', list[k - 1]).data == NodeAt(mem, list[k - 1]).data;
      }
    }
    assert BlocksIn(mem', list') == bs';
  }

  lemma SplitApart(bs: seq<Block>, i: nat, size: nat)
    requires HeadersApart(bs) && i < |bs|
    ensures HeadersApart(Split(bs, i, size)) <==> CutApart(bs, i, size)
  {
    var bs' := Split(bs, i, size);
    if bs[i].size >= size + HEADER + MIN_BLOCK {
      var b := bs[i].addr + HEADER + size;
      assert bs'[i + 1].addr == b;
      forall j | 0 <= j < |bs| ensures bs'[if j <= i then j else j + 1].addr == bs[j].addr {}
      if HeaderFree(bs, b) {
        forall j, k | 0 <= j < k < |bs'| ensures !Meet(bs'[j].addr, bs'[k].addr) {
          var j0, k0 := if j > i then j - 1 else j, if k > i then k - 1 else k;
          assert j != i + 1 ==> bs'[j].addr == bs[j0].addr;
          assert k != i + 1 ==> bs'[k].addr == bs[k0].addr;
        }
      }
      if HeadersApart(bs') {
        forall j | 0 <= j < |bs| ensures !Meet(bs[j].addr, b) {
          if j <= i {
            assert bs'[j].addr == bs[j].addr && !Meet(bs'[j].addr, bs'[i + 1].addr);
          } else {
            assert bs'[j + 1].addr == bs[j].addr && !Meet(bs'[i + 1].addr, bs'[j + 1].addr);
          }
        }
      }
    }
  }

  /** The condition is exact: the headers of the split list are apart, and memory can hold it,
      if and only if the new header meets no other. */
  lemma CutNeedsRoom(mem: Ram, list: seq<nat>, i: nat, size: nat)
    requires Spelled(mem, list) && i < |list|
    ensures var bs := BlocksIn(mem, list);
            && (CutApart(bs, i, size) <==> HeadersApart(Split(bs, i, size)))
            && (CutApart(bs, i, size) <==> exists mem', list' :: HoldsList(mem', list', Split(bs, i, size)))
  {
    var bs := BlocksIn(mem, list);
    var b := list[i] + HEADER + size;
    HeldApart(mem, list, bs);
    SplitApart(bs, i, size);
    RoomInList(mem, list, b);
    if bs[i].size < size + HEADER + MIN_BLOCK {
      assert HoldsList(mem, list, Split(bs, i, size));
    } else if CutApart(bs, i, size) {
      CutChain(mem, list, i, size);
    } else {
      forall mem', list' ensures !HoldsList(mem', list', Split(bs, i, size)) {
        if HoldsList(mem', list', Split(bs, i, size)) {
          HeldApart(mem', list', Split(bs, i, size));
        }
      }
    }
  }

  /** A cut whose new header starts 8 bytes before another header of the list, or 8 bytes into
      it, destroys that one for certain: it ends up with a size or a next pointer that is odd. */
  lemma CutSpoils(mem: Ram, list: seq<nat>, i: nat, size: nat, j: nat)
    requires Spelled(mem, list) && i < |list| && j < |list| && i != j && Word(mem, list[i]) >= size + HEADER
    ensures var b := list[i] + HEADER + size;
            var n := NodeAt(CutWords(mem, list[i], size, b), list[j]);
            && (list[j] == b + 8 ==> n.data.size % 8 == 1)
            && (b == list[j] + 8 ==> n.next % 8 == 1)
  {
    hide CutWords;
    LinksOf(mem, list, i);
    FlagSpoils(mem, list[i], size, list[i] + HEADER + size, list[j]);
  }

  // ---------------------------------------------------------------- merging

  lemma AbsorbNode(mem: Ram, list: seq<nat>, i: nat, j: nat)
    requires Spelled(mem, list) && i + 1 < |list| && j < |list| && j != i + 1
    ensures var n := NodeAt(mem, list[j]);
            NodeAt(AbsorbWords(mem, list[i], list[i + 1]), list[j]) ==
              if j == i then n.(data := n.data.(size := n.data.size + HEADER + Word(mem, list[i + 1])), next := NextOf(list, i + 1))
              else if j == i + 2 then n.(prev := list[i])
              else n
  {
    hide AbsorbWords;
    LinksOf(mem, list, i + 1);
    LinksOf(mem, list, j);
    AbsorbNodes(mem, list[i], list[i + 1], list[j]);
  }

  lemma AbsorbChain(mem: Ram, list: seq<nat>, i: nat)
    requires Spelled(mem, list) && i + 1 < |list| && FlagSet(Word(mem, list[i + 1] + FLAG))
    ensures HoldsList(AbsorbWords(mem, list[i], list[i + 1]), Without(list, i + 1), MergeNext(BlocksIn(mem, list), i))
  {
    hide AbsorbWords, NodeAt;
    var mem', list' := AbsorbWords(mem, list[i], list[i + 1]), Without(list, i + 1);
    forall j | 0 <= j < |list| && j != i + 1
      ensures var n := NodeAt(mem, list[j]);
              NodeAt(mem', list[j]) ==
                if j == i then n.(data := n.data.(size := n.data.size + HEADER + Word(mem, list[i + 1])), next := NextOf(list, i + 1))
                else if j == i + 2 then n.(prev := list[i])
                else n
    {
      AbsorbNode(mem, list, i, j);
    }
    AbsorbLinks(mem, mem', list, i, NodeAt(mem, list[i]).data.size + HEADER + Word(mem, list[i + 1]));
    AbsorbBlocks(mem, mem', list, i);
  }

  lemma SeparateWithout(list: seq<nat>, i: nat)
    requires Separate(list) && i < |list|
    ensures Separate(Without(list, i))
    ensures forall k :: 0 <= k < |list| && k != i ==> list[k] in Without(list, i)
  {
    var list' := Without(list, i);
    forall k | 0 <= k < |list'| ensures list'[k] == list[if k < i then k else k + 1] {}
    forall k | 0 <= k < |list| && k != i ensures list[k] in list' {
      assert list[k] == list'[if k < i then k else k - 1];
    }
  }

  /** The nodes of the list after the merge, next to those before. */
  ghost predicate AbsorbedNodes(mem: Ram, mem': Ram, list: seq<nat>, i: nat, size: nat)
    requires i + 1 < |list|
  {
    forall j :: 0 <= j < |list| && j != i + 1 ==>
      var n := NodeAt(mem, list[j]);
      NodeAt(mem', list[j]) == if j == i then n.(data := n.data.(size := size), next := NextOf(list, i + 1))
                               else if j == i + 2 then n.(prev := list[i]) else n
  }

  lemma AbsorbRemoves(mem: Ram, mem': Ram, list: seq<nat>, i: nat, size: nat)
    requires Distinct(list) && Separate(list) && i + 1 < |list| && AbsorbedNodes(mem, mem', list, i, size)
    ensures Removed(NodesAt(mem, list), list, i + 1, NodesAt(mem', Without(list, i + 1)))
  {
    hide NodeAt, Separate, Without;
    var list' := Without(list, i + 1);
    var nodes, nodes' := NodesAt(mem, list), NodesAt(mem', list');
    SeparateWithout(list, i + 1);
    assert list[i] in list' && (i + 2 < |list| ==> list[i + 2] in list');
    forall a | a in nodes && a != list[i] && a != list[i + 1] && (i + 2 == |list| || a != list[i + 2])
      ensures a in nodes' && nodes'[a] == nodes[a]
    {
      var j :| 0 <= j < |list| && list[j] == a;
    }
  }

  lemma AbsorbLinks(mem: Ram, mem': Ram, list: seq<nat>, i: nat, size: nat)
    requires Spelled(mem, list) && i + 1 < |list| && AbsorbedNodes(mem, mem', list, i, size)
    ensures Spelled(mem', Without(list, i + 1))
  {
    hide NodeAt, Separate, AbsorbedNodes, Links.Removed;
    SeparateWithout(list, i + 1);
    AbsorbRemoves(mem, mem', list, i, size);
    RemoveChain(NodesAt(mem, list), list, i + 1, NodesAt(mem', Without(list, i + 1)));
  }

  lemma AbsorbBlocks(mem: Ram, mem': Ram, list: seq<nat>, i: nat)
    requires i + 1 < |list| && FlagSet(Word(mem, list[i + 1] + FLAG))
    requires forall j :: 0 <= j < |list| && j != i + 1 ==>
      var n, n' := NodeAt(mem, list[j]), NodeAt(mem', list[j]);
      n'.data == if j == i then n.data.(size := n.data.size + HEADER + Word(mem, list[i + 1])) else n.data
    ensures BlocksIn(mem', Without(list, i + 1)) == MergeNext(BlocksIn(mem, list), i)
  {
    var list' := Without(list, i + 1);
    var bs := BlocksIn(mem, list);
    var bs' := bs[..i] + [Merged(bs[i], bs[i + 1])] + bs[i + 2..];
    forall k | 0 <= k < |list'| ensures bs'[k] == BlockIn(mem', list'[k]) {
      var j := if k <= i then k else k + 1;
      assert list'[k] == list[j];
      assert NodeAt(mem', list[j]).data == if j == i then Header(Word(mem, list[i]) + HEADER + Word(mem, list[i + 1]), bs[i].free) else NodeAt(mem, list[j]).data;
      assert k != i ==> bs'[k] == bs[j];
    }
    assert BlocksIn(mem', list') == bs';
  }

  /** The header merged away is off the list, but nothing is written to it: as long as nobody
      else writes there, it still says that the block is free. */
  lemma AbsorbKeepsFlag(mem: Ram, list: seq<nat>, i: nat)
    requires Spelled(mem, list) && i + 1 < |list|
    ensures NodeAt(AbsorbWords(mem, list[i], list[i + 1]), list[i + 1]).data == NodeAt(mem, list[i + 1]).data
  {
    hide AbsorbWords;
    LinksOf(mem, list, i + 1);
    AbsorbNodes(mem, list[i], list[i + 1], list[i + 1]);
  }

  // ---------------------------------------------------------------- changing a flag

  /** Marking a block free or used keeps the list. */
  lemma FlagChain(mem: Ram, list: seq<nat>, i: nat, flag: bool)
    requires Spelled(mem, list) && i < |list|
    ensures var bs := BlocksIn(mem, list); HoldsList(SetFlag(mem, list[i], flag), list, bs[i := bs[i].(free := flag)])
  {
    hide SetFlag;
    var mem', bs := SetFlag(mem, list[i], flag), BlocksIn(mem, list);
    forall j | 0 <= j < |list|
      ensures var n := NodeAt(mem, list[j]);
              NodeAt(mem', list[j]) == if j == i then n.(data := n.data.(isFree := flag)) else n
    {
      FlagNodes(mem, list[i], flag, list[j]);
    }
    SameLinksSpelled(mem, mem', list);
    forall j | 0 <= j < |list| ensures BlockIn(mem', list[j]) == bs[i := bs[i].(free := flag)][j] {
      assert NodeAt(mem', list[j]).data == NodeAt(mem', list[j]).data;
    }
    assert BlocksIn(mem', list) == bs[i := bs[i].(free := flag)];
  }

  lemma SameLinksSpelled(mem: Ram, mem': Ram, list: seq<nat>)
    requires Spelled(mem, list)
    requires forall j :: 0 <= j < |list| ==>
      var n, n' := NodeAt(mem, list[j]), NodeAt(mem', list[j]); n'.next == n.next && n'.prev == n.prev
    ensures Spelled(mem', list)
  {
    hide NodeAt;
    forall j | 0 <= j < |list| ensures Joined(NodesAt(mem', list), list, j) {
      LinksOf(mem, list, j);
    }
  }

  // ---------------------------------------------------------------- appending

  /** A new header that meets none leaves the list as it is. */
  lemma NewBeside(mem: Ram, list: seq<nat>, b: nat, size: nat)
    requires Spelled(mem, list) && Room(list, b)
    ensures HoldsList(NewWords(mem, b, size), list, BlocksIn(mem, list))
  {
    hide NewWords;
    var mem' := NewWords(mem, b, size);
    forall j | 0 <= j < |list| ensures NodeAt(mem', list[j]) == NodeAt(mem, list[j]) {
      NewNodes(mem, b, size, list[j]);
    }
    SameLinksSpelled(mem, mem', list);
    forall j | 0 <= j < |list| ensures BlockIn(mem', list[j]) == BlockIn(mem, list[j]) {
      assert NodeAt(mem', list[j]).data == NodeAt(mem, list[j]).data;
    }
    assert BlocksIn(mem', list) == BlocksIn(mem, list);
  }

  function Appended(mem: Ram, list: seq<nat>, b: nat, size: nat): Ram {
    var m := NewWords(mem, b, size);
    if list == [] then m else LinkWords(m, list[|list| - 1], b)
  }

  lemma AppendNode(mem: Ram, list: seq<nat>, b: nat, size: nat, j: nat)
    requires Spelled(mem, list) && Room(list, b) && j < |list|
    ensures var n := NodeAt(mem, list[j]);
            NodeAt(Appended(mem, list, b, size), list[j]) == if j == |list| - 1 then n.(next := b) else n
    ensures NodeAt(Appended(mem, list, b, size), b) == Node(Header(size, true), 0, PrevOf(list, |list|))
  {
    hide NewWords, LinkWords;
    var m := NewWords(mem, b, size);
    NewNodes(mem, b, size, list[j]);
    NewNodes(mem, b, size, b);
    LinkNodes(m, list[|list| - 1], b, list[j]);
    LinkNodes(m, list[|list| - 1], b, b);
  }

  /** A new block linked behind the last one, if its header meets none. */
  lemma AppendedChain(mem: Ram, list: seq<nat>, b: nat, size: nat)
    requires Spelled(mem, list) && Room(list, b) && b != 0
    ensures HoldsList(Appended(mem, list, b, size), list + [b], BlocksIn(mem, list) + [Block(b, size, true)])
  {
    hide NodeAt, NewWords, LinkWords;
    var mem', list' := Appended(mem, list, b, size), list + [b];
    NewNodes(mem, b, size, b);
    forall j | 0 <= j < |list|
      ensures var n := NodeAt(mem, list[j]); NodeAt(mem', list[j]) == if j == |list| - 1 then n.(next := b) else n
      ensures NodeAt(mem', b) == Node(Header(size, true), 0, PrevOf(list, |list|))
    {
      AppendNode(mem, list, b, size, j);
    }
    if list != [] {
      AppendNode(mem, list, b, size, 0);
    }
    AppendLinks(mem, mem', list, b);
    AppendBlocks(mem, mem', list, b, size);
  }

  lemma AppendLinks(mem: Ram, mem': Ram, list: seq<nat>, b: nat)
    requires Spelled(mem, list) && Room(list, b) && b != 0
    requires NodeAt(mem', b).next == 0 && NodeAt(mem', b).prev == PrevOf(list, |list|)
    requires forall j :: 0 <= j < |list| ==>
      var n := NodeAt(mem, list[j]); NodeAt(mem', list[j]) == if j == |list| - 1 then n.(next := b) else n
    ensures Spelled(mem', list + [b])
  {
    hide NodeAt;
    var list' := list + [b];
    var nodes, nodes' := NodesAt(mem, list), NodesAt(mem', list');
    forall a | a in nodes && a != b && (list == [] || a != list[|list| - 1]) ensures a in nodes' && nodes'[a] == nodes[a] {
      var j :| 0 <= j < |list| && list[j] == a;
    }
    AppendChain(nodes, list, b, nodes');
  }

  lemma AppendBlocks(mem: Ram, mem': Ram, list: seq<nat>, b: nat, size: nat)
    requires NodeAt(mem', b).data == Header(size, true)
    requires forall j :: 0 <= j < |list| ==> NodeAt(mem', list[j]).data == NodeAt(mem, list[j]).data
    ensures BlocksIn(mem', list + [b]) == BlocksIn(mem, list) + [Block(b, size, true)]
  {
    var list', bs' := list + [b], BlocksIn(mem, list) + [Block(b, size, true)];
    forall k | 0 <= k < |list'| ensures BlockIn(mem', list'[k]) == bs'[k] {
      if k < |list| {
        assert NodeAt(mem', list[k]).data == NodeAt(mem, list[k]).data;
      }
    }
    assert BlocksIn(mem', list') == bs';
  }
}
