/** Whole runs of the paging code: any mix of mapping, unmapping, creating and
    switching address spaces. */
module PagingRuns {
  import opened Frames
  import opened PageTables
  import opened PagingLaws

  /** `OtherOp` stands for whatever other clients of the frame allocator do in between. */
  datatype Op =
    | MapOp(v: nat, phys: nat, flags: nat)
    | UnmapOp(v: nat)
    | CreateOp
    | SwitchOp(root: nat)
    | OtherOp(frames: FrameMap)

  /** Pages behind a large page are not touched, and nobody frees a table. */
  predicate Allowed(s: Space, op: Op) {
    match op
    case MapOp(v, _, _) => Clear(s.mem, s.root, TOP, v)
    case UnmapOp(v) => Clear(s.mem, s.root, TOP, v)
    case CreateOp => true
    case SwitchOp(root) => IsRoot(s.mem, root)
    case OtherOp(frames) => (forall i :: i in frames.used ==> i < frames.total) && (forall t :: t in s.mem ==> t / PAGE_SIZE in frames.used)
  }

  function Apply(s: Space, op: Op): Space
    requires s.root in s.mem
  {
    match op
    case MapOp(v, phys, flags) => MapPage(s, v, phys, flags).0
    case UnmapOp(v) => UnmapPage(s, v)
    case CreateOp => CreateSpace(s).0
    case SwitchOp(root) => Switch(s, root)
    case OtherOp(frames) => s.(frames := frames)
  }

  ghost predicate Step(s: Space, op: Op, s': Space) {
    s.root in s.mem && Allowed(s, op) && s' == Apply(s, op)
  }

  ghost predicate StepAt(states: seq<Space>, ops: seq<Op>, k: nat)
    requires k + 1 < |states| && k < |ops|
  {
    Step(states[k], ops[k], states[k + 1])
  }

  ghost predicate IsRun(states: seq<Space>, ops: seq<Op>) {
    |states| == |ops| + 1 && forall k {:trigger StepAt(states, ops, k)} :: 0 <= k < |ops| ==> StepAt(states, ops, k)
  }

  lemma StepKeeps(s: Space, op: Op, s': Space)
    requires Inv(s) && Step(s, op, s')
    ensures Inv(s') && KeepsLinks(s.mem, s'.mem) && ClearKept(s.mem, s'.mem)
  {
    match op
    case MapOp(v, phys, flags) => MapPageMeaning(s, v, phys, flags);
    case UnmapOp(v) => UnmapPageMeaning(s, v);
    case CreateOp => CreateSpaceMeaning(s);
    case SwitchOp(_) =>
    case OtherOp(_) =>
  }

  /** Frame ownership, level discipline and exclusive linking hold throughout, no table is
      ever dropped or relinked, no large page changes, and none comes in the way of a page. */
  lemma {:induction false} RunKeeps(states: seq<Space>, ops: seq<Op>, k: nat)
    requires IsRun(states, ops) && Inv(states[0]) && k <= |ops|
    ensures Inv(states[k]) && KeepsLinks(states[0].mem, states[k].mem) && ClearKept(states[0].mem, states[k].mem)
  {
    if k > 0 {
      RunKeeps(states, ops, k - 1);
      assert StepAt(states, ops, k - 1);
      StepKeeps(states[k - 1], ops[k - 1], states[k]);
      KeepsLinksTransitive(states[0].mem, states[k - 1].mem, states[k].mem);
      ClearKeptTransitive(states[0].mem, states[k - 1].mem, states[k].mem);
    }
  }

  // ---------------------------------------------------------------- no frame is lost

  lemma StepAccounts(s: Space, op: Op, s': Space)
    requires Inv(s) && Step(s, op, s') && !op.OtherOp?
    ensures Accounted(s, s')
  {
    match op
    case MapOp(v, phys, flags) => MapPageMeaning(s, v, phys, flags);
    case UnmapOp(v) => UnmapPageMeaning(s, v);
    case CreateOp => CreateSpaceMeaning(s);
    case SwitchOp(_) =>
  }

  /** As long as nobody else takes frames, every frame that has become used, frame 0 aside,
      is a table: whatever failed halfway. */
  lemma {:induction false} RunAccounts(states: seq<Space>, ops: seq<Op>, k: nat)
    requires IsRun(states, ops) && Inv(states[0]) && k <= |ops| && forall j :: 0 <= j < |ops| ==> !ops[j].OtherOp?
    ensures Accounted(states[0], states[k])
  {
    if k > 0 {
      RunAccounts(states, ops, k - 1);
      RunKeeps(states, ops, k - 1);
      assert StepAt(states, ops, k - 1);
      StepAccounts(states[k - 1], ops[k - 1], states[k]);
      StepKeeps(states[k - 1], ops[k - 1], states[k]);
      AccountedTransitive(states[0], states[k - 1], states[k]);
    }
  }

  /** And it hangs below some root. */
  lemma NoFrameLost(states: seq<Space>, ops: seq<Op>, k: nat, frame: nat) returns (root: nat)
    requires IsRun(states, ops) && Inv(states[0]) && k <= |ops| && forall j :: 0 <= j < |ops| ==> !ops[j].OtherOp?
    requires frame != 0 && frame in states[k].frames.used && frame !in states[0].frames.used
    ensures IsRoot(states[k].mem, root) && Reaches(states[k].mem, root, TOP, frame * PAGE_SIZE)
  {
    RunKeeps(states, ops, k);
    RunAccounts(states, ops, k);
    root := TableUnderRoot(states[k].mem, frame * PAGE_SIZE);
  }

  // ---------------------------------------------------------------- large pages

  lemma StepFresh(s: Space, op: Op, s': Space)
    requires Inv(s) && Step(s, op, s') && !op.OtherOp?
    ensures FreshTables(s, s') && Inv(s')
  {
    StepKeeps(s, op, s');
    match op
    case MapOp(v, phys, flags) => GetLeafFresh(s, s.root, TOP, v);
    case UnmapOp(_) =>
    case CreateOp => AllocMeaning(s.frames);
    case SwitchOp(_) =>
  }

  lemma StepLarge(s: Space, op: Op, s': Space)
    requires Inv(s) && Step(s, op, s')
    ensures NoNewLarge(s.mem, s'.mem)
  {
    match op
    case MapOp(v, phys, flags) =>
      var (s1, pt) := GetLeaf(s, s.root, TOP, v);
      GetLeafLarge(s, s.root, TOP, v);
      GetLeafReaches(s, s.root, TOP, v);
      GetLeafGrows(s, s.root, TOP, v);
      if pt in s1.mem {
        LeafWriteLarge(s1.mem, pt, Index(v, 1), LeafEntry(phys, flags));
      }
    case UnmapOp(v) =>
      var pt := Leaf(s.mem, s.root, TOP, v);
      LeafLevel(s.mem, s.root, TOP, v);
      if pt in s.mem {
        LeafWriteLarge(s.mem, pt, Index(v, 1), 0);
      }
    case CreateOp =>
      AllocMeaning(s.frames);
      var c := Alloc(s.frames).1;
      if c != 0 {
        assert c / PAGE_SIZE * PAGE_SIZE == c;
        ForkLarge(s.mem, s.root, c);
      }
    case SwitchOp(_) =>
    case OtherOp(_) =>
  }

  /** Nobody frees the frame a large page starts with. */
  ghost predicate KeepsLarge(s: Space, op: Op) {
    op.OtherOp? ==> forall a: nat {:trigger LargeBase(s.mem, a)} :: LargeBase(s.mem, a) && a != 0 ==> a / PAGE_SIZE in op.frames.used
  }

  lemma StepReserves(s: Space, op: Op, s': Space)
    requires Inv(s) && Step(s, op, s') && LargeReserved(s) && KeepsLarge(s, op)
    ensures LargeReserved(s')
  {
    hide LargeBase;
    StepLarge(s, op, s');
    if !op.OtherOp? {
      StepFresh(s, op, s');
    }
  }

  lemma {:induction false} RunReserves(states: seq<Space>, ops: seq<Op>, k: nat)
    requires IsRun(states, ops) && Inv(states[0]) && LargeReserved(states[0]) && k <= |ops|
    requires forall j :: 0 <= j < |ops| ==> KeepsLarge(states[j], ops[j])
    ensures LargeReserved(states[k])
  {
    hide LargeReserved, Inv, KeepsLarge;
    if k > 0 {
      RunReserves(states, ops, k - 1);
      RunKeeps(states, ops, k - 1);
      assert StepAt(states, ops, k - 1);
      StepReserves(states[k - 1], ops[k - 1], states[k]);
    }
  }

  /** Over every run from tables such as those of the boot code the walk of an unmap or a
      translation is right for just the pages with no large page in the way. */
  lemma RunWalksExactly(states: seq<Space>, ops: seq<Op>, k: nat, v: nat)
    requires IsRun(states, ops) && Inv(states[0]) && LargeReserved(states[0]) && k <= |ops|
    requires forall j :: 0 <= j < |ops| ==> KeepsLarge(states[j], ops[j])
    ensures var s := states[k]; var pt := Leaf(s.mem, s.root, TOP, v);
            CodeWalk(s.mem, s.root, TOP, v) == (if pt == 0 then Absent else At(pt + 8 * Index(v, 1))) <==> Clear(s.mem, s.root, TOP, v)
  {
    RunKeeps(states, ops, k);
    RunReserves(states, ops, k);
    CodeWalkExactly(states[k], v);
  }

  // ---------------------------------------------------------------- sharing

  /** Upper-half slots shared at some point stay shared forever, and both address
      spaces then translate everything behind them alike. */
  lemma SharedForever(states: seq<Space>, ops: seq<Op>, k: nat, a: nat, b: nat, i: nat, v: nat)
    requires IsRun(states, ops) && Inv(states[0]) && k <= |ops|
    requires Shares(states[0].mem, a, b, i) && Index(v, TOP) == i
    ensures Shares(states[k].mem, a, b, i)
    ensures Entry(states[k].mem, a, v) == Entry(states[k].mem, b, v)
  {
    RunKeeps(states, ops, k);
    SameSlotSameEntry(states[k].mem, a, v, b, v);
  }

  lemma SharedSlotsAreUpper(mem: map<nat, Table>, a: nat, b: nat, i: nat)
    requires Unshared(mem) && Shares(mem, a, b, i) && a != b
    ensures i >= ENTRIES / 2
  {
    assert Child(mem, a, i) == Child(mem, b, i);
  }

  /** Two roots' slots lead either to the same subtree or to subtrees without a
      common table; lower-half slots never lead to the same one. */
  lemma SlotsSameOrDisjoint(s: Space, a: nat, b: nat, v: nat, w: nat, stop: nat)
    requires Inv(s) && IsRoot(s.mem, a) && IsRoot(s.mem, b) && a != b && 1 <= stop < TOP
    ensures var t := Walk(s.mem, a, TOP, stop, v);
            t != 0 && t == Walk(s.mem, b, TOP, stop, w) ==>
              Shares(s.mem, a, b, Index(v, TOP)) && Index(v, TOP) == Index(w, TOP) && Index(v, TOP) >= ENTRIES / 2
  {
    if Walk(s.mem, a, TOP, stop, v) != 0 && Walk(s.mem, a, TOP, stop, v) == Walk(s.mem, b, TOP, stop, w) {
      WalkUnique(s.mem, a, b, TOP, stop, v, w);
      SharedSlotsAreUpper(s.mem, a, b, Index(v, TOP));
    }
  }

  // ---------------------------------------------------------------- what a page holds

  /** The operation is a map or unmap of page `w` of address space `b`, made there or in a
      space that shares the slot. */
  predicate Hits(s: Space, op: Op, b: nat, w: nat) {
    (op.MapOp? || op.UnmapOp?) && SameSlot(s.mem, s.root, op.v, b, w)
  }

  /** What page `w` of `b` holds after one operation, given what it held before: a map that
      had memory for its tables enters the frame, an unmap clears it, and all else leaves it. */
  function Edited(s: Space, op: Op, b: nat, w: nat, e: nat): nat {
    if !Hits(s, op, b, w) then e else
    match op
    case MapOp(v, phys, flags) => if Enough(s.frames, Missing(s.mem, s.root, TOP, v)) then LeafEntry(phys, flags) else e
    case _ => 0
  }

  /** After the first `k` operations: the last edit of the page decides. */
  function LastEdit(states: seq<Space>, ops: seq<Op>, k: nat, b: nat, w: nat): nat
    requires k <= |ops| < |states|
  {
    if k == 0 then Entry(states[0].mem, b, w)
    else Edited(states[k - 1], ops[k - 1], b, w, LastEdit(states, ops, k - 1, b, w))
  }

  lemma StepEdits(s: Space, op: Op, s': Space, b: nat, w: nat)
    requires Inv(s) && Step(s, op, s') && IsRoot(s.mem, b)
    ensures Entry(s'.mem, b, w) == Edited(s, op, b, w, Entry(s.mem, b, w))
  {
    match op
    case MapOp(v, phys, flags) =>
      MapPageMeaning(s, v, phys, flags);
      MapPageSucceeds(s, v, phys, flags);
    case UnmapOp(v) => UnmapPageMeaning(s, v);
    case CreateOp => CreateSpaceMeaning(s);
    case SwitchOp(_) =>
    case OtherOp(_) =>
  }

  /** An address space is a map from pages to entries: over every run, through shared tables,
      allocations that fail and other address spaces, each page holds what the last edit of
      that very page left there. */
  lemma {:induction false} LastEditDecides(states: seq<Space>, ops: seq<Op>, k: nat, b: nat, w: nat)
    requires IsRun(states, ops) && Inv(states[0]) && IsRoot(states[0].mem, b) && k <= |ops|
    ensures Entry(states[k].mem, b, w) == LastEdit(states, ops, k, b, w)
  {
    if k > 0 {
      LastEditDecides(states, ops, k - 1, b, w);
      RunKeeps(states, ops, k - 1);
      assert StepAt(states, ops, k - 1);
      StepEdits(states[k - 1], ops[k - 1], states[k], b, w);
    }
  }

  /** So a page that no operation of a stretch of the run hits holds at the end what it held
      at the start, whatever is done to the pages around it and in the slots it shares. */
  lemma {:induction false} Isolation(states: seq<Space>, ops: seq<Op>, i: nat, k: nat, b: nat, w: nat)
    requires IsRun(states, ops) && Inv(states[0]) && i <= k <= |ops| && IsRoot(states[i].mem, b)
    requires forall j :: i <= j < k ==> !Hits(states[j], ops[j], b, w)
    ensures IsRoot(states[k].mem, b) && Entry(states[k].mem, b, w) == Entry(states[i].mem, b, w)
    decreases k
  {
    if i < k {
      Isolation(states, ops, i, k - 1, b, w);
      RunKeeps(states, ops, k - 1);
      assert StepAt(states, ops, k - 1);
      StepKeeps(states[k - 1], ops[k - 1], states[k]);
      StepEdits(states[k - 1], ops[k - 1], states[k], b, w);
    }
  }

  /** A page last mapped at step `i`, with frames enough for its tables, reads back as that
      frame with those flags however long the run goes on; after an unmap it reads as 0. */
  lemma LastMapReads(states: seq<Space>, ops: seq<Op>, i: nat, k: nat, b: nat, w: nat)
    requires IsRun(states, ops) && Inv(states[0]) && i < k <= |ops| && IsRoot(states[i].mem, b)
    requires Hits(states[i], ops[i], b, w) && forall j :: i < j < k ==> !Hits(states[j], ops[j], b, w)
    requires ops[i].MapOp? ==> Enough(states[i].frames, Missing(states[i].mem, states[i].root, TOP, ops[i].v)) && ops[i].flags < 4096
    ensures Entry(states[k].mem, b, w) == if ops[i].MapOp? then ops[i].phys - ops[i].phys % 4096 + ops[i].flags else 0
    ensures Translate(states[k].mem, b, w)
         == if ops[i].MapOp? && ops[i].flags % 2 == 1 then ops[i].phys - ops[i].phys % 4096 + w % 4096 else 0
  {
    hide PageTables.Inv, Enough, Missing, Hits, Step, SameSharing, KeepsLinks, ClearKept, Walk;
    RunKeeps(states, ops, i);
    assert StepAt(states, ops, i);
    StepKeeps(states[i], ops[i], states[i + 1]);
    StepEdits(states[i], ops[i], states[i + 1], b, w);
    Isolation(states, ops, i + 1, k, b, w);
    if ops[i].MapOp? {
      PageAndFlags(ops[i].phys, ops[i].flags);
    }
  }

  lemma PageAndFlags(phys: nat, flags: nat)
    requires flags < 4096
    ensures var e := phys / 4096 * 4096 + flags;
            e / 4096 == phys / 4096 && e % 2 == flags % 2 && phys / 4096 * 4096 == phys - phys % 4096
  {
  }

  /** In particular the lower half of the address space (bit 47 clear) is private: no edit
      of such a page in one space hits any page of another. */
  lemma LowerHalfPrivate(s: Space, op: Op, b: nat, w: nat)
    requires Inv(s) && s.root != b && IsRoot(s.mem, b)
    requires op.MapOp? || op.UnmapOp?
    requires op.v % 0x1_0000_0000_0000 < 0x8000_0000_0000
    ensures !Hits(s, op, b, w)
  {
    var i := Index(op.v, TOP);
    assert i < ENTRIES / 2;
    if Shares(s.mem, s.root, b, i) {
      SharedSlotsAreUpper(s.mem, s.root, b, i);
    }
  }
}
