/** The abstract state of the physical frame allocator: which page frames are
    taken, out of how many.  `Alloc` and `Free` are what one call of the
    allocator does to it; class `Pmm.Pmm` refines them on the packed bitmap. */
module Frames {

  const PAGE_SIZE: nat := 4096

  datatype FrameMap = FrameMap(used: set<nat>, total: nat)

  ghost predicate Valid(f: FrameMap) {
    forall i :: i in f.used ==> i < f.total
  }

  /** First frame at or after `i` that is not in use; `f.total` if there is none. */
  function LowestFree(f: FrameMap, i: nat): (r: nat)
    requires i <= f.total
    ensures i <= r <= f.total
    ensures r < f.total ==> r !in f.used
    ensures forall j :: i <= j < r ==> j in f.used
    decreases f.total - i
  {
    if i == f.total || i !in f.used then i else LowestFree(f, i + 1)
  }

  /** The new state and the address handed out.  Address 0 is both the
      out-of-memory answer and the address of frame 0. */
  function Alloc(f: FrameMap): (FrameMap, nat) {
    var i := LowestFree(f, 0);
    if i == f.total then (f, 0) else (f.(used := f.used + {i}), i * PAGE_SIZE)
  }

  function Free(f: FrameMap, page: nat): FrameMap {
    f.(used := f.used - {page / PAGE_SIZE})
  }

  /** A caller that gets a non-null page holds a frame nobody held, the lowest
      free one; a caller that gets null may still have cost the machine frame 0. */
  lemma AllocMeaning(f: FrameMap)
    requires Valid(f)
    ensures var (f', p) := Alloc(f);
            && Valid(f')
            && p % PAGE_SIZE == 0
            && (p != 0 ==> p / PAGE_SIZE !in f.used && f'.used == f.used + {p / PAGE_SIZE}
                           && forall j :: 0 <= j < p / PAGE_SIZE ==> j in f.used)
            && (p == 0 ==> f'.used == f.used + (if f.total > 0 then {0} else {}))
            && (p == 0 <==> (0 < f.total && 0 !in f.used) || forall j :: 0 <= j < f.total ==> j in f.used)
  {
    var i := LowestFree(f, 0);
    if i < f.total {
      assert (i * PAGE_SIZE) / PAGE_SIZE == i;
    } else if f.total > 0 {
      assert 0 in f.used;
    }
  }

  // ---------------------------------------------------------------- runs

  /** A client of the allocator that frees only pages it holds.  It reads 0 as failure. */
  datatype Op = AllocOp | FreeOp(page: nat)

  datatype Client = Client(frames: FrameMap, held: set<nat>)

  ghost predicate Allowed(c: Client, op: Op) {
    op.FreeOp? ==> op.page % PAGE_SIZE == 0 && op.page / PAGE_SIZE in c.held
  }

  function Step(c: Client, op: Op): Client {
    match op
    case AllocOp =>
      var (f', p) := Alloc(c.frames);
      Client(f', if p == 0 then c.held else c.held + {p / PAGE_SIZE})
    case FreeOp(page) =>
      Client(Free(c.frames, page), c.held - {page / PAGE_SIZE})
  }

  function Run(c: Client, ops: seq<Op>): Client {
    if ops == [] then c else Step(Run(c, ops[..|ops| - 1]), ops[|ops| - 1])
  }

  ghost predicate AllowedRun(c: Client, ops: seq<Op>) {
    forall k :: 0 <= k < |ops| ==> Allowed(Run(c, ops[..k]), ops[k])
  }

  /** What a run may lose: frame 0, once the allocator has been asked for a page. */
  function Lost(f: FrameMap, ops: seq<Op>): set<nat> {
    if f.total > 0 && 0 !in f.used && AllocOp in ops then {0} else {}
  }

  /** Frames are conserved over every run: what is in use is exactly what was in
      use at the start, what the client holds, and possibly the lost frame 0 --
      three disjoint sets.  So no held frame can be handed out a second time. */
  lemma {:induction false} RunConserves(f: FrameMap, ops: seq<Op>)
    requires Valid(f)
    requires AllowedRun(Client(f, {}), ops)
    ensures var c := Run(Client(f, {}), ops);
            && Valid(c.frames) && c.frames.total == f.total
            && c.frames.used == f.used + c.held + Lost(f, ops)
            && c.held !! f.used && 0 !in c.held
  {
    var c0 := Client(f, {});
    if ops != [] {
      var n := |ops| - 1;
      var before, op := ops[..n], ops[n];
      forall k | 0 <= k < n ensures Allowed(Run(c0, before[..k]), before[k]) {
        assert before[..k] == ops[..k];
        assert Allowed(Run(c0, ops[..k]), ops[k]);
      }
      RunConserves(f, before);
      var c := Run(c0, before);
      assert ops == before + [op];
      assert Allowed(Run(c0, ops[..n]), ops[n]);
      if op.AllocOp? {
        AllocMeaning(c.frames);
      } else {
        assert op.page / PAGE_SIZE != 0;
      }
    }
  }

  // ---------------------------------------------------------------- drawing several frames

  /** Up to `n` consecutive allocations, stopping at the first null: the pages obtained. */
  function Draw(f: FrameMap, n: nat): (FrameMap, seq<nat>) {
    if n == 0 then (f, []) else
    var (f', pages) := Draw(f, n - 1);
    if |pages| < n - 1 then (f', pages) else
    var (f'', p) := Alloc(f');
    (f'', if p == 0 then pages else pages + [p])
  }

  predicate Contiguous(pages: seq<nat>) {
    forall i :: 0 <= i < |pages| ==> pages[i] == pages[0] + i * PAGE_SIZE
  }

  /** Lowest free frames first, in strictly ascending order; nothing else used except possibly frame 0. */
  ghost predicate DrawnFrom(f: FrameMap, f': FrameMap, pages: seq<nat>) {
    && Valid(f') && f'.total == f.total
    && f.used <= f'.used
    && (forall p :: p in pages ==> p > 0 && p % PAGE_SIZE == 0 && p / PAGE_SIZE !in f.used && p / PAGE_SIZE in f'.used)
    && (forall p, j :: p in pages && 0 <= j < p / PAGE_SIZE ==> j in f'.used)
    && (forall i, j :: 0 <= i < j < |pages| ==> pages[i] < pages[j])
    && (forall x :: x in f'.used ==> x in f.used || x == 0 || x * PAGE_SIZE in pages)
  }

  lemma DrawOne(f: FrameMap, f': FrameMap, pages: seq<nat>)
    requires DrawnFrom(f, f', pages)
    ensures var (f'', p) := Alloc(f');
            if p == 0 then DrawnFrom(f, f'', pages) else DrawnFrom(f, f'', pages + [p]) && 0 in f'.used
  {
    AllocMeaning(f');
    var (f'', p) := Alloc(f');
    if p != 0 && |pages| > 0 {
      forall i | 0 <= i < |pages| ensures pages[i] < p {
        assert pages[i] in pages;
      }
    }
  }

  /** Pages drawn with no free in between come in strictly ascending order; a
      complete draw takes exactly those frames, and frame 0 was not up for grabs. */
  lemma {:induction false} DrawMeaning(f: FrameMap, n: nat)
    requires Valid(f)
    ensures var (f', pages) := Draw(f, n);
            DrawnFrom(f, f', pages) && |pages| <= n && (|pages| > 0 ==> 0 in f.used)
  {
    if n > 0 {
      DrawMeaning(f, n - 1);
      var (f', pages) := Draw(f, n - 1);
      if |pages| == n - 1 {
        DrawOne(f, f', pages);
      }
    }
  }

  /** What a draw of `n` frames needs: frame 0 out of the way, and as many free frames. */
  predicate Enough(f: FrameMap, n: nat) {
    n == 0 || (0 in f.used && |f.used| + n <= f.total)
  }

  ghost predicate AllUsed(f: FrameMap) {
    forall j :: 0 <= j < f.total ==> j in f.used
  }

  lemma {:induction false} SizeBelow(s: set<nat>, n: nat)
    requires forall i :: i in s ==> i < n
    ensures |s| <= n
    ensures |s| == n <==> forall j :: 0 <= j < n ==> j in s
  {
    if n > 0 {
      SizeBelow(s - {n - 1}, n - 1);
      if n - 1 in s {
        assert |s| == |s - {n - 1}| + 1;
      } else {
        assert s - {n - 1} == s;
      }
    } else {
      assert s == {};
    }
  }

  /** One more frame is to be had exactly if frame 0 is in use and another is not. */
  lemma AllocSucceeds(f: FrameMap)
    requires Valid(f)
    ensures var (f', p) := Alloc(f);
            && (p != 0 <==> Enough(f, 1))
            && (p != 0 ==> |f'.used| == |f.used| + 1)
            && (p == 0 && f.total > 0 ==> if 0 in f.used then AllUsed(f) && f' == f else f'.used == f.used + {0})
  {
    AllocMeaning(f);
    SizeBelow(f.used, f.total);
  }

  lemma DrawGrows(f: FrameMap, n: nat)
    requires Valid(f)
    ensures var (f', pages) := Draw(f, n);
            Valid(f') && f'.total == f.total && f.used <= f'.used && (|pages| > 0 ==> 0 in f.used)
  {
    DrawMeaning(f, n);
  }

  /** A draw is complete exactly if there is enough, which can be told beforehand. */
  lemma {:induction false} DrawSucceeds(f: FrameMap, n: nat)
    requires Valid(f)
    ensures var (f', pages) := Draw(f, n);
            && |pages| <= n && (|pages| == n <==> Enough(f, n))
            && (|pages| == n ==> |f'.used| == |f.used| + n)
  {
    if n > 0 {
      DrawSucceeds(f, n - 1);
      DrawGrows(f, n - 1);
      AllocSucceeds(Draw(f, n - 1).0);
    }
  }

  /** What an allocation that fails leaves of frame map `f`. */
  ghost predicate Spent(f: FrameMap, f': FrameMap) {
    if 0 < f.total && 0 !in f.used then f' == f.(used := f.used + {0}) else AllUsed(f')
  }

  /** A draw that fails has spent frame 0, if that was free, and else every frame there was. */
  lemma {:induction false} DrawFails(f: FrameMap, n: nat)
    requires Valid(f) && !Enough(f, n)
    ensures Spent(f, Draw(f, n).0)
  {
    DrawSucceeds(f, n - 1);
    if Enough(f, n - 1) {
      var f1 := Draw(f, n - 1).0;
      DrawSucceeds(f, n);
      DrawGrows(f, n - 1);
      AllocSucceeds(f1);
      assert Draw(f, n).0 == Alloc(f1).0;
      if n == 1 {
        assert f1 == f;
      } else {
        assert 0 in f1.used;
      }
    } else {
      DrawFails(f, n - 1);
    }
  }

  /** So it leaves the allocator as it was exactly if no frame was free. */
  lemma FailureCosts(f: FrameMap, n: nat)
    requires Valid(f) && !Enough(f, n)
    ensures Draw(f, n).0 == f <==> AllUsed(f)
  {
    DrawFails(f, n);
    DrawMeaning(f, n);
    var f' := Draw(f, n).0;
    if AllUsed(f) {
      assert f'.used == f.used;
    }
  }

  /** The same draw seen from its first allocation. */
  lemma {:induction false} DrawFirst(f: FrameMap, n: nat)
    requires n > 0
    ensures var (f', p) := Alloc(f);
            Draw(f, n) == if p == 0 then (f', []) else (Draw(f', n - 1).0, [p] + Draw(f', n - 1).1)
  {
    var (f', p) := Alloc(f);
    if n == 1 {
      assert Draw(f, 0) == (f, []) && Draw(f', 0) == (f', []);
      assert [] + [p] == [p] + [];
    } else {
      DrawFirst(f, n - 1);
      if p != 0 {
        var rest := Draw(f', n - 2).1;
        var q := Alloc(Draw(f', n - 2).0).1;
        assert ([p] + rest) + [q] == [p] + (rest + [q]);
      }
    }
  }

  /** The first page drawn is the lowest free frame. */
  lemma FirstDrawn(f: FrameMap, n: nat)
    requires |Draw(f, n).1| > 0
    ensures Draw(f, n).1[0] == Alloc(f).1 == LowestFree(f, 0) * PAGE_SIZE
  {
    DrawFirst(f, n);
  }

  /** Drawn frames form one physical run exactly when the last is n - 1 pages above the first. */
  lemma {:induction false} AscendingContiguous(pages: seq<nat>)
    requires |pages| > 0
    requires forall i :: 0 <= i < |pages| ==> pages[i] % PAGE_SIZE == 0
    requires forall i, j :: 0 <= i < j < |pages| ==> pages[i] < pages[j]
    ensures pages[|pages|-1] - pages[0] >= (|pages| - 1) * PAGE_SIZE
    ensures Contiguous(pages) <==> pages[|pages|-1] - pages[0] == (|pages| - 1) * PAGE_SIZE
  {
    if |pages| > 1 {
      var n := |pages| - 1;
      var front := pages[..n];
      AscendingContiguous(front);
      assert front[0] == pages[0] && front[|front|-1] == pages[n-1];
      assert pages[n-1] < pages[n];
      assert pages[n] - pages[n-1] >= PAGE_SIZE;
      if Contiguous(pages) {
        assert pages[n] == pages[0] + n * PAGE_SIZE;
      }
      if pages[n] - pages[0] == n * PAGE_SIZE {
        assert Contiguous(front);
        forall i | 0 <= i < |pages| ensures pages[i] == pages[0] + i * PAGE_SIZE {
          if i < n { assert front[i] == pages[i]; }
        }
      }
    }
  }
}
