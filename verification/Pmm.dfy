/** The physical memory manager: one bit per page frame, packed eight to a byte,
    with a running count of the bits set. */
module Pmm {
  import opened Frames
  import opened Words

  const KERNEL_START: nat := 0x10_0000
  const MEMORY_AVAILABLE: nat := 1

  datatype Option<+T> = None | Some(value: T)

  /** One entry of the boot loader's memory map. */
  datatype MmapEntry = MmapEntry(addr: nat, len: nat, kind: nat)

  // ---------------------------------------------------------------- bits in bytes

  function Mask(k: nat): bv8
    requires k < 8
  {
    (1 as bv8) << k
  }

  predicate Bit(bytes: seq<bv8>, i: nat)
    requires i < 8 * |bytes|
  {
    bytes[i / 8] & Mask(i % 8) != 0
  }

  /** Setting or clearing one mask bit leaves the other seven alone. */
  lemma MaskFacts(j: nat, k: nat, x: bv8)
    requires j < 8 && k < 8
    ensures (x | Mask(k)) & Mask(k) != 0
    ensures (x & !Mask(k)) & Mask(k) == 0
    ensures j != k ==> (x | Mask(k)) & Mask(j) == x & Mask(j)
    ensures j != k ==> (x & !Mask(k)) & Mask(j) == x & Mask(j)
  {
    assert Mask(0) == 1 && Mask(1) == 2 && Mask(2) == 4 && Mask(3) == 8;
    assert Mask(4) == 16 && Mask(5) == 32 && Mask(6) == 64 && Mask(7) == 128;
  }

  /** Writing one byte with one mask bit forced to `on` changes exactly one abstract bit. */
  lemma OneBit(bytes: seq<bv8>, bytes': seq<bv8>, i: nat, on: bool)
    requires i < 8 * |bytes|
    requires bytes' == bytes[i / 8 := if on then bytes[i / 8] | Mask(i % 8) else bytes[i / 8] & !Mask(i % 8)]
    ensures Bit(bytes', i) == on
    ensures forall j :: 0 <= j < 8 * |bytes| && j != i ==> Bit(bytes', j) == Bit(bytes, j)
  {
    MaskFacts(0, i % 8, bytes[i / 8]);
    forall j | 0 <= j < 8 * |bytes| && j != i ensures Bit(bytes', j) == Bit(bytes, j) {
      if j / 8 == i / 8 {
        MaskFacts(j % 8, i % 8, bytes[i / 8]);
      }
    }
  }

  lemma AllOnes(bytes: seq<bv8>, i: nat)
    requires i < 8 * |bytes|
    requires bytes[i / 8] == 0xFF
    ensures Bit(bytes, i)
  {
    MaskFacts(0, i % 8, 0xFF);
    assert (0xFF as bv8) | Mask(i % 8) == 0xFF;
  }

  // ---------------------------------------------------------------- what initialisation promises

  predicate Available(e: MmapEntry) { e.kind == MEMORY_AVAILABLE }

  /** End address of an entry in 64-bit arithmetic. */
  function EntryEnd(e: MmapEntry): nat { (e.addr + e.len) % WORD }

  /** Largest end address among the available entries. */
  function MaxAddr(entries: seq<MmapEntry>): (m: nat)
    ensures forall i :: 0 <= i < |entries| && Available(entries[i]) ==> EntryEnd(entries[i]) <= m
  {
    if entries == [] then 0 else
    var m, e := MaxAddr(entries[..|entries| - 1]), entries[|entries| - 1];
    if Available(e) && EntryEnd(e) > m then EntryEnd(e) else m
  }

  function TotalPages(entries: seq<MmapEntry>): nat { MaxAddr(entries) / PAGE_SIZE }

  /** The frames the clearing loop visits for one entry. */
  predicate Covers(e: MmapEntry, i: nat) {
    Available(e) && e.addr / PAGE_SIZE <= i < e.addr / PAGE_SIZE + e.len / PAGE_SIZE
  }

  predicate ByteOf(i: nat, byte: nat) { byte / PAGE_SIZE == i }

  predicate Covered(entries: seq<MmapEntry>, i: nat) {
    exists k :: 0 <= k < |entries| && Covers(entries[k], i)
  }

  function CeilDiv(a: nat, b: nat): nat
    requires b > 0
  {
    (a + b - 1) / b
  }

  function BitmapSize(total: nat): nat { CeilDiv(total, 8) }

  predicate Reserved(total: nat, kernelEnd: nat, i: nat)
    requires kernelEnd >= KERNEL_START
  {
    KERNEL_START / PAGE_SIZE <= i < KERNEL_START / PAGE_SIZE + CeilDiv(kernelEnd - KERNEL_START, PAGE_SIZE)
                                    + CeilDiv(BitmapSize(total), PAGE_SIZE)
  }

  /** Every frame the clearing loop visits is below `total_pages`.  (The last byte of the
      bitmap may have bits behind that one, which stand for no frame.) */
  ghost predicate InBounds(entries: seq<MmapEntry>) {
    forall k, i: nat :: 0 <= k < |entries| && Covers(entries[k], i) ==> i < TotalPages(entries)
  }

  ghost function InitialUsed(entries: seq<MmapEntry>, kernelEnd: nat): set<nat>
    requires kernelEnd >= KERNEL_START
  {
    var total := TotalPages(entries);
    set i: nat | i < total && !(Covered(entries, i) && !Reserved(total, kernelEnd, i))
  }

  /** No frame from `total_pages` on is visited as long as no available entry reaches 2^64. */
  lemma NoWrapInBounds(entries: seq<MmapEntry>)
    requires forall k :: 0 <= k < |entries| && Available(entries[k]) ==> entries[k].addr + entries[k].len < WORD
    ensures InBounds(entries)
  {
    forall k, i: nat | 0 <= k < |entries| && Covers(entries[k], i) ensures i < TotalPages(entries) {
      var e := entries[k];
      assert EntryEnd(e) == e.addr + e.len <= MaxAddr(entries);
      assert i + 1 <= (e.addr + e.len) / PAGE_SIZE;
    }
  }

  /** The last page of an entry. */
  function LastPage(e: MmapEntry): nat
    requires e.len >= PAGE_SIZE
  {
    e.addr / PAGE_SIZE + e.len / PAGE_SIZE - 1
  }

  lemma LastPageCovered(e: MmapEntry)
    requires Available(e) && e.len >= PAGE_SIZE
    ensures Covers(e, LastPage(e))
    ensures forall i: nat :: Covers(e, i) ==> i <= LastPage(e)
  {
  }

  /** Some available entry ends at the largest end address, if that is not 0. */
  lemma {:induction false} MaxAttained(entries: seq<MmapEntry>) returns (j: nat)
    requires MaxAddr(entries) > 0
    ensures j < |entries| && Available(entries[j]) && EntryEnd(entries[j]) == MaxAddr(entries)
  {
    var n := |entries| - 1;
    if Available(entries[n]) && EntryEnd(entries[n]) == MaxAddr(entries) {
      j := n;
    } else {
      j := MaxAttained(entries[..n]);
    }
  }

  predicate Fits(e: MmapEntry) { e.addr < WORD && e.len < WORD }

  /** Some available entry ends, as the code computes it, at or behind the pages of `e`. */
  ghost predicate EndedBehind(entries: seq<MmapEntry>, e: MmapEntry) {
    exists j :: 0 <= j < |entries| && Available(entries[j]) && e.addr / PAGE_SIZE + e.len / PAGE_SIZE <= EntryEnd(entries[j]) / PAGE_SIZE
  }

  /** The clearing loop stays below `total_pages` exactly if each available entry of a page or
      more either does not reach 2^64 or has its pages below the end of some available entry. */
  lemma InBoundsExactly(entries: seq<MmapEntry>)
    requires forall k :: 0 <= k < |entries| ==> Fits(entries[k])
    ensures InBounds(entries) <==>
            forall k :: 0 <= k < |entries| && Available(entries[k]) && entries[k].len >= PAGE_SIZE ==>
              entries[k].addr + entries[k].len < WORD || EndedBehind(entries, entries[k])
  {
    forall k | 0 <= k < |entries| && Available(entries[k]) && entries[k].len >= PAGE_SIZE
      ensures LastPage(entries[k]) < TotalPages(entries)
         <==> entries[k].addr + entries[k].len < WORD || EndedBehind(entries, entries[k])
    {
      EntryReaches(entries, k);
    }
    LastPagesDecide(entries);
  }

  /** The last page of each entry decides. */
  lemma LastPagesDecide(entries: seq<MmapEntry>)
    ensures InBounds(entries) <==>
            forall k :: 0 <= k < |entries| && Available(entries[k]) && entries[k].len >= PAGE_SIZE ==> LastPage(entries[k]) < TotalPages(entries)
  {
    forall k, i: nat | 0 <= k < |entries| && Covers(entries[k], i)
      ensures entries[k].len >= PAGE_SIZE && Covers(entries[k], LastPage(entries[k])) && i <= LastPage(entries[k])
    {
      LastPageCovered(entries[k]);
    }
    forall k | 0 <= k < |entries| && Available(entries[k]) && entries[k].len >= PAGE_SIZE ensures Covers(entries[k], LastPage(entries[k])) {
      LastPageCovered(entries[k]);
    }
  }

  lemma EntryReaches(entries: seq<MmapEntry>, k: nat)
    requires k < |entries| && Available(entries[k]) && entries[k].len >= PAGE_SIZE
    ensures LastPage(entries[k]) < TotalPages(entries)
       <==> entries[k].addr + entries[k].len < WORD || EndedBehind(entries, entries[k])
  {
    var e := entries[k];
    if e.addr + e.len < WORD {
      assert EntryEnd(e) == e.addr + e.len <= MaxAddr(entries);
    }
    if LastPage(e) < TotalPages(entries) {
      var j := MaxAttained(entries);
      assert e.addr / PAGE_SIZE + e.len / PAGE_SIZE <= EntryEnd(entries[j]) / PAGE_SIZE;
    }
    if EndedBehind(entries, e) {
      var j :| 0 <= j < |entries| && Available(entries[j]) && e.addr / PAGE_SIZE + e.len / PAGE_SIZE <= EntryEnd(entries[j]) / PAGE_SIZE;
      assert EntryEnd(entries[j]) <= MaxAddr(entries);
    }
  }

  /** A wrapping entry that does stay in bounds, thanks to another one. */
  lemma WrappingEntryInBounds()
    ensures InBounds([MmapEntry(WORD - PAGE_SIZE - 1, PAGE_SIZE + 1, MEMORY_AVAILABLE), MmapEntry(0, WORD - 1, MEMORY_AVAILABLE)])
  {
    var a, b := MmapEntry(WORD - PAGE_SIZE - 1, PAGE_SIZE + 1, MEMORY_AVAILABLE), MmapEntry(0, WORD - 1, MEMORY_AVAILABLE);
    var es := [a, b];
    assert EntryEnd(es[1]) / PAGE_SIZE == WORD / PAGE_SIZE - 1;
    assert a.addr / PAGE_SIZE + a.len / PAGE_SIZE == WORD / PAGE_SIZE - 1;
    assert EndedBehind(es, es[0]);
    InBoundsExactly(es);
  }

  /** With an entry that does wrap, the loop visits frames beyond the bitmap altogether. */
  lemma WrappingEntryLeavesBounds()
    ensures var es := [MmapEntry(WORD - PAGE_SIZE, 2 * PAGE_SIZE, MEMORY_AVAILABLE)];
            !InBounds(es) && Covers(es[0], WORD / PAGE_SIZE - 1) && WORD / PAGE_SIZE - 1 >= 8 * BitmapSize(TotalPages(es))
  {
    var e := MmapEntry(WORD - PAGE_SIZE, 2 * PAGE_SIZE, MEMORY_AVAILABLE);
    var es := [e];
    assert es[..0] == [];
    assert MaxAddr(es[..0]) == 0;
    assert es[..|es| - 1] == es[..0] && EntryEnd(e) == PAGE_SIZE;
    assert MaxAddr(es) == PAGE_SIZE;
    assert Covers(es[0], WORD / PAGE_SIZE - 1);
  }

  /** No byte of the kernel image or of the bitmap placed behind it lies in a free frame. */
  lemma KernelAndBitmapReserved(entries: seq<MmapEntry>, kernelEnd: nat, byte: nat)
    requires KERNEL_START <= byte < kernelEnd + BitmapSize(TotalPages(entries))
    requires kernelEnd >= KERNEL_START
    ensures byte / PAGE_SIZE < TotalPages(entries) ==> byte / PAGE_SIZE in InitialUsed(entries, kernelEnd)
  {
    var total := TotalPages(entries);
    var k, b := kernelEnd - KERNEL_START, BitmapSize(total);
    assert k + b <= CeilDiv(k, PAGE_SIZE) * PAGE_SIZE + CeilDiv(b, PAGE_SIZE) * PAGE_SIZE;
    assert Reserved(total, kernelEnd, byte / PAGE_SIZE);
  }

  /** A whole number of pages, `bytes` rounded up to it. */
  ghost predicate PagesUp(pages: nat, bytes: nat) { pages % 4096 == 0 && bytes <= pages < bytes + 4096 }

  lemma PagesUpIs(pages: nat, bytes: nat)
    requires PagesUp(pages, bytes)
    ensures pages == 4096 * CeilDiv(bytes, PAGE_SIZE)
  {
    var q := pages / 4096;
    assert pages == 4096 * q;
  }

  /** In bytes: the pages of an available entry reach frame `i`, and it ends at or below 1 MB or
      starts at or behind the kernel and the bitmap. */
  ghost predicate FreeFrame(entries: seq<MmapEntry>, kernel: nat, bitmap: nat, i: nat) {
    && (exists k :: 0 <= k < |entries| && entries[k].kind == 1 && entries[k].addr / 4096 <= i < entries[k].addr / 4096 + entries[k].len / 4096)
    && (4096 * i + 4096 <= 0x10_0000 || 4096 * i >= 0x10_0000 + kernel + bitmap)
  }

  /** A frame is free exactly if the pages of an available entry reach it, and it ends
      at or below 1 MB or starts at or behind the kernel and the bitmap, each in whole pages. */
  lemma FreeExactly(entries: seq<MmapEntry>, kernelEnd: nat, kernel: nat, bitmap: nat, i: nat)
    requires kernelEnd >= 0x10_0000 && InBounds(entries)
    requires PagesUp(kernel, kernelEnd - 0x10_0000) && PagesUp(bitmap, (MaxAddr(entries) / 4096 + 7) / 8)
    ensures i < MaxAddr(entries) / 4096 && i !in InitialUsed(entries, kernelEnd) <==> FreeFrame(entries, kernel, bitmap, i)
  {
    ReservedInBytes(TotalPages(entries), kernelEnd, kernel, bitmap, i);
    CoveredByEntry(entries, i);
  }

  lemma ReservedInBytes(total: nat, kernelEnd: nat, kernel: nat, bitmap: nat, i: nat)
    requires kernelEnd >= 0x10_0000 && PagesUp(kernel, kernelEnd - 0x10_0000) && PagesUp(bitmap, (total + 7) / 8)
    ensures Reserved(total, kernelEnd, i) <==> !(4096 * i + 4096 <= 0x10_0000 || 4096 * i >= 0x10_0000 + kernel + bitmap)
  {
    PagesUpIs(kernel, kernelEnd - 0x10_0000);
    PagesUpIs(bitmap, BitmapSize(total));
    ReservedFrames(i, CeilDiv(kernelEnd - 0x10_0000, PAGE_SIZE), CeilDiv(BitmapSize(total), PAGE_SIZE));
  }

  lemma ReservedFrames(i: nat, k: nat, b: nat)
    ensures 256 <= i < 256 + k + b <==> !(4096 * i + 4096 <= 0x10_0000 || 4096 * i >= 0x10_0000 + 4096 * k + 4096 * b)
  {
  }

  lemma CoveredByEntry(entries: seq<MmapEntry>, i: nat)
    requires InBounds(entries)
    ensures Covered(entries, i) <==>
            exists k :: 0 <= k < |entries| && entries[k].kind == 1 && entries[k].addr / 4096 <= i < entries[k].addr / 4096 + entries[k].len / 4096
    ensures Covered(entries, i) ==> i < TotalPages(entries)
  {
    hide TotalPages;
    forall k | 0 <= k < |entries| ensures Covers(entries[k], i) <==>
      entries[k].kind == 1 && entries[k].addr / 4096 <= i < entries[k].addr / 4096 + entries[k].len / 4096 {}
  }

  /** So a frame that lies in an available region with a page-aligned base is free unless it
      shares a byte with the pages of the kernel and the bitmap. */
  lemma FrameInRegion(entries: seq<MmapEntry>, kernelEnd: nat, kernel: nat, bitmap: nat, k: nat, i: nat)
    requires kernelEnd >= 0x10_0000 && InBounds(entries)
    requires PagesUp(kernel, kernelEnd - 0x10_0000) && PagesUp(bitmap, (MaxAddr(entries) / 4096 + 7) / 8)
    requires k < |entries| && entries[k].kind == 1 && entries[k].addr % 4096 == 0
    requires entries[k].addr <= 4096 * i && 4096 * i + 4096 <= entries[k].addr + entries[k].len
    ensures i in InitialUsed(entries, kernelEnd) <==> 4096 * i + 4096 > 0x10_0000 && 4096 * i < 0x10_0000 + kernel + bitmap
  {
    FreeExactly(entries, kernelEnd, kernel, bitmap, i);
    var e := entries[k];
    var q := e.addr / 4096;
    assert e.addr == 4096 * q;
    assert i < q + e.len / 4096;
    assert Covers(entries[k], i);
  }

  /** All bytes of all frames an entry frees belong to the entry exactly when its
      base is page aligned (or it is too short to free any frame). */
  lemma FreedFramesInsideEntry(e: MmapEntry)
    requires Available(e)
    ensures (forall i: nat, byte: nat :: Covers(e, i) && ByteOf(i, byte) ==> e.addr <= byte < e.addr + e.len)
            <==> e.addr % PAGE_SIZE == 0 || e.len < PAGE_SIZE
  {
    var first := e.addr / PAGE_SIZE;
    if e.addr % PAGE_SIZE != 0 && e.len >= PAGE_SIZE {
      assert Covers(e, first) && ByteOf(first, first * PAGE_SIZE);
      assert first * PAGE_SIZE < e.addr;
    }
    if e.addr % PAGE_SIZE == 0 || e.len < PAGE_SIZE {
      forall i: nat, byte: nat | Covers(e, i) && ByteOf(i, byte)
        ensures e.addr <= byte < e.addr + e.len
      {
        assert e.addr == first * PAGE_SIZE;
        assert (i + 1) * PAGE_SIZE <= (first + e.len / PAGE_SIZE) * PAGE_SIZE;
      }
    }
  }

  ghost function Below(n: nat): (s: set<nat>)
    ensures |s| == n
    ensures forall i: nat :: i in s <==> i < n
  {
    if n == 0 then {} else Below(n - 1) + {n - 1}
  }

  // ---------------------------------------------------------------- the manager

  class Pmm {
    var bitmap: array<bv8>
    var totalPages: nat
    var usedPages: nat

    ghost predicate Valid()
      reads this, bitmap
    {
      && totalPages <= 8 * bitmap.Length
      && usedPages == |View().used|
    }

    ghost function View(): (f: FrameMap)
      requires totalPages <= 8 * bitmap.Length
      reads this, bitmap
      ensures Frames.Valid(f)
    {
      FrameMap((set i: nat | i < totalPages && Bit(bitmap[..], i)), totalPages)
    }

    constructor ()
      ensures Valid() && View() == FrameMap({}, 0) && fresh(bitmap)
    {
      bitmap := new bv8[0];
      totalPages, usedPages := 0, 0;
    }

    method BitmapSet(bit: nat)
      requires bit < 8 * bitmap.Length
      modifies bitmap
      ensures Bit(bitmap[..], bit)
      ensures forall j :: 0 <= j < 8 * bitmap.Length && j != bit ==> Bit(bitmap[..], j) == old(Bit(bitmap[..], j))
    {
      ghost var before := bitmap[..];
      bitmap[bit / 8] := bitmap[bit / 8] | Mask(bit % 8);
      OneBit(before, bitmap[..], bit, true);
    }

    method BitmapClear(bit: nat)
      requires bit < 8 * bitmap.Length
      modifies bitmap
      ensures !Bit(bitmap[..], bit)
      ensures forall j :: 0 <= j < 8 * bitmap.Length && j != bit ==> Bit(bitmap[..], j) == old(Bit(bitmap[..], j))
    {
      ghost var before := bitmap[..];
      bitmap[bit / 8] := bitmap[bit / 8] & !Mask(bit % 8);
      OneBit(before, bitmap[..], bit, false);
    }

    method BitmapTest(bit: nat) returns (set_: bool)
      requires bit < 8 * bitmap.Length
      ensures set_ == Bit(bitmap[..], bit)
    {
      set_ := bitmap[bit / 8] & Mask(bit % 8) != 0;
    }

    /** Mark a free page used, or a used page free, keeping the count right. */
    method Take(i: nat)
      requires Valid() && i < totalPages && i !in View().used
      modifies this`usedPages, bitmap
      ensures Valid() && View() == old(View()).(used := old(View()).used + {i})
    {
      BitmapSet(i);
      usedPages := usedPages + 1;
      assert View().used == old(View()).used + {i};
    }

    method Give(i: nat)
      requires Valid() && i < totalPages && i in View().used
      modifies this`usedPages, bitmap
      ensures Valid() && View() == old(View()).(used := old(View()).used - {i})
    {
      BitmapClear(i);
      usedPages := usedPages - 1;
      assert View().used == old(View()).used - {i};
    }

    /** Build the bitmap from the boot loader's memory map; without a map nothing happens. */
    method Init(mmap: Option<seq<MmapEntry>>, kernelEnd: nat)
      requires Valid()
      requires kernelEnd >= KERNEL_START
      requires mmap.Some? ==> InBounds(mmap.value)
      modifies this, bitmap
      ensures Valid()
      ensures mmap.None? ==> bitmap == old(bitmap) && View() == old(View())
      ensures mmap.Some? ==> fresh(bitmap)
                             && View() == FrameMap(InitialUsed(mmap.value, kernelEnd), TotalPages(mmap.value))
    {
      if mmap.None? { return; }
      var entries := mmap.value;
      MarkAllUsed(entries);
      FreeAvailable(entries);
      ReserveKernel(kernelEnd);
      assert View().used == InitialUsed(entries, kernelEnd);
    }

    /** A bitmap for the largest end address, every bit set. */
    method MarkAllUsed(entries: seq<MmapEntry>)
      modifies this
      ensures Valid() && fresh(bitmap) && totalPages == TotalPages(entries) && View().used == Below(totalPages)
    {
      var maxAddr := LargestEnd(entries);
      totalPages := maxAddr / PAGE_SIZE;
      FillBitmap((totalPages + 7) / 8);
      usedPages := totalPages;
      forall i | 0 <= i < totalPages ensures Bit(bitmap[..], i) {
        AllOnes(bitmap[..], i);
      }
      assert View().used == Below(totalPages);
    }

    method FillBitmap(bitmapSize: nat)
      modifies this`bitmap
      ensures fresh(bitmap) && bitmap.Length == bitmapSize && forall j :: 0 <= j < bitmapSize ==> bitmap[j] == 0xFF
    {
      bitmap := new bv8[bitmapSize];
      for i := 0 to bitmapSize
        invariant fresh(bitmap) && bitmap.Length == bitmapSize
        invariant forall j :: 0 <= j < i ==> bitmap[j] == 0xFF
      {
        bitmap[i] := 0xFF;
      }
    }

    method LargestEnd(entries: seq<MmapEntry>) returns (maxAddr: nat)
      ensures maxAddr == MaxAddr(entries)
    {
      maxAddr := 0;
      for k := 0 to |entries|
        invariant maxAddr == MaxAddr(entries[..k])
      {
        assert entries[..k + 1][..k] == entries[..k];
        var entry := entries[k];
        if entry.kind == MEMORY_AVAILABLE {
          var end := (entry.addr + entry.len) % WORD;
          if end > maxAddr {
            maxAddr := end;
          }
        }
      }
      assert entries[..|entries|] == entries;
    }

    method FreeAvailable(entries: seq<MmapEntry>)
      requires Valid() && View().used == Below(totalPages)
      requires totalPages == TotalPages(entries) && InBounds(entries)
      modifies this`usedPages, bitmap
      ensures Valid()
      ensures forall i: nat :: i in View().used <==> i < totalPages && !Covered(entries, i)
    {
      hide Bit, TotalPages;
      for k := 0 to |entries|
        invariant Valid()
        invariant forall i: nat :: i in View().used <==> i < totalPages && !Covered(entries[..k], i)
      {
        var entry := entries[k];
        forall i: nat ensures Covered(entries[..k + 1], i) <==> Covered(entries[..k], i) || Covers(entry, i) {
          CoveredSnoc(entries, k, i);
        }
        if entry.kind == MEMORY_AVAILABLE {
          forall i: nat | Covers(entry, i) ensures i < totalPages {
            assert Covers(entries[k], i);
          }
          FreeEntry(entry);
        }
      }
      assert entries[..|entries|] == entries;
    }

    /** Pages already free, as in an overlapping region, are not counted again. */
    method FreeEntry(entry: MmapEntry)
      requires Valid() && Available(entry)
      requires forall i: nat :: Covers(entry, i) ==> i < totalPages
      modifies this`usedPages, bitmap
      ensures Valid()
      ensures forall i: nat :: i in View().used <==> i in old(View()).used && !Covers(entry, i)
    {
      var startPage := entry.addr / PAGE_SIZE;
      var numPages := entry.len / PAGE_SIZE;
      for n := 0 to numPages
        invariant Valid()
        invariant forall i: nat :: i in View().used <==> i in old(View()).used && !(startPage <= i < startPage + n)
      {
        assert Covers(entry, startPage + n);
        var isSet := BitmapTest(startPage + n);
        if !isSet {
          continue;
        }
        Give(startPage + n);
      }
    }

    method ReserveKernel(kernelEnd: nat)
      requires Valid() && kernelEnd >= KERNEL_START
      modifies this`usedPages, bitmap
      ensures Valid()
      ensures forall i: nat :: i in View().used
                               <==> i in old(View()).used || (i < totalPages && Reserved(totalPages, kernelEnd, i))
    {
      var kernelPages := (kernelEnd - KERNEL_START + PAGE_SIZE - 1) / PAGE_SIZE;
      var bitmapPages := ((totalPages + 7) / 8 + PAGE_SIZE - 1) / PAGE_SIZE;
      var first := KERNEL_START / PAGE_SIZE;
      var last := first + kernelPages + bitmapPages;
      assert forall i: nat :: Reserved(totalPages, kernelEnd, i) <==> first <= i < last;
      for i := first to last
        invariant Valid()
        invariant forall j: nat :: j in View().used <==> j in old(View()).used || (j < totalPages && first <= j < i)
      {
        if i < totalPages {
          var isSet := BitmapTest(i);
          if !isSet {
            Take(i);
          }
        }
      }
    }

    /** First fit over the bitmap: the lowest free frame, or 0 when there is none. */
    method AllocPage() returns (page: nat)
      requires Valid()
      modifies this`usedPages, bitmap
      ensures Valid()
      ensures (View(), page) == Frames.Alloc(old(View()))
    {
      for i := 0 to totalPages
        invariant Valid() && View() == old(View())
        invariant LowestFree(View(), 0) == LowestFree(View(), i)
      {
        var isSet := BitmapTest(i);
        if !isSet {
          Take(i);
          return i * PAGE_SIZE;
        }
      }
      return 0;
    }

    /** A page beyond the end or already free is ignored. */
    method FreePage(page: nat)
      requires Valid()
      modifies this`usedPages, bitmap
      ensures Valid()
      ensures View() == Frames.Free(old(View()), page)
    {
      var pfn := page / PAGE_SIZE;
      if pfn >= totalPages {
        return;
      }
      var isSet := BitmapTest(pfn);
      if !isSet {
        return;
      }
      Give(pfn);
    }
  }

  lemma CoveredSnoc(entries: seq<MmapEntry>, k: nat, i: nat)
    requires k < |entries|
    ensures Covered(entries[..k + 1], i) <==> Covered(entries[..k], i) || Covers(entries[k], i)
  {
    if Covers(entries[k], i) {
      assert entries[..k + 1][k] == entries[k];
    }
    if Covered(entries[..k], i) {
      var j :| 0 <= j < k && Covers(entries[..k][j], i);
      assert entries[..k + 1][j] == entries[..k][j];
    }
  }
}
