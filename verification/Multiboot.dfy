/** The boot information: tags and the memory map as they are encoded in memory
    (Multiboot2 Specification version 2.0, section 3.6), and the walks over them. */
module Multiboot {
  import opened Words
  import opened Pmm

  type Byte = b: nat | b < 256

  const BOOTLOADER_MAGIC: nat := 0x36d76289
  const WORD32: nat := 0x1_0000_0000
  const TAG_END: nat := 0
  const TAG_BOOT_LOADER_NAME: nat := 2
  const TAG_BASIC_MEMINFO: nat := 4
  const TAG_MMAP: nat := 6

  // ---------------------------------------------------------------- numbers

  function Pow256(k: nat): (p: nat)
    ensures p > 0
  {
    if k == 0 then 1 else 256 * Pow256(k - 1)
  }

  /** A number in `k` bytes, the least significant first. */
  function Bytes(n: nat, k: nat): (s: seq<Byte>)
    ensures |s| == k
  {
    if k == 0 then [] else [n % 256] + Bytes(n / 256, k - 1)
  }

  function Number(s: seq<Byte>): nat {
    if s == [] then 0 else s[0] + 256 * Number(s[1..])
  }

  lemma {:induction false} NumberOfBytes(n: nat, k: nat)
    requires n < Pow256(k)
    ensures Number(Bytes(n, k)) == n
  {
    if k > 0 {
      assert n / 256 < Pow256(k - 1);
      NumberOfBytes(n / 256, k - 1);
      assert Bytes(n, k)[1..] == Bytes(n / 256, k - 1);
    }
  }

  lemma Pow256Values()
    ensures Pow256(4) == WORD32 && Pow256(8) == WORD
  {
    assert Pow256(1) == 256 && Pow256(2) == 0x1_0000 && Pow256(3) == 0x100_0000;
    assert Pow256(5) == 0x100_0000_0000 && Pow256(6) == 0x1_0000_0000_0000 && Pow256(7) == 0x100_0000_0000_0000;
  }

  // ---------------------------------------------------------------- reading

  predicate Holds(info: seq<Byte>, off: nat, n: nat) { off + n <= |info| }

  function U32(info: seq<Byte>, off: nat): nat
    requires Holds(info, off, 4)
  {
    Number(info[off..off + 4])
  }

  function U64(info: seq<Byte>, off: nat): nat
    requires Holds(info, off, 8)
  {
    Number(info[off..off + 8])
  }

  /** The processor's byte order: numbers are read least significant byte first. */
  lemma LittleEndian(info: seq<Byte>, off: nat)
    requires Holds(info, off, 8)
    ensures U32(info, off) == (info[off] as nat) + (info[off + 1] as nat) * 0x100 + (info[off + 2] as nat) * 0x1_0000 + (info[off + 3] as nat) * 0x100_0000
    ensures U64(info, off) == U32(info, off) + 0x1_0000_0000 * U32(info, off + 4)
  {
    FourDigits(info[off..off + 4]);
    var s := info[off..off + 8];
    assert s[..4] == info[off..off + 4] && s[4..] == info[off + 4..off + 8];
    EightDigits(s);
  }

  lemma FourDigits(s: seq<Byte>)
    requires |s| >= 4
    ensures Number(s) == (s[0] as nat) + (s[1] as nat) * 0x100 + (s[2] as nat) * 0x1_0000 + (s[3] as nat) * 0x100_0000 + 0x1_0000_0000 * Number(s[4..])
    ensures Number([]) == 0
  {
    assert s[1..][1..] == s[2..] && s[2..][1..] == s[3..] && s[3..][1..] == s[4..];
    assert Number(s[3..]) == s[3] + 256 * Number(s[4..]);
    assert Number(s[2..]) == s[2] + 256 * Number(s[3..]);
    assert Number(s[1..]) == s[1] + 256 * Number(s[2..]);
  }

  lemma EightDigits(s: seq<Byte>)
    requires |s| == 8
    ensures Number(s) == Number(s[..4]) + 0x1_0000_0000 * Number(s[4..])
  {
    FourDigits(s);
    FourDigits(s[..4]);
    assert s[..4][4..] == [];
  }

  /** Tags are padded to 8 bytes, by less than 8; the sum is formed in 32 bits, and a size
      for which it wraps around leads nowhere. */
  function Padded(size: nat): (p: nat)
    ensures p % 8 == 0
    ensures size + 7 < 0x1_0000_0000 ==> size <= p < size + 8
    ensures 0xFFFF_FFF9 <= size < 0x1_0000_0000 ==> p == 0
  {
    (size + 7) % WORD32 / 8 * 8
  }

  function Kind(info: seq<Byte>, off: nat): nat
    requires Holds(info, off, 8)
  {
    U32(info, off)
  }

  function Size(info: seq<Byte>, off: nat): nat
    requires Holds(info, off, 8)
  {
    U32(info, off + 4)
  }

  /** Where the tags are that the walk from `off` visits before the end tag; none if the
      walk leaves the information or does not move on. */
  function TagOffsets(info: seq<Byte>, off: nat): Option<seq<nat>>
    decreases |info| - off
  {
    if !Holds(info, off, 8) then None
    else if Kind(info, off) == TAG_END then Some([])
    else if Padded(Size(info, off)) == 0 then None
    else match TagOffsets(info, off + Padded(Size(info, off)))
         case None => None
         case Some(rest) => Some([off] + rest)
  }

  /** The last of the tags at `offs` of a kind, or `otherwise`. */
  function LastOfKind(info: seq<Byte>, offs: seq<nat>, kind: nat, addr: nat, otherwise: nat): nat
    requires forall i :: 0 <= i < |offs| ==> Holds(info, offs[i], 8)
  {
    if offs == [] then otherwise
    else if Kind(info, offs[|offs| - 1]) == kind then addr + offs[|offs| - 1]
    else LastOfKind(info, offs[..|offs| - 1], kind, addr, otherwise)
  }

  lemma {:induction false} OffsetsHeld(info: seq<Byte>, off: nat)
    requires TagOffsets(info, off).Some?
    ensures forall i :: 0 <= i < |TagOffsets(info, off).value| ==> Holds(info, TagOffsets(info, off).value[i], 8)
    decreases |info| - off
  {
    if Kind(info, off) != TAG_END {
      OffsetsHeld(info, off + Padded(Size(info, off)));
    }
  }

  /** One step of the tag walk. */
  lemma WalkOn(info: seq<Byte>, tag: nat, visited: seq<nat>, all: seq<nat>)
    requires TagOffsets(info, tag).Some? && Kind(info, tag) != TAG_END && all == visited + TagOffsets(info, tag).value
    ensures var next := tag + Padded(Size(info, tag));
            tag < next <= |info| && Holds(info, next, 8) && TagOffsets(info, next).Some?
            && all == visited + [tag] + TagOffsets(info, next).value
  {
  }

  // ---------------------------------------------------------------- the memory map

  function EntryAt(info: seq<Byte>, off: nat): MmapEntry
    requires Holds(info, off, 20)
  {
    MmapEntry(U64(info, off), U64(info, off + 8), U32(info, off + 16))
  }

  /** The entries from `off` up to the end of the tag; none if they leave the information
      or have no size. */
  function EntriesFrom(info: seq<Byte>, off: nat, end: nat, entrySize: nat): Option<seq<MmapEntry>>
    decreases end - off
  {
    if off >= end then Some([])
    else if !Holds(info, off, 20) || entrySize == 0 then None
    else match EntriesFrom(info, off + entrySize, end, entrySize)
         case None => None
         case Some(rest) => Some([EntryAt(info, off)] + rest)
  }

  function Entries(info: seq<Byte>, tag: nat): Option<seq<MmapEntry>> {
    if !Holds(info, tag, 16) then None
    else EntriesFrom(info, tag + 16, tag + Size(info, tag), U32(info, tag + 8))
  }

  /** One step of the entry walk. */
  lemma EntriesOn(info: seq<Byte>, off: nat, end: nat, entrySize: nat, found: seq<MmapEntry>, all: seq<MmapEntry>)
    requires EntriesFrom(info, off, end, entrySize).Some? && off < end
    requires all == found + EntriesFrom(info, off, end, entrySize).value
    ensures entrySize > 0 && Holds(info, off, 20) && EntriesFrom(info, off + entrySize, end, entrySize).Some?
    ensures all == found + [EntryAt(info, off)] + EntriesFrom(info, off + entrySize, end, entrySize).value
  {
  }

  /** The memory maps among the tags at `offs` have entries that end. */
  predicate MapsEnd(info: seq<Byte>, offs: seq<nat>) {
    forall i :: 0 <= i < |offs| && Holds(info, offs[i], 8) && Kind(info, offs[i]) == TAG_MMAP ==> Entries(info, offs[i]).Some?
  }

  /** All entries of all memory maps at `offs`, in the order they are shown. */
  function Shown(info: seq<Byte>, offs: seq<nat>): seq<MmapEntry>
    requires MapsEnd(info, offs)
  {
    if offs == [] then [] else
    var n := |offs| - 1;
    Shown(info, offs[..n])
    + if Holds(info, offs[n], 8) && Kind(info, offs[n]) == TAG_MMAP then Entries(info, offs[n]).value else []
  }

  // ---------------------------------------------------------------- the parser

  class Parser {
    /** Addresses of the tags found, 0 before. */
    var mmapTag: nat
    var meminfoTag: nat
    var bootloaderTag: nat

    constructor ()
      ensures mmapTag == 0 && meminfoTag == 0 && bootloaderTag == 0
    {
      mmapTag, meminfoTag, bootloaderTag := 0, 0, 0;
    }

    /** The pointers are those of the last tags of their kinds among `visited`. */
    ghost predicate Latest(info: seq<Byte>, visited: seq<nat>, addr: nat, mmap0: nat, meminfo0: nat, bootloader0: nat)
      reads this
    {
      && (forall i :: 0 <= i < |visited| ==> Holds(info, visited[i], 8))
      && mmapTag == LastOfKind(info, visited, TAG_MMAP, addr, mmap0)
      && meminfoTag == LastOfKind(info, visited, TAG_BASIC_MEMINFO, addr, meminfo0)
      && bootloaderTag == LastOfKind(info, visited, TAG_BOOT_LOADER_NAME, addr, bootloader0)
    }

    /** Walk the tags of the information `info` at address `addr`, and show the entries of
        the memory maps among them. */
    method Parse(magic: nat, addr: nat, info: seq<Byte>) returns (visited: seq<nat>, shown: seq<MmapEntry>)
      requires magic == BOOTLOADER_MAGIC ==> TagOffsets(info, 8).Some? && MapsEnd(info, TagOffsets(info, 8).value)
      modifies this
      ensures magic != BOOTLOADER_MAGIC ==>
        visited == [] && mmapTag == old(mmapTag) && meminfoTag == old(meminfoTag) && bootloaderTag == old(bootloaderTag)
      ensures magic == BOOTLOADER_MAGIC ==>
        && visited == TagOffsets(info, 8).value && shown == Shown(info, visited)
        && Latest(info, visited, addr, old(mmapTag), old(meminfoTag), old(bootloaderTag))
    {
      visited, shown := [], [];
      if magic != BOOTLOADER_MAGIC {
        return;
      }
      var tag := 8;
      ghost var all := TagOffsets(info, 8).value;
      while Kind(info, tag) != TAG_END
        invariant Walked(info, tag, visited, shown, all)
        invariant Latest(info, visited, addr, old(mmapTag), old(meminfoTag), old(bootloaderTag))
        decreases |info| - tag
      {
        WalkedNext(info, tag, visited, shown, all);
        var entries := Visit(addr, info, tag, visited, old(mmapTag), old(meminfoTag), old(bootloaderTag));
        visited, shown := visited + [tag], shown + entries;
        tag := tag + Padded(Size(info, tag));
      }
    }

    method Visit(addr: nat, info: seq<Byte>, tag: nat, ghost visited: seq<nat>, ghost mmap0: nat, ghost meminfo0: nat, ghost bootloader0: nat)
      returns (entries: seq<MmapEntry>)
      requires Holds(info, tag, 8) && Latest(info, visited, addr, mmap0, meminfo0, bootloader0)
      requires Kind(info, tag) == TAG_MMAP ==> Entries(info, tag).Some?
      modifies this
      ensures Latest(info, visited + [tag], addr, mmap0, meminfo0, bootloader0)
      ensures entries == if Kind(info, tag) == TAG_MMAP then Entries(info, tag).value else []
    {
      assert (visited + [tag])[..|visited|] == visited;
      entries := [];
      var kind := Kind(info, tag);
      if kind == TAG_BOOT_LOADER_NAME {
        bootloaderTag := addr + tag;
      } else if kind == TAG_BASIC_MEMINFO {
        meminfoTag := addr + tag;
      } else if kind == TAG_MMAP {
        mmapTag := addr + tag;
        entries := WalkEntries(info, tag);
      }
    }

    /** Walk the entries of the memory map found. */
    method MemoryMap(addr: nat, info: seq<Byte>) returns (mmap: Option<seq<MmapEntry>>)
      requires mmapTag != 0 ==> mmapTag >= addr && Entries(info, mmapTag - addr).Some?
      ensures mmap == if mmapTag == 0 then None else Entries(info, mmapTag - addr)
    {
      if mmapTag == 0 {
        return None;
      }
      var found := WalkEntries(info, mmapTag - addr);
      return Some(found);
    }
  }

  /** The entry loop. */
  method WalkEntries(info: seq<Byte>, tag: nat) returns (found: seq<MmapEntry>)
    requires Entries(info, tag).Some?
    ensures found == Entries(info, tag).value
  {
    var end, entrySize := tag + Size(info, tag), U32(info, tag + 8);
    var entry := tag + 16;
    found := [];
    ghost var all := Entries(info, tag).value;
    while entry < end
      invariant EntriesFrom(info, entry, end, entrySize).Some?
      invariant all == found + EntriesFrom(info, entry, end, entrySize).value
      decreases end - entry
    {
      EntriesOn(info, entry, end, entrySize, found, all);
      found := found + [EntryAt(info, entry)];
      entry := entry + entrySize;
    }
    assert found + [] == found;
  }

  /** How far the tag walk has come: `visited` is behind it, the walk from `tag` before it. */
  ghost predicate Walked(info: seq<Byte>, tag: nat, visited: seq<nat>, shown: seq<MmapEntry>, all: seq<nat>) {
    && Holds(info, tag, 8) && TagOffsets(info, tag).Some? && all == visited + TagOffsets(info, tag).value
    && MapsEnd(info, all) && MapsEnd(info, visited) && shown == Shown(info, visited)
  }

  lemma WalkedNext(info: seq<Byte>, tag: nat, visited: seq<nat>, shown: seq<MmapEntry>, all: seq<nat>)
    requires Walked(info, tag, visited, shown, all) && Kind(info, tag) != TAG_END
    ensures Kind(info, tag) == TAG_MMAP ==> Entries(info, tag).Some?
    ensures var next := tag + Padded(Size(info, tag));
            var entries := if Kind(info, tag) == TAG_MMAP then Entries(info, tag).value else [];
            tag < next <= |info| && Walked(info, next, visited + [tag], shown + entries, all)
  {
    WalkOn(info, tag, visited, all);
    VisitedEnds(info, tag, visited, all);
    ShownNext(info, visited, tag);
  }

  lemma VisitedEnds(info: seq<Byte>, tag: nat, visited: seq<nat>, all: seq<nat>)
    requires MapsEnd(info, all) && TagOffsets(info, tag).Some? && Kind(info, tag) != TAG_END
    requires all == visited + TagOffsets(info, tag).value
    ensures Holds(info, tag, 8) && MapsEnd(info, visited + [tag])
    ensures Kind(info, tag) == TAG_MMAP ==> Entries(info, tag).Some?
  {
    WalkOn(info, tag, visited, all);
    var next := visited + [tag];
    assert all[|visited|] == tag;
    assert forall i :: 0 <= i < |next| ==> next[i] == all[i];
  }

  lemma ShownNext(info: seq<Byte>, visited: seq<nat>, tag: nat)
    requires Holds(info, tag, 8) && MapsEnd(info, visited) && MapsEnd(info, visited + [tag])
    ensures Kind(info, tag) == TAG_MMAP ==> Entries(info, tag).Some?
    ensures Shown(info, visited + [tag]) == Shown(info, visited) + if Kind(info, tag) == TAG_MMAP then Entries(info, tag).value else []
  {
    assert (visited + [tag])[..|visited|] == visited;
    assert (visited + [tag])[|visited|] == tag;
  }
}
