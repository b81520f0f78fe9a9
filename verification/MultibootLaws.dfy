/** Encoding a boot information, and that the walks read back exactly what was encoded. */
module MultibootLaws {
  import opened Words
  import opened Frames
  import opened Pmm
  import opened Multiboot

  /** A tag: its kind, what follows the eight header bytes, and the bytes of any value that
      fill up the last eight. */
  datatype Tag = Tag(kind: nat, payload: seq<Byte>, filler: seq<Byte>)

  function TagSize(t: Tag): nat { 8 + |t.payload| }

  /** Not the end tag, small enough for rounding up in 32 bits, and filled up. */
  predicate WellFormed(t: Tag) {
    && 0 < t.kind < 0x1_0000_0000 && 8 + |t.payload| + 7 < 0x1_0000_0000
    && |t.filler| == if |t.payload| % 8 == 0 then 0 else 8 - |t.payload| % 8
  }

  predicate AllWellFormed(tags: seq<Tag>) {
    forall i :: 0 <= i < |tags| ==> WellFormed(tags[i])
  }

  function Zeros(n: nat): (s: seq<Byte>)
    ensures |s| == n
  {
    seq(n, i => 0)
  }

  function Encode(t: Tag): (s: seq<Byte>)
    ensures |s| == 8 + |t.payload| + |t.filler|
  {
    Bytes(t.kind, 4) + Bytes(8 + |t.payload|, 4) + t.payload + t.filler
  }

  /** The tags, and an end tag: kind 0 and size 8. */
  function EncodeAll(tags: seq<Tag>): seq<Byte> {
    if tags == [] then Bytes(0, 4) + Bytes(8, 4) else Encode(tags[0]) + EncodeAll(tags[1..])
  }

  /** Where the tags lie when the first is at `off`. */
  function Offsets(tags: seq<Tag>, off: nat): (offs: seq<nat>)
    ensures |offs| == |tags|
  {
    if tags == [] then [] else [off] + Offsets(tags[1..], off + |Encode(tags[0])|)
  }

  /** The parser rounds up to just where the filler ends. */
  lemma FilledUp(t: Tag)
    requires WellFormed(t)
    ensures Padded(8 + |t.payload|) == |Encode(t)| > 0
  {
    var n, f := |t.payload|, |t.filler|;
    SameEight(8 + n + f, Padded(8 + n), 8 + n);
  }

  lemma SameEight(a: nat, b: nat, n: nat)
    requires a % 8 == 0 && b % 8 == 0 && n <= a < n + 8 && n <= b < n + 8
    ensures a == b
  {
  }

  /** `s` stands in `info` at `off`. */
  predicate Stands(info: seq<Byte>, off: nat, s: seq<Byte>) {
    Holds(info, off, |s|) && info[off..off + |s|] == s
  }

  lemma StandsPart(info: seq<Byte>, off: nat, a: seq<Byte>, b: seq<Byte>)
    requires Stands(info, off, a + b)
    ensures Stands(info, off, a) && Stands(info, off + |a|, b)
  {
    var s := info[off..off + |a + b|];
    assert info[off..off + |a|] == s[..|a|] == a;
    assert info[off + |a|..off + |a| + |b|] == s[|a|..] == b;
  }

  lemma ReadU32(info: seq<Byte>, off: nat, n: nat)
    requires Stands(info, off, Bytes(n, 4)) && n < WORD32
    ensures U32(info, off) == n
  {
    Pow256Values();
    NumberOfBytes(n, 4);
  }

  lemma ReadU64(info: seq<Byte>, off: nat, n: nat)
    requires Stands(info, off, Bytes(n, 8)) && n < WORD
    ensures U64(info, off) == n
  {
    Pow256Values();
    NumberOfBytes(n, 8);
  }

  /** Where an encoded tag stands, it is read back. */
  ghost predicate TagStands(info: seq<Byte>, off: nat, t: Tag) {
    && Holds(info, off, 8) && Size(info, off) == TagSize(t) && Holds(info, off, Size(info, off))
    && Kind(info, off) == t.kind && info[off + 8..off + Size(info, off)] == t.payload
  }

  lemma ReadTag(info: seq<Byte>, off: nat, t: Tag)
    requires WellFormed(t) && Stands(info, off, Encode(t))
    ensures TagStands(info, off, t)
  {
    var kind, size := Bytes(t.kind, 4), Bytes(TagSize(t), 4);
    StandsPart(info, off, kind + size + t.payload, t.filler);
    StandsPart(info, off, kind + size, t.payload);
    StandsPart(info, off, kind, size);
    ReadU32(info, off, t.kind);
    ReadU32(info, off + 4, TagSize(t));
  }

  /** Every tag of an encoded list is read back where it was put. */
  lemma {:induction false} TagsStand(info: seq<Byte>, off: nat, tags: seq<Tag>, i: nat)
    requires AllWellFormed(tags) && Stands(info, off, EncodeAll(tags)) && i < |tags|
    ensures TagStands(info, Offsets(tags, off)[i], tags[i])
    decreases tags
  {
    hide WellFormed, Encode, Bytes, TagStands;
    var t, rest := tags[0], tags[1..];
    StandsPart(info, off, Encode(t), EncodeAll(rest));
    if i == 0 {
      ReadTag(info, off, t);
    } else {
      TagsStand(info, off + |Encode(t)|, rest, i - 1);
    }
  }

  /** From an encoded tag the parser goes on to where its filler ends. */
  lemma LeadsOn(info: seq<Byte>, off: nat, t: Tag)
    requires WellFormed(t) && Stands(info, off, Encode(t))
    ensures Holds(info, off, 8) && Kind(info, off) != TAG_END && Padded(Size(info, off)) == |Encode(t)| > 0
  {
    ReadTag(info, off, t);
    FilledUp(t);
  }

  /** The walk over an encoded list visits exactly its tags, in order, and ends. */
  lemma {:induction false} WalkRoundTrip(info: seq<Byte>, off: nat, tags: seq<Tag>)
    requires AllWellFormed(tags) && Stands(info, off, EncodeAll(tags))
    ensures TagOffsets(info, off) == Some(Offsets(tags, off))
    decreases tags
  {
    hide WellFormed, Encode, Bytes, Stands, Padded, TagOffsets, Kind, Size;
    if tags == [] {
      StandsPart(info, off, Bytes(0, 4), Bytes(8, 4));
      ReadU32(info, off, 0);
      WalkEnds(info, off);
    } else {
      var t, rest := tags[0], tags[1..];
      var next := off + |Encode(t)|;
      StandsPart(info, off, Encode(t), EncodeAll(rest));
      WalkRoundTrip(info, next, rest);
      LeadsOn(info, off, t);
      WalkFirst(info, off, next, Offsets(rest, next));
    }
  }

  lemma WalkEnds(info: seq<Byte>, off: nat)
    requires Stands(info, off, Bytes(0, 4)) && Stands(info, off + 4, Bytes(8, 4)) && U32(info, off) == 0
    ensures TagOffsets(info, off) == Some([])
  {
  }

  lemma WalkFirst(info: seq<Byte>, off: nat, next: nat, rest: seq<nat>)
    requires Holds(info, off, 8) && Kind(info, off) != TAG_END && next == off + Padded(Size(info, off)) > off
    requires TagOffsets(info, next) == Some(rest)
    ensures TagOffsets(info, off) == Some([off] + rest)
  {
  }

  // ---------------------------------------------------------------- the last tag of a kind

  function LastTag(tags: seq<Tag>, kind: nat): (i: int)
    ensures -1 <= i < |tags|
    ensures i >= 0 ==> tags[i].kind == kind
    ensures forall j :: i < j < |tags| ==> tags[j].kind != kind
  {
    if tags == [] then -1
    else if tags[|tags| - 1].kind == kind then |tags| - 1
    else LastTag(tags[..|tags| - 1], kind)
  }

  lemma {:induction false} LastOfKindIsLast(info: seq<Byte>, offs: seq<nat>, tags: seq<Tag>, kind: nat, addr: nat, otherwise: nat)
    requires |offs| == |tags| && forall i :: 0 <= i < |tags| ==> TagStands(info, offs[i], tags[i])
    ensures forall i :: 0 <= i < |offs| ==> Holds(info, offs[i], 8)
    ensures var k := LastTag(tags, kind);
            LastOfKind(info, offs, kind, addr, otherwise) == if k < 0 then otherwise else addr + offs[k]
  {
    assert forall i :: 0 <= i < |offs| ==> TagStands(info, offs[i], tags[i]);
    if offs != [] {
      var n := |tags| - 1;
      assert TagStands(info, offs[n], tags[n]);
      LastOfKindIsLast(info, offs[..n], tags[..n], kind, addr, otherwise);
    }
  }

  // ---------------------------------------------------------------- the memory map

  predicate EntryFits(e: MmapEntry) { e.addr < WORD && e.len < WORD && e.kind < WORD32 }

  predicate AllFit(es: seq<MmapEntry>) {
    forall i :: 0 <= i < |es| ==> EntryFits(es[i])
  }

  /** An entry of `size` bytes; what exceeds the known fields is filled with zeros. */
  function EncodeEntry(e: MmapEntry, size: nat): (s: seq<Byte>)
    requires size >= 24
    ensures |s| == size
  {
    Bytes(e.addr, 8) + Bytes(e.len, 8) + Bytes(e.kind, 4) + Zeros(size - 20)
  }

  function EncodeEntries(es: seq<MmapEntry>, size: nat): seq<Byte>
    requires size >= 24
  {
    if es == [] then [] else EncodeEntry(es[0], size) + EncodeEntries(es[1..], size)
  }

  /** A memory map has kind 6. */
  predicate IsMapTag(t: Tag, es: seq<MmapEntry>, size: nat, version: nat)
    requires size >= 24
  {
    t.kind == 6 && t.payload == Bytes(size, 4) + Bytes(version, 4) + EncodeEntries(es, size)
  }

  lemma ReadEntry(info: seq<Byte>, off: nat, e: MmapEntry, size: nat)
    requires EntryFits(e) && size >= 24 && Stands(info, off, EncodeEntry(e, size))
    ensures Holds(info, off, 20) && EntryAt(info, off) == e
  {
    var a, l, k := Bytes(e.addr, 8), Bytes(e.len, 8), Bytes(e.kind, 4);
    StandsPart(info, off, a + l + k, Zeros(size - 20));
    StandsPart(info, off, a + l, k);
    StandsPart(info, off, a, l);
    ReadU64(info, off, e.addr);
    ReadU64(info, off + 8, e.len);
    ReadU32(info, off + 16, e.kind);
  }

  lemma {:induction false} EntriesRoundTrip(info: seq<Byte>, off: nat, end: nat, es: seq<MmapEntry>, size: nat)
    requires AllFit(es) && size >= 24 && Stands(info, off, EncodeEntries(es, size))
    requires end == off + |EncodeEntries(es, size)|
    ensures EntriesFrom(info, off, end, size) == Some(es)
    decreases es
  {
    if es != [] {
      StandsPart(info, off, EncodeEntry(es[0], size), EncodeEntries(es[1..], size));
      ReadEntry(info, off, es[0], size);
      EntriesRoundTrip(info, off + size, end, es[1..], size);
      FirstEntry(info, off, end, size, es[1..]);
      assert [es[0]] + es[1..] == es;
    }
  }

  lemma FirstEntry(info: seq<Byte>, off: nat, end: nat, size: nat, rest: seq<MmapEntry>)
    requires off < end && Holds(info, off, 20) && size > 0 && EntriesFrom(info, off + size, end, size) == Some(rest)
    ensures EntriesFrom(info, off, end, size) == Some([EntryAt(info, off)] + rest)
  {
  }

  /** The entry walk over an encoded memory map yields exactly its entries. */
  lemma MapRoundTrip(info: seq<Byte>, tag: nat, t: Tag, es: seq<MmapEntry>, size: nat, version: nat)
    requires AllFit(es) && 24 <= size < WORD32
    requires TagStands(info, tag, t) && IsMapTag(t, es, size, version)
    ensures Entries(info, tag) == Some(es)
  {
    assert Stands(info, tag + 8, t.payload);
    StandsPart(info, tag + 8, Bytes(size, 4) + Bytes(version, 4), EncodeEntries(es, size));
    StandsPart(info, tag + 8, Bytes(size, 4), Bytes(version, 4));
    ReadU32(info, tag + 8, size);
    EntriesRoundTrip(info, tag + 16, tag + Size(info, tag), es, size);
  }

  // ---------------------------------------------------------------- both walks

  /** A tag that is the encoding of some memory map. */
  ghost predicate IsMap(t: Tag) {
    exists es: seq<MmapEntry>, size: nat, version: nat :: AllFit(es) && 24 <= size < WORD32 && IsMapTag(t, es, size, version)
  }

  ghost predicate MapsWellFormed(tags: seq<Tag>) {
    forall i :: 0 <= i < |tags| && tags[i].kind == 6 ==> IsMap(tags[i])
  }

  lemma EncodedMapsEnd(info: seq<Byte>, offs: seq<nat>, tags: seq<Tag>)
    requires |offs| == |tags| && MapsWellFormed(tags)
    requires forall i :: 0 <= i < |tags| ==> TagStands(info, offs[i], tags[i])
    ensures MapsEnd(info, offs)
  {
    forall i | 0 <= i < |offs| && Holds(info, offs[i], 8) && Kind(info, offs[i]) == TAG_MMAP ensures Entries(info, offs[i]).Some? {
      assert TagStands(info, offs[i], tags[i]);
      assert tags[i].kind == 6;
      var es: seq<MmapEntry>, size: nat, version: nat :|
        AllFit(es) && 24 <= size < WORD32 && IsMapTag(tags[i], es, size, version);
      MapRoundTrip(info, offs[i], tags[i], es, size, version);
    }
  }

  /** The whole information: eight bytes of header, and the tags. */
  ghost predicate Encoded(info: seq<Byte>, tags: seq<Tag>) {
    AllWellFormed(tags) && MapsWellFormed(tags) && Stands(info, 8, EncodeAll(tags))
  }

  /** The address of the last tag of a kind, or 0. */
  function Place(tags: seq<Tag>, kind: nat, addr: nat): nat {
    var k := LastTag(tags, kind);
    if k < 0 then 0 else addr + Offsets(tags, 8)[k]
  }

  /** Parsing an encoded information finds the last memory map, memory size and boot loader
      name in it, wherever they stand and whatever fills the gaps between them. */
  method ParseTags(magic: nat, addr: nat, info: seq<Byte>, ghost tags: seq<Tag>) returns (parser: Parser)
    requires magic == 0x36d7_6289 && Encoded(info, tags)
    ensures fresh(parser)
    ensures parser.mmapTag == Place(tags, 6, addr) && parser.meminfoTag == Place(tags, 4, addr) && parser.bootloaderTag == Place(tags, 2, addr)
  {
    WalkRoundTrip(info, 8, tags);
    AllStand(info, tags);
    EncodedMapsEnd(info, Offsets(tags, 8), tags);
    parser := new Parser();
    var visited, _ := parser.Parse(magic, addr, info);
    LastOfKindIsLast(info, visited, tags, 6, addr, 0);
    LastOfKindIsLast(info, visited, tags, 4, addr, 0);
    LastOfKindIsLast(info, visited, tags, 2, addr, 0);
  }

  lemma AllStand(info: seq<Byte>, tags: seq<Tag>)
    requires Encoded(info, tags)
    ensures forall i :: 0 <= i < |tags| ==> TagStands(info, Offsets(tags, 8)[i], tags[i])
  {
    forall i | 0 <= i < |tags| ensures TagStands(info, Offsets(tags, 8)[i], tags[i]) {
      TagsStand(info, 8, tags, i);
    }
  }

  /** Reading the memory map then gives back the entries of the last one, however many other
      tags surround it. */
  method ParseAndRead(magic: nat, addr: nat, info: seq<Byte>, ghost tags: seq<Tag>, ghost es: seq<MmapEntry>, ghost size: nat, ghost version: nat)
    returns (mmap: Option<seq<MmapEntry>>)
    requires magic == 0x36d7_6289 && addr > 0 && Encoded(info, tags)
    requires LastTag(tags, 6) >= 0 ==>
      AllFit(es) && 24 <= size < WORD32 && IsMapTag(tags[LastTag(tags, 6)], es, size, version)
    ensures mmap == if LastTag(tags, 6) >= 0 then Some(es) else None
  {
    var parser := ParseTags(magic, addr, info, tags);
    ghost var k := LastTag(tags, 6);
    if k >= 0 {
      TagsStand(info, 8, tags, k);
      MapRoundTrip(info, Offsets(tags, 8)[k], tags[k], es, size, version);
    }
    mmap := parser.MemoryMap(addr, info);
  }

  /** From the bytes of the boot loader to the frame allocator: a frame is free exactly if the
      pages of an available entry of the map reach it, and it ends at or below 1 MB or starts
      at or behind the kernel and the bitmap. */
  method BootFrames(magic: nat, addr: nat, info: seq<Byte>, kernelEnd: nat,
                    ghost tags: seq<Tag>, ghost es: seq<MmapEntry>, ghost size: nat, ghost version: nat, ghost kernel: nat, ghost bitmap: nat)
    returns (pmm: Pmm)
    requires magic == 0x36d7_6289 && addr > 0 && Encoded(info, tags) && kernelEnd >= 0x10_0000
    requires AllFit(es) && 24 <= size < WORD32 && InBounds(es)
    requires LastTag(tags, 6) >= 0 && IsMapTag(tags[LastTag(tags, 6)], es, size, version)
    requires PagesUp(kernel, kernelEnd - 0x10_0000) && PagesUp(bitmap, (MaxAddr(es) / 4096 + 7) / 8)
    ensures fresh(pmm) && pmm.Valid() && pmm.View().total == MaxAddr(es) / 4096
    ensures forall i: nat :: i < pmm.View().total && i !in pmm.View().used <==> FreeFrame(es, kernel, bitmap, i)
  {
    hide FreeFrame, Encoded, IsMapTag;
    var mmap := ParseAndRead(magic, addr, info, tags, es, size, version);
    pmm := new Pmm();
    pmm.Init(mmap, kernelEnd);
    forall i: nat ensures i < MaxAddr(es) / 4096 && i !in InitialUsed(es, kernelEnd) <==> FreeFrame(es, kernel, bitmap, i) {
      FreeExactly(es, kernelEnd, kernel, bitmap, i);
    }
  }
}
