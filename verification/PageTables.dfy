/** Four-level page tables as a value: what the words of the tables mean, and what
    one call of the paging code does to them.  Class `Paging.Paging` refines the
    operations; `PagingLaws` proves what they promise. */
module PageTables {
  import opened Words
  import opened Frames

  const ENTRIES: nat := 512
  const TOP: nat := 4
  const PAGE_USER: nat := 4
  const PAGE_WRITABLE: nat := 2
  const PAGE_PRESENT: nat := 1

  type Entries = s: seq<nat> | |s| == ENTRIES witness seq(ENTRIES, _ => 0)

  /** A cleared table. */
  function Zeros(): (e: Entries)
    ensures forall i :: 0 <= i < ENTRIES ==> e[i] == 0
  {
    seq(ENTRIES, _ => 0)
  }

  /** One 4 KB table.  `level` (4 for a root, 1 for a leaf table) records the
      purpose it was allocated for; no operation looks at it. */
  datatype Table = Table(level: nat, entries: Entries)

  /** The tables by physical address, the frame allocator, and the current root. */
  datatype Space = Space(mem: map<nat, Table>, frames: FrameMap, root: nat)

  predicate Present(e: nat) { e % 2 == 1 }

  /** Bit 7: above the leaf level the entry maps a large page itself. */
  predicate Huge(e: nat) { e / 128 % 2 == 1 }

  /** An entry above the leaf level that leads to a table. */
  predicate Leads(e: nat) { Present(e) && !Huge(e) }

  /** Index of a virtual address into the table at the given level. */
  function Index(v: nat, level: nat): (i: nat)
    requires 1 <= level <= TOP
    ensures i < ENTRIES
  {
    (v / (match level case 4 => 0x80_0000_0000 case 3 => 0x4000_0000 case 2 => 0x20_0000 case 1 => 0x1000)) % ENTRIES
  }

  predicate SamePage(v: nat, w: nat) {
    v / 4096 % 0x10_0000_0000 == w / 4096 % 0x10_0000_0000
  }

  /** Address of the table at level `stop` on the way to `v`, walking down from
      table `t` at `level`; 0 if an entry on the way does not lead to a table. */
  function Walk(mem: map<nat, Table>, t: nat, level: nat, stop: nat, v: nat): nat
    requires 1 <= stop <= level <= TOP
    decreases level
  {
    if t !in mem then 0
    else if level == stop then t
    else if Leads(mem[t].entries[Index(v, level)]) then
      Walk(mem, PageOf(mem[t].entries[Index(v, level)]), level - 1, stop, v)
    else 0
  }

  /** No large page lies on the way to `v`.  The code takes every present entry for a link,
      so it must not be asked about pages behind one. */
  predicate Clear(mem: map<nat, Table>, t: nat, level: nat, v: nat)
    requires 1 <= level <= TOP
    decreases level
  {
    t !in mem || level == 1 || !Present(mem[t].entries[Index(v, level)])
    || (!Huge(mem[t].entries[Index(v, level)]) && Clear(mem, PageOf(mem[t].entries[Index(v, level)]), level - 1, v))
  }

  /** Where the walk of an unmap or a translation ends: at an entry that is not present, at
      the word taken for the page's entry, or in memory that holds no table. */
  datatype Access = Absent | At(word: nat) | Stray

  /** The walk as the code does it: present entries are followed whatever their other bits,
      and the last table is used without a look at what it is. */
  function CodeWalk(mem: map<nat, Table>, t: nat, level: nat, v: nat): Access
    requires 1 <= level <= TOP
    decreases level
  {
    if level == 1 then At(t + 8 * Index(v, 1))
    else if t !in mem then Stray
    else if !Present(mem[t].entries[Index(v, level)]) then Absent
    else CodeWalk(mem, PageOf(mem[t].entries[Index(v, level)]), level - 1, v)
  }

  /** Address of the leaf table that covers `v`. */
  function Leaf(mem: map<nat, Table>, t: nat, level: nat, v: nat): nat
    requires 1 <= level <= TOP
  {
    Walk(mem, t, level, 1, v)
  }

  /** The page-table entry of `v` in the address space of `root`; 0 if there is none. */
  function Entry(mem: map<nat, Table>, root: nat, v: nat): nat {
    var pt := Leaf(mem, root, TOP, v);
    if pt in mem then mem[pt].entries[Index(v, 1)] else 0
  }

  /** The answer of a translation; 0 also stands for "unmapped". */
  function Translate(mem: map<nat, Table>, root: nat, v: nat): (t: nat)
    ensures t == if Entry(mem, root, v) % 2 == 1 then Entry(mem, root, v) / 4096 * 4096 + v % 4096 else 0
  {
    var e := Entry(mem, root, v);
    PageOrOffset(e, v);
    if Present(e) then Or(PageOf(e), OffsetOf(v)) else 0
  }

  /** The low twelve bits are those of the flags, the others those of frame and flags. */
  function LeafEntry(phys: nat, flags: nat): (e: nat)
    ensures e % 4096 == flags % 4096 && e / 4096 == Or(phys / 4096, flags / 4096)
    ensures flags < 4096 ==> e == phys / 4096 * 4096 + flags
  {
    PageParts(phys, phys);
    OrOffset(PageOf(phys), flags);
    OrPage(PageOf(phys), flags);
    OrNone(phys / 4096);
    Or(PageOf(phys), flags)
  }

  function LinkEntry(table: nat): nat {
    Or(Or(Or(table, PAGE_USER), PAGE_PRESENT), PAGE_WRITABLE)
  }

  function SetEntry(mem: map<nat, Table>, t: nat, i: nat, e: nat): map<nat, Table>
    requires t in mem && i < ENTRIES
  {
    mem[t := mem[t].(entries := mem[t].entries[i := e])]
  }

  // ---------------------------------------------------------------- operations

  /** The table behind entry `i` of table `t`, allocated if absent; 0 if memory ran out. */
  function GetOrCreate(s: Space, t: nat, i: nat): (Space, nat)
    requires t in s.mem && i < ENTRIES
  {
    var e := s.mem[t].entries[i];
    if Present(e) then (s, PageOf(e)) else
    var (frames, c) := Alloc(s.frames);
    if c == 0 then (s.(frames := frames), 0) else
    var level := if s.mem[t].level > 0 then s.mem[t].level - 1 else 0;
    var mem := s.mem[c := Table(level, Zeros())];
    (s.(frames := frames, mem := SetEntry(mem, t, i, LinkEntry(c))), c)
  }

  /** Walk down to the leaf table of `v`, creating what is missing. */
  function GetLeaf(s: Space, t: nat, level: nat, v: nat): (Space, nat)
    requires 1 <= level <= TOP
    decreases level
  {
    if t !in s.mem then (s, 0)
    else if level == 1 then (s, t)
    else
      var (s', c) := GetOrCreate(s, t, Index(v, level));
      if c == 0 then (s', 0) else GetLeaf(s', c, level - 1, v)
  }

  /** The new state, and whether the mapping was entered. */
  function MapPage(s: Space, v: nat, phys: nat, flags: nat): (Space, bool) {
    var (s', pt) := GetLeaf(s, s.root, TOP, v);
    if pt !in s'.mem then (s', false)
    else (s'.(mem := SetEntry(s'.mem, pt, Index(v, 1), LeafEntry(phys, flags))), true)
  }

  function UnmapPage(s: Space, v: nat): Space {
    var pt := Leaf(s.mem, s.root, TOP, v);
    if pt !in s.mem then s else s.(mem := SetEntry(s.mem, pt, Index(v, 1), 0))
  }

  /** A fresh root that shares the current upper half; 0 if memory ran out. */
  function CreateSpace(s: Space): (Space, nat)
    requires s.root in s.mem
  {
    var (frames, c) := Alloc(s.frames);
    if c == 0 then (s.(frames := frames), 0) else
    var entries := Zeros()[..ENTRIES / 2] + s.mem[s.root].entries[ENTRIES / 2..];
    (s.(frames := frames, mem := s.mem[c := Table(TOP, entries)]), c)
  }

  function Switch(s: Space, root: nat): Space { s.(root := root) }

  // ---------------------------------------------------------------- the invariant

  /** Entry `i` of table `t` is a link to a lower table. */
  predicate Link(mem: map<nat, Table>, t: nat, i: nat) {
    t in mem && i < ENTRIES && mem[t].level >= 2 && Leads(mem[t].entries[i])
  }

  /** Entry `i` of table `t` maps a large page. */
  predicate LargePage(mem: map<nat, Table>, t: nat, i: nat) {
    t in mem && i < ENTRIES && mem[t].level >= 2 && Present(mem[t].entries[i]) && Huge(mem[t].entries[i])
  }

  function Child(mem: map<nat, Table>, t: nat, i: nat): nat
    requires Link(mem, t, i)
  {
    PageOf(mem[t].entries[i])
  }

  /** Every table sits in a page frame of its own that is marked used. */
  ghost predicate Owned(s: Space) {
    forall t :: t in s.mem ==> 0 < t && t % PAGE_SIZE == 0 && t / PAGE_SIZE in s.frames.used && 1 <= s.mem[t].level <= TOP
  }

  /** Links go exactly one level down. */
  ghost predicate Levels(mem: map<nat, Table>) {
    forall t: nat, i: nat :: Link(mem, t, i) ==> Child(mem, t, i) in mem && mem[Child(mem, t, i)].level == mem[t].level - 1
  }

  /** A table hangs off one entry only, except that roots may share a whole upper-half slot. */
  ghost predicate Unshared(mem: map<nat, Table>) {
    forall t: nat, i: nat, u: nat, j: nat {:trigger Child(mem, t, i), Child(mem, u, j)} :: Link(mem, t, i) && Link(mem, u, j) && Child(mem, t, i) == Child(mem, u, j)
      ==> i == j && (t == u || (mem[t].level == TOP && mem[u].level == TOP && i >= ENTRIES / 2))
  }

  /** No table is lost: each one that is not a root hangs off some entry. */
  ghost predicate Reachable(mem: map<nat, Table>) {
    forall c {:trigger HasParent(mem, c)} :: c in mem && mem[c].level < TOP ==> HasParent(mem, c)
  }

  ghost predicate HasParent(mem: map<nat, Table>, c: nat) {
    exists t: nat, i: nat :: Link(mem, t, i) && Child(mem, t, i) == c
  }

  predicate IsRoot(mem: map<nat, Table>, r: nat) { r in mem && mem[r].level == TOP }

  ghost predicate Inv(s: Space) {
    && Frames.Valid(s.frames)
    && Owned(s) && Levels(s.mem) && Unshared(s.mem) && Reachable(s.mem)
    && IsRoot(s.mem, s.root)
  }

  /** Two roots reach the same subtree through slot `i`. */
  predicate Shares(mem: map<nat, Table>, a: nat, b: nat, i: nat) {
    IsRoot(mem, a) && IsRoot(mem, b) && Link(mem, a, i) && Link(mem, b, i) && Child(mem, a, i) == Child(mem, b, i)
  }
}
