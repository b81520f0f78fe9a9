/** What the paging operations promise, for every address space at once. */
module PagingLaws {
  import opened Words
  import opened Frames
  import opened PageTables

  // ---------------------------------------------------------------- words

  /** The four indices together identify the page: bits 12 to 47. */
  lemma IndicesArePage(v: nat, w: nat)
    ensures SamePage(v, w) <==> forall level :: 1 <= level <= TOP ==> Index(v, level) == Index(w, level)
  {
    PageFromIndices(v);
    PageFromIndices(w);
    if SamePage(v, w) {
      DigitsUnique(Index(v, 4), Index(v, 3), Index(v, 2), Index(v, 1), Index(w, 4), Index(w, 3), Index(w, 2), Index(w, 1));
    }
  }

  lemma DigitsUnique(a4: nat, a3: nat, a2: nat, a1: nat, b4: nat, b3: nat, b2: nat, b1: nat)
    requires a3 < 512 && a2 < 512 && a1 < 512 && b3 < 512 && b2 < 512 && b1 < 512
    requires ((a4 * 512 + a3) * 512 + a2) * 512 + a1 == ((b4 * 512 + b3) * 512 + b2) * 512 + b1
    ensures a4 == b4 && a3 == b3 && a2 == b2 && a1 == b1
  {
    assert (a4 * 512 + a3) * 512 + a2 == (b4 * 512 + b3) * 512 + b2;
    assert a4 * 512 + a3 == b4 * 512 + b3;
  }

  lemma PageFromIndices(v: nat)
    ensures v / 4096 % 0x10_0000_0000 == ((Index(v, 4) * 512 + Index(v, 3)) * 512 + Index(v, 2)) * 512 + Index(v, 1)
  {
    var x := v / 4096;
    assert v / 0x20_0000 == x / 512 && v / 0x4000_0000 == x / 0x4_0000 && v / 0x80_0000_0000 == x / 0x800_0000;
    assert x / 0x4_0000 == x / 512 / 512 && x / 0x800_0000 == x / 512 / 512 / 512;
  }

  /** A link entry is the table's address with three flag bits: present, pointing at its
      table, and no large page. */
  lemma LinkEntryFacts(c: nat)
    requires c % 4096 == 0
    ensures LinkEntry(c) == c + 7 && Leads(LinkEntry(c)) && PageOf(LinkEntry(c)) == c
  {
    LinkEntryIs(c);
    FlagsAbovePage(c, 7);
  }

  lemma LinkEntryIs(c: nat)
    requires c % 4096 == 0
    ensures LinkEntry(c) == c + 7
  {
    hide Or;
    OrFlags(c, PAGE_USER);
    Quarters(c);
    assert PowerOfTwo(2) && PowerOfTwo(4);
    OrDisjoint(c / 4 + 1, 4, PAGE_PRESENT);
    OrHalf(c + 5, PAGE_WRITABLE);
    OrDisjoint(c / 4 + 1, 2, 1);
  }

  lemma Quarters(c: nat)
    requires c % 4096 == 0
    ensures (c / 4 + 1) * 4 == c + 4 && (c / 4 + 1) * 2 == (c + 5) / 2 && (c + 5) % 2 == 1
  {
    var k := 1024 * (c / 4096);
    assert c == 4 * k;
    FoursHalved(k);
  }

  lemma FoursHalved(k: nat)
    ensures 4 * k / 4 == k && (4 * k + 5) / 2 == 2 * k + 2 && (4 * k + 5) % 2 == 1
  {
  }

  lemma Of128(k: nat, r: nat)
    requires r < 128
    ensures (128 * k + r) / 128 == k
  {
  }

  lemma Of4096(k: nat, r: nat)
    requires r < 4096
    ensures (4096 * k + r) % 4096 == r
  {
  }

  lemma FlagsAbovePage(c: nat, flags: nat)
    requires c % 4096 == 0 && flags < 128 && flags % 2 == 1
    ensures Leads(c + flags) && PageOf(c + flags) == c
  {
    var k := c / 4096;
    assert c == 4096 * k == 128 * (32 * k);
    Of128(32 * k, flags);
    Of4096(k, flags);
  }

  // ---------------------------------------------------------------- paths are unique

  /** Two walks that meet in a table took the same indices, from the same table
      or from two roots that share the slot. */
  lemma {:induction false} WalkUnique(mem: map<nat, Table>, t: nat, u: nat, level: nat, stop: nat, v: nat, w: nat)
    requires Levels(mem) && Unshared(mem)
    requires t in mem && u in mem && mem[t].level == mem[u].level == level && 1 <= stop <= level <= TOP
    requires Walk(mem, t, level, stop, v) == Walk(mem, u, level, stop, w) != 0
    ensures forall k :: stop < k <= level ==> Index(v, k) == Index(w, k)
    ensures t == u || (level == TOP && stop < TOP && Shares(mem, t, u, Index(v, TOP)))
    decreases level
  {
    if level > stop {
      var i, j := Index(v, level), Index(w, level);
      assert Link(mem, t, i) && Link(mem, u, j);
      var c, d := Child(mem, t, i), Child(mem, u, j);
      WalkUnique(mem, c, d, level - 1, stop, v, w);
      assert c == d;
    }
  }

  /** Conversely, sharing the slot and the indices leads to the same leaf table. */
  lemma {:induction false} LeafSame(mem: map<nat, Table>, t: nat, level: nat, v: nat, w: nat)
    requires 1 <= level <= TOP
    requires forall k :: 2 <= k <= level ==> Index(v, k) == Index(w, k)
    ensures Leaf(mem, t, level, v) == Leaf(mem, t, level, w)
    decreases level
  {
    if level > 1 && t in mem && Leads(mem[t].entries[Index(v, level)]) {
      LeafSame(mem, PageOf(mem[t].entries[Index(v, level)]), level - 1, v, w);
    }
  }

  lemma {:induction false} LeafLevel(mem: map<nat, Table>, t: nat, level: nat, v: nat)
    requires Levels(mem) && 0 !in mem
    requires t in mem && mem[t].level == level && 1 <= level <= TOP
    ensures var pt := Leaf(mem, t, level, v); pt != 0 ==> pt in mem && mem[pt].level == 1
    decreases level
  {
    if level > 1 {
      var i := Index(v, level);
      if Leads(mem[t].entries[i]) {
        assert Link(mem, t, i);
        LeafLevel(mem, Child(mem, t, i), level - 1, v);
      }
    }
  }

  // ---------------------------------------------------------------- writing a leaf entry

  /** Table `b` sees page `w` through the very entry that `a` uses for page `v`. */
  predicate SameSlot(mem: map<nat, Table>, a: nat, v: nat, b: nat, w: nat) {
    SamePage(v, w) && (a == b || Shares(mem, a, b, Index(v, TOP)))
  }

  lemma {:induction false} LeafAfterLeafWrite(mem: map<nat, Table>, pt: nat, i: nat, e: nat, t: nat, level: nat, v: nat)
    requires Levels(mem) && pt in mem && mem[pt].level == 1 && i < ENTRIES
    requires t in mem && mem[t].level == level && 1 <= level <= TOP
    ensures Leaf(SetEntry(mem, pt, i, e), t, level, v) == Leaf(mem, t, level, v)
    decreases level
  {
    if level > 1 && Leads(mem[t].entries[Index(v, level)]) {
      assert Link(mem, t, Index(v, level));
      LeafAfterLeafWrite(mem, pt, i, e, Child(mem, t, Index(v, level)), level - 1, v);
    }
  }

  /** Writing the leaf entry of (`a`, `v`) changes exactly that page in `a`, and the
      same page in every address space that shares the slot. */
  lemma WriteLeafEntry(mem: map<nat, Table>, a: nat, v: nat, e: nat, b: nat, w: nat)
    requires Levels(mem) && Unshared(mem) && 0 !in mem
    requires IsRoot(mem, a) && IsRoot(mem, b)
    requires Leaf(mem, a, TOP, v) in mem
    ensures var mem' := SetEntry(mem, Leaf(mem, a, TOP, v), Index(v, 1), e);
            Entry(mem', b, w) == if SameSlot(mem, a, v, b, w) then e else Entry(mem, b, w)
  {
    var pt := Leaf(mem, a, TOP, v);
    LeafLevel(mem, a, TOP, v);
    LeafAfterLeafWrite(mem, pt, Index(v, 1), e, b, TOP, w);
    IndicesArePage(v, w);
    var pw := Leaf(mem, b, TOP, w);
    if SameSlot(mem, a, v, b, w) {
      LeafSame(mem, a, TOP, v, w);
      if a != b {
        var c := Child(mem, a, Index(v, TOP));
        assert c == Child(mem, b, Index(v, TOP));
        assert Index(v, TOP) == Index(w, TOP);
        assert Leaf(mem, a, TOP, w) == Leaf(mem, c, TOP - 1, w) == Leaf(mem, b, TOP, w);
      }
      assert pw == pt && Index(w, 1) == Index(v, 1);
    } else if pw == pt && Index(w, 1) == Index(v, 1) {
      WalkUnique(mem, a, b, TOP, 1, v, w);
    }
  }

  /** The same tables, linked in the same way. */
  ghost predicate SameLinks(mem: map<nat, Table>, mem': map<nat, Table>) {
    && mem.Keys == mem'.Keys
    && (forall t :: t in mem ==> mem'[t].level == mem[t].level)
    && (forall t: nat, i: nat :: Link(mem', t, i) <==> Link(mem, t, i))
    && (forall t: nat, i: nat :: Link(mem', t, i) ==> Child(mem', t, i) == Child(mem, t, i))
  }

  lemma SameLinksKeepReachable(mem: map<nat, Table>, mem': map<nat, Table>)
    requires Reachable(mem) && SameLinks(mem, mem')
    ensures Reachable(mem')
  {
    forall c | c in mem' && mem'[c].level < TOP ensures HasParent(mem', c) {
      assert HasParent(mem, c);
      var t: nat, i: nat :| Link(mem, t, i) && Child(mem, t, i) == c;
      assert Link(mem', t, i) && Child(mem', t, i) == c;
    }
  }

  lemma SameLinksKeepUnshared(mem: map<nat, Table>, mem': map<nat, Table>)
    requires Unshared(mem) && SameLinks(mem, mem')
    ensures Unshared(mem')
  {
    forall t: nat, i: nat, u: nat, j: nat | Link(mem', t, i) && Link(mem', u, j) && Child(mem', t, i) == Child(mem', u, j)
      ensures i == j && (t == u || (mem'[t].level == TOP && mem'[u].level == TOP && i >= ENTRIES / 2))
    {
      assert Child(mem, t, i) == Child(mem, u, j);
    }
  }

  lemma SameLinksKeepLevels(mem: map<nat, Table>, mem': map<nat, Table>)
    requires Levels(mem) && SameLinks(mem, mem')
    ensures Levels(mem')
  {
  }

  lemma LeafWriteKeepsLinks(mem: map<nat, Table>, pt: nat, i: nat, e: nat)
    requires pt in mem && mem[pt].level == 1 && i < ENTRIES
    ensures SameLinks(mem, SetEntry(mem, pt, i, e))
  {
  }

  lemma LeafWriteKeepsInv(s: Space, pt: nat, i: nat, e: nat)
    requires Inv(s) && pt in s.mem && s.mem[pt].level == 1 && i < ENTRIES
    ensures Inv(s.(mem := SetEntry(s.mem, pt, i, e)))
  {
    var mem' := SetEntry(s.mem, pt, i, e);
    LeafWriteKeepsLinks(s.mem, pt, i, e);
    SameLinksKeepLevels(s.mem, mem');
    SameLinksKeepUnshared(s.mem, mem');
    SameLinksKeepReachable(s.mem, mem');
  }

  // ---------------------------------------------------------------- hanging a new table off an absent entry

  /** `mem` with a cleared table `c` linked from the absent entry `i` of `t`. */
  function Linked(mem: map<nat, Table>, t: nat, i: nat, c: nat): map<nat, Table>
    requires t in mem && i < ENTRIES && mem[t].level >= 2
  {
    SetEntry(mem[c := Table(mem[t].level - 1, Zeros())], t, i, LinkEntry(c))
  }

  ghost predicate CanLink(mem: map<nat, Table>, t: nat, i: nat, c: nat) {
    && t in mem && i < ENTRIES && 2 <= mem[t].level <= TOP && !Present(mem[t].entries[i])
    && c !in mem && c > 0 && c % PAGE_SIZE == 0 && 0 !in mem
  }

  /** Exactly one link is added, and it is the only one to `c`. */
  lemma LinkedLinks(mem: map<nat, Table>, t: nat, i: nat, c: nat)
    requires CanLink(mem, t, i, c) && Levels(mem)
    ensures var mem' := Linked(mem, t, i, c);
            && (forall u: nat, j: nat :: Link(mem', u, j) <==> Link(mem, u, j) || (u == t && j == i))
            && (forall u: nat, j: nat :: Link(mem, u, j) ==> Child(mem', u, j) == Child(mem, u, j) != c)
            && Child(mem', t, i) == c
  {
    LinkEntryFacts(c);
  }

  lemma LinkedKeepsLevels(mem: map<nat, Table>, t: nat, i: nat, c: nat)
    requires CanLink(mem, t, i, c) && Levels(mem)
    ensures Levels(Linked(mem, t, i, c))
  {
    LinkedLinks(mem, t, i, c);
  }

  lemma LinkedKeepsUnshared(mem: map<nat, Table>, t: nat, i: nat, c: nat)
    requires CanLink(mem, t, i, c) && Levels(mem) && Unshared(mem)
    ensures Unshared(Linked(mem, t, i, c))
  {
    LinkedLinks(mem, t, i, c);
    var mem' := Linked(mem, t, i, c);
    forall u: nat, j: nat, x: nat, k: nat | Link(mem', u, j) && Link(mem', x, k) && Child(mem', u, j) == Child(mem', x, k)
      ensures j == k && (u == x || (mem'[u].level == TOP && mem'[x].level == TOP && j >= ENTRIES / 2))
    {
      if Link(mem, u, j) && Link(mem, x, k) {
        assert Child(mem, u, j) == Child(mem, x, k);
      }
    }
  }

  lemma LinkedKeepsReachable(mem: map<nat, Table>, t: nat, i: nat, c: nat)
    requires CanLink(mem, t, i, c) && Levels(mem) && Reachable(mem)
    ensures Reachable(Linked(mem, t, i, c))
  {
    LinkedLinks(mem, t, i, c);
    var mem' := Linked(mem, t, i, c);
    forall d | d in mem' && mem'[d].level < TOP ensures HasParent(mem', d) {
      if d == c {
        assert Link(mem', t, i) && Child(mem', t, i) == c;
      } else {
        assert HasParent(mem, d);
        var u: nat, j: nat :| Link(mem, u, j) && Child(mem, u, j) == d;
        assert Link(mem', u, j) && Child(mem', u, j) == d;
      }
    }
  }

  /** A walk either ends where it did, or newly reaches the cleared table. */
  lemma {:induction false} LeafAfterLink(mem: map<nat, Table>, t: nat, i: nat, c: nat, u: nat, level: nat, w: nat)
    requires CanLink(mem, t, i, c) && Levels(mem)
    requires u in mem && mem[u].level == level && 1 <= level <= TOP
    ensures var l, l' := Leaf(mem, u, level, w), Leaf(Linked(mem, t, i, c), u, level, w);
            if l != 0 then l' == l else l' == 0 || l' == c
    decreases level
  {
    LinkedLinks(mem, t, i, c);
    var mem' := Linked(mem, t, i, c);
    var j := Index(w, level);
    if level > 1 {
      assert mem'[u].level == level;
      if Link(mem, u, j) {
        LeafAfterLink(mem, t, i, c, Child(mem, u, j), level - 1, w);
      } else if u == t && j == i {
        assert Leaf(mem', u, level, w) == Leaf(mem', c, level - 1, w);
        assert mem'[c].entries == Zeros();
      }
    }
  }

  lemma {:induction false} ClearAfterLink(mem: map<nat, Table>, t: nat, i: nat, c: nat, u: nat, level: nat, w: nat)
    requires CanLink(mem, t, i, c) && Levels(mem)
    requires u in mem && mem[u].level == level && 1 <= level <= TOP && Clear(mem, u, level, w)
    ensures Clear(Linked(mem, t, i, c), u, level, w)
    decreases level
  {
    LinkedLinks(mem, t, i, c);
    var mem' := Linked(mem, t, i, c);
    var j := Index(w, level);
    if level > 1 {
      assert mem'[u].level == level;
      if Link(mem, u, j) {
        ClearAfterLink(mem, t, i, c, Child(mem, u, j), level - 1, w);
      } else if u == t && j == i {
        LinkEntryFacts(c);
        assert mem'[c].entries == Zeros();
      }
    }
  }

  lemma {:induction false} ClearAfterLeafWrite(mem: map<nat, Table>, pt: nat, i: nat, e: nat, t: nat, level: nat, v: nat)
    requires Levels(mem) && pt in mem && mem[pt].level == 1 && i < ENTRIES
    requires t in mem && mem[t].level == level && 1 <= level <= TOP && Clear(mem, t, level, v)
    ensures Clear(SetEntry(mem, pt, i, e), t, level, v)
    decreases level
  {
    if level > 1 && Leads(mem[t].entries[Index(v, level)]) {
      assert Link(mem, t, Index(v, level));
      ClearAfterLeafWrite(mem, pt, i, e, Child(mem, t, Index(v, level)), level - 1, v);
    }
  }

  lemma LeafWriteKeepsClear(mem: map<nat, Table>, pt: nat, i: nat, e: nat)
    requires Levels(mem) && pt in mem && mem[pt].level == 1 && i < ENTRIES
    ensures ClearKept(mem, SetEntry(mem, pt, i, e))
  {
    forall b: nat, w: nat | IsRoot(mem, b) && Clear(mem, b, TOP, w) ensures Clear(SetEntry(mem, pt, i, e), b, TOP, w) {
      ClearAfterLeafWrite(mem, pt, i, e, b, TOP, w);
    }
  }

  /** No translation anywhere changes when a cleared table is linked in. */
  lemma EntryAfterLink(mem: map<nat, Table>, t: nat, i: nat, c: nat, b: nat, w: nat)
    requires CanLink(mem, t, i, c) && Levels(mem) && IsRoot(mem, b)
    ensures Entry(Linked(mem, t, i, c), b, w) == Entry(mem, b, w)
  {
    LeafAfterLink(mem, t, i, c, b, TOP, w);
    LeafLevel(mem, b, TOP, w);
    var l' := Leaf(Linked(mem, t, i, c), b, TOP, w);
    var mem' := Linked(mem, t, i, c);
    assert mem'[c].entries == Zeros();
    if l' in mem && l' != 0 {
      assert mem[l'].level == 1;
    }
  }

  /** Every address space translates every page as before. */
  ghost predicate SameEntries(mem: map<nat, Table>, mem': map<nat, Table>) {
    forall b: nat, w: nat :: IsRoot(mem, b) ==> Entry(mem', b, w) == Entry(mem, b, w)
  }

  ghost predicate SameSharing(mem: map<nat, Table>, mem': map<nat, Table>) {
    forall a: nat, b: nat, i: nat :: a != b ==> (Shares(mem', a, b, i) <==> Shares(mem, a, b, i))
  }

  /** No table disappears; no link, once made, is ever changed, and no large page. */
  ghost predicate KeepsLinks(mem: map<nat, Table>, mem': map<nat, Table>) {
    && (forall t :: t in mem ==> t in mem' && mem'[t].level == mem[t].level)
    && (forall t: nat, i: nat :: Link(mem, t, i) ==> Link(mem', t, i) && mem'[t].entries[i] == mem[t].entries[i])
    && (forall t: nat, i: nat :: LargePage(mem, t, i) ==> LargePage(mem', t, i) && mem'[t].entries[i] == mem[t].entries[i])
  }

  /** Pages that are not behind a large page stay so. */
  ghost predicate ClearKept(mem: map<nat, Table>, mem': map<nat, Table>) {
    forall b: nat, w: nat :: IsRoot(mem, b) && Clear(mem, b, TOP, w) ==> Clear(mem', b, TOP, w)
  }

  /** Every frame taken -- frame 0 aside -- is a table that is now in place. */
  ghost predicate Accounted(s: Space, s': Space) {
    && s'.frames.total == s.frames.total && s.frames.used <= s'.frames.used
    && (forall x :: x in s'.frames.used ==> x in s.frames.used || x == 0 || (x * PAGE_SIZE in s'.mem && x * PAGE_SIZE !in s.mem))
  }

  /** What filling in missing tables may do: no translation of any address space
      moves, no link changes, sharing stays as it was, no frame is lost. */
  ghost predicate Grew(s: Space, s': Space) {
    && Inv(s') && s'.root == s.root
    && KeepsLinks(s.mem, s'.mem) && SameEntries(s.mem, s'.mem) && SameSharing(s.mem, s'.mem)
    && ClearKept(s.mem, s'.mem) && Accounted(s, s')
  }

  lemma KeepsLinksTransitive(m0: map<nat, Table>, m1: map<nat, Table>, m2: map<nat, Table>)
    requires KeepsLinks(m0, m1) && KeepsLinks(m1, m2)
    ensures KeepsLinks(m0, m2)
  {
  }

  lemma SameEntriesTransitive(m0: map<nat, Table>, m1: map<nat, Table>, m2: map<nat, Table>)
    requires SameEntries(m0, m1) && SameEntries(m1, m2) && KeepsLinks(m0, m1)
    ensures SameEntries(m0, m2)
  {
  }

  lemma ClearKeptTransitive(m0: map<nat, Table>, m1: map<nat, Table>, m2: map<nat, Table>)
    requires ClearKept(m0, m1) && ClearKept(m1, m2) && KeepsLinks(m0, m1)
    ensures ClearKept(m0, m2)
  {
  }

  lemma SameSharingTransitive(m0: map<nat, Table>, m1: map<nat, Table>, m2: map<nat, Table>)
    requires SameSharing(m0, m1) && SameSharing(m1, m2)
    ensures SameSharing(m0, m2)
  {
    forall a: nat, b: nat, i: nat | a != b ensures Shares(m2, a, b, i) <==> Shares(m0, a, b, i) {
      assert Shares(m1, a, b, i) <==> Shares(m0, a, b, i);
    }
  }

  lemma AccountedTransitive(s0: Space, s1: Space, s2: Space)
    requires Accounted(s0, s1) && Accounted(s1, s2) && s0.mem.Keys <= s1.mem.Keys <= s2.mem.Keys
    ensures Accounted(s0, s2)
  {
  }

  lemma GrewTransitive(s0: Space, s1: Space, s2: Space)
    ensures Grew(s0, s1) && Grew(s1, s2) ==> Grew(s0, s2)
  {
    if Grew(s0, s1) && Grew(s1, s2) {
      KeepsLinksTransitive(s0.mem, s1.mem, s2.mem);
      SameEntriesTransitive(s0.mem, s1.mem, s2.mem);
      ClearKeptTransitive(s0.mem, s1.mem, s2.mem);
      SameSharingTransitive(s0.mem, s1.mem, s2.mem);
      AccountedTransitive(s0, s1, s2);
    }
  }

  lemma LinkedSharing(mem: map<nat, Table>, t: nat, i: nat, c: nat, a: nat, b: nat, j: nat)
    requires CanLink(mem, t, i, c) && Levels(mem) && a != b
    ensures Shares(Linked(mem, t, i, c), a, b, j) <==> Shares(mem, a, b, j)
  {
    LinkedLinks(mem, t, i, c);
  }

  lemma LinkKeepsInv(s: Space, t: nat, i: nat, frames: FrameMap, c: nat)
    requires Inv(s) && CanLink(s.mem, t, i, c)
    requires Frames.Valid(frames) && s.frames.used <= frames.used && c / PAGE_SIZE in frames.used
    ensures Inv(s.(frames := frames, mem := Linked(s.mem, t, i, c)))
  {
    LinkedKeepsLevels(s.mem, t, i, c);
    LinkedKeepsUnshared(s.mem, t, i, c);
    LinkedKeepsReachable(s.mem, t, i, c);
  }

  lemma LinkedKeepsLinks(mem: map<nat, Table>, t: nat, i: nat, c: nat)
    requires CanLink(mem, t, i, c)
    ensures KeepsLinks(mem, Linked(mem, t, i, c))
  {
  }

  lemma LinkAccounted(s: Space, t: nat, i: nat, frames: FrameMap, c: nat)
    requires CanLink(s.mem, t, i, c)
    requires frames == s.frames.(used := s.frames.used + {c / PAGE_SIZE})
    ensures Accounted(s, s.(frames := frames, mem := Linked(s.mem, t, i, c)))
  {
    assert c / PAGE_SIZE * PAGE_SIZE == c;
  }

  lemma LinkGrows(s: Space, t: nat, i: nat, frames: FrameMap, c: nat)
    requires Inv(s) && CanLink(s.mem, t, i, c)
    requires Frames.Valid(frames) && frames == s.frames.(used := s.frames.used + {c / PAGE_SIZE})
    ensures Grew(s, s.(frames := frames, mem := Linked(s.mem, t, i, c)))
  {
    var mem, mem' := s.mem, Linked(s.mem, t, i, c);
    LinkKeepsInv(s, t, i, frames, c);
    LinkedKeepsLinks(mem, t, i, c);
    LinkAccounted(s, t, i, frames, c);
    assert SameEntries(mem, mem') by {
      forall b: nat, w: nat | IsRoot(mem, b) ensures Entry(mem', b, w) == Entry(mem, b, w) {
        EntryAfterLink(mem, t, i, c, b, w);
      }
    }
    assert ClearKept(mem, mem') by {
      forall b: nat, w: nat | IsRoot(mem, b) && Clear(mem, b, TOP, w) ensures Clear(mem', b, TOP, w) {
        ClearAfterLink(mem, t, i, c, b, TOP, w);
      }
    }
    assert SameSharing(mem, mem') by {
      forall a: nat, b: nat, j: nat | a != b ensures Shares(mem', a, b, j) <==> Shares(mem, a, b, j) {
        LinkedSharing(mem, t, i, c, a, b, j);
      }
    }
  }

  lemma OutOfMemoryGrows(s: Space, frames: FrameMap)
    requires Inv(s) && Frames.Valid(frames)
    requires frames.total == s.frames.total && s.frames.used <= frames.used <= s.frames.used + {0}
    ensures Grew(s, s.(frames := frames))
  {
  }

  lemma GetOrCreateGrows(s: Space, t: nat, i: nat)
    requires Inv(s) && t in s.mem && i < ENTRIES && s.mem[t].level >= 2 && !LargePage(s.mem, t, i)
    ensures var (s', c) := GetOrCreate(s, t, i);
            && Grew(s, s')
            && (c != 0 ==> Link(s'.mem, t, i) && Child(s'.mem, t, i) == c && c in s'.mem && s'.mem[c].level == s.mem[t].level - 1)
  {
    if Present(s.mem[t].entries[i]) {
      assert Link(s.mem, t, i);
    } else {
      AllocMeaning(s.frames);
      var (frames, c) := Alloc(s.frames);
      if c != 0 {
        assert CanLink(s.mem, t, i, c);
        assert GetOrCreate(s, t, i) == (s.(frames := frames, mem := Linked(s.mem, t, i, c)), c);
        LinkGrows(s, t, i, frames, c);
        LinkedLinks(s.mem, t, i, c);
      } else {
        OutOfMemoryGrows(s, frames);
      }
    }
  }

  // ---------------------------------------------------------------- mapping

  /** A link still leads one step down after later growth. */
  lemma WalkThroughLink(mem: map<nat, Table>, mem': map<nat, Table>, t: nat, level: nat, v: nat)
    requires KeepsLinks(mem, mem') && 2 <= level <= TOP && Link(mem, t, Index(v, level))
    ensures Leaf(mem', t, level, v) == Leaf(mem', Child(mem, t, Index(v, level)), level - 1, v)
  {
    assert Link(mem', t, Index(v, level));
  }

  /** What get-or-create leads to is as clear as the way through it was. */
  lemma ClearBelow(s: Space, t: nat, level: nat, v: nat)
    requires Inv(s) && t in s.mem && s.mem[t].level == level && 2 <= level <= TOP && Clear(s.mem, t, level, v)
    ensures !LargePage(s.mem, t, Index(v, level))
    ensures var (s', c) := GetOrCreate(s, t, Index(v, level)); c != 0 ==> Clear(s'.mem, c, level - 1, v)
  {
    if !Present(s.mem[t].entries[Index(v, level)]) {
      CreatedTableIsEmpty(s, t, Index(v, level));
    }
  }

  lemma {:induction false} GetLeafGrows(s: Space, t: nat, level: nat, v: nat)
    requires Inv(s) && t in s.mem && s.mem[t].level == level && 1 <= level <= TOP && Clear(s.mem, t, level, v)
    ensures Grew(s, GetLeaf(s, t, level, v).0)
    decreases level
  {
    if level == 1 {
      OutOfMemoryGrows(s, s.frames);
    } else {
      var (s1, c) := GetOrCreate(s, t, Index(v, level));
      ClearBelow(s, t, level, v);
      GetOrCreateGrows(s, t, Index(v, level));
      if c != 0 {
        GetLeafGrows(s1, c, level - 1, v);
        GrewTransitive(s, s1, GetLeaf(s1, c, level - 1, v).0);
      }
    }
  }

  /** Table `t` is where the walk to `v` has come to at `level`. */
  ghost predicate AtLevel(s: Space, t: nat, level: nat, v: nat) {
    1 <= level <= TOP && t in s.mem && s.mem[t].level == level && Clear(s.mem, t, level, v)
  }

  /** One level of the walk that creates what is missing. */
  lemma GetLeafStep(s: Space, t: nat, level: nat, v: nat)
    requires Inv(s) && AtLevel(s, t, level, v) && level >= 2
    ensures var (s', c) := GetOrCreate(s, t, Index(v, level));
            && Inv(s') && GetLeaf(s, t, level, v) == (if c == 0 then (s', 0) else GetLeaf(s', c, level - 1, v))
            && (c != 0 ==> AtLevel(s', c, level - 1, v) && Link(s'.mem, t, Index(v, level)) && Child(s'.mem, t, Index(v, level)) == c)
  {
    ClearBelow(s, t, level, v);
    GetOrCreateGrows(s, t, Index(v, level));
  }

  /** A table obtained is the leaf table of `v` from then on. */
  lemma {:induction false} GetLeafReaches(s: Space, t: nat, level: nat, v: nat)
    requires Inv(s) && AtLevel(s, t, level, v)
    ensures var (s', pt) := GetLeaf(s, t, level, v);
            pt != 0 ==> pt in s'.mem && s'.mem[pt].level == 1 && Leaf(s'.mem, t, level, v) == pt
    decreases level
  {
    hide Inv, Clear;
    if level > 1 {
      var (s1, c) := GetOrCreate(s, t, Index(v, level));
      GetLeafStep(s, t, level, v);
      if c != 0 {
        GetLeafReaches(s1, c, level - 1, v);
        GetLeafGrows(s1, c, level - 1, v);
        WalkThroughLink(s1.mem, GetLeaf(s1, c, level - 1, v).0.mem, t, level, v);
      }
    }
  }

  /** How many tables are missing on the way to `v`. */
  function Missing(mem: map<nat, Table>, t: nat, level: nat, v: nat): nat
    requires 1 <= level <= TOP
    decreases level
  {
    if t !in mem || level == 1 then 0
    else if Present(mem[t].entries[Index(v, level)]) then
      Missing(mem, PageOf(mem[t].entries[Index(v, level)]), level - 1, v)
    else level - 1
  }

  lemma MissingBelowZeros(mem: map<nat, Table>, c: nat, level: nat, v: nat)
    requires c in mem && mem[c].entries == Zeros() && 1 <= level <= TOP
    ensures Missing(mem, c, level, v) == level - 1
  {
  }

  lemma CreatedTableIsEmpty(s: Space, t: nat, i: nat)
    requires Inv(s) && t in s.mem && i < ENTRIES && s.mem[t].level >= 2 && !Present(s.mem[t].entries[i])
    ensures var (s', c) := GetOrCreate(s, t, i);
            && (s'.frames, c) == Alloc(s.frames)
            && (c != 0 ==> c in s'.mem && s'.mem[c].entries == Zeros())
  {
    AllocMeaning(s.frames);
  }

  /** `n` missing tables are drawn one after the other, stopping at the first failure. */
  predicate DrewTables(before: FrameMap, n: nat, after: FrameMap, pt: nat) {
    after == Draw(before, n).0 && (pt != 0 <==> |Draw(before, n).1| == n)
  }

  lemma DrewOneMore(before: FrameMap, n: nat, after: FrameMap, pt: nat)
    requires n > 0 && Alloc(before).1 != 0
    requires DrewTables(Alloc(before).0, n - 1, after, pt)
    ensures DrewTables(before, n, after, pt)
  {
    DrawFirst(before, n);
  }

  lemma PresentDraws(s: Space, t: nat, level: nat, v: nat)
    requires Inv(s) && AtLevel(s, t, level, v) && level >= 2 && Leads(s.mem[t].entries[Index(v, level)])
    ensures var (s1, c) := GetOrCreate(s, t, Index(v, level));
            s1 == s && c != 0 && Missing(s.mem, t, level, v) == Missing(s.mem, c, level - 1, v)
  {
    PresentIsLink(s, t, Index(v, level));
  }

  lemma AbsentDraws(s: Space, t: nat, level: nat, v: nat)
    requires Inv(s) && AtLevel(s, t, level, v) && level >= 2 && !Leads(s.mem[t].entries[Index(v, level)])
    ensures var (s1, c) := GetOrCreate(s, t, Index(v, level));
            && (s1.frames, c) == Alloc(s.frames) && Missing(s.mem, t, level, v) == level - 1
            && (c != 0 ==> Missing(s1.mem, c, level - 1, v) == level - 2)
  {
    hide Owned, Levels, Unshared, Reachable;
    var (s1, c) := GetOrCreate(s, t, Index(v, level));
    CreatedTableIsEmpty(s, t, Index(v, level));
    if c != 0 {
      MissingBelowZeros(s1.mem, c, level - 1, v);
    }
  }

  lemma NothingMissing(s: Space, t: nat, v: nat)
    requires Inv(s) && AtLevel(s, t, 1, v)
    ensures DrewTables(s.frames, Missing(s.mem, t, 1, v), GetLeaf(s, t, 1, v).0.frames, GetLeaf(s, t, 1, v).1)
  {
  }

  lemma NoneDrawn(before: FrameMap, n: nat)
    requires n > 0 && Alloc(before).1 == 0
    ensures DrewTables(before, n, Alloc(before).0, 0)
  {
    DrawFirst(before, n);
  }

  /** The frames taken are exactly those of the missing tables. */
  lemma {:induction false} GetLeafDraws(s: Space, t: nat, level: nat, v: nat)
    requires Inv(s) && AtLevel(s, t, level, v)
    ensures DrewTables(s.frames, Missing(s.mem, t, level, v), GetLeaf(s, t, level, v).0.frames, GetLeaf(s, t, level, v).1)
    decreases level
  {
    hide Inv, Clear, DrewTables, Draw;
    if level == 1 {
      NothingMissing(s, t, v);
    } else {
      var (s1, c) := GetOrCreate(s, t, Index(v, level));
      GetLeafStep(s, t, level, v);
      if Leads(s.mem[t].entries[Index(v, level)]) {
        PresentDraws(s, t, level, v);
        GetLeafDraws(s1, c, level - 1, v);
      } else {
        AbsentDraws(s, t, level, v);
        if c == 0 {
          NoneDrawn(s.frames, level - 1);
        } else {
          GetLeafDraws(s1, c, level - 1, v);
          DrewOneMore(s.frames, level - 1, GetLeaf(s, t, level, v).0.frames, GetLeaf(s, t, level, v).1);
        }
      }
    }
  }

  /** Tables that are new lie in frames that were free. */
  ghost predicate FreshTables(s: Space, s': Space) {
    s.frames.used <= s'.frames.used && forall t :: t in s'.mem && t !in s.mem ==> t / PAGE_SIZE !in s.frames.used
  }

  lemma GetOrCreateFresh(s: Space, t: nat, i: nat)
    requires Frames.Valid(s.frames) && t in s.mem && i < ENTRIES
    ensures FreshTables(s, GetOrCreate(s, t, i).0)
  {
    AllocMeaning(s.frames);
  }

  lemma InvValid(s: Space)
    requires Inv(s)
    ensures Frames.Valid(s.frames) && Owned(s) && IsRoot(s.mem, s.root)
  {
  }

  lemma {:induction false} GetLeafFresh(s: Space, t: nat, level: nat, v: nat)
    requires Inv(s) && AtLevel(s, t, level, v)
    ensures FreshTables(s, GetLeaf(s, t, level, v).0)
    decreases level
  {
    hide Inv, Clear;
    if level > 1 {
      GetLeafStep(s, t, level, v);
      InvValid(s);
      GetOrCreateFresh(s, t, Index(v, level));
      var (s1, c) := GetOrCreate(s, t, Index(v, level));
      if c != 0 {
        GetLeafFresh(s1, c, level - 1, v);
      }
    }
  }

  lemma PresentIsLink(s: Space, t: nat, i: nat)
    requires Inv(s) && t in s.mem && i < ENTRIES && s.mem[t].level >= 2 && Leads(s.mem[t].entries[i])
    ensures GetOrCreate(s, t, i).1 in s.mem && s.mem[GetOrCreate(s, t, i).1].level == s.mem[t].level - 1
    ensures GetOrCreate(s, t, i).1 != 0
  {
    assert Link(s.mem, t, i);
    assert Child(s.mem, t, i) in s.mem;
  }

  /** The exact effect of mapping `v` in the current address space: on success that
      page is entered there and in every address space sharing the slot, and no
      other translation anywhere moves; on failure none moves at all.  Links made
      are never remade, sharing is untouched, and no frame but frame 0 is lost. */
  lemma MapPageMeaning(s: Space, v: nat, phys: nat, flags: nat)
    requires Inv(s) && Clear(s.mem, s.root, TOP, v)
    ensures var (s', ok) := MapPage(s, v, phys, flags);
            && Inv(s') && s'.root == s.root
            && KeepsLinks(s.mem, s'.mem) && SameSharing(s.mem, s'.mem) && ClearKept(s.mem, s'.mem) && Accounted(s, s')
            && (forall b: nat, w: nat :: IsRoot(s.mem, b) ==>
                  Entry(s'.mem, b, w) == if ok && SameSlot(s.mem, s.root, v, b, w) then LeafEntry(phys, flags) else Entry(s.mem, b, w))
  {
    var (s1, pt) := GetLeaf(s, s.root, TOP, v);
    GetLeafGrows(s, s.root, TOP, v);
    GetLeafReaches(s, s.root, TOP, v);
    var (s', ok) := MapPage(s, v, phys, flags);
    if ok {
      LeafWriteKeepsInv(s1, pt, Index(v, 1), LeafEntry(phys, flags));
      LeafWriteKeepsLinks(s1.mem, pt, Index(v, 1), LeafEntry(phys, flags));
      LeafWriteKeepsClear(s1.mem, pt, Index(v, 1), LeafEntry(phys, flags));
      ClearKeptTransitive(s.mem, s1.mem, s'.mem);
      SameLinksMeaning(s1.mem, s'.mem);
      KeepsLinksTransitive(s.mem, s1.mem, s'.mem);
      SameSharingTransitive(s.mem, s1.mem, s'.mem);
      forall b: nat, w: nat | IsRoot(s.mem, b)
        ensures Entry(s'.mem, b, w) == if SameSlot(s.mem, s.root, v, b, w) then LeafEntry(phys, flags) else Entry(s.mem, b, w)
      {
        WriteLeafEntry(s1.mem, s.root, v, LeafEntry(phys, flags), b, w);
        assert SameSlot(s1.mem, s.root, v, b, w) <==> SameSlot(s.mem, s.root, v, b, w);
      }
    }
  }

  lemma SameLinksMeaning(mem: map<nat, Table>, mem': map<nat, Table>)
    requires SameLinks(mem, mem')
    requires forall t: nat, i: nat :: Link(mem, t, i) ==> mem'[t].entries[i] == mem[t].entries[i]
    requires forall t: nat, i: nat :: LargePage(mem, t, i) ==> LargePage(mem', t, i) && mem'[t].entries[i] == mem[t].entries[i]
    ensures KeepsLinks(mem, mem') && SameSharing(mem, mem')
  {
  }

  /** Mapping succeeds exactly if there are frames enough for the missing tables; it takes
      just those, and one that fails has spent frame 0 or every frame there was. */
  lemma MapPageSucceeds(s: Space, v: nat, phys: nat, flags: nat)
    requires Inv(s) && Clear(s.mem, s.root, TOP, v)
    ensures var n := Missing(s.mem, s.root, TOP, v);
            var (s', ok) := MapPage(s, v, phys, flags);
            && s'.frames == Draw(s.frames, n).0 && (ok <==> Enough(s.frames, n))
            && (if ok then |s'.frames.used| == |s.frames.used| + n else Spent(s.frames, s'.frames))
  {
    var n := Missing(s.mem, s.root, TOP, v);
    GetLeafGrows(s, s.root, TOP, v);
    GetLeafReaches(s, s.root, TOP, v);
    GetLeafDraws(s, s.root, TOP, v);
    DrawSucceeds(s.frames, n);
    if !Enough(s.frames, n) {
      DrawFails(s.frames, n);
    }
  }

  /** What a successful map leaves in the page's entry, bit by bit: the low twelve bits are
      those of the flags, and above them the bits of frame and flags.  It is the frame's
      address and the flags side by side if the flags have no other bits. */
  lemma MapEnters(s: Space, v: nat, phys: nat, flags: nat, w: nat)
    requires Inv(s) && Clear(s.mem, s.root, TOP, v) && MapPage(s, v, phys, flags).1 && SamePage(v, w)
    ensures var e := Entry(MapPage(s, v, phys, flags).0.mem, s.root, w);
            && e % 4096 == flags % 4096
            && (forall k: nat :: BitAt(e / 4096, k) <==> BitAt(phys / 4096, k) || BitAt(flags / 4096, k))
            && (flags < 4096 ==> e == phys - phys % 4096 + flags)
  {
    MapPageMeaning(s, v, phys, flags);
    assert SameSlot(s.mem, s.root, v, s.root, w);
    forall k: nat ensures BitAt(Or(phys / 4096, flags / 4096), k) <==> BitAt(phys / 4096, k) || BitAt(flags / 4096, k) {
      OrBits(phys / 4096, flags / 4096, k);
    }
  }

  /** After a successful map with ordinary flags the page translates to the frame given. */
  lemma MapThenTranslate(s: Space, v: nat, phys: nat, flags: nat, w: nat)
    requires Inv(s) && Clear(s.mem, s.root, TOP, v) && MapPage(s, v, phys, flags).1 && SamePage(v, w)
    ensures var t := Translate(MapPage(s, v, phys, flags).0.mem, s.root, w);
            && (flags % 2 == 0 ==> t == 0)
            && (flags % 2 == 1 ==> t == Or(phys / 4096, flags / 4096) * 4096 + w % 4096)
            && (flags % 2 == 1 ==> (t == phys - phys % 4096 + w % 4096 <==> Or(phys / 4096, flags / 4096) == phys / 4096))
            && (flags < 4096 ==> Or(phys / 4096, flags / 4096) == phys / 4096)
  {
    hide Or;
    MapPageMeaning(s, v, phys, flags);
    assert SameSlot(s.mem, s.root, v, s.root, w);
    SameParity(LeafEntry(phys, flags), flags);
    SidesApart(Or(phys / 4096, flags / 4096), phys / 4096, w);
    OrNone(phys / 4096);
  }

  /** A no-execute mapping never reads back: bit 63 of the flags ends up in the answer. */
  lemma NoExecuteLeaks(s: Space, v: nat, phys: nat, flags: nat, w: nat)
    requires Inv(s) && Clear(s.mem, s.root, TOP, v) && MapPage(s, v, phys, flags).1 && SamePage(v, w)
    requires Present(flags) && flags / 0x8000_0000_0000_0000 % 2 == 1 && phys < 0x8000_0000_0000_0000
    ensures Translate(MapPage(s, v, phys, flags).0.mem, s.root, w) != phys - phys % 4096 + w % 4096
  {
    MapThenTranslate(s, v, phys, flags, w);
    HighFlagsShow(phys, flags);
  }

  lemma HighFlagsShow(phys: nat, flags: nat)
    requires flags / 0x8000_0000_0000_0000 % 2 == 1 && phys < 0x8000_0000_0000_0000
    ensures Or(phys / 4096, flags / 4096) != phys / 4096
  {
    OrAtLeast(phys / 4096, flags / 4096);
  }

  lemma {:induction false} OrAtLeast(a: nat, b: nat)
    ensures Or(a, b) >= b
    decreases a + b
  {
    if a > 0 && b > 0 {
      OrHalf(a, b);
      OrAtLeast(a / 2, b / 2);
    }
  }

  /** Unmapping clears exactly that page, in the spaces sharing its slot, and takes no frame. */
  lemma UnmapPageMeaning(s: Space, v: nat)
    requires Inv(s) && Clear(s.mem, s.root, TOP, v)
    ensures var s' := UnmapPage(s, v);
            && Inv(s') && s'.root == s.root && s'.frames == s.frames
            && KeepsLinks(s.mem, s'.mem) && SameSharing(s.mem, s'.mem) && ClearKept(s.mem, s'.mem)
            && (forall b: nat, w: nat :: IsRoot(s.mem, b) ==>
                  Entry(s'.mem, b, w) == if SameSlot(s.mem, s.root, v, b, w) then 0 else Entry(s.mem, b, w))
  {
    var pt := Leaf(s.mem, s.root, TOP, v);
    var s' := UnmapPage(s, v);
    LeafLevel(s.mem, s.root, TOP, v);
    if pt in s.mem {
      LeafWriteKeepsInv(s, pt, Index(v, 1), 0);
      LeafWriteKeepsLinks(s.mem, pt, Index(v, 1), 0);
      LeafWriteKeepsClear(s.mem, pt, Index(v, 1), 0);
      SameLinksMeaning(s.mem, s'.mem);
      forall b: nat, w: nat | IsRoot(s.mem, b)
        ensures Entry(s'.mem, b, w) == if SameSlot(s.mem, s.root, v, b, w) then 0 else Entry(s.mem, b, w)
      {
        WriteLeafEntry(s.mem, s.root, v, 0, b, w);
      }
    } else {
      forall b: nat, w: nat | IsRoot(s.mem, b) && SameSlot(s.mem, s.root, v, b, w) ensures Entry(s.mem, b, w) == 0 {
        SameSlotSameEntry(s.mem, s.root, v, b, w);
      }
    }
  }

  /** Address spaces that share a slot agree on every page behind it. */
  lemma SameSlotSameEntry(mem: map<nat, Table>, a: nat, v: nat, b: nat, w: nat)
    requires IsRoot(mem, a) && IsRoot(mem, b) && SameSlot(mem, a, v, b, w)
    ensures Entry(mem, a, v) == Entry(mem, b, w)
  {
    IndicesArePage(v, w);
    LeafSame(mem, a, TOP, v, w);
    if a != b {
      var c := Child(mem, a, Index(v, TOP));
      assert Leaf(mem, a, TOP, w) == Leaf(mem, c, TOP - 1, w) == Leaf(mem, b, TOP, w);
    }
  }

  // ---------------------------------------------------------------- new address spaces

  /** `mem` with a new root `c` sharing the upper half of `root`. */
  function Forked(mem: map<nat, Table>, root: nat, c: nat): map<nat, Table>
    requires root in mem
  {
    mem[c := Table(TOP, Zeros()[..ENTRIES / 2] + mem[root].entries[ENTRIES / 2..])]
  }

  lemma ForkedLinks(mem: map<nat, Table>, root: nat, c: nat)
    requires IsRoot(mem, root) && c !in mem
    ensures var mem' := Forked(mem, root, c);
            && (forall u: nat, j: nat :: Link(mem', u, j) <==> Link(mem, u, j) || (u == c && j >= ENTRIES / 2 && Link(mem, root, j)))
            && (forall u: nat, j: nat :: Link(mem', u, j) ==> Child(mem', u, j) == if u == c then Child(mem, root, j) else Child(mem, u, j))
  {
  }

  lemma ForkedKeepsUnshared(mem: map<nat, Table>, root: nat, c: nat)
    requires IsRoot(mem, root) && c !in mem && Unshared(mem)
    ensures Unshared(Forked(mem, root, c))
  {
    ForkedLinks(mem, root, c);
    var mem' := Forked(mem, root, c);
    forall u: nat, j: nat, x: nat, k: nat | Link(mem', u, j) && Link(mem', x, k) && Child(mem', u, j) == Child(mem', x, k)
      ensures j == k && (u == x || (mem'[u].level == TOP && mem'[x].level == TOP && j >= ENTRIES / 2))
    {
      var u0, x0 := if u == c then root else u, if x == c then root else x;
      assert Link(mem, u0, j) && Link(mem, x0, k) && Child(mem, u0, j) == Child(mem, x0, k);
    }
  }

  lemma ForkedKeepsReachable(mem: map<nat, Table>, root: nat, c: nat)
    requires IsRoot(mem, root) && c !in mem && Reachable(mem)
    ensures Reachable(Forked(mem, root, c))
  {
    ForkedLinks(mem, root, c);
    var mem' := Forked(mem, root, c);
    forall d | d in mem' && mem'[d].level < TOP ensures HasParent(mem', d) {
      assert HasParent(mem, d);
      var u: nat, j: nat :| Link(mem, u, j) && Child(mem, u, j) == d;
      assert Link(mem', u, j) && Child(mem', u, j) == d;
    }
  }

  lemma {:induction false} WalkAfterFork(mem: map<nat, Table>, root: nat, c: nat, u: nat, level: nat, w: nat)
    requires IsRoot(mem, root) && c !in mem && 0 !in mem && Levels(mem)
    requires u in mem && mem[u].level == level && 1 <= level <= TOP
    ensures Leaf(Forked(mem, root, c), u, level, w) == Leaf(mem, u, level, w)
    decreases level
  {
    var j := Index(w, level);
    if level > 1 && Leads(mem[u].entries[j]) {
      assert Link(mem, u, j);
      WalkAfterFork(mem, root, c, Child(mem, u, j), level - 1, w);
    }
  }

  lemma {:induction false} ClearAfterFork(mem: map<nat, Table>, root: nat, c: nat, u: nat, level: nat, w: nat)
    requires IsRoot(mem, root) && c !in mem && Levels(mem)
    requires u in mem && mem[u].level == level && 1 <= level <= TOP && Clear(mem, u, level, w)
    ensures Clear(Forked(mem, root, c), u, level, w)
    decreases level
  {
    var j := Index(w, level);
    if level > 1 && Leads(mem[u].entries[j]) {
      assert Link(mem, u, j);
      ClearAfterFork(mem, root, c, Child(mem, u, j), level - 1, w);
    }
  }

  lemma ForkKeepsClear(mem: map<nat, Table>, root: nat, c: nat)
    requires IsRoot(mem, root) && c !in mem && Levels(mem)
    ensures ClearKept(mem, Forked(mem, root, c))
  {
    forall b: nat, w: nat | IsRoot(mem, b) && Clear(mem, b, TOP, w) ensures Clear(Forked(mem, root, c), b, TOP, w) {
      ClearAfterFork(mem, root, c, b, TOP, w);
    }
  }

  lemma ForkedEntries(mem: map<nat, Table>, root: nat, c: nat, b: nat, w: nat)
    requires IsRoot(mem, root) && c !in mem && 0 !in mem && c != 0 && Levels(mem)
    requires b == c || IsRoot(mem, b)
    ensures Entry(Forked(mem, root, c), b, w) ==
            if b != c then Entry(mem, b, w) else if Index(w, TOP) >= ENTRIES / 2 then Entry(mem, root, w) else 0
  {
    var mem' := Forked(mem, root, c);
    var i := Index(w, TOP);
    if b != c {
      WalkAfterFork(mem, root, c, b, TOP, w);
      LeafLevel(mem, b, TOP, w);
    } else if i >= ENTRIES / 2 && Link(mem, root, i) {
      WalkAfterFork(mem, root, c, Child(mem, root, i), TOP - 1, w);
      assert mem'[c].entries[i] == mem[root].entries[i];
      assert Leaf(mem', c, TOP, w) == Leaf(mem', Child(mem, root, i), TOP - 1, w);
      assert Leaf(mem, root, TOP, w) == Leaf(mem, Child(mem, root, i), TOP - 1, w);
      LeafLevel(mem, root, TOP, w);
    } else {
      assert !Leads(mem'[c].entries[i]);
      assert i >= ENTRIES / 2 ==> Leaf(mem, root, TOP, w) == 0;
    }
  }

  /** A new address space is empty below and shares exactly the slots linked above;
      no other address space notices.  Out of memory leaves all tables as they were. */
  lemma CreateSpaceMeaning(s: Space)
    requires Inv(s)
    ensures var (s', c) := CreateSpace(s);
            && Inv(s') && s'.root == s.root
            && KeepsLinks(s.mem, s'.mem) && SameEntries(s.mem, s'.mem) && ClearKept(s.mem, s'.mem) && Accounted(s, s')
            && (forall a: nat, b: nat, i: nat :: a in s.mem && b in s.mem ==> (Shares(s'.mem, a, b, i) <==> Shares(s.mem, a, b, i)))
            && (c == 0 ==> s'.mem == s.mem)
            && (c != 0 ==>
                  && IsRoot(s'.mem, c) && c !in s.mem
                  && (forall i: nat :: Shares(s'.mem, s.root, c, i) <==> i >= ENTRIES / 2 && Link(s.mem, s.root, i))
                  && (forall w: nat :: Entry(s'.mem, c, w) == if Index(w, TOP) >= ENTRIES / 2 then Entry(s.mem, s.root, w) else 0))
  {
    AllocMeaning(s.frames);
    var (frames, c) := Alloc(s.frames);
    if c == 0 {
      OutOfMemoryGrows(s, frames);
    } else {
      assert c / PAGE_SIZE * PAGE_SIZE == c;
      assert c !in s.mem;
      ForkedLinks(s.mem, s.root, c);
      ForkedKeepsUnshared(s.mem, s.root, c);
      ForkedKeepsReachable(s.mem, s.root, c);
      ForkKeepsClear(s.mem, s.root, c);
      forall b: nat, w: nat | b == c || IsRoot(s.mem, b)
        ensures Entry(Forked(s.mem, s.root, c), b, w) ==
                if b != c then Entry(s.mem, b, w) else if Index(w, TOP) >= ENTRIES / 2 then Entry(s.mem, s.root, w) else 0
      {
        ForkedEntries(s.mem, s.root, c, b, w);
      }
    }
  }

  /** Entry by entry: the new root is cleared below 256 and a copy of the current one from there
      on, large pages included. */
  lemma NewRootEntries(s: Space, i: nat)
    requires Inv(s) && i < 512 && CreateSpace(s).1 != 0
    ensures var (s', c) := CreateSpace(s);
            c in s'.mem && s'.mem[c].entries[i] == if i < 256 then 0 else s.mem[s.root].entries[i]
  {
    AllocMeaning(s.frames);
  }

  // ---------------------------------------------------------------- nothing is lost

  /** Table `c` can be reached from table `t` by following links. */
  ghost predicate Reaches(mem: map<nat, Table>, t: nat, level: nat, c: nat)
    decreases level
  {
    t == c || (level > 1 && exists i: nat :: Link(mem, t, i) && Reaches(mem, Child(mem, t, i), level - 1, c))
  }

  lemma {:induction false} ReachesChild(mem: map<nat, Table>, t: nat, level: nat, c: nat, i: nat)
    requires Levels(mem) && t in mem && mem[t].level == level
    requires Reaches(mem, t, level, c) && Link(mem, c, i)
    ensures Reaches(mem, t, level, Child(mem, c, i))
    decreases level
  {
    if t == c {
      assert Link(mem, t, i) && Reaches(mem, Child(mem, t, i), level - 1, Child(mem, c, i));
    } else {
      var j: nat :| Link(mem, t, j) && Reaches(mem, Child(mem, t, j), level - 1, c);
      ReachesChild(mem, Child(mem, t, j), level - 1, c, i);
    }
  }

  /** Under the invariant every table hangs, through links, below some root. */
  lemma {:induction false} TableUnderRoot(mem: map<nat, Table>, c: nat) returns (root: nat)
    requires Levels(mem) && Reachable(mem) && c in mem && mem[c].level <= TOP
    ensures IsRoot(mem, root) && Reaches(mem, root, TOP, c)
    decreases TOP - mem[c].level
  {
    if mem[c].level == TOP {
      root := c;
    } else {
      assert HasParent(mem, c);
      var t: nat, i: nat :| Link(mem, t, i) && Child(mem, t, i) == c;
      assert mem[c].level == mem[t].level - 1;
      root := TableUnderRoot(mem, t);
      ReachesChild(mem, root, TOP, t, i);
    }
  }

  /** A table that is clear but for its first entry. */
  function FirstOnly(e: nat): Entries { Zeros()[0 := e] }

  /** The tables the boot code leaves: a link each at the top two levels, and one large page
      of 2 MB at the third. */
  function BootTables(pml4: nat, pdpt: nat, pd: nat): map<nat, Table> {
    map[pml4 := Table(4, FirstOnly(Or(pdpt, 3))), pdpt := Table(3, FirstOnly(Or(pd, 3))), pd := Table(2, FirstOnly(0x83))]
  }

  predicate TableFrame(frames: FrameMap, t: nat) {
    t > 0 && t % PAGE_SIZE == 0 && t / PAGE_SIZE in frames.used
  }

  /** They are in order, although the large page is no link. */
  lemma BootInOrder(frames: FrameMap, pml4: nat, pdpt: nat, pd: nat)
    requires Frames.Valid(frames) && pml4 != pdpt && pml4 != pd && pdpt != pd
    requires TableFrame(frames, pml4) && TableFrame(frames, pdpt) && TableFrame(frames, pd)
    ensures Inv(Space(BootTables(pml4, pdpt, pd), frames, pml4))
  {
    var mem := BootTables(pml4, pdpt, pd);
    BootLinks(mem, pml4, pdpt, pd);
    assert HasParent(mem, pdpt) && HasParent(mem, pd);
  }

  lemma BootLinks(mem: map<nat, Table>, pml4: nat, pdpt: nat, pd: nat)
    requires pml4 != pdpt && pml4 != pd && pdpt != pd && mem == BootTables(pml4, pdpt, pd)
    requires pdpt % PAGE_SIZE == 0 && pd % PAGE_SIZE == 0
    ensures forall t: nat, i: nat :: Link(mem, t, i) <==> i == 0 && (t == pml4 || t == pdpt)
    ensures Child(mem, pml4, 0) == pdpt && Child(mem, pdpt, 0) == pd
  {
    BootEntry(pdpt);
    BootEntry(pd);
    assert Huge(0x83);
  }

  /** Every page but those of the first 2 MB is clear of the large page; none has an entry. */
  lemma BootClears(pml4: nat, pdpt: nat, pd: nat, v: nat)
    requires pml4 != pdpt && pml4 != pd && pdpt != pd && pml4 > 0 && pdpt > 0 && pd > 0
    requires pdpt % PAGE_SIZE == 0 && pd % PAGE_SIZE == 0
    ensures var mem := BootTables(pml4, pdpt, pd);
            && (Clear(mem, pml4, TOP, v) <==> v % 0x1_0000_0000_0000 >= 0x20_0000)
            && Translate(mem, pml4, v) == 0
  {
    FirstLargePage(v);
    BootEntry(pdpt);
    BootEntry(pd);
    BootClear(BootTables(pml4, pdpt, pd), pml4, pdpt, pd, v);
  }

  /** A page of the first 2 MB cannot be mapped: the code takes the large page for a link to
      a table at address 0, reads that as failure and returns. */
  lemma BootMapRefused(frames: FrameMap, pml4: nat, pdpt: nat, pd: nat, v: nat, phys: nat, flags: nat)
    requires pml4 != pdpt && pml4 != pd && pdpt != pd && pml4 > 0 && pdpt > 0 && pd > 0
    requires pdpt % PAGE_SIZE == 0 && pd % PAGE_SIZE == 0 && v % 0x1_0000_0000_0000 < 0x20_0000
    ensures var s := Space(BootTables(pml4, pdpt, pd), frames, pml4); MapPage(s, v, phys, flags) == (s, false)
  {
    FirstLargePage(v);
    BootEntry(pdpt);
    BootEntry(pd);
    var s := Space(BootTables(pml4, pdpt, pd), frames, pml4);
    assert PageOf(0x83) == 0 && Present(0x83);
    assert GetLeaf(s, pd, 2, v) == (s, 0);
    assert GetLeaf(s, pdpt, 3, v) == (s, 0);
    assert GetLeaf(s, pml4, 4, v) == (s, 0);
  }

  /** An unmap of such a page is not refused: with nothing to stop it the code clears a word
      in the first page of physical memory, and a translation reads there. */
  lemma BootUnmapStrays(pml4: nat, pdpt: nat, pd: nat, v: nat)
    requires pml4 != pdpt && pml4 != pd && pdpt != pd && pml4 > 0 && pdpt > 0 && pd > 0
    requires pdpt % PAGE_SIZE == 0 && pd % PAGE_SIZE == 0 && v % 0x1_0000_0000_0000 < 0x20_0000
    ensures CodeWalk(BootTables(pml4, pdpt, pd), pml4, TOP, v) == At(8 * Index(v, 1))
  {
    FirstLargePage(v);
    BootEntry(pdpt);
    BootEntry(pd);
    var mem := BootTables(pml4, pdpt, pd);
    assert PageOf(0x83) == 0 && Present(0x83);
    assert CodeWalk(mem, pd, 2, v) == At(0 + 8 * Index(v, 1));
    assert CodeWalk(mem, pdpt, 3, v) == CodeWalk(mem, pd, 2, v);
  }

  /** With no large page in the way the code's walk ends at the word of the leaf table that
      covers the page, or early if there is none. */
  lemma {:induction false} CodeWalkClear(s: Space, t: nat, level: nat, v: nat)
    requires Inv(s) && AtLevel(s, t, level, v)
    ensures var pt := Leaf(s.mem, t, level, v);
            CodeWalk(s.mem, t, level, v) == if pt == 0 then Absent else At(pt + 8 * Index(v, 1))
    decreases level
  {
    if level > 1 && Present(s.mem[t].entries[Index(v, level)]) {
      assert Link(s.mem, t, Index(v, level));
      CodeWalkClear(s, Child(s.mem, t, Index(v, level)), level - 1, v);
    }
  }

  /** Some large page starts at `a`. */
  ghost predicate LargeBase(mem: map<nat, Table>, a: nat) {
    exists t: nat, i: nat :: LargePage(mem, t, i) && PageOf(mem[t].entries[i]) == a
  }

  /** No table lies at the start of a large page. */
  ghost predicate LargeApart(mem: map<nat, Table>) {
    forall a: nat {:trigger LargeBase(mem, a)} :: LargeBase(mem, a) ==> a !in mem
  }

  /** Behind a large page there is no leaf table, but the walk does not stop. */
  lemma {:induction false} CodeWalkStrays(s: Space, t: nat, level: nat, v: nat)
    requires Inv(s) && LargeApart(s.mem) && t in s.mem && s.mem[t].level == level && 1 <= level <= TOP && !Clear(s.mem, t, level, v)
    ensures Leaf(s.mem, t, level, v) == 0 && CodeWalk(s.mem, t, level, v) != Absent
    decreases level
  {
    var i := Index(v, level);
    if Huge(s.mem[t].entries[i]) {
      assert LargePage(s.mem, t, i) && LargeBase(s.mem, PageOf(s.mem[t].entries[i]));
    } else {
      assert Link(s.mem, t, i);
      CodeWalkStrays(s, Child(s.mem, t, i), level - 1, v);
    }
  }

  /** So the walk is right exactly for pages with no large page in the way. */
  lemma CodeWalkExactly(s: Space, v: nat)
    requires Inv(s) && LargeApart(s.mem)
    ensures var pt := Leaf(s.mem, s.root, TOP, v);
            CodeWalk(s.mem, s.root, TOP, v) == (if pt == 0 then Absent else At(pt + 8 * Index(v, 1))) <==> Clear(s.mem, s.root, TOP, v)
  {
    if Clear(s.mem, s.root, TOP, v) {
      CodeWalkClear(s, s.root, TOP, v);
    } else {
      CodeWalkStrays(s, s.root, TOP, v);
    }
  }

  /** Large pages lie at 0 or in frames in use, and no table at the start of one. */
  ghost predicate LargeReserved(s: Space) {
    LargeApart(s.mem) && forall a: nat {:trigger LargeBase(s.mem, a)} :: LargeBase(s.mem, a) && a != 0 ==> a / PAGE_SIZE in s.frames.used
  }

  /** The large page of the boot code starts at 0. */
  lemma BootReserved(frames: FrameMap, pml4: nat, pdpt: nat, pd: nat)
    requires pml4 != pdpt && pml4 != pd && pdpt != pd && pml4 > 0 && pdpt > 0 && pd > 0
    requires pdpt % PAGE_SIZE == 0 && pd % PAGE_SIZE == 0
    ensures LargeReserved(Space(BootTables(pml4, pdpt, pd), frames, pml4))
  {
    hide Or;
    var mem := BootTables(pml4, pdpt, pd);
    BootEntry(pdpt);
    BootEntry(pd);
    forall a: nat | LargeBase(mem, a) ensures a == 0 {
      var t: nat, i: nat :| LargePage(mem, t, i) && PageOf(mem[t].entries[i]) == a;
      BootLarge(pml4, pdpt, pd, t, i);
    }
  }

  lemma BootLarge(pml4: nat, pdpt: nat, pd: nat, t: nat, i: nat)
    requires pml4 != pdpt && pml4 != pd && pdpt != pd && Leads(Or(pdpt, 3)) && Leads(Or(pd, 3))
    requires LargePage(BootTables(pml4, pdpt, pd), t, i)
    ensures BootTables(pml4, pdpt, pd)[t].entries[i] == 0x83
  {
    hide Or;
    var mem := BootTables(pml4, pdpt, pd);
    assert mem[t].entries[i] != 0 && !Leads(mem[t].entries[i]);
    assert mem[t].entries == FirstOnly(mem[t].entries[0]);
  }

  /** No large page is made. */
  ghost predicate NoNewLarge(mem: map<nat, Table>, mem': map<nat, Table>) {
    forall a: nat {:trigger LargeBase(mem', a)} :: LargeBase(mem', a) ==> LargeBase(mem, a)
  }

  lemma SameLarge(mem: map<nat, Table>, mem': map<nat, Table>)
    requires forall t: nat, i: nat :: LargePage(mem', t, i) ==> LargePage(mem, t, i) && mem[t].entries[i] == mem'[t].entries[i]
    ensures NoNewLarge(mem, mem')
  {
    forall a: nat | LargeBase(mem', a) ensures LargeBase(mem, a) {
      var t: nat, i: nat :| LargePage(mem', t, i) && PageOf(mem'[t].entries[i]) == a;
      assert LargePage(mem, t, i);
    }
  }

  lemma GetOrCreateLarge(s: Space, t: nat, i: nat)
    requires Inv(s) && t in s.mem && i < ENTRIES && s.mem[t].level >= 2
    ensures NoNewLarge(s.mem, GetOrCreate(s, t, i).0.mem)
  {
    AllocMeaning(s.frames);
    var (s', c) := GetOrCreate(s, t, i);
    if c != 0 && c % PAGE_SIZE == 0 {
      LinkEntryFacts(c);
    }
    SameLarge(s.mem, s'.mem);
  }

  lemma {:induction false} GetLeafLarge(s: Space, t: nat, level: nat, v: nat)
    requires Inv(s) && AtLevel(s, t, level, v)
    ensures NoNewLarge(s.mem, GetLeaf(s, t, level, v).0.mem)
    decreases level
  {
    hide Inv, Clear, LargeBase;
    if level > 1 {
      GetLeafStep(s, t, level, v);
      GetOrCreateLarge(s, t, Index(v, level));
      var (s1, c) := GetOrCreate(s, t, Index(v, level));
      if c != 0 {
        GetLeafLarge(s1, c, level - 1, v);
      }
    }
  }

  lemma LeafWriteLarge(mem: map<nat, Table>, pt: nat, i: nat, e: nat)
    requires pt in mem && mem[pt].level == 1 && i < ENTRIES
    ensures NoNewLarge(mem, SetEntry(mem, pt, i, e))
  {
    SameLarge(mem, SetEntry(mem, pt, i, e));
  }

  lemma ForkLarge(mem: map<nat, Table>, root: nat, c: nat)
    requires IsRoot(mem, root) && c !in mem
    ensures NoNewLarge(mem, Forked(mem, root, c))
  {
    var mem' := Forked(mem, root, c);
    forall a: nat | LargeBase(mem', a) ensures LargeBase(mem, a) {
      var t: nat, i: nat :| LargePage(mem', t, i) && PageOf(mem'[t].entries[i]) == a;
      ForkedLarge(mem, root, c, t, i);
    }
  }

  /** A large page of the new root is one of the old root. */
  lemma ForkedLarge(mem: map<nat, Table>, root: nat, c: nat, t: nat, i: nat)
    requires IsRoot(mem, root) && c !in mem && LargePage(Forked(mem, root, c), t, i)
    ensures var u := if t == c then root else t;
            LargePage(mem, u, i) && mem[u].entries[i] == Forked(mem, root, c)[t].entries[i]
  {
    hide Huge, PageOf;
    assert !Present(0);
  }

  lemma FirstLargePage(v: nat)
    ensures Index(v, 4) == Index(v, 3) == Index(v, 2) == 0 <==> v % 0x1_0000_0000_0000 < 0x20_0000
  {
    PageFromIndices(v);
    LowBits(v);
  }

  lemma LowBits(v: nat)
    ensures v % 0x1_0000_0000_0000 == v / 4096 % 0x10_0000_0000 * 4096 + v % 4096
  {
    var q := v / 0x1_0000_0000_0000;
    assert v / 4096 / 0x10_0000_0000 == q;
  }

  lemma BootEntry(t: nat)
    requires t % PAGE_SIZE == 0
    ensures Leads(Or(t, 3)) && PageOf(Or(t, 3)) == t
  {
    OrFlags(t, 3);
    FlagsAbovePage(t, 3);
  }

  lemma BootClear(mem: map<nat, Table>, pml4: nat, pdpt: nat, pd: nat, v: nat)
    requires pml4 != pdpt && pml4 != pd && pdpt != pd && mem == BootTables(pml4, pdpt, pd) && 0 !in mem
    requires Leads(Or(pdpt, 3)) && PageOf(Or(pdpt, 3)) == pdpt && Leads(Or(pd, 3)) && PageOf(Or(pd, 3)) == pd
    ensures Clear(mem, pml4, TOP, v) <==> !(Index(v, 4) == Index(v, 3) == Index(v, 2) == 0)
    ensures Translate(mem, pml4, v) == 0
  {
    assert Clear(mem, pd, 2, v) <==> Index(v, 2) != 0;
    assert Walk(mem, pd, 2, 1, v) == 0;
    assert Clear(mem, pdpt, 3, v) <==> Index(v, 3) != 0 || Index(v, 2) != 0;
    assert Walk(mem, pdpt, 3, 1, v) == 0;
  }

  /** A cleared root in a used frame is a space in order; it translates nothing. */
  lemma LoneRoot(frames: FrameMap, root: nat)
    requires Frames.Valid(frames) && root > 0 && root % PAGE_SIZE == 0 && root / PAGE_SIZE in frames.used
    ensures var s := Space(map[root := Table(TOP, Zeros())], frames, root);
            Inv(s) && forall w: nat :: Translate(s.mem, root, w) == 0
  {
    var mem := map[root := Table(TOP, Zeros())];
    assert forall t: nat, i: nat :: !Link(mem, t, i);
  }
}
