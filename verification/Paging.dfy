/** The paging code itself: tables updated word by word in physical memory. */
module Paging {
  import opened Words
  import opened Frames
  import opened PageTables
  import opened PagingLaws
  import opened Pmm

  lemma MapKeepsInv(s: Space, v: nat, phys: nat, flags: nat)
    requires Inv(s) && Clear(s.mem, s.root, TOP, v)
    ensures Inv(PageTables.MapPage(s, v, phys, flags).0)
    ensures var (s', pt) := GetLeaf(s, s.root, TOP, v); pt != 0 <==> pt in s'.mem
  {
    MapPageMeaning(s, v, phys, flags);
    GetLeafReaches(s, s.root, TOP, v);
    GetLeafGrows(s, s.root, TOP, v);
  }

  lemma CreateKeepsInv(s: Space)
    requires Inv(s)
    ensures Inv(CreateSpace(s).0)
    ensures Owned(s)
  {
    CreateSpaceMeaning(s);
  }

  class Paging {
    var mem: map<nat, Table>
    var kernelPml4: nat
    const pmm: Pmm

    ghost predicate Valid()
      reads this, pmm, pmm.bitmap
    {
      pmm.Valid() && Inv(View())
    }

    ghost function View(): Space
      reads this, pmm, pmm.bitmap
      requires pmm.Valid()
    {
      Space(mem, pmm.View(), kernelPml4)
    }

    /** Start on tables that are already in memory.  `PagingLaws.BootInOrder` shows that
        those of the boot code will do. */
    constructor (pmm: Pmm, mem: map<nat, Table>, cr3: nat)
      requires pmm.Valid() && Inv(Space(mem, pmm.View(), cr3))
      ensures this.pmm == pmm && Valid() && View() == Space(mem, pmm.View(), cr3)
    {
      this.pmm := pmm;
      this.mem := mem;
      kernelPml4 := cr3;
    }

    /** Address of the table entry `i` of `t` points to; an absent one is allocated, cleared and linked. */
    method GetOrCreateTable(t: nat, i: nat, flags: nat) returns (table: nat)
      requires pmm.Valid() && t in mem && i < ENTRIES && flags == PAGE_USER
      requires forall p :: p in mem ==> p / PAGE_SIZE in pmm.View().used
      modifies this`mem, pmm`usedPages, pmm.bitmap
      ensures pmm.Valid()
      ensures (View(), table) == GetOrCreate(old(View()), t, i)
    {
      hide Or, LowestFree, Bit;
      var entry := mem[t].entries[i];
      if entry % 2 == PAGE_PRESENT {
        return PageOf(entry);
      }
      ghost var s := View();
      AllocMeaning(pmm.View());
      table := pmm.AllocPage();
      if table == 0 {
        return 0;
      }
      assert table !in mem;
      var level := if mem[t].level > 0 then mem[t].level - 1 else 0;
      mem := mem[table := Table(level, Zeros())];
      mem := SetEntry(mem, t, i, Or(Or(Or(table, flags), PAGE_PRESENT), PAGE_WRITABLE));
    }

    /** One level of get-or-create on the way to the leaf table of `virt`. */
    method StepDown(t: nat, level: nat, virt: nat) returns (table: nat)
      requires pmm.Valid() && Inv(View()) && AtLevel(View(), t, level, virt) && level >= 2
      modifies this`mem, pmm`usedPages, pmm.bitmap
      ensures pmm.Valid() && Inv(View())
      ensures table != 0 ==> AtLevel(View(), table, level - 1, virt)
      ensures GetLeaf(old(View()), t, level, virt) == if table == 0 then (View(), 0) else GetLeaf(View(), table, level - 1, virt)
    {
      GetLeafStep(View(), t, level, virt);
      table := GetOrCreateTable(t, Index(virt, level), PAGE_USER);
    }

    /** The three levels down to the leaf table of `virt`. */
    method LeafTable(virt: nat) returns (pt: nat)
      requires Valid() && Clear(mem, kernelPml4, TOP, virt)
      modifies this`mem, pmm`usedPages, pmm.bitmap
      ensures pmm.Valid()
      ensures (View(), pt) == GetLeaf(old(View()), old(kernelPml4), TOP, virt)
    {
      var pdpt := StepDown(kernelPml4, 4, virt);
      if pdpt == 0 { return 0; }
      var pd := StepDown(pdpt, 3, virt);
      if pd == 0 { return 0; }
      pt := StepDown(pd, 2, virt);
    }

    method MapPage(virt: nat, phys: nat, flags: nat)
      requires Valid() && Clear(mem, kernelPml4, TOP, virt)
      modifies this`mem, pmm`usedPages, pmm.bitmap
      ensures Valid()
      ensures View() == PageTables.MapPage(old(View()), virt, phys, flags).0
    {
      MapKeepsInv(View(), virt, phys, flags);
      var pt := LeafTable(virt);
      if pt == 0 { return; }
      mem := SetEntry(mem, pt, Index(virt, 1), Or(PageOf(phys), flags));
    }

    method UnmapPage(virt: nat)
      requires Valid() && Clear(mem, kernelPml4, TOP, virt)
      modifies this`mem
      ensures Valid()
      ensures View() == PageTables.UnmapPage(old(View()), virt)
    {
      ghost var s := View();
      UnmapPageMeaning(s, virt);
      LeafLevel(mem, kernelPml4, TOP, virt);
      var e4 := mem[kernelPml4].entries[Index(virt, 4)];
      if e4 % 2 != PAGE_PRESENT { return; }
      var pdpt := PageOf(e4);
      assert Link(mem, kernelPml4, Index(virt, 4)) && Child(mem, kernelPml4, Index(virt, 4)) == pdpt;
      var e3 := mem[pdpt].entries[Index(virt, 3)];
      if e3 % 2 != PAGE_PRESENT { return; }
      var pd := PageOf(e3);
      assert Link(mem, pdpt, Index(virt, 3)) && Child(mem, pdpt, Index(virt, 3)) == pd;
      var e2 := mem[pd].entries[Index(virt, 2)];
      if e2 % 2 != PAGE_PRESENT { return; }
      var pt := PageOf(e2);
      assert Link(mem, pd, Index(virt, 2)) && Child(mem, pd, Index(virt, 2)) == pt;
      mem := SetEntry(mem, pt, Index(virt, 1), 0);
    }

    method GetPhysical(virt: nat) returns (phys: nat)
      requires Valid() && Clear(mem, kernelPml4, TOP, virt)
      ensures phys == Translate(mem, kernelPml4, virt)
    {
      var e4 := mem[kernelPml4].entries[Index(virt, 4)];
      if e4 % 2 != PAGE_PRESENT { return 0; }
      var pdpt := PageOf(e4);
      assert Link(mem, kernelPml4, Index(virt, 4)) && Child(mem, kernelPml4, Index(virt, 4)) == pdpt;
      var e3 := mem[pdpt].entries[Index(virt, 3)];
      if e3 % 2 != PAGE_PRESENT { return 0; }
      var pd := PageOf(e3);
      assert Link(mem, pdpt, Index(virt, 3)) && Child(mem, pdpt, Index(virt, 3)) == pd;
      var e2 := mem[pd].entries[Index(virt, 2)];
      if e2 % 2 != PAGE_PRESENT { return 0; }
      var pt := PageOf(e2);
      assert Link(mem, pd, Index(virt, 2)) && Child(mem, pd, Index(virt, 2)) == pt;
      var e1 := mem[pt].entries[Index(virt, 1)];
      if e1 % 2 != PAGE_PRESENT { return 0; }
      return Or(PageOf(e1), OffsetOf(virt));
    }

    method SwitchDirectory(pml4: nat)
      requires Valid() && IsRoot(mem, pml4)
      modifies this`kernelPml4
      ensures Valid()
      ensures View() == Switch(old(View()), pml4)
    {
      kernelPml4 := pml4;
    }

    /** A new root: cleared, then the upper half copied from the current one. */
    method CreateAddressSpace() returns (pml4: nat)
      requires Valid()
      modifies this`mem, pmm`usedPages, pmm.bitmap
      ensures Valid()
      ensures (View(), pml4) == CreateSpace(old(View()))
    {
      hide Levels, Unshared, Reachable, LowestFree, Bit;
      CreateKeepsInv(View());
      AllocMeaning(pmm.View());
      pml4 := pmm.AllocPage();
      if pml4 == 0 {
        return 0;
      }
      FillRoot(pml4);
    }

    method FillRoot(pml4: nat)
      requires kernelPml4 in mem && pml4 !in mem
      modifies this`mem
      ensures mem == Forked(old(mem), kernelPml4, pml4)
    {
      mem := mem[pml4 := Table(TOP, Zeros())];
      for i := ENTRIES / 2 to ENTRIES
        invariant pml4 in mem && mem == old(mem)[pml4 := mem[pml4]] && mem[pml4].level == TOP
        invariant forall j :: 0 <= j < ENTRIES ==>
          mem[pml4].entries[j] == if ENTRIES / 2 <= j < i then old(mem)[kernelPml4].entries[j] else 0
      {
        mem := SetEntry(mem, pml4, i, mem[kernelPml4].entries[i]);
      }
      assert mem[pml4].entries == Zeros()[..ENTRIES / 2] + old(mem)[kernelPml4].entries[ENTRIES / 2..];
    }
  }
}
