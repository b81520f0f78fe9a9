/** Doubly linked lists of structures in memory, addressed by number, 0 standing for
    no neighbour.  The block headers of the heap and the process control blocks of
    the ready queue are both linked this way. */
module Links {

  datatype Node<+T> = Node(data: T, next: nat, prev: nat)

  type Memory<T> = map<nat, Node<T>>

  function NextOf(list: seq<nat>, i: nat): nat { if i + 1 < |list| then list[i + 1] else 0 }

  function PrevOf(list: seq<nat>, i: nat): nat
    requires i <= |list|
  {
    if i > 0 then list[i - 1] else 0
  }

  /** The node at position `i` is in memory and points at its neighbours. */
  predicate Joined<T>(mem: Memory<T>, list: seq<nat>, i: nat)
    requires i < |list|
  {
    && list[i] != 0 && list[i] in mem
    && mem[list[i]].next == NextOf(list, i) && mem[list[i]].prev == PrevOf(list, i)
  }

  predicate Distinct(list: seq<nat>) {
    forall i, j :: 0 <= i < j < |list| ==> list[i] != list[j]
  }

  ghost predicate Chained<T>(mem: Memory<T>, list: seq<nat>) {
    Distinct(list) && forall i {:trigger Joined(mem, list, i)} :: 0 <= i < |list| ==> Joined(mem, list, i)
  }

  /** Nodes that point at their neighbours are all different: a node that came twice would
      have to be followed by the same nodes both times. */
  lemma {:induction false} JoinedDistinct<T>(mem: Memory<T>, list: seq<nat>, i: nat, j: nat)
    requires forall k {:trigger Joined(mem, list, k)} :: 0 <= k < |list| ==> Joined(mem, list, k)
    requires i < j < |list|
    ensures list[i] != list[j]
    decreases |list| - j
  {
    assert Joined(mem, list, i) && Joined(mem, list, j);
    if j + 1 < |list| {
      JoinedDistinct(mem, list, i + 1, j + 1);
    } else {
      assert Joined(mem, list, i + 1);
    }
  }

  lemma InMemory<T>(mem: Memory<T>, list: seq<nat>)
    requires Chained(mem, list)
    ensures forall i :: 0 <= i < |list| ==> list[i] in mem && list[i] != 0
  {
    forall i | 0 <= i < |list| ensures list[i] in mem && list[i] != 0 {
      assert Joined(mem, list, i);
    }
  }

  lemma Neighbours<T>(mem: Memory<T>, list: seq<nat>, i: nat)
    requires Chained(mem, list) && i < |list|
    ensures list[i] in mem && mem[list[i]].next == NextOf(list, i) && mem[list[i]].prev == PrevOf(list, i)
    ensures i + 1 < |list| ==> list[i + 1] in mem && list[i + 1] != 0
    ensures i > 0 ==> list[i - 1] in mem && list[i - 1] != 0
  {
    assert Joined(mem, list, i);
    InMemory(mem, list);
  }

  /** The list members' links are unchanged; data may differ. */
  ghost predicate SameLinks<T>(mem: Memory<T>, mem': Memory<T>, list: seq<nat>) {
    forall a {:trigger a in list} :: a in list && a in mem ==> a in mem' && mem'[a].next == mem[a].next && mem'[a].prev == mem[a].prev
  }

  lemma SameLinksChained<T>(mem: Memory<T>, mem': Memory<T>, list: seq<nat>)
    requires Chained(mem, list) && SameLinks(mem, mem', list)
    ensures Chained(mem', list)
  {
    forall j | 0 <= j < |list| ensures Joined(mem', list, j) {
      assert Joined(mem, list, j);
      assert list[j] in list;
    }
  }

  // ---------------------------------------------------------------- insertion

  function InsertAfter(list: seq<nat>, i: nat, b: nat): seq<nat>
    requires i < |list|
  {
    list[..i + 1] + [b] + list[i + 1..]
  }

  /** The links after inserting `b` behind position `i`. */
  ghost predicate Inserted<T>(mem: Memory<T>, list: seq<nat>, i: nat, b: nat, mem': Memory<T>) {
    && i < |list| && list[i] in mem && b != 0 && b !in list
    && list[i] in mem' && b in mem'
    && mem'[list[i]].next == b && mem'[list[i]].prev == mem[list[i]].prev
    && mem'[b].next == NextOf(list, i) && mem'[b].prev == list[i]
    && (NextOf(list, i) != 0 ==>
          && NextOf(list, i) in mem && NextOf(list, i) in mem'
          && mem'[NextOf(list, i)] == mem[NextOf(list, i)].(prev := b))
    && (forall a :: a in mem && a != list[i] && a != b && a != NextOf(list, i) ==> a in mem' && mem'[a] == mem[a])
  }

  lemma InsertChain<T>(mem: Memory<T>, list: seq<nat>, i: nat, b: nat, mem': Memory<T>)
    requires Chained(mem, list) && Inserted(mem, list, i, b, mem')
    ensures Chained(mem', InsertAfter(list, i, b))
  {
    var list' := InsertAfter(list, i, b);
    forall j | 0 <= j < |list'| ensures Joined(mem', list', j) {
      if j <= i {
        assert Joined(mem, list, j);
        assert list'[j] == list[j];
      } else if j > i + 1 {
        assert Joined(mem, list, j - 1);
        assert list'[j] == list[j - 1];
      }
    }
  }

  /** Put a node at the end. */
  lemma AppendChain<T>(mem: Memory<T>, list: seq<nat>, b: nat, mem': Memory<T>)
    requires Chained(mem, list) && b != 0 && b !in list
    requires b in mem' && mem'[b].next == 0 && mem'[b].prev == PrevOf(list, |list|)
    requires list != [] ==> list[|list| - 1] in mem && list[|list| - 1] in mem'
                            && mem'[list[|list| - 1]] == mem[list[|list| - 1]].(next := b)
    requires forall a :: a in mem && a != b && (list == [] || a != list[|list| - 1]) ==> a in mem' && mem'[a] == mem[a]
    ensures Chained(mem', list + [b])
  {
    var list' := list + [b];
    forall j | 0 <= j < |list'| ensures Joined(mem', list', j) {
      if j < |list| {
        assert Joined(mem, list, j);
        assert list'[j] == list[j];
      }
    }
  }

  // ---------------------------------------------------------------- removal

  function Without(list: seq<nat>, i: nat): seq<nat>
    requires i < |list|
  {
    list[..i] + list[i + 1..]
  }

  /** The links of the others after taking out position `i`. */
  ghost predicate Removed<T>(mem: Memory<T>, list: seq<nat>, i: nat, mem': Memory<T>) {
    && i < |list|
    && (i > 0 ==>
          && list[i - 1] in mem && list[i - 1] in mem'
          && mem'[list[i - 1]].next == NextOf(list, i) && mem'[list[i - 1]].prev == mem[list[i - 1]].prev)
    && (i + 1 < |list| ==>
          && list[i + 1] in mem && list[i + 1] in mem'
          && mem'[list[i + 1]].next == mem[list[i + 1]].next && mem'[list[i + 1]].prev == PrevOf(list, i))
    && (forall a {:trigger a in mem} :: a in mem && a != list[i] && (i == 0 || a != list[i - 1]) && (i + 1 == |list| || a != list[i + 1])
          ==> a in mem' && mem'[a] == mem[a])
  }

  lemma RemoveChain<T>(mem: Memory<T>, list: seq<nat>, i: nat, mem': Memory<T>)
    requires Chained(mem, list) && Removed(mem, list, i, mem')
    ensures Chained(mem', Without(list, i))
  {
    var list' := Without(list, i);
    forall j | 0 <= j < |list'| ensures Joined(mem', list', j) {
      var k := if j < i then j else j + 1;
      assert Joined(mem, list, k);
      assert list'[j] == list[k];
      assert list[k] != list[i];
    }
  }
}
