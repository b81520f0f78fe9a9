/** Block headers as the heap code reads and writes them: four 8-byte fields at fixed offsets
    from the header's address, one write at a time.  The fields of headers that share no byte
    are different words; what becomes of headers that do meet is stated where their addresses
    differ by multiples of 8. */
module HeaderWords {
  import opened Words
  import opened HeapSpec
  import opened Links

  /** The payload fields of a block header; its links are those of the node. */
  datatype Header = Header(size: nat, isFree: bool)

  type Headers = Memory<Header>

  /** Offsets of the fields behind `size`.  Only the lowest byte of the flag's word is its own. */
  const FLAG: nat := 8
  const NEXT: nat := 16
  const PREV: nat := 24

  predicate FlagSet(word: nat) { word % 256 != 0 }

  function WithFlag(word: nat, flag: bool): nat { word - word % 256 + if flag then 1 else 0 }

  /** The header at `a`. */
  function NodeAt(mem: Ram, a: nat): Node<Header> {
    Node(Header(Word(mem, a), FlagSet(Word(mem, a + FLAG))), Word(mem, a + NEXT), Word(mem, a + PREV))
  }

  /** The headers at the addresses of `list`, as records. */
  function NodesAt(mem: Ram, list: seq<nat>): Headers {
    map a | a in list :: NodeAt(mem, a)
  }

  /** The headers at `a` and `b` share a byte. */
  predicate Meet(a: nat, b: nat) { a < b + HEADER && b < a + HEADER }

  // ---------------------------------------------------------------- writes

  function SetFlag(mem: Ram, a: nat, flag: bool): Ram {
    mem[a + FLAG := WithFlag(Word(mem, a + FLAG), flag)]
  }

  /** `block->next->prev = p`, if there is a next block. */
  function SetBack(mem: Ram, a: nat, p: nat): Ram {
    var next := Word(mem, a + NEXT);
    if next != 0 then mem[next + PREV := p] else mem
  }

  /** Cut the block at `a` to `size` bytes and link a new free block at `b` behind it. */
  function CutWords(mem: Ram, a: nat, size: nat, b: nat): Ram
    requires Word(mem, a) >= size + HEADER
  {
    var m1 := mem[a := size][b := Word(mem, a) - size - HEADER];
    var m2 := SetFlag(m1, b, true);
    var m3 := m2[b + NEXT := Word(m2, a + NEXT)][b + PREV := a];
    SetBack(m3, a, b)[a + NEXT := b]
  }

  /** Merge the block at `b` into the one at `a`. */
  function AbsorbWords(mem: Ram, a: nat, b: nat): Ram {
    var m1 := mem[a := Word(mem, a) + HEADER + Word(mem, b)];
    SetBack(m1[a + NEXT := Word(m1, b + NEXT)], a, a)
  }

  /** A free block of `size` bytes at `b`, linked to nothing. */
  function NewWords(mem: Ram, b: nat, size: nat): Ram {
    SetFlag(mem[b := size], b, true)[b + NEXT := 0][b + PREV := 0]
  }

  /** The new block behind `last`. */
  function LinkWords(mem: Ram, last: nat, b: nat): Ram {
    mem[last + NEXT := b][b + PREV := last]
  }

  // ---------------------------------------------------------------- what they do to headers apart

  lemma FlagRead(word: nat, flag: bool)
    ensures FlagSet(WithFlag(word, flag)) == flag
  {
    assert (word - word % 256) % 256 == 0;
  }

  /** The new header in place, nothing linked to it yet. */
  function PutWords(mem: Ram, a: nat, size: nat, b: nat): Ram
    requires Word(mem, a) >= size + HEADER
  {
    var m1 := mem[a := size][b := Word(mem, a) - size - HEADER];
    var m2 := SetFlag(m1, b, true);
    m2[b + NEXT := Word(m2, a + NEXT)][b + PREV := a]
  }

  lemma PutNodes(mem: Ram, a: nat, size: nat, b: nat, x: nat)
    requires Word(mem, a) >= size + HEADER && !Meet(a, b)
    requires x == a || x == b || (!Meet(x, a) && !Meet(x, b))
    ensures var n := NodeAt(mem, a);
            NodeAt(PutWords(mem, a, size, b), x) ==
              if x == a then n.(data := n.data.(size := size))
              else if x == b then Node(Header(n.data.size - size - HEADER, true), n.next, a)
              else NodeAt(mem, x)
  {
    hide WithFlag, FlagSet;
    var m1 := mem[a := size][b := Word(mem, a) - size - HEADER];
    FlagRead(Word(m1, b + FLAG), true);
    assert Word(SetFlag(m1, b, true), a + NEXT) == Word(mem, a + NEXT);
  }

  lemma CutIsPut(mem: Ram, a: nat, size: nat, b: nat)
    requires Word(mem, a) >= size + HEADER
    ensures CutWords(mem, a, size, b) == SetBack(PutWords(mem, a, size, b), a, b)[a + NEXT := b]
  {
  }

  /** What a cut makes of the header it cuts, the new one, the next one, and all others. */
  lemma CutNodes(mem: Ram, a: nat, size: nat, b: nat, x: nat)
    requires Word(mem, a) >= size + HEADER && !Meet(a, b)
    requires var n := NodeAt(mem, a).next; n != 0 ==> !Meet(n, a) && !Meet(n, b)
    requires x != 0
    requires x == a || x == b || x == NodeAt(mem, a).next
             || (!Meet(x, a) && !Meet(x, b) && (NodeAt(mem, a).next != 0 ==> !Meet(x, NodeAt(mem, a).next)))
    ensures var n := NodeAt(mem, a);
            NodeAt(CutWords(mem, a, size, b), x) ==
              if x == a then n.(data := n.data.(size := size), next := b)
              else if x == b then Node(Header(n.data.size - size - HEADER, true), n.next, a)
              else if x == n.next then NodeAt(mem, x).(prev := b)
              else NodeAt(mem, x)
  {
    hide PutWords, CutWords;
    CutIsPut(mem, a, size, b);
    PutNodes(mem, a, size, b, a);
    PutNodes(mem, a, size, b, x);
  }

  lemma AbsorbNodes(mem: Ram, a: nat, b: nat, x: nat)
    requires !Meet(a, b)
    requires var n := NodeAt(mem, b).next; n != 0 ==> !Meet(n, a)
    requires x != 0
    requires x == a || x == NodeAt(mem, b).next
             || (!Meet(x, a) && (NodeAt(mem, b).next != 0 ==> !Meet(x, NodeAt(mem, b).next)))
    ensures var n := NodeAt(mem, a);
            NodeAt(AbsorbWords(mem, a, b), x) ==
              if x == a then n.(data := n.data.(size := n.data.size + HEADER + NodeAt(mem, b).data.size), next := NodeAt(mem, b).next)
              else if x == NodeAt(mem, b).next then NodeAt(mem, x).(prev := a)
              else NodeAt(mem, x)
  {
    hide FlagSet;
    var m1 := mem[a := Word(mem, a) + HEADER + Word(mem, b)];
    assert Word(m1, b + NEXT) == Word(mem, b + NEXT);
    var m2 := m1[a + NEXT := Word(m1, b + NEXT)];
    assert Word(m2, a + NEXT) == Word(mem, b + NEXT);
  }

  lemma NewNodes(mem: Ram, b: nat, size: nat, x: nat)
    requires x == b || !Meet(x, b)
    ensures NodeAt(NewWords(mem, b, size), x) == if x == b then Node(Header(size, true), 0, 0) else NodeAt(mem, x)
  {
    hide WithFlag, FlagSet;
    FlagRead(Word(mem[b := size], b + FLAG), true);
  }

  lemma LinkNodes(mem: Ram, last: nat, b: nat, x: nat)
    requires !Meet(last, b) && (x == last || x == b || (!Meet(x, last) && !Meet(x, b)))
    ensures NodeAt(LinkWords(mem, last, b), x) ==
            if x == last then NodeAt(mem, x).(next := b) else if x == b then NodeAt(mem, x).(prev := last) else NodeAt(mem, x)
  {
  }

  lemma FlagNodes(mem: Ram, a: nat, flag: bool, x: nat)
    requires x == a || !Meet(x, a)
    ensures NodeAt(SetFlag(mem, a, flag), x) ==
            if x == a then NodeAt(mem, x).(data := NodeAt(mem, x).data.(isFree := flag)) else NodeAt(mem, x)
  {
    FlagRead(Word(mem, a + FLAG), flag);
  }

  // ---------------------------------------------------------------- what they do to headers that meet

  lemma FlagIsOdd(word: nat)
    ensures WithFlag(word, true) % 8 == 1
  {
    assert word - word % 256 == 8 * (32 * (word / 256));
  }

  /** A new header that starts 8 bytes before another one, or 8 bytes into it, destroys it for
      certain: its flag lands on the other one's size or next pointer and makes that odd. */
  lemma FlagSpoils(mem: Ram, a: nat, size: nat, b: nat, x: nat)
    requires Word(mem, a) >= size + HEADER && !Meet(a, b) && !Meet(x, a)
    requires NodeAt(mem, a).next in {0, x} || !Meet(x, NodeAt(mem, a).next)
    ensures x == b + 8 ==> NodeAt(CutWords(mem, a, size, b), x).data.size % 8 == 1
    ensures b == x + 8 ==> NodeAt(CutWords(mem, a, size, b), x).next % 8 == 1
  {
    CutIsPut(mem, a, size, b);
    PutNodes(mem, a, size, b, a);
    FlagIsOdd(Word(mem[a := size][b := Word(mem, a) - size - HEADER], b + FLAG));
  }
}
