/** Machine words as natural numbers, with the bitwise operators the page-table code
    applies to them, and memory made of them. */
module Words {

  const WORD: nat := 0x1_0000_0000_0000_0000

  /** Memory in 8-byte words, by address. */
  type Ram = map<nat, nat>

  function Word(mem: Ram, a: nat): nat { if a in mem then mem[a] else 0 }

  /** Bitwise or. */
  function Or(a: nat, b: nat): nat
    decreases a + b
  {
    if a == 0 then b else if b == 0 then a
    else 2 * Or(a / 2, b / 2) + (if a % 2 == 1 || b % 2 == 1 then 1 else 0)
  }

  /** `a & ~0xFFF` and `a & 0xFFF`. */
  function PageOf(a: nat): nat { a - a % 4096 }

  function OffsetOf(a: nat): nat { a % 4096 }

  lemma OrHalf(a: nat, b: nat)
    ensures Or(a, b) / 2 == Or(a / 2, b / 2)
    ensures Or(a, b) % 2 == (if a % 2 == 1 || b % 2 == 1 then 1 else 0)
  {
  }

  lemma OrNone(a: nat)
    ensures Or(a, 0) == a
  {
  }

  /** The page part keeps just the bits above the low twelve. */
  lemma PageParts(a: nat, b: nat)
    ensures PageOf(a) / 4096 == a / 4096 && PageOf(a) % 2 == 0
    ensures PageOf(a) == PageOf(b) <==> a / 4096 == b / 4096
  {
    assert PageOf(a) == a / 4096 * 4096 && PageOf(b) == b / 4096 * 4096;
  }

  function Shr(a: nat, k: nat): nat {
    if k == 0 then a else Shr(a / 2, k - 1)
  }

  lemma {:induction false} OrShr(a: nat, b: nat, k: nat)
    ensures Shr(Or(a, b), k) == Or(Shr(a, k), Shr(b, k))
    decreases k
  {
    if k > 0 {
      OrHalf(a, b);
      OrShr(a / 2, b / 2, k - 1);
    }
  }

  predicate BitAt(a: nat, k: nat) { Shr(a, k) % 2 == 1 }

  /** A bit of the result is set exactly if it is set in one of the two. */
  lemma OrBits(a: nat, b: nat, k: nat)
    ensures BitAt(Or(a, b), k) <==> BitAt(a, k) || BitAt(b, k)
  {
    OrShr(a, b, k);
    OrHalf(Shr(a, k), Shr(b, k));
  }

  lemma Shr3(a: nat, k: nat)
    ensures Shr(a, k + 3) == Shr(a / 8, k)
  {
    assert Shr(a, k + 3) == Shr(a / 2, k + 2) == Shr(a / 2 / 2, k + 1);
    assert a / 2 / 2 / 2 == a / 8;
  }

  lemma Shr12(a: nat)
    ensures Shr(a, 12) == a / 4096
  {
    Shr3(a, 9);
    Shr3(a / 8, 6);
    Shr3(a / 8 / 8, 3);
    Shr3(a / 8 / 8 / 8, 0);
  }

  /** The page parts are or-ed separately from the flag bits. */
  lemma OrPage(a: nat, b: nat)
    ensures Or(a, b) / 4096 == Or(a / 4096, b / 4096)
  {
    OrShr(a, b, 12);
    Shr12(a);
    Shr12(b);
    Shr12(Or(a, b));
  }

  /** The low `k` bits. */
  function Low(a: nat, k: nat): nat {
    if k == 0 then 0 else a % 2 + 2 * Low(a / 2, k - 1)
  }

  lemma {:induction false} OrLow(a: nat, b: nat, k: nat)
    requires Low(a, k) == 0
    ensures Low(Or(a, b), k) == Low(b, k)
    decreases k
  {
    if k > 0 {
      OrHalf(a, b);
      OrLow(a / 2, b / 2, k - 1);
    }
  }

  lemma Low3(a: nat, k: nat)
    ensures Low(a, k + 3) == a % 8 + 8 * Low(a / 8, k)
  {
    assert Low(a, k + 3) == a % 2 + 2 * Low(a / 2, k + 2);
    assert Low(a / 2, k + 2) == a / 2 % 2 + 2 * Low(a / 2 / 2, k + 1);
    assert a / 2 / 2 / 2 == a / 8;
  }

  lemma LowNone(a: nat)
    ensures Low(a, 0) == 0
  {
  }

  lemma Low12(a: nat)
    ensures Low(a, 12) == a % 4096
  {
    hide Low;
    LowNone(a / 8 / 8 / 8 / 8);
    Low3(a, 9);
    Low3(a / 8, 6);
    Low3(a / 8 / 8, 3);
    Low3(a / 8 / 8 / 8, 0);
    LowDigits(a);
  }

  lemma LowDigits(a: nat)
    ensures a % 4096 == a % 8 + 8 * (a / 8 % 8 + 8 * (a / 8 / 8 % 8 + 8 * (a / 8 / 8 / 8 % 8)))
  {
    Digit4096(a);
    Digit512(a / 8);
    Digit64(a / 8 / 8);
  }

  lemma Digit4096(a: nat)
    ensures a % 4096 == a % 8 + 8 * (a / 8 % 512)
  {
    var q, r := a / 8, a % 8;
    assert a == 4096 * (q / 512) + (8 * (q % 512) + r);
    Below4096(q / 512, 8 * (q % 512) + r);
  }

  lemma Below4096(k: nat, r: nat)
    requires r < 4096
    ensures (4096 * k + r) % 4096 == r
  {
  }

  lemma Digit512(a: nat)
    ensures a % 512 == a % 8 + 8 * (a / 8 % 64)
  {
    var q, r := a / 8, a % 8;
    assert a == 512 * (q / 64) + (8 * (q % 64) + r);
    Below512(q / 64, 8 * (q % 64) + r);
  }

  lemma Below512(k: nat, r: nat)
    requires r < 512
    ensures (512 * k + r) % 512 == r
  {
  }

  lemma Digit64(a: nat)
    ensures a % 64 == a % 8 + 8 * (a / 8 % 8)
  {
    var q, r := a / 8, a % 8;
    assert a == 64 * (q / 8) + (8 * (q % 8) + r);
    Below64(q / 8, 8 * (q % 8) + r);
  }

  lemma Below64(k: nat, r: nat)
    requires r < 64
    ensures (64 * k + r) % 64 == r
  {
  }

  /** The flag bits are those of the second operand if the first has none. */
  lemma OrOffset(page: nat, b: nat)
    requires page % 4096 == 0
    ensures Or(page, b) % 4096 == b % 4096
  {
    Low12(page);
    Low12(b);
    Low12(Or(page, b));
    OrLow(page, b, 12);
  }

  predicate PowerOfTwo(m: nat) {
    m == 1 || (m > 1 && m % 2 == 0 && PowerOfTwo(m / 2))
  }

  lemma HalfProduct(q: nat, m: nat)
    requires m % 2 == 0
    ensures q * m == 2 * (q * (m / 2))
  {
    assert m == 2 * (m / 2);
  }

  /** One step of the addition below: `x` is even, and its upper half is known. */
  lemma OrFromHalf(x: nat, y: nat, b: nat)
    requires x == 2 * y && Or(y, b / 2) == y + b / 2
    ensures Or(x, b) == x + b
  {
    OrHalf(x, b);
    assert Or(x, b) == 2 * (Or(x, b) / 2) + Or(x, b) % 2;
  }

  /** Or-ing bits below a power of two into one of its multiples is addition. */
  lemma {:induction false} OrDisjoint(q: nat, m: nat, b: nat)
    requires PowerOfTwo(m) && b < m
    ensures Or(q * m, b) == q * m + b
    decreases m
  {
    if m > 1 {
      OrDisjoint(q, m / 2, b / 2);
      HalfProduct(q, m);
      OrFromHalf(q * m, q * (m / 2), b);
    }
  }

  lemma Page4096()
    ensures PowerOfTwo(4096)
  {
    assert PowerOfTwo(16) && PowerOfTwo(256);
    assert PowerOfTwo(512) && PowerOfTwo(1024) && PowerOfTwo(2048);
  }

  lemma OrFlags(page: nat, flags: nat)
    requires page % 4096 == 0 && flags < 4096
    ensures Or(page, flags) == page + flags
  {
    Page4096();
    OrDisjoint(page / 4096, 4096, flags);
  }

  /** Page part and offset, or-ed together, just stand side by side. */
  lemma PageOrOffset(e: nat, w: nat)
    ensures Or(PageOf(e), OffsetOf(w)) == e / 4096 * 4096 + w % 4096
  {
    PageParts(e, e);
    OrFlags(PageOf(e), OffsetOf(w));
  }

  lemma Parity(a: nat)
    ensures a % 2 == a % 4096 % 2
  {
    var k, r := 2048 * (a / 4096), a % 4096;
    assert a == 2 * k + r;
  }

  lemma SameParity(a: nat, b: nat)
    requires a % 4096 == b % 4096
    ensures a % 2 == b % 2
  {
    Parity(a);
    Parity(b);
  }

  lemma SidesApart(p: nat, q: nat, w: nat)
    ensures p * 4096 + w % 4096 == q * 4096 + w % 4096 <==> p == q
  {
  }
}
