/** The text screen: 25 rows of 80 cells that show the end of an unbounded text. */
module Vga {

  const VGA_WIDTH: nat := 80
  const VGA_HEIGHT: nat := 25
  const CELLS: nat := 2000
  const TAB: nat := 4
  const COLOR_WHITE: nat := 15

  /** A C character as a byte. */
  type Byte = b: nat | b < 256

  const NEWLINE: Byte := 10
  const TABULATOR: Byte := 9
  const SPACE: Byte := 32

  /** The cell of a character on black.  Characters above 127 are negative and extend
      their sign over the colour. */
  function Entry(c: Byte, fg: nat): nat {
    if c < 128 then c + 256 * (fg % 16) else 0xFF00 + c
  }

  const BLANK: nat := 0x0F20

  lemma BlankIsSpace()
    ensures Entry(SPACE, COLOR_WHITE) == BLANK
  {
  }

  // ---------------------------------------------------------------- the text

  function Blanks(n: nat): (s: seq<nat>)
    ensures |s| == n && forall i :: 0 <= i < n ==> s[i] == BLANK
  {
    seq(n, i => BLANK)
  }

  /** Blanks up to the next multiple of `unit`, at least one. */
  function FillTo(text: seq<nat>, unit: nat): (s: seq<nat>)
    requires unit == TAB || unit == VGA_WIDTH
    ensures |s| % unit == 0 && |text| < |s| <= |text| + unit && text <= s
  {
    NextMultiple(|text|, unit);
    text + Blanks(unit - |text| % unit)
  }

  lemma NextMultiple(n: nat, unit: nat)
    requires unit == TAB || unit == VGA_WIDTH
    ensures (n + (unit - n % unit)) % unit == 0
  {
    if unit == TAB {
      assert (n + (TAB - n % TAB)) % TAB == 0;
    } else {
      assert (n + (VGA_WIDTH - n % VGA_WIDTH)) % VGA_WIDTH == 0;
    }
  }

  /** A text is the row of cells written so far, of which every 80 make a line: a
      character is a cell, a tabulator fills up to a multiple of 4, a newline of 80. */
  function Typed(text: seq<nat>, c: Byte, fg: nat): seq<nat> {
    if c == NEWLINE then FillTo(text, VGA_WIDTH)
    else if c == TABULATOR then FillTo(text, TAB)
    else text + [Entry(c, fg)]
  }

  function TypedAll(text: seq<nat>, str: seq<Byte>, fg: nat): seq<nat> {
    if str == [] then text else Typed(TypedAll(text, str[..|str| - 1], fg), str[|str| - 1], fg)
  }

  function CellOf(text: seq<nat>, p: nat): nat {
    if p < |text| then text[p] else BLANK
  }

  // ---------------------------------------------------------------- the screen

  function At(grid: seq<nat>, y: nat, x: nat): nat
    requires |grid| == CELLS && y < VGA_HEIGHT && x < VGA_WIDTH
  {
    grid[y * VGA_WIDTH + x]
  }

  /** The grid shows the lines of the text from line `top` on. */
  ghost predicate Shows(grid: seq<nat>, text: seq<nat>, top: nat) {
    |grid| == CELLS &&
    forall y: nat, x: nat {:trigger At(grid, y, x)} :: y < VGA_HEIGHT && x < VGA_WIDTH ==>
      At(grid, y, x) == CellOf(text, (top + y) * VGA_WIDTH + x)
  }

  /** The cursor is where the text ends, and nothing scrolled off before it had to. */
  ghost predicate CursorAtEnd(text: seq<nat>, top: nat, x: nat, y: nat) {
    x < VGA_WIDTH && y < VGA_HEIGHT && (top + y) * VGA_WIDTH + x == |text| && (top > 0 ==> y == VGA_HEIGHT - 1)
  }

  /** Together: the screen is the last 25 lines of the text -- the line of the cursor and the
      24 before it, or the whole text followed by blanks while there are fewer. */
  lemma LastLines(text: seq<nat>, top: nat, x: nat, y: nat)
    requires CursorAtEnd(text, top, x, y)
    ensures top == if |text| / 80 < 25 then 0 else |text| / 80 - 24
    ensures x == |text| % 80 && y == |text| / 80 - top
  {
    assert |text| / VGA_WIDTH == top + y;
  }

  /** Row after row, 80 cells each: 2000 cells of the text in a stretch, and blanks behind its end. */
  lemma ShowsStretch(grid: seq<nat>, text: seq<nat>, top: nat, i: nat)
    requires Shows(grid, text, top)
    ensures |grid| == 2000 && (i < 2000 ==> grid[i] == if 80 * top + i < |text| then text[80 * top + i] else 0x0F20)
  {
    if i < 2000 {
      assert At(grid, i / 80, i % 80) == grid[i];
    }
  }

  lemma BlanksShow(grid: seq<nat>, text: seq<nat>, n: nat, top: nat)
    requires Shows(grid, text, top)
    ensures Shows(grid, text + Blanks(n), top)
  {
    assert forall p: nat :: CellOf(text + Blanks(n), p) == CellOf(text, p);
  }

  lemma ScrolledShows(grid: seq<nat>, grid': seq<nat>, text: seq<nat>, top: nat)
    requires Shows(grid, text, top) && |grid'| == CELLS && |text| <= (top + VGA_HEIGHT) * VGA_WIDTH
    requires forall i :: 0 <= i < CELLS ==> grid'[i] == if i < CELLS - VGA_WIDTH then grid[i + VGA_WIDTH] else BLANK
    ensures Shows(grid', text, top + 1)
  {
    forall y: nat, x: nat | y < VGA_HEIGHT && x < VGA_WIDTH ensures At(grid', y, x) == CellOf(text, (top + 1 + y) * VGA_WIDTH + x) {
      if y < VGA_HEIGHT - 1 {
        assert At(grid', y, x) == At(grid, y + 1, x);
      }
    }
  }

  lemma WrittenShows(grid: seq<nat>, text: seq<nat>, top: nat, x: nat, y: nat, cell: nat)
    requires Shows(grid, text, top) && CursorAtEnd(text, top, x, y)
    ensures Shows(grid[y * VGA_WIDTH + x := cell], text + [cell], top)
  {
    var grid' := grid[y * VGA_WIDTH + x := cell];
    forall y': nat, x': nat | y' < VGA_HEIGHT && x' < VGA_WIDTH
      ensures At(grid', y', x') == CellOf(text + [cell], (top + y') * VGA_WIDTH + x')
    {
      if y' != y || x' != x {
        assert At(grid', y', x') == At(grid, y', x');
      }
    }
  }

  class Screen {
    const vgaBuffer: array<nat>
    var cursorX: nat
    var cursorY: nat

    /** What was printed since the screen was cleared, and the line on top. */
    ghost var text: seq<nat>
    ghost var top: nat

    ghost predicate Valid()
      reads this, vgaBuffer
    {
      vgaBuffer.Length == CELLS && Shows(vgaBuffer[..], text, top) && CursorAtEnd(text, top, cursorX, cursorY)
    }

    constructor (vgaBuffer: array<nat>)
      ensures this.vgaBuffer == vgaBuffer && cursorX == 0 && cursorY == 0
    {
      this.vgaBuffer := vgaBuffer;
      cursorX, cursorY := 0, 0;
      text, top := [], 0;
    }

    method Clear()
      requires vgaBuffer.Length == CELLS
      modifies this, vgaBuffer
      ensures Valid() && text == []
    {
      BlankIsSpace();
      for y := 0 to VGA_HEIGHT
        invariant forall i :: 0 <= i < y * VGA_WIDTH ==> vgaBuffer[i] == BLANK
      {
        for x := 0 to VGA_WIDTH
          invariant forall i :: 0 <= i < y * VGA_WIDTH + x ==> vgaBuffer[i] == BLANK
        {
          vgaBuffer[y * VGA_WIDTH + x] := Entry(SPACE, COLOR_WHITE);
        }
      }
      cursorX, cursorY := 0, 0;
      text, top := [], 0;
    }

    method CopyRowUp(y: nat)
      requires vgaBuffer.Length == CELLS && y < VGA_HEIGHT - 1
      modifies vgaBuffer
      ensures forall i :: 0 <= i < CELLS ==>
        vgaBuffer[i] == old(vgaBuffer[if y * VGA_WIDTH <= i < (y + 1) * VGA_WIDTH then i + VGA_WIDTH else i])
    {
      var row := y * VGA_WIDTH;
      assert row + 2 * VGA_WIDTH <= CELLS && (y + 1) * VGA_WIDTH == row + VGA_WIDTH;
      for x := 0 to VGA_WIDTH
        invariant forall i :: 0 <= i < CELLS ==> vgaBuffer[i] == old(vgaBuffer[if row <= i < row + x then i + VGA_WIDTH else i])
      {
        vgaBuffer[row + x] := vgaBuffer[(y + 1) * VGA_WIDTH + x];
      }
    }

    /** Every row but the last becomes the one below it. */
    method MoveRowsUp()
      requires vgaBuffer.Length == CELLS
      modifies vgaBuffer
      ensures forall i :: 0 <= i < CELLS - VGA_WIDTH ==> vgaBuffer[i] == old(vgaBuffer[i + VGA_WIDTH])
    {
      for y := 0 to VGA_HEIGHT - 1
        invariant forall i :: 0 <= i < y * VGA_WIDTH ==> vgaBuffer[i] == old(vgaBuffer[i + VGA_WIDTH])
        invariant forall i :: y * VGA_WIDTH <= i < CELLS ==> vgaBuffer[i] == old(vgaBuffer[i])
      {
        CopyRowUp(y);
      }
    }

    method ClearLastRow()
      requires vgaBuffer.Length == CELLS
      modifies vgaBuffer
      ensures forall i :: 0 <= i < CELLS ==> vgaBuffer[i] == if i < CELLS - VGA_WIDTH then old(vgaBuffer[i]) else BLANK
    {
      BlankIsSpace();
      for x := 0 to VGA_WIDTH
        invariant forall i :: 0 <= i < CELLS ==>
          vgaBuffer[i] == if CELLS - VGA_WIDTH <= i < CELLS - VGA_WIDTH + x then BLANK else old(vgaBuffer[i])
      {
        vgaBuffer[(VGA_HEIGHT - 1) * VGA_WIDTH + x] := Entry(SPACE, COLOR_WHITE);
      }
    }

    method Scroll()
      requires vgaBuffer.Length == CELLS && Shows(vgaBuffer[..], text, top) && |text| <= (top + VGA_HEIGHT) * VGA_WIDTH
      modifies this`cursorY, this`top, vgaBuffer
      ensures Shows(vgaBuffer[..], text, top) && top == old(top) + 1 && cursorY == VGA_HEIGHT - 1
    {
      hide Shows;
      ghost var grid := vgaBuffer[..];
      MoveRowsUp();
      ClearLastRow();
      cursorY := VGA_HEIGHT - 1;
      ScrolledShows(grid, vgaBuffer[..], text, top);
      top := top + 1;
    }

    /** To the start of the next line, at the end of which the text is. */
    method NextLine()
      requires vgaBuffer.Length == CELLS && Shows(vgaBuffer[..], text, top)
      requires cursorY < VGA_HEIGHT && (top + cursorY + 1) * VGA_WIDTH == |text| && (top > 0 ==> cursorY == VGA_HEIGHT - 1)
      modifies this`cursorX, this`cursorY, this`top, vgaBuffer
      ensures Valid()
    {
      cursorX := 0;
      cursorY := cursorY + 1;
      if cursorY >= VGA_HEIGHT {
        Scroll();
      }
    }

    method Tabulate()
      requires Valid()
      modifies this, vgaBuffer
      ensures Valid() && text == FillTo(old(text), TAB)
    {
      LastLines(text, top, cursorX, cursorY);
      TabStops(|text|, cursorX);
      BlanksShow(vgaBuffer[..], text, TAB - |text| % TAB, top);
      text := FillTo(text, TAB);
      cursorX := (cursorX + TAB) / TAB * TAB;
      if cursorX >= VGA_WIDTH {
        NextLine();
      }
    }

    method WriteCell(cell: nat)
      requires Valid()
      modifies this, vgaBuffer
      ensures Valid() && text == old(text) + [cell]
    {
      ghost var grid := vgaBuffer[..];
      WrittenShows(grid, text, top, cursorX, cursorY, cell);
      vgaBuffer[cursorY * VGA_WIDTH + cursorX] := cell;
      assert vgaBuffer[..] == grid[cursorY * VGA_WIDTH + cursorX := cell];
      text := text + [cell];
      cursorX := cursorX + 1;
      if cursorX >= VGA_WIDTH {
        NextLine();
      }
    }

    method Putchar(c: Byte, color: nat)
      requires Valid()
      modifies this, vgaBuffer
      ensures Valid() && text == Typed(old(text), c, color)
      // A newline goes on to the next multiple of 80 cells, a tabulator to that of 4, over blanks.
      ensures c == 10 ==> |text| % 80 == 0 && |old(text)| < |text| <= |old(text)| + 80
      ensures c == 9 ==> |text| % 4 == 0 && |old(text)| < |text| <= |old(text)| + 4
      ensures c == 10 || c == 9 ==> old(text) <= text && forall i :: |old(text)| <= i < |text| ==> text[i] == 0x0F20
      ensures c != 10 && c != 9 ==> text == old(text) + [if c < 128 then color % 16 * 256 + (c as nat) else 0xFF00 + (c as nat)]
    {
      if c == NEWLINE {
        LastLines(text, top, cursorX, cursorY);
        BlanksShow(vgaBuffer[..], text, VGA_WIDTH - cursorX, top);
        text := FillTo(text, VGA_WIDTH);
        NextLine();
        return;
      }
      if c == TABULATOR {
        Tabulate();
        return;
      }
      WriteCell(Entry(c, color));
    }

    /** Print a string up to its terminating zero. */
    method Print(str: seq<Byte>, color: nat)
      requires Valid() && 0 in str
      modifies this, vgaBuffer
      ensures Valid() && text == TypedAll(old(text), UpToZero(str), color)
    {
      FirstZero(str);
      ghost var n := |UpToZero(str)|;
      var i := 0;
      while str[i] != 0
        invariant 0 <= i <= n && Valid() && text == TypedAll(old(text), str[..i], color)
        decreases n - i
      {
        assert str[..i + 1][..i] == str[..i];
        Putchar(str[i], color);
        i := i + 1;
      }
    }
  }

  function UpToZero(str: seq<Byte>): seq<Byte> {
    if str == [] || str[0] == 0 then [] else [str[0]] + UpToZero(str[1..])
  }

  lemma {:induction false} FirstZero(str: seq<Byte>)
    requires 0 in str
    ensures var n := |UpToZero(str)|;
            n < |str| && str[n] == 0 && UpToZero(str) == str[..n] && forall j :: 0 <= j < n ==> str[j] != 0
  {
    if str[0] != 0 {
      FirstZero(str[1..]);
      var n := |UpToZero(str[1..])|;
      assert str[..n + 1] == [str[0]] + str[1..][..n];
      assert forall j :: 0 < j <= n ==> str[j] == str[1..][j - 1];
    }
  }

  /** Eighty is a multiple of four: tab stops of the line are tab stops of the text. */
  lemma TabStops(n: nat, x: nat)
    requires x == n % VGA_WIDTH
    ensures n % TAB == x % TAB && (x + TAB) / TAB * TAB == x + TAB - n % TAB <= VGA_WIDTH
  {
    LinesInFours(n / VGA_WIDTH, x);
    NextFour(x / TAB, x % TAB);
  }

  lemma LinesInFours(lines: nat, x: nat)
    ensures (80 * lines + x) % 4 == x % 4
  {
  }

  lemma NextFour(k: nat, r: nat)
    requires r < 4
    ensures (4 * k + r + 4) / 4 * 4 == 4 * k + 4
    ensures 4 * k + r < 80 ==> 4 * k + 4 <= 80
  {
  }

  // ---------------------------------------------------------------- the text, by itself

  /** Printing only appends: what was on a line stays there. */
  lemma {:induction false} PrintAppends(text: seq<nat>, str: seq<Byte>, fg: nat)
    ensures text <= TypedAll(text, str, fg)
  {
    if str != [] {
      PrintAppends(text, str[..|str| - 1], fg);
    }
  }

  /** Characters other than tabulator and newline fill consecutive cells, wrapping from line to
      line: the character in the low byte, the colour's low four bits in the high one, which
      characters above 127 cover up with their sign. */
  lemma {:induction false} PlainText(text: seq<nat>, str: seq<Byte>, fg: nat)
    requires forall i :: 0 <= i < |str| ==> str[i] != 10 && str[i] != 9
    ensures |TypedAll(text, str, fg)| == |text| + |str|
    ensures forall i :: 0 <= i < |str| ==>
      TypedAll(text, str, fg)[|text| + i] == if str[i] < 128 then fg % 16 * 256 + (str[i] as nat) else 0xFF00 + (str[i] as nat)
  {
    if str != [] {
      PlainText(text, str[..|str| - 1], fg);
    }
  }
}
