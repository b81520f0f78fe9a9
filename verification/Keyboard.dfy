/** The keyboard driver: the interrupt handler and the functions that read its buffer. */
module Keyboard {
  import opened KeyRing

  const KEY_LCTRL: nat := 0x1D
  const KEY_LSHIFT: nat := 0x2A
  const KEY_RSHIFT: nat := 0x36
  const KEY_LALT: nat := 0x38
  const RELEASED: nat := 0x80

  datatype Modifiers = Modifiers(shift: bool, ctrl: bool, alt: bool)

  function KeyOf(scancode: nat): nat { scancode % RELEASED }

  predicate IsModifier(key: nat) { key == KEY_LSHIFT || key == KEY_RSHIFT || key == KEY_LCTRL || key == KEY_LALT }

  function AfterKey(m: Modifiers, scancode: nat): Modifiers {
    var key, down := KeyOf(scancode), scancode < RELEASED;
    if key == KEY_LSHIFT || key == KEY_RSHIFT then m.(shift := down)
    else if key == KEY_LCTRL then m.(ctrl := down)
    else if key == KEY_LALT then m.(alt := down)
    else m
  }

  /** Both keymaps, by scancode; 0 where a key has no character. */
  datatype Keymap = Keymap(plain: seq<char>, shifted: seq<char>)

  ghost predicate ValidMap(k: Keymap) { |k.plain| == RELEASED && |k.shifted| == RELEASED }

  /** The character a scancode types, if any. */
  function CharOf(k: Keymap, m: Modifiers, scancode: nat): char
    requires ValidMap(k)
  {
    if scancode >= RELEASED || IsModifier(scancode) then '\0'
    else if m.shift then k.shifted[scancode] else k.plain[scancode]
  }

  class Keyboard {
    const keymap: Keymap
    var shiftPressed: bool
    var ctrlPressed: bool
    var altPressed: bool
    const kbBuffer: array<char>
    var kbBufferRead: nat
    var kbBufferWrite: nat

    ghost function View(): Ring
      reads this, kbBuffer
    {
      Ring(kbBuffer[..], kbBufferRead, kbBufferWrite)
    }

    function Pressed(): Modifiers
      reads this
    {
      Modifiers(shiftPressed, ctrlPressed, altPressed)
    }

    ghost predicate Valid()
      reads this, kbBuffer
    {
      ValidMap(keymap) && KeyRing.Valid(View())
    }

    constructor (keymap: Keymap)
      requires ValidMap(keymap)
      ensures Valid() && fresh(kbBuffer) && this.keymap == keymap
      ensures Pressed() == Modifiers(false, false, false) && Contents(View()) == []
    {
      this.keymap := keymap;
      shiftPressed, ctrlPressed, altPressed := false, false, false;
      kbBuffer := new char[KB_BUFFER_SIZE];
      kbBufferRead, kbBufferWrite := 0, 0;
    }

    method BufferAdd(c: char)
      requires Valid()
      modifies this`kbBufferWrite, kbBuffer
      ensures Valid() && View() == Add(old(View()), c)
      ensures Contents(View()) == if |old(Contents(View()))| == 255 then old(Contents(View())) else old(Contents(View())) + [c]
    {
      AddMeaning(View(), c);
      var nextWrite := Wrap(kbBufferWrite + 1);
      if nextWrite != kbBufferRead {
        kbBuffer[kbBufferWrite] := c;
        kbBufferWrite := nextWrite;
      }
    }

    /** The keyboard interrupt. */
    method Handler(code: nat)
      requires Valid() && code < 2 * RELEASED
      modifies this`shiftPressed, this`ctrlPressed, this`altPressed, this`kbBufferWrite, kbBuffer
      ensures Valid() && Pressed() == AfterKey(old(Pressed()), code)
      ensures var c := CharOf(keymap, old(Pressed()), code);
              View() == if c == '\0' then old(View()) else Add(old(View()), c)
    {
      var scancode := code;
      if scancode >= RELEASED {
        scancode := scancode - RELEASED;
        if scancode == KEY_LSHIFT || scancode == KEY_RSHIFT {
          shiftPressed := false;
        } else if scancode == KEY_LCTRL {
          ctrlPressed := false;
        } else if scancode == KEY_LALT {
          altPressed := false;
        }
      } else {
        if scancode == KEY_LSHIFT || scancode == KEY_RSHIFT {
          shiftPressed := true;
          return;
        } else if scancode == KEY_LCTRL {
          ctrlPressed := true;
          return;
        } else if scancode == KEY_LALT {
          altPressed := true;
          return;
        }
        var c;
        if shiftPressed {
          c := keymap.shifted[scancode];
        } else {
          c := keymap.plain[scancode];
        }
        if c != '\0' {
          BufferAdd(c);
        }
      }
    }

    method HasInput() returns (input: bool)
      requires Valid()
      ensures input <==> Contents(View()) != []
    {
      EmptyContents(View());
      input := kbBufferRead != kbBufferWrite;
    }

    /** `keyboard_getchar` once the wait for input is over. */
    method TakeChar() returns (c: char)
      requires Valid() && Contents(View()) != []
      modifies this`kbBufferRead
      ensures Valid() && [c] + Contents(View()) == old(Contents(View())) && View() == Advance(old(View()))
    {
      EmptyContents(View());
      AdvanceMeaning(View());
      c := kbBuffer[kbBufferRead];
      kbBufferRead := Wrap(kbBufferRead + 1);
    }
  }

  // ---------------------------------------------------------------- a stream of scancodes

  /** The modifiers after a stream of scancodes. */
  function After(m: Modifiers, codes: seq<nat>): Modifiers {
    if codes == [] then m else AfterKey(After(m, codes[..|codes| - 1]), codes[|codes| - 1])
  }

  predicate IsShift(code: nat) { KeyOf(code) == KEY_LSHIFT || KeyOf(code) == KEY_RSHIFT }

  /** The last event of either shift key decides the flag. */
  lemma {:induction false} LastShiftDecides(m: Modifiers, codes: seq<nat>, k: nat)
    requires k < |codes| && IsShift(codes[k]) && forall j :: k < j < |codes| ==> !IsShift(codes[j])
    ensures After(m, codes).shift <==> codes[k] < RELEASED
  {
    if k < |codes| - 1 {
      LastShiftDecides(m, codes[..|codes| - 1], k);
    }
  }

  /** The key is down: its last event is a press. */
  predicate Held(codes: seq<nat>, key: nat) {
    codes != [] &&
    var n := |codes| - 1;
    if KeyOf(codes[n]) == key then codes[n] < RELEASED else Held(codes[..n], key)
  }

  function OtherShift(code: nat): nat { if KeyOf(code) == KEY_LSHIFT then KEY_RSHIFT else KEY_LSHIFT }

  lemma {:induction false} HeldByLast(codes: seq<nat>, k: nat)
    requires k < |codes| && forall j :: k < j < |codes| ==> KeyOf(codes[j]) != KeyOf(codes[k])
    ensures Held(codes, KeyOf(codes[k])) <==> codes[k] < RELEASED
  {
    if k < |codes| - 1 {
      HeldByLast(codes[..|codes| - 1], k);
    }
  }

  /** The flag says whether a shift key is down, exactly unless the last event of the two is
      the release of one while the other is held. */
  lemma {:induction false} ShiftToldExactly(m: Modifiers, codes: seq<nat>, k: nat)
    requires k < |codes| && IsShift(codes[k]) && forall j :: k < j < |codes| ==> !IsShift(codes[j])
    ensures After(m, codes).shift == (Held(codes, KEY_LSHIFT) || Held(codes, KEY_RSHIFT))
            <==> codes[k] < RELEASED || !Held(codes, OtherShift(codes[k]))
  {
    LastShiftDecides(m, codes, k);
    HeldByLast(codes, k);
  }

  /** Without an event of either, none is down, and the flag is what it was. */
  lemma {:induction false} NoShiftEvent(m: Modifiers, codes: seq<nat>)
    requires forall j :: 0 <= j < |codes| ==> !IsShift(codes[j])
    ensures After(m, codes).shift == m.shift && !Held(codes, KEY_LSHIFT) && !Held(codes, KEY_RSHIFT)
  {
    if codes != [] {
      NoShiftEvent(m, codes[..|codes| - 1]);
    }
  }

  /** What a press types: a key's character from the shifted map if the last event of a shift key
      was a press, from the plain map if it was a release.  Modifiers and releases type nothing. */
  lemma ShiftSelects(k: Keymap, m: Modifiers, codes: seq<nat>, i: nat, code: nat)
    requires ValidMap(k) && i < |codes| && code < 256
    requires codes[i] in {0x2A, 0x36, 0xAA, 0xB6} && forall j :: i < j < |codes| ==> codes[j] < 256 && codes[j] !in {0x2A, 0x36, 0xAA, 0xB6}
    ensures CharOf(k, After(m, codes), code)
         == if code >= 128 || code in {0x1D, 0x2A, 0x36, 0x38} then '\0'
            else if codes[i] in {0x2A, 0x36} then k.shifted[code]
            else k.plain[code]
  {
    LastShiftDecides(m, codes, i);
  }

  /** The last event of the control key decides its flag, and likewise that of the other. */
  lemma {:induction false} LastOfKeyDecides(m: Modifiers, codes: seq<nat>, i: nat)
    requires i < |codes| && forall j :: i < j < |codes| ==> codes[j] % 128 != codes[i] % 128
    ensures codes[i] % 128 == 0x1D ==> (After(m, codes).ctrl <==> codes[i] < 128)
    ensures codes[i] % 128 == 0x38 ==> (After(m, codes).alt <==> codes[i] < 128)
  {
    if i < |codes| - 1 {
      LastOfKeyDecides(m, codes[..|codes| - 1], i);
    }
  }

  /** Left down, right down, right up: the flag is off, although left is held. */
  lemma ReleasedWhileHeld(m: Modifiers)
    ensures var codes := [0x2A, 0x36, 0xB6];
            !After(m, codes).shift && Held(codes, 0x2A)
  {
    var codes := [0x2A, 0x36, 0xB6];
    LastShiftDecides(m, codes, 2);
    HeldByLast(codes, 0);
  }
}
