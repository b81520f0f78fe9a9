/** The keyboard's circular buffer as a value: what it holds, and that a producer
    interrupting the consumer anywhere loses, repeats and reorders nothing. */
module KeyRing {

  const KB_BUFFER_SIZE: nat := 256

  datatype Ring = Ring(buffer: seq<char>, read: nat, write: nat)

  ghost predicate Valid(r: Ring) {
    |r.buffer| == KB_BUFFER_SIZE && r.read < KB_BUFFER_SIZE && r.write < KB_BUFFER_SIZE
  }

  function Wrap(i: nat): nat { i % KB_BUFFER_SIZE }

  function Occupied(r: Ring): nat
    requires Valid(r)
  {
    if r.write >= r.read then r.write - r.read else r.write + KB_BUFFER_SIZE - r.read
  }

  /** The characters waiting, the oldest first. */
  function Contents(r: Ring): (s: seq<char>)
    requires Valid(r)
  {
    seq(Occupied(r), i requires 0 <= i < Occupied(r) => r.buffer[Wrap(r.read + i)])
  }

  lemma WrapOnce(i: nat)
    requires i < 2 * KB_BUFFER_SIZE
    ensures Wrap(i) == if i < KB_BUFFER_SIZE then i else i - KB_BUFFER_SIZE
  {
  }

  /** One character more, unless the write index would catch up with the read index. */
  function Add(r: Ring, c: char): Ring
    requires Valid(r)
  {
    var next := Wrap(r.write + 1);
    if next != r.read then r.(buffer := r.buffer[r.write := c], write := next) else r
  }

  function Advance(r: Ring): Ring
    requires Valid(r)
  {
    r.(read := Wrap(r.read + 1))
  }

  function Nonempty(r: Ring): bool { r.read != r.write }

  /** A character is dropped exactly when 255 are waiting, and otherwise queued last. */
  lemma AddMeaning(r: Ring, c: char)
    requires Valid(r)
    ensures Valid(Add(r, c)) && Add(r, c).read == r.read
    ensures Contents(Add(r, c)) == if |Contents(r)| == 255 then Contents(r) else Contents(r) + [c]
    ensures |Contents(r)| <= 255
  {
    var r' := Add(r, c);
    WrapOnce(r.write + 1);
    if r' != r {
      assert Occupied(r') == Occupied(r) + 1;
      forall i | 0 <= i < Occupied(r') ensures Contents(r')[i] == (Contents(r) + [c])[i] {
        WrapOnce(r.read + i);
      }
    } else {
      AddDropped(r, c);
    }
  }

  lemma AddDropped(r: Ring, c: char)
    requires Valid(r) && Add(r, c) == r
    ensures Occupied(r) == KB_BUFFER_SIZE - 1
  {
    WrapOnce(r.write + 1);
  }

  /** Taking removes the oldest character and no other. */
  lemma AdvanceMeaning(r: Ring)
    requires Valid(r) && Nonempty(r)
    ensures Valid(Advance(r)) && |Contents(r)| > 0
    ensures r.buffer[r.read] == Contents(r)[0] && Contents(Advance(r)) == Contents(r)[1..]
  {
    var r' := Advance(r);
    WrapOnce(r.read + 1);
    WrapOnce(r.read);
    assert Occupied(r') == Occupied(r) - 1;
    forall i | 0 <= i < Occupied(r') ensures Contents(r')[i] == Contents(r)[1..][i] {
      WrapOnce(r'.read + i);
      WrapOnce(r.read + i + 1);
    }
  }

  lemma EmptyContents(r: Ring)
    requires Valid(r)
    ensures Nonempty(r) <==> Contents(r) != []
  {
  }

  // ---------------------------------------------------------------- producer and consumer interleaved

  /** Where the consumer is: every access to shared memory is one step, and what it
      has loaded so far is in its registers. */
  datatype Consumer =
    | TestRead
    | TestWrite(r: nat)
    | LoadIndex
    | LoadChar(r: nat)
    | ReloadIndex(c: char)
    | StoreIndex(c: char, r: nat)

  /** `accepted` and `delivered` are the histories of the two ends. */
  datatype State = State(ring: Ring, consumer: Consumer, accepted: seq<char>, delivered: seq<char>)

  /** One access by the consumer. */
  function Consume(s: State): State
    requires Valid(s.ring) && (s.consumer.LoadChar? ==> s.consumer.r < KB_BUFFER_SIZE)
  {
    match s.consumer
    case TestRead => s.(consumer := TestWrite(s.ring.read))
    case TestWrite(r) => s.(consumer := if r != s.ring.write then LoadIndex else TestRead)
    case LoadIndex => s.(consumer := LoadChar(s.ring.read))
    case LoadChar(r) => s.(consumer := ReloadIndex(s.ring.buffer[r]))
    case ReloadIndex(c) => s.(consumer := StoreIndex(c, s.ring.read))
    case StoreIndex(c, r) => s.(ring := s.ring.(read := Wrap(r + 1)), consumer := TestRead, delivered := s.delivered + [c])
  }

  /** The keyboard interrupt with a character. */
  function Produce(s: State, c: char): State
    requires Valid(s.ring)
  {
    var ring := Add(s.ring, c);
    s.(ring := ring, accepted := if ring.write != s.ring.write then s.accepted + [c] else s.accepted)
  }

  /** The consumer has seen that there is input. */
  predicate Committed(c: Consumer) { !c.TestRead? && !c.TestWrite? }

  ghost predicate Inv(s: State) {
    && Valid(s.ring)
    && s.accepted == s.delivered + Contents(s.ring)
    && (Committed(s.consumer) ==> Nonempty(s.ring))
    && (s.consumer.TestWrite? || s.consumer.LoadChar? || s.consumer.StoreIndex? ==> s.consumer.r == s.ring.read)
    && (s.consumer.ReloadIndex? || s.consumer.StoreIndex? ==> s.consumer.c == s.ring.buffer[s.ring.read])
  }

  lemma ConsumeKeeps(s: State)
    requires Inv(s)
    ensures Inv(Consume(s)) && Consume(s).accepted == s.accepted
    ensures Consume(s).delivered == if s.consumer.StoreIndex? then s.delivered + [Contents(s.ring)[0]] else s.delivered
  {
    if s.consumer.StoreIndex? {
      AdvanceMeaning(s.ring);
      assert s.accepted == s.delivered + [Contents(s.ring)[0]] + Contents(s.ring)[1..];
    }
  }

  /** The interrupt leaves the oldest character, and that there is one, alone. */
  lemma ProduceKeeps(s: State, c: char)
    requires Inv(s)
    ensures Inv(Produce(s, c)) && Produce(s, c).delivered == s.delivered && Produce(s, c).consumer == s.consumer
    ensures Produce(s, c).accepted == if |Contents(s.ring)| == 255 then s.accepted else s.accepted + [c]
    ensures Nonempty(s.ring) ==> Nonempty(Produce(s, c).ring)
  {
    AddMeaning(s.ring, c);
    WrapOnce(s.ring.write + 1);
    EmptyContents(s.ring);
    EmptyContents(Add(s.ring, c));
    if |Contents(s.ring)| < KB_BUFFER_SIZE - 1 {
      assert s.delivered + Contents(s.ring) + [c] == s.delivered + (Contents(s.ring) + [c]);
    }
  }

  // ---------------------------------------------------------------- runs

  /** Each step is an access of the consumer or an interrupt with a character. */
  datatype Step = Access | Key(c: char)

  function Apply(s: State, step: Step): State
    requires Inv(s)
  {
    match step
    case Access => Consume(s)
    case Key(c) => Produce(s, c)
  }

  lemma ApplyKeeps(s: State, step: Step)
    requires Inv(s)
    ensures Inv(Apply(s, step))
  {
    match step
    case Access => ConsumeKeeps(s);
    case Key(c) => ProduceKeeps(s, c);
  }

  function Run(s: State, steps: seq<Step>): (s': State)
    requires Inv(s)
    ensures Inv(s')
    decreases |steps|
  {
    if steps == [] then s else
    var n := |steps| - 1;
    var s1 := Run(s, steps[..n]);
    ApplyKeeps(s1, steps[n]);
    Apply(s1, steps[n])
  }

  function Start(buffer: seq<char>): State
    requires |buffer| == KB_BUFFER_SIZE
  {
    State(Ring(buffer, 0, 0), TestRead, [], [])
  }

  /** However interrupts and accesses interleave, what was delivered is a prefix of what
      was accepted, and what is missing waits in the buffer, at most 255 characters. */
  lemma DeliveredInOrder(buffer: seq<char>, steps: seq<Step>)
    requires |buffer| == KB_BUFFER_SIZE
    ensures Inv(Start(buffer))
    ensures var s := Run(Start(buffer), steps);
            s.delivered <= s.accepted && s.accepted[|s.delivered|..] == Contents(s.ring) && |s.accepted| - |s.delivered| <= 255
  {
    var s := Run(Start(buffer), steps);
    AddMeaning(s.ring, ' ');
  }

  /** The characters of the interrupts so far. */
  function Typed(steps: seq<Step>): seq<char> {
    if steps == [] then [] else
    var n := |steps| - 1;
    Typed(steps[..n]) + if steps[n].Key? then [steps[n].c] else []
  }

  /** `a` is `b` with some characters left out. */
  predicate Subsequence(a: seq<char>, b: seq<char>) {
    if b == [] then a == [] else
    var n := |b| - 1;
    Subsequence(a, b[..n]) || (a != [] && a[|a| - 1] == b[n] && Subsequence(a[..|a| - 1], b[..n]))
  }

  lemma OneMoreTyped(a: seq<char>, b: seq<char>, c: char)
    requires Subsequence(a, b)
    ensures Subsequence(a, b + [c]) && Subsequence(a + [c], b + [c])
  {
    assert (b + [c])[..|b|] == b && (a + [c])[..|a|] == a;
  }

  /** What one step adds to the characters accepted. */
  function Accepts(s: State, step: Step): seq<char>
    requires Inv(s)
  {
    if step.Key? && |Contents(s.ring)| != 255 then [step.c] else []
  }

  lemma StepAccepts(s: State, step: Step, first: seq<char>, kept: seq<char>)
    requires Inv(s) && s.accepted == first + kept
    ensures Apply(s, step).accepted == first + (kept + Accepts(s, step))
  {
    match step
    case Access => ConsumeKeeps(s);
    case Key(c) => ProduceKeeps(s, c);
  }

  /** The characters of those interrupts that found fewer than 255 waiting. */
  function Kept(s: State, steps: seq<Step>): seq<char>
    requires Inv(s)
  {
    if steps == [] then [] else
    var n := |steps| - 1;
    Kept(s, steps[..n]) + Accepts(Run(s, steps[..n]), steps[n])
  }

  /** A character typed is dropped exactly by a full buffer: accepted are those kept, in order. */
  lemma {:induction false} OnlyFullDrops(s: State, steps: seq<Step>)
    requires Inv(s)
    ensures Run(s, steps).accepted == s.accepted + Kept(s, steps)
  {
    if steps != [] {
      var n := |steps| - 1;
      OnlyFullDrops(s, steps[..n]);
      StepAccepts(Run(s, steps[..n]), steps[n], s.accepted, Kept(s, steps[..n]));
    }
  }

  /** What is accepted is what was typed with some characters left out, never reordered or repeated. */
  lemma {:induction false} KeptInOrder(s: State, steps: seq<Step>)
    requires Inv(s)
    ensures Subsequence(Kept(s, steps), Typed(steps))
  {
    if steps != [] {
      var n := |steps| - 1;
      KeptInOrder(s, steps[..n]);
      var kept, typed := Kept(s, steps[..n]), Typed(steps[..n]);
      assert kept + [] == kept && typed + [] == typed;
      if steps[n].Key? {
        OneMoreTyped(kept, typed, steps[n].c);
      }
    }
  }

  /** Once seen, input stays until it is read: between the test and the store, whatever
      is typed, the consumer ends up with the character that was the oldest all along. */
  lemma SeenStays(s: State, steps: seq<Step>)
    requires Inv(s) && Committed(s.consumer)
    requires Run(s, steps).delivered == s.delivered
    ensures Nonempty(Run(s, steps).ring) && Contents(Run(s, steps).ring)[0] == Contents(s.ring)[0]
  {
    EmptyContents(s.ring);
    var s' := Run(s, steps);
    AcceptedGrows(s, steps);
    assert s'.accepted[|s.delivered|..] == Contents(s'.ring);
    assert s.accepted[|s.delivered|] == Contents(s.ring)[0];
    EmptyContents(s'.ring);
  }

  lemma {:induction false} AcceptedGrows(s: State, steps: seq<Step>)
    requires Inv(s)
    ensures s.accepted <= Run(s, steps).accepted && s.delivered <= Run(s, steps).delivered
  {
    if steps != [] {
      var n := |steps| - 1;
      AcceptedGrows(s, steps[..n]);
      var before := Run(s, steps[..n]);
      match steps[n]
      case Access => ConsumeKeeps(before);
      case Key(c) => ProduceKeeps(before, c);
    }
  }

  function Accesses(steps: seq<Step>): nat {
    if steps == [] then 0 else Accesses(steps[..|steps| - 1]) + if steps[|steps| - 1].Access? then 1 else 0
  }

  function Progress(c: Consumer): nat {
    match c
    case TestRead => 0
    case TestWrite(_) => 1
    case LoadIndex => 2
    case LoadChar(_) => 3
    case ReloadIndex(_) => 4
    case StoreIndex(_, _) => 5
  }

  /** Six accesses deliver the oldest character if one is waiting -- also when the
      keyboard interrupts between any two of them. */
  lemma {:induction false} ConsumerProgress(s: State, steps: seq<Step>)
    requires Inv(s) && Nonempty(s.ring) && s.consumer == TestRead && Accesses(steps) <= 6
    ensures var s' := Run(s, steps);
            if Accesses(steps) < 6 then Progress(s'.consumer) == Accesses(steps) && s'.delivered == s.delivered && Nonempty(s'.ring)
            else s'.consumer == TestRead && s'.delivered == s.delivered + [Contents(s.ring)[0]]
  {
    EmptyContents(s.ring);
    if steps != [] {
      var n := |steps| - 1;
      ConsumerProgress(s, steps[..n]);
      var before := Run(s, steps[..n]);
      match steps[n]
      case Key(c) => ProduceKeeps(before, c);
      case Access =>
        ConsumeKeeps(before);
        AcceptedGrows(s, steps[..n]);
        assert s.accepted[|s.delivered|] == Contents(s.ring)[0];
        assert before.accepted[|s.delivered|] == s.accepted[|s.delivered|];
    }
  }
}
