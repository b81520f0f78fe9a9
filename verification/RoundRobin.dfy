/** Round-robin fairness, exactly: the timer turns a wheel of processes. */
module RoundRobin {
  import opened SchedSpec
  import opened SchedLaws

  /** What the timer sees of the scheduler: the running process followed by the queue,
      and the ticks left in the quantum. */
  datatype Wheel = Wheel(ring: seq<nat>, slice: nat)

  ghost predicate WheelInv(w: Wheel) {
    w.ring != [] && NoDuplicates(w.ring) && 1 <= w.slice <= SLICE
  }

  /** The ring moved on by one. */
  function Rolled(ring: seq<nat>): seq<nat>
    requires ring != []
  {
    ring[1..] + [ring[0]]
  }

  /** One tick. */
  function Turn(w: Wheel): Wheel {
    if w.ring == [] then w
    else if w.slice > 1 then w.(slice := w.slice - 1)
    else Wheel(Rolled(w.ring), SLICE)
  }

  function Turns(w: Wheel, n: nat): Wheel {
    if n == 0 then w else Turn(Turns(w, n - 1))
  }

  /** How many of the next `n` ticks go to process `p`. */
  function Gained(w: Wheel, n: nat, p: nat): nat {
    if n == 0 then 0
    else Gained(w, n - 1, p) + if Turns(w, n - 1).ring != [] && Turns(w, n - 1).ring[0] == p then 1 else 0
  }

  // ---------------------------------------------------------------- the wheel alone

  lemma {:induction false} TurnsAdd(w: Wheel, m: nat, n: nat, p: nat)
    ensures Turns(w, m + n) == Turns(Turns(w, m), n)
    ensures Gained(w, m + n, p) == Gained(w, m, p) + Gained(Turns(w, m), n, p)
    decreases n
  {
    if n > 0 {
      TurnsAdd(w, m, n - 1, p);
      assert m + (n - 1) == m + n - 1;
    }
  }

  /** Within a quantum all ticks go to the running process. */
  lemma {:induction false} WithinQuantum(w: Wheel, n: nat, p: nat)
    requires WheelInv(w) && n < w.slice
    ensures Turns(w, n) == w.(slice := w.slice - n)
    ensures Gained(w, n, p) == if p == w.ring[0] then n else 0
  {
    if n > 0 {
      WithinQuantum(w, n - 1, p);
    }
  }

  /** The end of a quantum rolls the ring. */
  lemma QuantumEnds(w: Wheel, p: nat)
    requires WheelInv(w)
    ensures Turns(w, w.slice) == Wheel(Rolled(w.ring), SLICE)
    ensures Gained(w, w.slice, p) == if p == w.ring[0] then w.slice else 0
  {
    WithinQuantum(w, w.slice - 1, p);
  }

  function RolledBy(ring: seq<nat>, k: nat): seq<nat>
    requires k <= |ring|
  {
    ring[k..] + ring[..k]
  }

  lemma RolledOnce(ring: seq<nat>, k: nat)
    requires 0 < k <= |ring| && NoDuplicates(ring)
    ensures RolledBy(ring, k - 1)[0] == ring[k - 1] && Rolled(RolledBy(ring, k - 1)) == RolledBy(ring, k)
    ensures NoDuplicates(RolledBy(ring, k - 1)) && |RolledBy(ring, k - 1)| == |ring|
  {
    var r := RolledBy(ring, k - 1);
    var n := |ring|;
    assert forall i :: 0 <= i < n ==> r[i] == ring[if i < n - (k - 1) then i + k - 1 else i - (n - (k - 1))];
  }

  lemma RolledNone(ring: seq<nat>)
    ensures RolledBy(ring, 0) == ring
  {
  }

  /** `k` full quanta roll the ring by `k` and give 20 ticks to each of the first `k`. */
  lemma {:induction false} Quanta(w: Wheel, k: nat, p: nat)
    requires WheelInv(w) && w.slice == SLICE && k <= |w.ring|
    ensures Turns(w, SLICE * k) == Wheel(RolledBy(w.ring, k), SLICE)
    ensures Gained(w, SLICE * k, p) == if p in w.ring[..k] then SLICE else 0
  {
    hide RolledBy;
    if k > 0 {
      var w1 := Wheel(RolledBy(w.ring, k - 1), SLICE);
      Quanta(w, k - 1, p);
      RolledOnce(w.ring, k);
      QuantumEnds(w1, p);
      TurnsAdd(w, SLICE * (k - 1), SLICE, p);
      assert SLICE * (k - 1) + SLICE == SLICE * k;
      assert w.ring[..k] == w.ring[..k - 1] + [w.ring[k - 1]];
    } else {
      RolledNone(w.ring);
    }
  }

  /** Finish the quantum and give everyone else one. */
  lemma UntilFirstAgain(w: Wheel, p: nat)
    requires WheelInv(w)
    ensures var m := w.slice + SLICE * (|w.ring| - 1);
            && Turns(w, m) == Wheel(w.ring, SLICE)
            && Gained(w, m, p) == if p == w.ring[0] then w.slice else if p in w.ring then SLICE else 0
  {
    var w1 := Wheel(Rolled(w.ring), SLICE);
    QuantumEnds(w, p);
    RollsRound(w.ring);
    Quanta(w1, |w.ring| - 1, p);
    TurnsAdd(w, w.slice, SLICE * (|w.ring| - 1), p);
  }

  lemma FinishedRevolution(w: Wheel, m: nat, rest: nat, p: nat)
    requires WheelInv(w) && rest + w.slice == SLICE
    requires Turns(w, m) == Wheel(w.ring, SLICE)
    requires Gained(w, m, p) == if p == w.ring[0] then w.slice else if p in w.ring then SLICE else 0
    ensures Turns(w, m + rest) == w && Gained(w, m + rest, p) == if p in w.ring then SLICE else 0
  {
    WithinQuantum(Wheel(w.ring, SLICE), rest, p);
    TurnsAdd(w, m, rest, p);
    assert w.ring[0] in w.ring;
  }

  /** A full revolution from anywhere in a quantum: finish it, give everyone else one,
      and start the first one again up to the same point. */
  lemma Revolution(w: Wheel, p: nat)
    requires WheelInv(w)
    ensures Turns(w, SLICE * |w.ring|) == w
    ensures Gained(w, SLICE * |w.ring|, p) == if p in w.ring then SLICE else 0
  {
    var m, rest := w.slice + SLICE * (|w.ring| - 1), SLICE - w.slice;
    UntilFirstAgain(w, p);
    FinishedRevolution(w, m, rest, p);
    assert m + rest == SLICE * |w.ring|;
  }

  lemma RollsRound(ring: seq<nat>)
    requires ring != [] && NoDuplicates(ring)
    ensures NoDuplicates(Rolled(ring)) && RolledBy(Rolled(ring), |ring| - 1) == ring
    ensures forall p :: p in Rolled(ring)[..|ring| - 1] <==> p in ring && p != ring[0]
  {
    var r := Rolled(ring);
    assert ring == [ring[0]] + ring[1..];
    assert r[..|ring| - 1] == ring[1..];
    assert forall i :: 0 <= i < |r| ==> r[i] == ring[if i + 1 < |ring| then i + 1 else 0];
  }

  // ---------------------------------------------------------------- the scheduler turns the wheel

  function WheelOf(s: Sched): Wheel
    requires s.current in s.procs
  {
    Wheel([s.current] + s.queue, s.procs[s.current].slice)
  }

  lemma WheelOfInv(s: Sched)
    requires SchedInv(s) && s.current != 0
    ensures WheelInv(WheelOf(s)) && |WheelOf(s).ring| == s.count
    ensures forall p :: p in s.procs ==> p in WheelOf(s).ring
  {
    var w := WheelOf(s);
    assert forall i :: 0 < i < |w.ring| ==> w.ring[i] == s.queue[i - 1];
    forall p | p in s.procs ensures p in w.ring {
      assert p in Members(s);
    }
  }

  /** A timer interrupt turns the wheel, whatever stack pointer it is given. */
  lemma PreemptTurns(s: Sched, sp: nat)
    requires SchedInv(s) && s.current != 0
    ensures var s' := Preempt(s, sp).0;
            s'.current != 0 && s'.current in s'.procs && WheelOf(s') == Turn(WheelOf(s))
  {
    if s.procs[s.current].slice > 1 {
      PreemptStays(s, sp);
    } else {
      PreemptSwitches(s, sp);
      var r := s.queue + [s.current];
      assert r == [r[0]] + Rotated(s.queue, s.current);
      assert Rolled(WheelOf(s).ring) == r;
      assert r[0] in s.queue || r[0] == s.current;
    }
  }

  /** It is counted for the process that was running. */
  lemma PreemptCounts(s: Sched, sp: nat, p: nat)
    requires SchedInv(s) && s.current != 0 && p in s.procs
    ensures var s' := Preempt(s, sp).0;
            && p in s'.procs
            && s'.procs[p].ticks == if p == s.current then (s.procs[p].ticks + 1) % WORD32 else s.procs[p].ticks
  {
    if s.procs[s.current].slice > 1 {
      PreemptStays(s, sp);
    } else {
      PreemptSwitches(s, sp);
    }
  }

  /** A 32-bit counter at `a` has counted `g` since it was at `b`. */
  predicate Counted(b: nat, g: nat, a: nat) { a % 0x1_0000_0000 == (b + g) % 0x1_0000_0000 }

  /** Timer interrupts in a row, with the stack pointers they happen to find. */
  function PreemptAll(s: Sched, sps: seq<nat>): (r: Sched)
    requires SchedInv(s)
    ensures SchedInv(r)
    decreases |sps|
  {
    if sps == [] then s else
    var s1 := PreemptAll(s, sps[..|sps| - 1]);
    PreemptKeepsInv(s1, sps[|sps| - 1]);
    Preempt(s1, sps[|sps| - 1]).0
  }

  lemma {:induction false} PreemptAllTurns(s: Sched, sps: seq<nat>)
    requires SchedInv(s) && s.current != 0
    ensures var s' := PreemptAll(s, sps);
            s'.current != 0 && s'.current in s'.procs && WheelOf(s') == Turns(WheelOf(s), |sps|)
    decreases |sps|
  {
    if sps != [] {
      PreemptAllTurns(s, sps[..|sps| - 1]);
      PreemptTurns(PreemptAll(s, sps[..|sps| - 1]), sps[|sps| - 1]);
    }
  }

  lemma CountStep(s: Sched, sp: nat, p: nat, b: nat, g: nat, g': nat)
    requires SchedInv(s) && s.current != 0 && p in s.procs && Counted(b, g, s.procs[p].ticks)
    requires g' == g + if WheelOf(s).ring[0] == p then 1 else 0
    ensures var s' := Preempt(s, sp).0;
            p in s'.procs && Counted(b, g', s'.procs[p].ticks)
  {
    PreemptCounts(s, sp, p);
    CountOn(b, g, s.procs[p].ticks);
  }

  lemma {:induction false} PreemptAllCounts(s: Sched, sps: seq<nat>, p: nat)
    requires SchedInv(s) && s.current != 0 && p in s.procs
    ensures var s' := PreemptAll(s, sps);
            p in s'.procs && Counted(s.procs[p].ticks, Gained(WheelOf(s), |sps|, p), s'.procs[p].ticks)
    decreases |sps|
  {
    if sps != [] {
      var n := |sps| - 1;
      var s1 := PreemptAll(s, sps[..n]);
      PreemptAllCounts(s, sps[..n], p);
      PreemptAllTurns(s, sps[..n]);
      CountStep(s1, sps[n], p, s.procs[p].ticks, Gained(WheelOf(s), n, p), Gained(WheelOf(s), |sps|, p));
    }
  }

  lemma CountOn(b: nat, g: nat, a: nat)
    requires Counted(b, g, a)
    ensures Counted(b, g + 1, (a + 1) % WORD32)
  {
    assert a - (b + g) == (a / WORD32 - (b + g) / WORD32) * WORD32;
    SameResidue(b + g + 1, a / WORD32 - (b + g) / WORD32);
  }

  lemma SameResidue(x: int, k: int)
    ensures (x + k * WORD32) % WORD32 == x % WORD32
  {
  }

  /** With a fixed set of N processes, any 20 N consecutive timer interrupts return
      the running process, the queue and the quantum to what they were, and give each
      process exactly 20 ticks. */
  lemma RoundRobinExact(s: Sched, sps: seq<nat>, p: nat)
    requires SchedInv(s) && s.current != 0 && |sps| == 20 * s.count && p in s.procs
    ensures var s' := PreemptAll(s, sps);
            && s'.current == s.current && s'.queue == s.queue
            && s.current in s'.procs && s'.procs[s.current].slice == s.procs[s.current].slice
            && p in s'.procs && Counted(s.procs[p].ticks, 20, s'.procs[p].ticks)
  {
    var w, s' := WheelOf(s), PreemptAll(s, sps);
    WheelOfInv(s);
    Revolution(w, p);
    PreemptAllTurns(s, sps);
    PreemptAllCounts(s, sps, p);
    assert WheelOf(s').ring[0] == s'.current && WheelOf(s').ring[1..] == s'.queue;
    assert w.ring[0] == s.current && w.ring[1..] == s.queue;
  }
}
