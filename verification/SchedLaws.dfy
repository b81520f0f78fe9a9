/** What the scheduler keeps, and how long a process waits. */
module SchedLaws {
  import opened SchedSpec

  // ---------------------------------------------------------------- the queue

  /** Moving the running process to the end and the head to the processor. */
  function Rotated(q: seq<nat>, p: nat): seq<nat> { (q + [p])[1..] }

  lemma RotatedMembers(q: seq<nat>, p: nat)
    requires NoDuplicates(q) && p !in q
    ensures var next := (q + [p])[0]; var q' := Rotated(q, p);
            && NoDuplicates(q') && next !in q' && |q'| == |q|
            && SetOf(q') + {next} == SetOf(q) + {p}
            && (forall i :: 0 <= i < |q'| ==> q'[i] == if i + 1 < |q| then q[i + 1] else p)
  {
    var r := q + [p];
    var q' := Rotated(q, p);
    assert forall i :: 0 <= i < |q'| ==> q'[i] == r[i + 1];
    assert r == [r[0]] + q';
    forall x ensures x in q' || x == r[0] <==> x in q || x == p {
      assert x in r <==> x in q || x == p;
      assert x in r <==> x == r[0] || x in q';
    }
  }

  /** What a timer interrupt does when the quantum is not used up, and when it is. */
  lemma PreemptStays(s: Sched, sp: nat)
    requires SchedInv(s) && s.current != 0 && s.procs[s.current].slice > 1
    ensures var c := s.procs[s.current];
            Preempt(s, sp) == (s.(ticks := (s.ticks + 1) % WORD32,
                                  procs := s.procs[s.current := c.(ticks := (c.ticks + 1) % WORD32, slice := c.slice - 1)]), sp)
  {
    var c := s.procs[s.current];
    assert (c.slice - 1) % WORD32 == c.slice - 1;
  }

  /** The control blocks after the running process gave up the processor at `sp`. */
  function Expired(s: Sched, sp: nat): map<nat, Pcb>
    requires s.current in s.procs
  {
    var c := s.procs[s.current];
    s.procs[s.current := c.(ticks := (c.ticks + 1) % WORD32, slice := 0, rsp := sp, state := READY)]
  }

  lemma PreemptSwitches(s: Sched, sp: nat)
    requires SchedInv(s) && s.current != 0 && s.procs[s.current].slice == 1
    ensures var procs := Expired(s, sp);
            var next := (s.queue + [s.current])[0];
            && next in procs
            && Preempt(s, sp) == (s.(ticks := (s.ticks + 1) % WORD32, queue := Rotated(s.queue, s.current), current := next,
                                     procs := procs[next := procs[next].(state := RUNNING, slice := SLICE)]), procs[next].rsp)
  {
    var c := s.procs[s.current];
    var c1 := c.(ticks := (c.ticks + 1) % WORD32, slice := 0);
    assert (c.slice - 1) % WORD32 == 0;
    assert s.procs[s.current := c1][s.current := c1.(rsp := sp)][s.current := c1.(rsp := sp, state := READY)] == Expired(s, sp);
  }

  lemma ExpiredAlone(s: Sched, sp: nat)
    requires s.current in s.procs && s.queue == [] && s.procs[s.current].state == RUNNING
    ensures var c, procs := s.procs[s.current], Expired(s, sp);
            && s.queue + [s.current] == [s.current] && Rotated(s.queue, s.current) == s.queue
            && procs[s.current := procs[s.current].(state := RUNNING, slice := SLICE)]
            == s.procs[s.current := c.(ticks := (c.ticks + 1) % WORD32, slice := 20, rsp := sp)]
  {
  }

  /** All that a timer interrupt changes.  Without a running process it only counts; with one it
      counts for that one, too, and takes a tick of its quantum.  When that was the last, the
      process goes to the end of the queue, and the head of the queue, that very process if
      nobody else waits, goes on from its saved stack pointer with 20 ticks. */
  lemma PreemptExactly(s: Sched, sp: nat)
    requires SchedInv(s)
    ensures var s1 := s.(ticks := (s.ticks + 1) % 0x1_0000_0000);
            if s.current == 0 then Preempt(s, sp) == (s1, sp) else
            var c := s.procs[s.current]; var q := s.queue + [s.current]; var t := (c.ticks + 1) % 0x1_0000_0000;
            if c.slice > 1 then Preempt(s, sp) == (s1.(procs := s.procs[s.current := c.(ticks := t, slice := c.slice - 1)]), sp)
            else if s.queue == [] then Preempt(s, sp) == (s1.(procs := s.procs[s.current := c.(ticks := t, slice := 20, rsp := sp)]), sp)
            else var d := s.procs[q[0]];
              Preempt(s, sp) == (s1.(queue := q[1..], current := q[0],
                                     procs := s.procs[s.current := c.(ticks := t, slice := 0, rsp := sp, state := READY)]
                                                     [q[0] := d.(state := RUNNING, slice := 20)]), d.rsp)
  {
    if s.current != 0 {
      var c := s.procs[s.current];
      if c.slice > 1 {
        PreemptStays(s, sp);
      } else {
        PreemptSwitches(s, sp);
        if s.queue == [] {
          ExpiredAlone(s, sp);
        }
      }
    }
  }

  /** A timer interrupt keeps the invariant. */
  lemma PreemptKeepsInv(s: Sched, sp: nat)
    requires SchedInv(s)
    ensures SchedInv(Preempt(s, sp).0)
  {
    if s.current != 0 {
      if s.procs[s.current].slice > 1 {
        PreemptStays(s, sp);
      } else {
        PreemptSwitches(s, sp);
        RotatedMembers(s.queue, s.current);
      }
    }
  }

  lemma DispatchKeepsInv(s: Sched)
    requires SchedInv(s) && s.current == 0
    ensures SchedInv(FirstDispatch(s))
  {
    if s.queue != [] {
      var p := s.queue[0];
      assert s.queue == [p] + s.queue[1..];
      assert forall x :: x in s.queue <==> x == p || x in s.queue[1..];
    }
  }

  /** A process that has the processor is never switched away from by a cooperative
      schedule; without one, the head of the queue is dispatched. */
  lemma DoScheduleMeaning(s: Sched)
    requires SchedInv(s)
    ensures SchedInv(DoSchedule(s))
    ensures s.current != 0 || s.queue == [] ==> DoSchedule(s) == s
    ensures s.current == 0 && s.queue != [] ==> DoSchedule(s) == FirstDispatch(s)
    ensures s.current == 0 && s.queue != [] ==>
      DoSchedule(s) == s.(queue := s.queue[1..], current := s.queue[0], procs := s.procs[s.queue[0] := s.procs[s.queue[0]].(state := RUNNING)])
  {
    if s.current == 0 && s.queue != [] {
      var p := s.queue[0];
      assert s.procs[p].slice == SLICE;
      DispatchKeepsInv(s);
    }
  }

  // ---------------------------------------------------------------- waiting

  /** Ticks until the process at position `k` of the queue runs, if nobody leaves. */
  function Rank(s: Sched, p: nat): nat
    requires s.current in s.procs
  {
    s.procs[s.current].slice + SLICE * IndexOfProc(s.queue, p)
  }

  lemma IndexUnique(q: seq<nat>, i: nat)
    requires NoDuplicates(q) && i < |q|
    ensures IndexOfProc(q, q[i]) == i
  {
  }

  lemma InQueue(q: seq<nat>, p: nat)
    requires p in q
    ensures IndexOfProc(q, p) < |q|
  {
  }

  /** Every tick brings a waiting process exactly one tick closer: at rank 1 it runs next. */
  lemma TickRank(s: Sched, sp: nat, p: nat)
    requires SchedInv(s) && s.current != 0 && p in s.queue
    ensures var s' := Preempt(s, sp).0;
            && SchedInv(s') && s'.current != 0
            && if Rank(s, p) == 1 then s'.current == p else p in s'.queue && Rank(s', p) == Rank(s, p) - 1
  {
    PreemptKeepsInv(s, sp);
    InQueue(s.queue, p);
    var k := IndexOfProc(s.queue, p);
    if s.procs[s.current].slice > 1 {
      PreemptStays(s, sp);
    } else {
      PreemptSwitches(s, sp);
      RotatedMembers(s.queue, s.current);
      var s' := Preempt(s, sp).0;
      if k > 0 {
        assert s'.queue[k - 1] == p;
        IndexUnique(s'.queue, k - 1);
        assert s'.procs[s'.current].slice == SLICE;
      }
    }
  }
}
