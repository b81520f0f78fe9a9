/** Process identifiers over whole runs: 32-bit numbers handed out in turn. */
module Pids {
  import opened SchedSpec
  import opened KernelLaws
  import opened SchedRuns

  function Procs(k: Kernel): map<nat, Pcb> { k.sched.procs }

  /** At most one identifier is handed out, the next one in turn.  Only a new process gets it,
      and no other process changes its own. */
  ghost predicate OneAtMost(s: Sched, s': Sched) {
    && (s'.nextPid == s.nextPid || s'.nextPid == (s.nextPid + 1) % 0x1_0000_0000)
    && (forall p :: p in s'.procs && p in s.procs ==> s'.procs[p].pid == s.procs[p].pid)
    && (forall p :: p in s'.procs && p !in s.procs ==> s'.procs[p].pid == s.nextPid && s'.nextPid == (s.nextPid + 1) % 0x1_0000_0000)
    && (forall p, q :: p in s'.procs && p !in s.procs && q in s'.procs && q !in s.procs ==> p == q)
  }

  lemma StepPids(k: Kernel, op: Op, k': Kernel)
    requires KernelInv(k) && Step(k, op, k')
    ensures OneAtMost(k.sched, k'.sched)
  {
    hide HeapSpec.Inv, ProcsHold, MayCreate, KernelInv;
    SchedOf(k);
    match op
    case TickOp(sp) => TickPids(k, sp);
    case CreateOp(entry, priority) => CreatePids(k, entry, priority);
    case KillOp(_) =>
    case ScheduleOp =>
      SchedLaws.DoScheduleMeaning(k.sched);
      DispatchKeepsStacks(k.sched);
    case DispatchOp => DispatchKeepsStacks(k.sched);
    case _ =>
  }

  lemma SchedOf(k: Kernel)
    requires KernelInv(k)
    ensures SchedInv(k.sched)
  {
  }

  lemma CreatePids(k: Kernel, entry: nat, priority: nat)
    requires KernelInv(k) && MayCreate(k.heap, k.frames)
    ensures OneAtMost(k.sched, Create(k, entry, priority).0.sched)
  {
    hide KernelInv, HeapSpec.Inv, ProcsHold, MayCreate, ThreeObtained, SameHeld, Create;
    SchedOf(k);
    CreateMeaning(k, entry, priority);
    FailedPids(k, entry, priority);
  }

  lemma FailedPids(k: Kernel, entry: nat, priority: nat)
    requires Known(k.sched)
    ensures var s' := Create(k, entry, priority).0.sched; s'.nextPid == k.sched.nextPid || s'.nextPid == (k.sched.nextPid + 1) % 0x1_0000_0000
  {
    hide CreateMemory;
  }

  lemma TickPids(k: Kernel, sp: nat)
    requires SchedInv(k.sched)
    ensures Known(k.sched) && OneAtMost(k.sched, SchedSpec.Preempt(k.sched, sp).0)
  {
    PreemptKeepsStacks(k.sched, sp);
  }

  /** Process `p` comes into being with operation `i`, and is there ever since. */
  ghost predicate Since(states: seq<Kernel>, i: nat, k: nat, p: nat)
    requires k < |states|
  {
    i < k && p !in Procs(states[i]) && forall j :: i < j <= k ==> p in Procs(states[j])
  }

  /** How many identifiers the operations `i .. j` hand out. */
  function Issued(states: seq<Kernel>, i: nat, j: nat): nat
    requires j < |states|
    decreases j
  {
    if j <= i then 0 else Issued(states, i, j - 1) + if states[j].sched.nextPid != states[j - 1].sched.nextPid then 1 else 0
  }

  lemma {:induction false} NextPid(states: seq<Kernel>, ops: seq<Op>, i: nat, j: nat)
    requires IsRun(states, ops) && KernelInv(states[0]) && i <= j <= |ops| && states[i].sched.nextPid < 0x1_0000_0000
    ensures states[j].sched.nextPid == (states[i].sched.nextPid + Issued(states, i, j)) % 0x1_0000_0000
    decreases j
  {
    hide KernelInv, Step;
    if i < j {
      NextPid(states, ops, i, j - 1);
      RunKeeps(states, ops, j - 1);
      assert StepAt(states, ops, j - 1);
      StepPids(states[j - 1], ops[j - 1], states[j]);
      InTurn(states[i].sched.nextPid, Issued(states, i, j - 1));
    }
  }

  lemma InTurn(a: nat, n: nat)
    ensures ((a + n) % 0x1_0000_0000 + 1) % 0x1_0000_0000 == (a + n + 1) % 0x1_0000_0000
    ensures ((a + n) % 0x1_0000_0000 + 1) % 0x1_0000_0000 != (a + n) % 0x1_0000_0000
  {
  }

  lemma {:induction false} PidKept(states: seq<Kernel>, ops: seq<Op>, i: nat, k: nat, p: nat)
    requires IsRun(states, ops) && KernelInv(states[0]) && k <= |ops| && Since(states, i, k, p)
    ensures Procs(states[k])[p].pid == states[i].sched.nextPid
    ensures states[i + 1].sched.nextPid == (states[i].sched.nextPid + 1) % 0x1_0000_0000
    decreases k
  {
    hide KernelInv, Step;
    RunKeeps(states, ops, k - 1);
    assert StepAt(states, ops, k - 1);
    StepPids(states[k - 1], ops[k - 1], states[k]);
    if i + 1 < k {
      PidKept(states, ops, i, k - 1, p);
    }
  }

  lemma SameInTurn(a: nat, n: nat)
    requires a < 0x1_0000_0000
    ensures (a + n) % 0x1_0000_0000 == a <==> n % 0x1_0000_0000 == 0
  {
    var q := (a + n) / 0x1_0000_0000;
    assert a + n == 0x1_0000_0000 * q + (a + n) % 0x1_0000_0000;
  }

  /** Two processes alive have the same identifier exactly if, from the creation of the one up to
      that of the other, a multiple of 2^32 identifiers was handed out. */
  lemma SamePidExactly(states: seq<Kernel>, ops: seq<Op>, i: nat, j: nat, k: nat, p: nat, q: nat)
    requires IsRun(states, ops) && KernelInv(states[0]) && k <= |ops| && states[0].sched.nextPid < 0x1_0000_0000
    requires i <= j && Since(states, i, k, p) && Since(states, j, k, q)
    ensures Procs(states[k])[p].pid == Procs(states[k])[q].pid <==> Issued(states, i, j) % 0x1_0000_0000 == 0
  {
    hide KernelInv;
    NextPid(states, ops, 0, i);
    NextPid(states, ops, i, j);
    PidKept(states, ops, i, k, p);
    PidKept(states, ops, j, k, q);
    SameInTurn(states[i].sched.nextPid, Issued(states, i, j));
  }

  /** When the process came into being. */
  lemma {:induction false} Creation(states: seq<Kernel>, k: nat, p: nat) returns (i: nat)
    requires k < |states| && p in Procs(states[k]) && p !in Procs(states[0])
    ensures Since(states, i, k, p)
  {
    if p in Procs(states[k - 1]) {
      i := Creation(states, k - 1, p);
    } else {
      i := k - 1;
    }
  }

  lemma {:induction false} IssuedBound(states: seq<Kernel>, i: nat, j: nat)
    requires i <= j < |states|
    ensures Issued(states, i, j) <= j - i && Issued(states, i, j) <= Issued(states, 0, j)
    ensures i < j && states[i + 1].sched.nextPid != states[i].sched.nextPid ==> Issued(states, i, j) > 0
    decreases j
  {
    if i < j {
      IssuedBound(states, i, j - 1);
    }
  }

  lemma NotBothAt(states: seq<Kernel>, ops: seq<Op>, i: nat, k: nat, p: nat, q: nat)
    requires IsRun(states, ops) && KernelInv(states[0]) && k <= |ops| && Since(states, i, k, p) && Since(states, i, k, q)
    ensures p == q
  {
    hide KernelInv, Step;
    RunKeeps(states, ops, i);
    assert StepAt(states, ops, i);
    StepPids(states[i], ops[i], states[i + 1]);
  }

  /** So over every run that starts without processes and hands out fewer than 2^32 identifiers,
      failed creations included, no two processes ever have the same one. */
  lemma PidsDiffer(states: seq<Kernel>, ops: seq<Op>, k: nat, p: nat, q: nat)
    requires IsRun(states, ops) && KernelInv(states[0]) && k <= |ops| && states[0].sched.nextPid < 0x1_0000_0000
    requires Procs(states[0]) == map[] && Issued(states, 0, k) < 0x1_0000_0000
    requires p in Procs(states[k]) && q in Procs(states[k]) && p != q
    ensures Procs(states[k])[p].pid != Procs(states[k])[q].pid
  {
    hide KernelInv, Since;
    var i := Creation(states, k, p);
    var j := Creation(states, k, q);
    if i == j {
      NotBothAt(states, ops, i, k, p, q);
    } else if i < j {
      PidsApart(states, ops, i, j, k, p, q);
    } else {
      PidsApart(states, ops, j, i, k, q, p);
    }
  }

  lemma PidsApart(states: seq<Kernel>, ops: seq<Op>, i: nat, j: nat, k: nat, p: nat, q: nat)
    requires IsRun(states, ops) && KernelInv(states[0]) && k <= |ops| && states[0].sched.nextPid < 0x1_0000_0000
    requires i < j && Since(states, i, k, p) && Since(states, j, k, q) && Issued(states, 0, k) < 0x1_0000_0000
    ensures Procs(states[k])[p].pid != Procs(states[k])[q].pid
  {
    hide KernelInv;
    SamePidExactly(states, ops, i, j, k, p, q);
    PidKept(states, ops, i, k, p);
    NextPid(states, ops, 0, i);
    InTurn(states[i].sched.nextPid, 0);
    IssuedBound(states, i, j);
    IssuedGrows(states, j, k);
  }

  lemma {:induction false} IssuedGrows(states: seq<Kernel>, j: nat, k: nat)
    requires j <= k < |states|
    ensures Issued(states, 0, j) <= Issued(states, 0, k)
    decreases k
  {
    if j < k {
      IssuedGrows(states, j, k - 1);
    }
  }
}
