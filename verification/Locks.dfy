/**
 Reader-writer lock, spin lock and interrupt masking, over any interleaving of CPUs.
 Each CPU runs lock operations one after the other; a step is one atomic action.
 */
module Locks {

  import opened Common

  const INT_MAX: nat := 0x7FFF_FFFF
  /** Mask counts to start from that leave room for every lock a CPU can hold. */
  const MAX_BASE: nat := WORD - INT_MAX - 3

  datatype Call = ReadLock | ReadUnlock | WriteLock | WriteUnlock

  /**
   Where a CPU is: outside; masked and about to try the spin lock; spinning with
   interrupts unmasked again; inside the spin lock; done inside; spin lock released
   but still masked.
   */
  datatype Point = Outside | Trying(call: Call) | Spinning(call: Call) | Inside(call: Call) | Done(call: Call, acquired: bool) | Released(call: Call, acquired: bool)

  /** A CPU: its point, its mask count, whether its interrupts are on, and the permits it holds. */
  datatype Cpu = Cpu(at: Point, mask: nat, enabled: bool, shared: nat, exclusive: nat)

  /** The rwlock fields and the holder of its spin lock. */
  datatype State = State(cpus: seq<Cpu>, permits: nat, writing: bool, spin: Option<nat>)

  // ---------------------------------------------------------------- actions

  /** `intr_lock`; its assertion fails on the greatest count. */
  function Mask(c: Cpu): Cpu {
    c.(mask := c.mask + 1, enabled := if c.mask == 0 then false else c.enabled)
  }

  /** `intr_unlock`; its assertion fails on a count of 0. */
  function Unmask(c: Cpu): Cpu
    requires c.mask > 0
  {
    c.(mask := c.mask - 1, enabled := if c.mask == 1 then true else c.enabled)
  }

  /** A call a CPU may make: it releases only what it holds. */
  predicate MayCall(c: Cpu, call: Call) {
    match call
    case ReadLock => true
    case WriteLock => true
    case ReadUnlock => c.shared > 0
    case WriteUnlock => c.exclusive > 0
  }

  datatype Step = Enter(cpu: nat, call: Call) | Act(cpu: nat)

  predicate Enabled(s: State, step: Step) {
    && step.cpu < |s.cpus|
    && match step
       case Enter(c, call) => s.cpus[c].at == Outside && MayCall(s.cpus[c], call)
       case Act(c) => s.cpus[c].at != Outside
  }

  /** The step hits a failing assertion of `intr_lock`, `intr_unlock` or `spin_unlock`. */
  predicate Fails(s: State, step: Step)
    requires Enabled(s, step)
  {
    var c := s.cpus[step.cpu];
    match c.at
    case Outside => c.mask == WORD - 1
    case Trying(call) => s.spin.Some? && c.mask == 0
    case Spinning(call) => c.mask == WORD - 1
    case Inside(call) =>
      (match call
       case ReadLock => !s.writing && s.permits != INT_MAX && c.mask == WORD - 1
       case WriteLock => !s.writing && s.permits == 0 && c.mask == WORD - 1
       case ReadUnlock => c.mask == 0 || s.permits == 0
       case WriteUnlock => c.mask == 0)
    case Done(call, acquired) => s.spin.None?
    case Released(call, acquired) => c.mask == 0
  }

  function Put(s: State, i: nat, c: Cpu): State
    requires i < |s.cpus|
  {
    s.(cpus := s.cpus[i := c])
  }

  /** The critical section of each call. */
  function Body(s: State, i: nat, call: Call): State
    requires i < |s.cpus| && (call in {ReadUnlock, WriteUnlock} ==> s.cpus[i].mask > 0) && (call == ReadUnlock ==> s.permits > 0 && s.cpus[i].shared > 0) && (call == WriteUnlock ==> s.cpus[i].exclusive > 0)
  {
    var c := s.cpus[i];
    match call
    case ReadLock =>
      if !s.writing && s.permits != INT_MAX then Put(s, i, Mask(c).(at := Done(call, true), shared := c.shared + 1)).(permits := s.permits + 1)
      else Put(s, i, c.(at := Done(call, false)))
    case WriteLock =>
      if !s.writing && s.permits == 0 then Put(s, i, Mask(c).(at := Done(call, true), exclusive := c.exclusive + 1)).(writing := true)
      else Put(s, i, c.(at := Done(call, false)))
    case ReadUnlock => Put(s, i, Unmask(c).(at := Done(call, true), shared := c.shared - 1)).(permits := s.permits - 1)
    case WriteUnlock => Put(s, i, Unmask(c).(at := Done(call, true), exclusive := c.exclusive - 1)).(writing := false)
  }

  predicate BodyReady(s: State, i: nat, call: Call)
    requires i < |s.cpus|
  {
    (call == ReadUnlock ==> s.cpus[i].shared > 0) && (call == WriteUnlock ==> s.cpus[i].exclusive > 0)
  }

  /** The step goes through. */
  predicate Goes(s: State, step: Step) {
    Enabled(s, step) && !Fails(s, step) && (s.cpus[step.cpu].at.Inside? ==> BodyReady(s, step.cpu, s.cpus[step.cpu].at.call))
  }

  function Next(s: State, step: Step): State
    requires Goes(s, step)
  {
    var i, c := step.cpu, s.cpus[step.cpu];
    if step.Enter? then Put(s, i, Mask(c).(at := Trying(step.call)))
    else match c.at
      case Trying(call) => if s.spin.None? then Put(s, i, c.(at := Inside(call))).(spin := Some(i)) else Put(s, i, Unmask(c).(at := Spinning(call)))
      case Spinning(call) => Put(s, i, Mask(c).(at := Trying(call)))
      case Inside(call) => Body(s, i, call)
      case Done(call, acquired) => Put(s, i, c.(at := Released(call, acquired))).(spin := None)
      case Released(call, acquired) => Put(s, i, Unmask(c).(at := if acquired then Outside else Spinning(call)))
  }

  // ---------------------------------------------------------------- the invariant

  function Reads(cpus: seq<Cpu>): nat {
    if cpus == [] then 0 else cpus[0].shared + Reads(cpus[1..])
  }

  function Writes(cpus: seq<Cpu>): nat {
    if cpus == [] then 0 else cpus[0].exclusive + Writes(cpus[1..])
  }

  /** One level of masking for the spin lock it holds, tries or has just released. */
  function SpinMask(at: Point): nat {
    if at.Outside? || at.Spinning? then 0 else 1
  }

  /** A CPU's mask count is its initial one plus what it holds; interrupts are on exactly when it is 0. */
  predicate CpuOk(s: State, i: nat, base: nat)
    requires i < |s.cpus|
  {
    var c := s.cpus[i];
    && c.mask == base + c.shared + c.exclusive + SpinMask(c.at) && (c.enabled <==> c.mask == 0)
    && ((c.at.Inside? || c.at.Done?) <==> s.spin == Some(i))
    && (c.at.Trying? || c.at.Spinning? || c.at.Inside? ==> MayCall(c, c.at.call))
    && (c.at.Done? || c.at.Released? ==> c.at.call in {ReadUnlock, WriteUnlock} ==> c.at.acquired)
  }

  ghost predicate Inv(s: State, base: seq<nat>) {
    && |base| == |s.cpus| && (forall i :: 0 <= i < |base| ==> base[i] <= MAX_BASE) && s.permits == Reads(s.cpus) <= INT_MAX
    && Writes(s.cpus) == (if s.writing then 1 else 0) && (s.writing ==> s.permits == 0)
    && (s.spin.Some? ==> s.spin.value < |s.cpus|)
    && forall i: nat {:trigger CpuOk(s, i, base[i])} :: i < |s.cpus| ==> CpuOk(s, i, base[i])
  }

  lemma {:induction false} SumsUpdate(cpus: seq<Cpu>, i: nat, c: Cpu)
    requires i < |cpus|
    ensures Reads(cpus[i := c]) == Reads(cpus) - cpus[i].shared + c.shared && cpus[i].shared <= Reads(cpus)
    ensures Writes(cpus[i := c]) == Writes(cpus) - cpus[i].exclusive + c.exclusive && cpus[i].exclusive <= Writes(cpus)
    decreases |cpus|
  {
    if i > 0 {
      SumsUpdate(cpus[1..], i - 1, c);
      assert cpus[i := c][1..] == cpus[1..][i - 1 := c];
    } else {
      assert cpus[i := c][1..] == cpus[1..];
    }
  }

  /** No assertion of the source fails in a reachable state. */
  lemma NeverFails(s: State, base: seq<nat>, step: Step)
    requires Inv(s, base) && Enabled(s, step)
    ensures Goes(s, step)
  {
    assert CpuOk(s, step.cpu, base[step.cpu]);
    SumsUpdate(s.cpus, step.cpu, s.cpus[step.cpu]);
  }

  /** What a step does to its own CPU keeps that CPU in order. */
  lemma OwnCpu(s: State, step: Step, b: nat)
    requires Goes(s, step) && CpuOk(s, step.cpu, b)
    ensures |Next(s, step).cpus| == |s.cpus| && CpuOk(Next(s, step), step.cpu, b)
  {
    var i, at := step.cpu, s.cpus[step.cpu].at;
    if at.Inside? {
      OwnBody(s, i, at.call, b);
    }
  }

  lemma OwnBody(s: State, i: nat, call: Call, b: nat)
    requires i < |s.cpus| && CpuOk(s, i, b) && s.cpus[i].at == Inside(call) && BodyReady(s, i, call) && (call in {ReadUnlock, WriteUnlock} ==> s.cpus[i].mask > 0) && (call == ReadUnlock ==> s.permits > 0)
    ensures |Body(s, i, call).cpus| == |s.cpus| && CpuOk(Body(s, i, call), i, b)
  {
  }

  /** What a step does leaves the other CPUs as they are. */
  lemma OtherCpu(s: State, step: Step, j: nat, b: nat, bi: nat)
    requires Goes(s, step) && j < |s.cpus| && j != step.cpu && CpuOk(s, j, b) && CpuOk(s, step.cpu, bi)
    ensures |Next(s, step).cpus| == |s.cpus| && CpuOk(Next(s, step), j, b)
  {
    assert Next(s, step).cpus[j] == s.cpus[j];
    assert Next(s, step).spin == Some(j) <==> s.spin == Some(j);
  }

  lemma StepFields(s: State, base: seq<nat>, step: Step)
    requires Inv(s, base) && Goes(s, step)
    ensures var s' := Next(s, step); s'.permits == Reads(s'.cpus) <= INT_MAX && Writes(s'.cpus) == (if s'.writing then 1 else 0) && (s'.writing ==> s'.permits == 0) && (s'.spin.Some? ==> s'.spin.value < |s'.cpus|)
  {
    var i, s' := step.cpu, Next(s, step);
    assert CpuOk(s, i, base[i]);
    SumsUpdate(s.cpus, i, s'.cpus[i]);
    assert s'.cpus == s.cpus[i := s'.cpus[i]];
  }

  /** Every step keeps the invariant. */
  lemma StepKeeps(s: State, base: seq<nat>, step: Step)
    requires Inv(s, base) && Goes(s, step)
    ensures Inv(Next(s, step), base)
  {
    var i, s' := step.cpu, Next(s, step);
    StepFields(s, base, step);
    assert CpuOk(s, i, base[i]);
    forall j: nat | j < |s'.cpus| ensures CpuOk(s', j, base[j]) {
      assert CpuOk(s, j, base[j]);
      if j == i { OwnCpu(s, step, base[i]); } else { OtherCpu(s, step, j, base[j], base[i]); }
    }
  }

  // ---------------------------------------------------------------- what it means

  /** At most one writer, and never a writer with a reader. */
  lemma Exclusion(s: State, base: seq<nat>, i: nat, j: nat)
    requires Inv(s, base) && i < |s.cpus| && j < |s.cpus|
    ensures s.cpus[i].exclusive > 0 ==> s.cpus[i].exclusive == 1 && s.cpus[j].shared == 0 && (i != j ==> s.cpus[j].exclusive == 0)
  {
    SumsUpdate(s.cpus, i, s.cpus[i].(shared := 0, exclusive := 0));
    SumsUpdate(s.cpus, j, s.cpus[j]);
    SumsUpdate(s.cpus[i := s.cpus[i].(shared := 0, exclusive := 0)], j, s.cpus[j]);
  }

  /** At first no lock is held; a CPU's interrupts are on exactly when its mask count is 0. */
  lemma InitInv(s: State)
    requires s.permits == 0 && !s.writing && s.spin == None
    requires forall i :: 0 <= i < |s.cpus| ==> s.cpus[i] == Cpu(Outside, s.cpus[i].mask, s.cpus[i].mask == 0, 0, 0) && s.cpus[i].mask <= MAX_BASE
    ensures Inv(s, seq(|s.cpus|, i requires 0 <= i < |s.cpus| => s.cpus[i].mask))
  {
    NothingHeld(s.cpus);
  }

  lemma {:induction false} NothingHeld(cpus: seq<Cpu>)
    requires forall i :: 0 <= i < |cpus| ==> cpus[i].shared == cpus[i].exclusive == 0
    ensures Reads(cpus) == Writes(cpus) == 0
    decreases |cpus|
  {
    if cpus != [] {
      NothingHeld(cpus[1..]);
    }
  }

  ghost predicate IsRun(s: State, steps: seq<Step>)
    decreases |steps|
  {
    steps != [] ==> Goes(s, steps[0]) && IsRun(Next(s, steps[0]), steps[1..])
  }

  ghost function After(s: State, steps: seq<Step>): State
    requires IsRun(s, steps)
    decreases |steps|
  {
    if steps == [] then s else After(Next(s, steps[0]), steps[1..])
  }

  lemma {:induction false} RunKeeps(s: State, base: seq<nat>, steps: seq<Step>)
    requires Inv(s, base) && IsRun(s, steps)
    ensures Inv(After(s, steps), base)
    decreases |steps|
  {
    if steps != [] {
      StepKeeps(s, base, steps[0]);
      RunKeeps(Next(s, steps[0]), base, steps[1..]);
    }
  }
}
