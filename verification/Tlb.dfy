/**
 TLB shootdown. Page tables change only under the queue lock; every change is followed
 by an invalidation queued for every CPU, and every CPU drains its own queue. A full
 queue collapses to a single flush. The protocol is a machine whose steps interleave freely.
 */
module Tlb {

  const QUEUE_SIZE: nat := 16

  datatype Op = Invlpg(addr: nat) | Flush

  /** What a CPU has cached, and what it still has to invalidate. */
  datatype Cpu = Cpu(tlb: map<nat, nat>, queue: seq<Op>)

  // ---------------------------------------------------------------- queues

  /** The body of the loop in `tlb_transaction_queue_invlpg` for one CPU. */
  function Enqueue(q: seq<Op>, addr: nat): seq<Op> {
    if |q| == QUEUE_SIZE then [Flush]
    else if |q| == 1 && q[0] == Flush then q
    else q + [Invlpg(addr)]
  }

  /** Carrying out the queue will drop address `a`. */
  predicate Pending(q: seq<Op>, a: nat) {
    Invlpg(a) in q || Flush in q
  }

  /** An invalidation is pending once it is queued, and stays pending whatever is queued after it. */
  lemma EnqueueKeeps(q: seq<Op>, addr: nat, a: nat)
    requires |q| <= QUEUE_SIZE
    ensures Pending(Enqueue(q, addr), addr) && (Pending(q, a) ==> Pending(Enqueue(q, addr), a)) && |Enqueue(q, addr)| <= QUEUE_SIZE
  {
    var q' := q + [Invlpg(addr)];
    assert Invlpg(addr) in q' && forall op :: op in q ==> op in q';
    assert Flush in [Flush];
  }

  function Run(tlb: map<nat, nat>, op: Op): map<nat, nat> {
    match op
    case Flush => map[]
    case Invlpg(a) => tlb - {a}
  }

  function RunAll(tlb: map<nat, nat>, q: seq<Op>): map<nat, nat> {
    if q == [] then tlb else RunAll(Run(tlb, q[0]), q[1..])
  }

  /** Draining drops exactly the pending addresses. */
  lemma {:induction false} RunAllDrops(tlb: map<nat, nat>, q: seq<Op>, a: nat)
    ensures a in RunAll(tlb, q) <==> a in tlb && !Pending(q, a)
    ensures a in RunAll(tlb, q) ==> RunAll(tlb, q)[a] == tlb[a]
    decreases |q|
  {
    if q != [] {
      RunAllDrops(Run(tlb, q[0]), q[1..], a);
      assert q == [q[0]] + q[1..];
    }
  }

  lemma {:induction false} RunAllSnoc(tlb: map<nat, nat>, q: seq<Op>, op: Op)
    ensures RunAll(tlb, q + [op]) == Run(RunAll(tlb, q), op)
    decreases |q|
  {
    if q == [] {
      assert q + [op] == [op];
    } else {
      RunAllSnoc(Run(tlb, q[0]), q[1..], op);
      assert (q + [op])[1..] == q[1..] + [op];
    }
  }

  /** `tlb_transaction_queue_invlpg`. */
  method QueueInvlpg(cpus0: seq<Cpu>, addr: nat) returns (cpus: seq<Cpu>)
    ensures |cpus| == |cpus0|
    ensures forall c :: 0 <= c < |cpus| ==> cpus[c] == cpus0[c].(queue := Enqueue(cpus0[c].queue, addr))
  {
    cpus := cpus0;
    var c := 0;
    while c < |cpus0|
      invariant c <= |cpus0| == |cpus|
      invariant forall d :: 0 <= d < c ==> cpus[d] == cpus0[d].(queue := Enqueue(cpus0[d].queue, addr))
      invariant forall d :: c <= d < |cpus| ==> cpus[d] == cpus0[d]
    {
      cpus := cpus[c := cpus[c].(queue := Enqueue(cpus[c].queue, addr))];
      c := c + 1;
    }
  }

  /** `tlb_handle_ops`. */
  method HandleOps(cpu: Cpu) returns (done: Cpu)
    ensures done.queue == [] && forall a :: a in done.tlb <==> a in cpu.tlb && !Pending(cpu.queue, a)
    ensures forall a :: a in done.tlb ==> done.tlb[a] == cpu.tlb[a]
  {
    var tlb, i := cpu.tlb, 0;
    while i < |cpu.queue|
      invariant i <= |cpu.queue| && tlb == RunAll(cpu.tlb, cpu.queue[..i])
    {
      RunAllSnoc(cpu.tlb, cpu.queue[..i], cpu.queue[i]);
      assert cpu.queue[..i + 1] == cpu.queue[..i] + [cpu.queue[i]];
      tlb := Run(tlb, cpu.queue[i]);
      i := i + 1;
    }
    assert cpu.queue[..i] == cpu.queue;
    forall a: nat ensures (a in tlb <==> a in cpu.tlb && !Pending(cpu.queue, a)) && (a in tlb ==> tlb[a] == cpu.tlb[a]) {
      RunAllDrops(cpu.tlb, cpu.queue, a);
    }
    done := Cpu(tlb, []);
  }

  // ---------------------------------------------------------------- the machine

  /** What the holder of the queue lock is doing. */
  datatype Busy = Free
    | Transaction(cpu: nat)
    | Announcing(cpu: nat, addr: nat, next: nat)
    | Draining(cpu: nat, pos: nat)

  /** Page tables, as a map from pages to frames, the CPUs, and the queue lock. */
  datatype State = State(tables: map<nat, nat>, cpus: seq<Cpu>, lock: Busy)

  datatype Step =
    | Cache(cpu: nat, addr: nat)
    | Evict(cpu: nat, addr: nat)
    | Begin(cpu: nat)
    | MapPage(addr: nat, frame: nat)
    | UnmapPage(addr: nat)
    | Announce
    | Commit
    | Drain(cpu: nat)
    | DrainOne
    | DrainEnd

  /** The step can be taken. Page tables are written only inside a transaction; a table write is announced to all CPUs next. */
  predicate Enabled(s: State, step: Step) {
    match step
    case Cache(c, a) => c < |s.cpus| && a in s.tables
    case Evict(c, a) => c < |s.cpus|
    case Begin(c) => c < |s.cpus| && s.lock.Free?
    case MapPage(a, f) => s.lock.Transaction?
    case UnmapPage(a) => s.lock.Transaction?
    case Announce => s.lock.Announcing?
    case Commit => s.lock.Transaction?
    case Drain(c) => c < |s.cpus| && s.lock.Free?
    case DrainOne => s.lock.Draining? && s.lock.cpu < |s.cpus| && s.lock.pos < |s.cpus[s.lock.cpu].queue|
    case DrainEnd => s.lock.Draining? && s.lock.cpu < |s.cpus| && s.lock.pos >= |s.cpus[s.lock.cpu].queue|
  }

  function SetTlb(s: State, c: nat, tlb: map<nat, nat>): State
    requires c < |s.cpus|
  {
    s.(cpus := s.cpus[c := s.cpus[c].(tlb := tlb)])
  }

  function Next(s: State, step: Step): State
    requires Enabled(s, step)
  {
    match step
    case Cache(c, a) => if a in s.cpus[c].tlb then s else SetTlb(s, c, s.cpus[c].tlb[a := s.tables[a]])
    case Evict(c, a) => SetTlb(s, c, s.cpus[c].tlb - {a})
    case Begin(c) => s.(lock := Transaction(c))
    case MapPage(a, f) => s.(tables := s.tables[a := f], lock := Announcing(s.lock.cpu, a, 0))
    case UnmapPage(a) => s.(tables := s.tables - {a}, lock := Announcing(s.lock.cpu, a, 0))
    case Announce =>
      if s.lock.next < |s.cpus| then
        s.(cpus := s.cpus[s.lock.next := s.cpus[s.lock.next].(queue := Enqueue(s.cpus[s.lock.next].queue, s.lock.addr))],
           lock := s.lock.(next := s.lock.next + 1))
      else s.(lock := Transaction(s.lock.cpu))
    case Commit => s.(lock := Free)
    case Drain(c) => s.(lock := Draining(c, 0))
    case DrainOne => SetTlb(s, s.lock.cpu, Run(s.cpus[s.lock.cpu].tlb, s.cpus[s.lock.cpu].queue[s.lock.pos])).(lock := Draining(s.lock.cpu, s.lock.pos + 1))
    case DrainEnd => s.(cpus := s.cpus[s.lock.cpu := s.cpus[s.lock.cpu].(queue := [])], lock := Free)
  }

  /** A cached translation that disagrees with the page tables. */
  predicate Stale(s: State, c: nat, a: nat) {
    c < |s.cpus| && a in s.cpus[c].tlb && (a !in s.tables || s.tables[a] != s.cpus[c].tlb[a])
  }

  /** The part of a CPU's queue that has not been carried out. */
  function Ahead(s: State, c: nat): seq<Op>
    requires c < |s.cpus|
  {
    var q := s.cpus[c].queue;
    if s.lock.Draining? && s.lock.cpu == c then (if s.lock.pos <= |q| then q[s.lock.pos..] else []) else q
  }

  /** The change behind a stale entry has been announced to the CPU, or is about to be. */
  predicate Covered(s: State, c: nat, a: nat)
    requires c < |s.cpus|
  {
    Pending(Ahead(s, c), a) || (s.lock.Announcing? && s.lock.addr == a && s.lock.next <= c)
  }

  ghost predicate Inv(s: State) {
    && (forall c: nat {:trigger s.cpus[c]} :: c < |s.cpus| ==> |s.cpus[c].queue| <= QUEUE_SIZE)
    && (s.lock.Draining? ==> s.lock.cpu < |s.cpus|)
    && (forall c: nat, a: nat {:trigger Stale(s, c, a)} :: Stale(s, c, a) ==> Covered(s, c, a))
  }

  lemma StepCovered(s: State, step: Step, c: nat, a: nat)
    requires Inv(s) && Enabled(s, step) && Stale(Next(s, step), c, a)
    ensures Covered(Next(s, step), c, a)
  {
    var s' := Next(s, step);
    assert Stale(s, c, a) ==> Covered(s, c, a);
    match step
    case Announce =>
      if s.lock.next == c { EnqueueKeeps(s.cpus[c].queue, s.lock.addr, a); }
    case DrainOne =>
      if s.lock.cpu == c { DrainCovered(s.cpus[c].queue, s.lock.pos, a); }
    case _ =>
  }

  lemma DrainCovered(q: seq<Op>, pos: nat, a: nat)
    requires pos < |q| && Pending(q[pos..], a)
    ensures q[pos] == Invlpg(a) || q[pos] == Flush || Pending(q[pos + 1..], a)
  {
    assert q[pos..] == [q[pos]] + q[pos + 1..];
  }

  /** Every step keeps every stale entry covered. */
  lemma StepKeeps(s: State, step: Step)
    requires Inv(s) && Enabled(s, step)
    ensures Inv(Next(s, step))
  {
    var s' := Next(s, step);
    forall c: nat | c < |s'.cpus| ensures |s'.cpus[c].queue| <= QUEUE_SIZE {
      assert s.cpus[c] == s.cpus[c];
      if step.Announce? && s.lock.next == c { EnqueueKeeps(s.cpus[c].queue, s.lock.addr, 0); }
    }
    forall c: nat, a: nat | Stale(s', c, a) ensures Covered(s', c, a) {
      StepCovered(s, step, c, a);
    }
  }

  /** A run of the machine. */
  ghost predicate IsRun(s: State, steps: seq<Step>)
    decreases |steps|
  {
    steps != [] ==> Enabled(s, steps[0]) && IsRun(Next(s, steps[0]), steps[1..])
  }

  function After(s: State, steps: seq<Step>): State
    requires IsRun(s, steps)
    decreases |steps|
  {
    if steps == [] then s else After(Next(s, steps[0]), steps[1..])
  }

  /** In every reachable state a stale translation has its invalidation pending or under way. */
  lemma {:induction false} RunKeeps(s: State, steps: seq<Step>)
    requires Inv(s) && IsRun(s, steps)
    ensures Inv(After(s, steps))
    decreases |steps|
  {
    if steps != [] {
      StepKeeps(s, steps[0]);
      RunKeeps(Next(s, steps[0]), steps[1..]);
    }
  }

  lemma InitInv(s: State)
    requires s.lock.Free? && forall c: nat {:trigger s.cpus[c]} :: c < |s.cpus| ==> s.cpus[c] == Cpu(map[], [])
    ensures Inv(s)
  {
    forall c: nat, a: nat | Stale(s, c, a) ensures Covered(s, c, a) {
      assert s.cpus[c] == Cpu(map[], []);
    }
  }

  /** When a CPU has drained its queue it holds no stale translation. */
  lemma DrainedIsFresh(s: State, a: nat)
    requires Inv(s) && Enabled(s, DrainEnd)
    ensures !Stale(Next(s, DrainEnd), s.lock.cpu, a)
  {
    assert Stale(s, s.lock.cpu, a) ==> Covered(s, s.lock.cpu, a);
  }
}
