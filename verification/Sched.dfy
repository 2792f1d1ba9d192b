/**
 The scheduler: one queue of runnable threads shared by all cores, each thread bound
 to a core. Timer ticks on all cores, resumes, affinity changes and running threads
 interleave freely; a tick is one step, since it runs under the queue lock.
 */
module Sched {

  import opened Common

  /** A thread: runnable or not, the core it is bound to, and its saved registers. */
  datatype Thread = Thread(running: bool, core: nat, saved: nat)

  /** A core: the current thread (0 for none), its idle thread and the registers it runs with. */
  datatype Core = Core(current: nat, idle: nat, live: nat)

  datatype State = State(threads: map<nat, Thread>, cores: seq<Core>, queue: seq<nat>)

  // ---------------------------------------------------------------- the tick

  predicate Bound(threads: map<nat, Thread>, t: nat, c: nat) {
    t in threads && threads[t].core == c
  }

  /** The position of the first queued thread bound to core `c`; the length of the queue if there is none. */
  function FirstFor(threads: map<nat, Thread>, queue: seq<nat>, c: nat): (i: nat)
    ensures i <= |queue| && (i < |queue| ==> Bound(threads, queue[i], c)) && forall j :: 0 <= j < i ==> !Bound(threads, queue[j], c)
  {
    if queue == [] || Bound(threads, queue[0], c) then 0 else 1 + FirstFor(threads, queue[1..], c)
  }

  /** The queue with the current thread of core `c` put back. */
  function Requeued(s: State, c: nat): seq<nat>
    requires c < |s.cores|
  {
    var t := s.cores[c].current;
    if t in s.threads && t != 0 && s.threads[t].running then s.queue + [t] else s.queue
  }

  function Chosen(s: State, c: nat): nat
    requires c < |s.cores|
  {
    var q := Requeued(s, c);
    var i := FirstFor(s.threads, q, c);
    if i < |q| then q[i] else s.cores[c].idle
  }

  function Remaining(s: State, c: nat): seq<nat>
    requires c < |s.cores|
  {
    var q := Requeued(s, c);
    var i := FirstFor(s.threads, q, c);
    if i < |q| then q[..i] + q[i + 1..] else q
  }

  /** Save the registers of the thread that leaves, load those of the one that comes. */
  function Switched(s: State, c: nat, next: nat): State
    requires c < |s.cores| && next in s.threads
  {
    var core := s.cores[c];
    if core.current == next then s
    else
      var threads := if core.current in s.threads && core.current != 0 then s.threads[core.current := s.threads[core.current].(saved := core.live)] else s.threads;
      s.(threads := threads, cores := s.cores[c := core.(current := next, live := threads[next].saved)])
  }

  /** `sched_tick` on core `c`. */
  function Ticked(s: State, c: nat): State
    requires c < |s.cores| && Chosen(s, c) in s.threads
  {
    Switched(s, c, Chosen(s, c)).(queue := Remaining(s, c))
  }

  // ---------------------------------------------------------------- the invariant

  predicate CoreOk(s: State, c: nat)
    requires c < |s.cores|
  {
    var core := s.cores[c];
    && core.idle in s.threads && core.idle != 0 && !s.threads[core.idle].running
    && (core.current != 0 ==> core.current in s.threads)
    && (core.current != 0 && core.current != core.idle ==> s.threads[core.current].running && core.current !in s.queue)
  }

  /** Two cores have different idle and different current threads. */
  predicate CoresApart(s: State, c: nat, d: nat)
    requires c < |s.cores| && d < |s.cores|
  {
    && s.cores[c].idle != s.cores[d].idle && s.cores[c].current != s.cores[d].idle && s.cores[c].idle != s.cores[d].current
    && (s.cores[c].current != 0 ==> s.cores[c].current != s.cores[d].current)
  }

  /** A running thread is queued or current somewhere. */
  predicate Somewhere(s: State, t: nat) {
    t in s.queue || exists c: nat :: c < |s.cores| && s.cores[c].current == t
  }

  ghost predicate Inv(s: State) {
    && Distinct(s.queue) && 0 !in s.threads
    && (forall t :: t in s.queue ==> t in s.threads && s.threads[t].running)
    && (forall c: nat {:trigger CoreOk(s, c)} :: c < |s.cores| ==> CoreOk(s, c))
    && (forall c: nat, d: nat {:trigger CoresApart(s, c, d)} :: c < |s.cores| && d < |s.cores| && c != d ==> CoresApart(s, c, d))
    && (forall t {:trigger Somewhere(s, t)} :: t in s.threads && s.threads[t].running ==> Somewhere(s, t))
  }

  // ---------------------------------------------------------------- steps

  datatype Step = Tick(core: nat) | Resume(thread: nat) | SetAffinity(core: nat, target: nat) | Execute(core: nat, live: nat)

  /** Resume a suspended thread; change the affinity of the running thread that asks for it; run. */
  predicate Enabled(s: State, step: Step) {
    match step
    case Tick(c) => c < |s.cores|
    case Resume(t) => t in s.threads && !s.threads[t].running && (forall c :: 0 <= c < |s.cores| ==> s.cores[c].idle != t)
    case SetAffinity(c, target) => c < |s.cores| && s.cores[c].current in s.threads && s.threads[s.cores[c].current].running
    case Execute(c, live) => c < |s.cores|
  }

  function Next(s: State, step: Step): State
    requires Enabled(s, step) && (step.Tick? ==> Chosen(s, step.core) in s.threads)
  {
    match step
    case Tick(c) => Ticked(s, c)
    case Resume(t) => s.(threads := s.threads[t := s.threads[t].(running := true)], queue := s.queue + [t])
    case SetAffinity(c, target) => if target >= |s.cores| then s else s.(threads := s.threads[s.cores[c].current := s.threads[s.cores[c].current].(core := target)])
    case Execute(c, live) => s.(cores := s.cores[c := s.cores[c].(live := live)])
  }

  // ---------------------------------------------------------------- a tick keeps the invariant

  /** The thread a tick picks: the idle thread, or a runnable thread of the queue bound to this core. */
  lemma ChosenOk(s: State, c: nat)
    requires Inv(s) && c < |s.cores|
    ensures var q, t := Requeued(s, c), Chosen(s, c);
            && t in s.threads && t != 0 && Distinct(q) && (forall u :: u in q ==> u in s.threads && s.threads[u].running)
            && (t == s.cores[c].idle || (t in q && t !in Remaining(s, c) && s.threads[t].running && s.threads[t].core == c))
            && Distinct(Remaining(s, c)) && forall u :: u in q <==> u in Remaining(s, c) || (u == t && t != s.cores[c].idle)
  {
    assert CoreOk(s, c);
    var q := Requeued(s, c);
    var i := FirstFor(s.threads, q, c);
    if i < |q| {
      RemovedAt(q, i);
      assert q[i] in q;
    }
  }

  lemma RemovedAt(q: seq<nat>, i: nat)
    requires i < |q| && Distinct(q)
    ensures var r := q[..i] + q[i + 1..]; Distinct(r) && q[i] !in r && forall u :: u in q <==> u in r || u == q[i]
  {
    assert q == q[..i] + [q[i]] + q[i + 1..];
  }

  lemma TickCore(s: State, c: nat, d: nat)
    requires Inv(s) && c < |s.cores| && d < |s.cores| && Chosen(s, c) in s.threads
    ensures CoreOk(Ticked(s, c), d)
  {
    ChosenOk(s, c);
    assert CoreOk(s, c) && CoreOk(s, d);
    if d != c {
      assert CoresApart(s, c, d);
    }
  }

  lemma TickApart(s: State, c: nat, d: nat, e: nat)
    requires Inv(s) && c < |s.cores| && d < |s.cores| && e < |s.cores| && d != e && Chosen(s, c) in s.threads
    ensures CoresApart(Ticked(s, c), d, e)
  {
    ChosenOk(s, c);
    assert CoreOk(s, c) && CoreOk(s, d) && CoreOk(s, e) && CoresApart(s, d, e) && CoresApart(s, e, d);
  }

  lemma TickSomewhere(s: State, c: nat, t: nat)
    requires Inv(s) && c < |s.cores| && Chosen(s, c) in s.threads && t in s.threads && s.threads[t].running
    ensures Somewhere(Ticked(s, c), t)
  {
    ChosenOk(s, c);
    var s' := Ticked(s, c);
    assert CoreOk(s, c) && Somewhere(s, t);
    assert s'.cores[c].current == Chosen(s, c);
    if t !in Requeued(s, c) {
      var d: nat :| d < |s.cores| && s.cores[d].current == t;
      assert d != c;
      assert s'.cores[d].current == t;
    }
  }

  lemma TickKeeps(s: State, c: nat)
    requires Inv(s) && c < |s.cores|
    ensures Chosen(s, c) in s.threads && Inv(Ticked(s, c))
  {
    ChosenOk(s, c);
    var s' := Ticked(s, c);
    forall d: nat | d < |s'.cores| ensures CoreOk(s', d) {
      TickCore(s, c, d);
    }
    forall d: nat, e: nat | d < |s'.cores| && e < |s'.cores| && d != e ensures CoresApart(s', d, e) {
      TickApart(s, c, d, e);
    }
    forall t | t in s'.threads && s'.threads[t].running ensures Somewhere(s', t) {
      TickSomewhere(s, c, t);
    }
  }

  lemma ResumeKeeps(s: State, t: nat)
    requires Inv(s) && Enabled(s, Resume(t))
    ensures Inv(Next(s, Resume(t)))
  {
    var s' := Next(s, Resume(t));
    forall d: nat | d < |s'.cores| ensures CoreOk(s', d) {
      assert CoreOk(s, d);
    }
    forall d: nat, e: nat | d < |s'.cores| && e < |s'.cores| && d != e ensures CoresApart(s', d, e) {
      assert CoresApart(s, d, e);
    }
    assert forall u :: u in s'.queue <==> u in s.queue || u == t;
    forall u | u in s'.threads && s'.threads[u].running ensures Somewhere(s', u) {
      if u != t {
        assert Somewhere(s, u);
        if u !in s.queue {
          var d: nat :| d < |s.cores| && s.cores[d].current == u;
          assert s'.cores[d].current == u;
        }
      }
    }
  }

  /** Steps that touch neither the queue nor who is current keep the invariant. */
  lemma QuietKeeps(s: State, s': State)
    requires Inv(s) && s'.queue == s.queue && |s'.cores| == |s.cores| && s'.threads.Keys == s.threads.Keys
    requires forall t :: t in s.threads ==> s'.threads[t].running == s.threads[t].running
    requires forall c :: 0 <= c < |s.cores| ==> s'.cores[c].current == s.cores[c].current && s'.cores[c].idle == s.cores[c].idle
    ensures Inv(s')
  {
    forall d: nat | d < |s'.cores| ensures CoreOk(s', d) {
      assert CoreOk(s, d);
    }
    forall d: nat, e: nat | d < |s'.cores| && e < |s'.cores| && d != e ensures CoresApart(s', d, e) {
      assert CoresApart(s, d, e);
    }
    forall t | t in s'.threads && s'.threads[t].running ensures Somewhere(s', t) {
      assert Somewhere(s, t);
      if t !in s.queue {
        var d: nat :| d < |s.cores| && s.cores[d].current == t;
        assert s'.cores[d].current == t;
      }
    }
  }

  /** Every step keeps the invariant: a runnable thread is queued once or current on one core, idle threads are never queued. */
  lemma StepKeeps(s: State, step: Step)
    requires Inv(s) && Enabled(s, step)
    ensures (step.Tick? ==> Chosen(s, step.core) in s.threads) && Inv(Next(s, step))
  {
    match step
    case Tick(c) => TickKeeps(s, c);
    case Resume(t) => ResumeKeeps(s, t);
    case SetAffinity(c, target) => QuietKeeps(s, Next(s, step));
    case Execute(c, live) => QuietKeeps(s, Next(s, step));
  }

  // ---------------------------------------------------------------- fairness

  /** How many threads bound to core `c` stand before `t` in a queue. */
  function AheadIn(threads: map<nat, Thread>, q: seq<nat>, c: nat, t: nat): nat {
    if q == [] || q[0] == t then 0 else (if Bound(threads, q[0], c) then 1 else 0) + AheadIn(threads, q[1..], c, t)
  }

  lemma {:induction false} AheadAppend(threads: map<nat, Thread>, q: seq<nat>, r: seq<nat>, c: nat, t: nat)
    requires t in q
    ensures AheadIn(threads, q + r, c, t) == AheadIn(threads, q, c, t)
    decreases |q|
  {
    if q[0] != t {
      AheadAppend(threads, q[1..], r, c, t);
      assert (q + r)[1..] == q[1..] + r;
    }
  }

  function WithoutFirst(threads: map<nat, Thread>, q: seq<nat>, c: nat): seq<nat> {
    if q == [] then [] else if Bound(threads, q[0], c) then q[1..] else [q[0]] + WithoutFirst(threads, q[1..], c)
  }

  lemma {:induction false} WithoutFirstIs(threads: map<nat, Thread>, q: seq<nat>, c: nat)
    ensures var i := FirstFor(threads, q, c); WithoutFirst(threads, q, c) == if i < |q| then q[..i] + q[i + 1..] else q
    decreases |q|
  {
    if q != [] && !Bound(threads, q[0], c) {
      WithoutFirstIs(threads, q[1..], c);
    }
  }

  /** Removing the first thread of core `c` brings `t` one place forward, if it is bound to `c` and not that thread itself. */
  lemma {:induction false} AheadRemove(threads: map<nat, Thread>, q: seq<nat>, c: nat, t: nat)
    requires t in q && Bound(threads, t, c)
    ensures FirstFor(threads, q, c) < |q| && (AheadIn(threads, q, c, t) == 0 <==> q[FirstFor(threads, q, c)] == t)
    ensures AheadIn(threads, q, c, t) > 0 ==> t in WithoutFirst(threads, q, c) && AheadIn(threads, WithoutFirst(threads, q, c), c, t) == AheadIn(threads, q, c, t) - 1
    decreases |q|
  {
    if !Bound(threads, q[0], c) {
      assert t in q[1..];
      AheadRemove(threads, q[1..], c, t);
      var r := WithoutFirst(threads, q[1..], c);
      assert ([q[0]] + r)[1..] == r;
    }
  }

  /** Removing a thread of another core leaves `t` in its place. */
  lemma {:induction false} AheadOther(threads: map<nat, Thread>, q: seq<nat>, i: nat, c: nat, t: nat)
    requires t in q && Distinct(q) && i < |q| && q[i] != t && !Bound(threads, q[i], c)
    ensures t in q[..i] + q[i + 1..] && AheadIn(threads, q[..i] + q[i + 1..], c, t) == AheadIn(threads, q, c, t)
    decreases |q|
  {
    if i == 0 {
      assert q[..0] + q[1..] == q[1..];
    } else {
      var r := q[..i] + q[i + 1..];
      assert r[1..] == q[1..][..i - 1] + q[1..][i..] && r[0] == q[0];
      if q[0] != t {
        assert q[1..][i - 1] == q[i] && t in q[1..];
        AheadOther(threads, q[1..], i - 1, c, t);
      }
    }
  }

  lemma {:induction false} AheadSame(threads: map<nat, Thread>, threads': map<nat, Thread>, q: seq<nat>, c: nat, t: nat)
    requires forall u :: u in q ==> (Bound(threads', u, c) <==> Bound(threads, u, c))
    ensures AheadIn(threads', q, c, t) == AheadIn(threads, q, c, t)
    decreases |q|
  {
    if q != [] {
      assert forall u :: u in q[1..] ==> u in q;
      AheadSame(threads, threads', q[1..], c, t);
    }
  }

  /** Same-core threads ahead of a queued thread. */
  function Ahead(s: State, t: nat): nat
    requires t in s.threads
  {
    AheadIn(s.threads, s.queue, s.threads[t].core, t)
  }

  /** At a tick of its core a queued thread is picked, or one thread fewer is ahead of it; other ticks do not matter. */
  lemma TickAhead(s: State, c: nat, t: nat)
    requires Inv(s) && c < |s.cores| && t in s.queue
    ensures Chosen(s, c) in s.threads && t in s.threads
    ensures var s' := Ticked(s, c);
            if s.threads[t].core == c && Ahead(s, t) == 0 then s'.cores[c].current == t
            else t in s'.queue && t in s'.threads && s'.threads[t].core == s.threads[t].core && Ahead(s', t) == Ahead(s, t) - if s.threads[t].core == c then 1 else 0
  {
    ChosenOk(s, c);
    var core, s' := s.threads[t].core, Ticked(s, c);
    RequeueAhead(s, c, core, t);
    RemainAhead(s, c, core, t);
    AheadSame(s.threads, s'.threads, s'.queue, core, t);
  }

  lemma RequeueAhead(s: State, c: nat, core: nat, t: nat)
    requires c < |s.cores| && t in s.queue
    ensures t in Requeued(s, c) && AheadIn(s.threads, Requeued(s, c), core, t) == AheadIn(s.threads, s.queue, core, t)
  {
    var q := Requeued(s, c);
    AheadAppend(s.threads, s.queue, q[|s.queue|..], core, t);
    assert q == s.queue + q[|s.queue|..];
  }

  lemma RemainAhead(s: State, c: nat, core: nat, t: nat)
    requires c < |s.cores| && t in Requeued(s, c) && Distinct(Requeued(s, c)) && Bound(s.threads, t, core)
    ensures var was := AheadIn(s.threads, Requeued(s, c), core, t);
            if core == c && was == 0 then Chosen(s, c) == t
            else t in Remaining(s, c) && AheadIn(s.threads, Remaining(s, c), core, t) == was - if core == c then 1 else 0
  {
    QueueAhead(s.threads, Requeued(s, c), c, core, t);
  }

  lemma QueueAhead(threads: map<nat, Thread>, q: seq<nat>, c: nat, core: nat, t: nat)
    requires t in q && Distinct(q) && Bound(threads, t, core)
    ensures var i, was := FirstFor(threads, q, c), AheadIn(threads, q, core, t);
            var rest := if i < |q| then q[..i] + q[i + 1..] else q;
            if core == c && was == 0 then i < |q| && q[i] == t
            else t in rest && AheadIn(threads, rest, core, t) == was - if core == c then 1 else 0
  {
    var i := FirstFor(threads, q, c);
    if core == c {
      AheadRemove(threads, q, c, t);
      WithoutFirstIs(threads, q, c);
    } else if i < |q| {
      AheadOther(threads, q, i, core, t);
    }
  }

  /** A queued thread's place never gets worse at any step, and its core stays. */
  lemma StepAhead(s: State, step: Step, t: nat)
    requires Inv(s) && Enabled(s, step) && t in s.queue
    ensures t in s.threads && (step.Tick? ==> Chosen(s, step.core) in s.threads)
    ensures var s', core := Next(s, step), s.threads[t].core;
            if step == Tick(core) && Ahead(s, t) == 0 then core < |s'.cores| && s'.cores[core].current == t
            else t in s'.queue && t in s'.threads && s'.threads[t].core == core && Ahead(s', t) == Ahead(s, t) - if step == Tick(core) then 1 else 0
  {
    match step
    case Tick(c) => TickAhead(s, c, t);
    case Resume(u) =>
      AheadAppend(s.threads, s.queue, [u], s.threads[t].core, t);
      AheadSame(s.threads, Next(s, step).threads, s.queue + [u], s.threads[t].core, t);
    case SetAffinity(c, target) =>
      assert CoreOk(s, c);
      assert forall u :: u in s.queue ==> u != s.cores[c].current;
      AheadSame(s.threads, Next(s, step).threads, s.queue, s.threads[t].core, t);
    case Execute(c, live) =>
  }

  // ---------------------------------------------------------------- runs

  ghost predicate IsRun(s: State, steps: seq<Step>)
    decreases |steps|
  {
    steps != [] ==> Enabled(s, steps[0]) && (steps[0].Tick? ==> Chosen(s, steps[0].core) in s.threads) && IsRun(Next(s, steps[0]), steps[1..])
  }

  function After(s: State, steps: seq<Step>): State
    requires IsRun(s, steps)
    decreases |steps|
  {
    if steps == [] then s else After(Next(s, steps[0]), steps[1..])
  }

  /** Before the first tick: every thread is suspended, no core has a current thread. */
  function Boot(threads: map<nat, Thread>, idles: seq<nat>): State {
    State(threads, seq(|idles|, c requires 0 <= c < |idles| => Core(0, idles[c], 0)), [])
  }

  predicate Bootable(threads: map<nat, Thread>, idles: seq<nat>) {
    0 !in threads && Distinct(idles) && (forall t :: t in idles ==> t in threads) && (forall t :: t in threads ==> !threads[t].running)
  }

  lemma {:induction false} RunKeeps(s: State, steps: seq<Step>)
    requires Inv(s) && IsRun(s, steps)
    ensures Inv(After(s, steps))
    decreases |steps|
  {
    if steps != [] {
      StepKeeps(s, steps[0]);
      RunKeeps(Next(s, steps[0]), steps[1..]);
    }
  }

  /** Over every interleaving since the start, a runnable thread is queued once or current on one core, never both, and no idle thread is queued. */
  lemma ExactlyOnce(threads: map<nat, Thread>, idles: seq<nat>, steps: seq<Step>, t: nat)
    requires Bootable(threads, idles) && IsRun(Boot(threads, idles), steps)
    ensures var s := After(Boot(threads, idles), steps);
            && (t in s.threads && s.threads[t].running ==> (t in s.queue <==> forall c :: 0 <= c < |s.cores| ==> s.cores[c].current != t))
            && (forall i, j :: 0 <= i < j < |s.queue| ==> s.queue[i] != s.queue[j])
            && (forall c, d :: 0 <= c < d < |s.cores| && s.cores[c].current != 0 ==> s.cores[c].current != s.cores[d].current)
            && (forall c :: 0 <= c < |s.cores| ==> s.cores[c].idle !in s.queue)
  {
    BootInv(threads, idles);
    RunKeeps(Boot(threads, idles), steps);
    Placed(After(Boot(threads, idles), steps), t);
  }

  lemma BootInv(threads: map<nat, Thread>, idles: seq<nat>)
    requires Bootable(threads, idles)
    ensures Inv(Boot(threads, idles))
  {
    var s := Boot(threads, idles);
    forall c: nat | c < |s.cores| ensures CoreOk(s, c) {
      assert idles[c] in idles;
    }
    forall c: nat, d: nat | c < |s.cores| && d < |s.cores| && c != d ensures CoresApart(s, c, d) {
      assert idles[c] in idles && idles[d] in idles;
    }
  }

  lemma Placed(s: State, t: nat)
    requires Inv(s)
    ensures t in s.threads && s.threads[t].running ==> (t in s.queue <==> forall c :: 0 <= c < |s.cores| ==> s.cores[c].current != t)
    ensures forall c, d :: 0 <= c < d < |s.cores| && s.cores[c].current != 0 ==> s.cores[c].current != s.cores[d].current
    ensures forall c :: 0 <= c < |s.cores| ==> s.cores[c].idle !in s.queue
  {
    forall c | 0 <= c < |s.cores| ensures s.cores[c].idle !in s.queue && (s.cores[c].current == t && t in s.threads && s.threads[t].running ==> t !in s.queue) {
      assert CoreOk(s, c);
    }
    forall c, d | 0 <= c < d < |s.cores| && s.cores[c].current != 0 ensures s.cores[c].current != s.cores[d].current {
      assert CoresApart(s, c, d);
    }
    if t in s.threads && s.threads[t].running {
      assert Somewhere(s, t);
    }
  }

  function TicksOf(steps: seq<Step>, c: nat): nat {
    if steps == [] then 0 else (if steps[0] == Tick(c) then 1 else 0) + TicksOf(steps[1..], c)
  }

  /** Thread `t` gets to run on core `c` during the run. */
  ghost predicate Served(s: State, steps: seq<Step>, c: nat, t: nat)
    requires IsRun(s, steps)
    decreases |steps|
  {
    (c < |s.cores| && s.cores[c].current == t) || (steps != [] && Served(Next(s, steps[0]), steps[1..], c, t))
  }

  /** Over any run, a queued thread runs within as many ticks of its core as threads of that core are ahead of it, and one. */
  lemma {:induction false} BoundedWait(s: State, steps: seq<Step>, t: nat)
    requires Inv(s) && IsRun(s, steps) && t in s.queue
    ensures t in s.threads && (TicksOf(steps, s.threads[t].core) > Ahead(s, t) ==> Served(s, steps, s.threads[t].core, t))
    decreases |steps|
  {
    if steps != [] {
      StepAhead(s, steps[0], t);
      StepKeeps(s, steps[0]);
      if t in Next(s, steps[0]).queue {
        BoundedWait(Next(s, steps[0]), steps[1..], t);
      }
    }
  }

  // ---------------------------------------------------------------- contexts

  /** The registers a thread runs with, or would run with next: live on its core, else saved. */
  predicate Context(s: State, t: nat, v: nat) {
    && t in s.threads
    && (forall c :: 0 <= c < |s.cores| && s.cores[c].current == t ==> s.cores[c].live == v)
    && ((forall c :: 0 <= c < |s.cores| ==> s.cores[c].current != t) ==> s.threads[t].saved == v)
  }

  /** No step but its own execution changes a thread's registers: what is restored is what was saved. */
  lemma ContextKept(s: State, step: Step, t: nat, v: nat)
    requires Inv(s) && Enabled(s, step) && (step.Tick? ==> Chosen(s, step.core) in s.threads) && Context(s, t, v)
    requires step.Execute? ==> s.cores[step.core].current != t
    ensures Context(Next(s, step), t, v)
  {
    var s' := Next(s, step);
    if step.Tick? {
      TickContext(s, step.core, t, v);
    } else {
      assert forall c :: 0 <= c < |s.cores| ==> s'.cores[c].current == s.cores[c].current;
    }
  }

  lemma TickContext(s: State, c: nat, t: nat, v: nat)
    requires Inv(s) && c < |s.cores| && Chosen(s, c) in s.threads && Context(s, t, v)
    ensures Context(Ticked(s, c), t, v)
  {
    ChosenOk(s, c);
    var s', was, next := Ticked(s, c), s.cores[c].current, Chosen(s, c);
    TickKeeps(s, c);
    assert forall d :: 0 <= d < |s.cores| && d != c ==> s'.cores[d] == s.cores[d];
    forall d: nat | d < |s.cores| && d != c ensures CoresApart(s, d, c) && CoresApart(s', d, c) {
    }
    if t == next && t != was {
      NotElsewhere(s, c, t);
    }
  }

  /** A thread that a tick brings in was not current anywhere. */
  lemma NotElsewhere(s: State, c: nat, t: nat)
    requires Inv(s) && c < |s.cores| && Chosen(s, c) in s.threads && t == Chosen(s, c) && t != s.cores[c].current
    ensures forall d :: 0 <= d < |s.cores| ==> s.cores[d].current != t
  {
    ChosenOk(s, c);
    forall d: nat | d < |s.cores| ensures s.cores[d].current != t {
      assert CoreOk(s, c) && CoreOk(s, d);
      if d != c { assert CoresApart(s, c, d); }
    }
  }

  // ---------------------------------------------------------------- the code

  class Scheduler {
    var threads: map<nat, Thread>
    var cores: seq<Core>
    var queue: seq<nat>

    ghost function S(): State
      reads this
    {
      State(threads, cores, queue)
    }

    ghost predicate Valid()
      reads this
    {
      Inv(S())
    }

    constructor (threads0: map<nat, Thread>, idles: seq<nat>)
      requires Bootable(threads0, idles)
      ensures Valid() && S() == Boot(threads0, idles)
    {
      threads, cores, queue := threads0, seq(|idles|, c requires 0 <= c < |idles| => Core(0, idles[c], 0)), [];
      new;
      BootInv(threads0, idles);
      assert S() == Boot(threads0, idles);
    }

    /** The loop that walks the queue for a thread of this core. */
    method FindFor(q: seq<nat>, c: nat) returns (i: nat)
      requires forall t :: t in q ==> t in threads
      ensures i == FirstFor(threads, q, c)
    {
      i := 0;
      while i < |q| && threads[q[i]].core != c
        invariant i <= |q| && FirstFor(threads, q, c) == i + FirstFor(threads, q[i..], c)
      {
        assert q[i..][1..] == q[i + 1..];
        i := i + 1;
      }
    }

    /** `sched_tick`. */
    method Tick(c: nat)
      requires Valid() && c < |cores|
      modifies this
      ensures Valid() && old(Chosen(S(), c) in threads) && S() == Ticked(old(S()), c)
    {
      TickKeeps(S(), c);
      ChosenOk(S(), c);
      ghost var s := S();
      assert CoreOk(s, c);
      var current := cores[c].current;
      var q := queue;
      if current != 0 && threads[current].running {
        q := q + [current];
      }
      assert q == Requeued(s, c);
      var i := FindFor(q, c);
      var next := cores[c].idle;
      if i < |q| {
        next := q[i];
        q := q[..i] + q[i + 1..];
      }
      queue := q;
      if current != next {
        if current != 0 {
          threads := threads[current := threads[current].(saved := cores[c].live)];
        }
        cores := cores[c := cores[c].(current := next, live := threads[next].saved)];
      }
    }

    /** `thread_resume` of a suspended thread. */
    method Wake(t: nat)
      requires Valid() && Enabled(S(), Resume(t))
      modifies this
      ensures Valid() && S() == Next(old(S()), Resume(t))
    {
      ResumeKeeps(S(), t);
      threads := threads[t := threads[t].(running := true)];
      queue := queue + [t];
    }
  }
}
