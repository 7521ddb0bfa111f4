/**
 The use count of a buffer and the kernel count of the queue count exactly the
 registrations not released yet and the kernels scheduled and not reported back, so
 waiting for zero waits for the right tasks.
 */
module TaskCounts {
  import opened Basics
  import opened TaskModel

  // ---------------------------------------------------------------- invariant

  ghost function Buffers(accs: seq<Access>): seq<nat> {
    seq(|accs|, i requires 0 <= i < |accs| => accs[i].buf)
  }

  /** How often each task holds b. */
  ghost function Uses<V, L>(s: State<V, L>, b: nat): seq<nat> {
    seq(|s.tasks|, i requires 0 <= i < |s.tasks| => multiset(s.tasks[i].inUse)[b])
  }

  predicate Active(p: Phase) {
    !p.Building? && !p.Finished?
  }

  ghost function Actives<V, L>(s: State<V, L>): seq<nat> {
    seq(|s.tasks|, i requires 0 <= i < |s.tasks| => if Active(s.tasks[i].phase) then 1 else 0)
  }

  /** Until its kernel is over a task holds every buffer it registered. */
  ghost predicate HoldsOk<V, L>(x: Task<V, L>) {
    && x.registered <= |x.group.accesses|
    && (!KernelOver(x.phase) ==> x.inUse == Buffers(x.group.accesses[..x.registered]))
    && (HasEnded(x.phase) ==> x.inUse == [])
  }

  ghost predicate UsersOk<V, L>(s: State<V, L>, b: nat) {
    Users(s.users, b) == Sum(Uses(s, b))
  }

  ghost predicate CountInv<V, L>(s: State<V, L>) {
    && (forall t: nat :: t < |s.tasks| ==> HoldsOk(s.tasks[t]))
    && (forall b: nat :: UsersOk(s, b))
    && s.running == Sum(Actives(s))
  }

  // ---------------------------------------------------------------- preservation

  lemma UsesChange<V, L>(s: State<V, L>, s1: State<V, L>, t: nat, x: Task<V, L>, b: nat)
    requires t < |s.tasks| && s1.tasks == s.tasks[t := x]
    ensures Sum(Uses(s1, b)) + multiset(s.tasks[t].inUse)[b] == Sum(Uses(s, b)) + multiset(x.inUse)[b]
  {
    SumUpdate(Uses(s, b), t, multiset(x.inUse)[b]);
    assert Uses(s1, b) == Uses(s, b)[t := multiset(x.inUse)[b]];
  }

  lemma ActivesChange<V, L>(s: State<V, L>, s1: State<V, L>, t: nat, x: Task<V, L>)
    requires t < |s.tasks| && s1.tasks == s.tasks[t := x]
    ensures Sum(Actives(s1)) + (if Active(s.tasks[t].phase) then 1 else 0)
         == Sum(Actives(s)) + (if Active(x.phase) then 1 else 0)
  {
    SumUpdate(Actives(s), t, if Active(x.phase) then 1 else 0);
    assert Actives(s1) == Actives(s)[t := if Active(x.phase) then 1 else 0];
  }

  /** Steps of one task that keep its buffers and change the kernel count in step. */
  lemma TaskKeepsCounts<V, L>(s: State<V, L>, s1: State<V, L>, t: nat, x: Task<V, L>)
    requires CountInv(s) && t < |s.tasks| && s1.tasks == s.tasks[t := x]
    requires HoldsOk(x)
    requires forall b: nat ::
               Users(s1.users, b) + multiset(s.tasks[t].inUse)[b] == Users(s.users, b) + multiset(x.inUse)[b]
    requires s1.running + (if Active(s.tasks[t].phase) then 1 else 0) == s.running + (if Active(x.phase) then 1 else 0)
    ensures CountInv(s1)
  {
    ActivesChange(s, s1, t, x);
    forall b: nat ensures UsersOk(s1, b) {
      assert UsersOk(s, b);
      UsesChange(s, s1, t, x, b);
    }
  }

  lemma NewTaskKeepsCounts<V, L>(s: State<V, L>, g: Group<V, L>)
    requires CountInv(s) && Enabled(s, NewTask(g))
    ensures CountInv(Next(s, NewTask(g)))
  {
    var s1, n := Next(s, NewTask(g)), |s.tasks|;
    assert HoldsOk(s1.tasks[n]) by { assert g.accesses[..0] == []; }
    assert s1.running == Sum(Actives(s1)) by {
      SumAppend(Actives(s), 0);
      assert Actives(s1) == Actives(s) + [0];
    }
    hide Sum, HoldsOk;
    forall t: nat | t < |s1.tasks| ensures HoldsOk(s1.tasks[t]) { assert t < n ==> s1.tasks[t] == s.tasks[t]; }
    forall b: nat ensures UsersOk(s1, b) { NewTaskKeepsUsers(s, g, b); }
  }

  lemma NewTaskKeepsUsers<V, L>(s: State<V, L>, g: Group<V, L>, b: nat)
    requires UsersOk(s, b) && Enabled(s, NewTask(g))
    ensures UsersOk(Next(s, NewTask(g)), b)
  {
    var s1 := Next(s, NewTask(g));
    SumAppend(Uses(s, b), 0);
    hide Sum;
    assert Uses(s1, b) == Uses(s, b) + [0];
  }

  lemma RegisterKeepsCounts<V, L>(s: State<V, L>, alive: bool)
    requires CountInv(s) && Enabled(s, Register(alive))
    ensures CountInv(Next(s, Register(alive)))
  {
    var s1 := Next(s, Register(alive));
    var t := |s.tasks| - 1;
    var x := s.tasks[t];
    var accs := x.group.accesses;
    assert HoldsOk(x);
    assert accs[..x.registered + 1] == accs[..x.registered] + [accs[x.registered]];
    assert Buffers(accs[..x.registered + 1]) == Buffers(accs[..x.registered]) + [accs[x.registered].buf];
    TaskKeepsCounts(s, s1, t, s1.tasks[t]);
  }

  lemma ReleaseKeepsCounts<V, L>(s: State<V, L>, t: nat)
    requires CountInv(s) && Enabled(s, Release(t))
    ensures CountInv(Next(s, Release(t)))
  {
    var s1 := Next(s, Release(t));
    var x := s.tasks[t];
    var b := x.inUse[0];
    assert HoldsOk(x) && UsersOk(s, b);
    assert x.inUse == [b] + x.inUse[1..];
    assert multiset(x.inUse) == multiset{b} + multiset(x.inUse[1..]);
    SomeUse(s, t, b);
    TaskKeepsCounts(s, s1, t, s1.tasks[t]);
  }

  lemma SomeUse<V, L>(s: State<V, L>, t: nat, b: nat)
    requires t < |s.tasks| && b in s.tasks[t].inUse
    ensures Sum(Uses(s, b)) > 0
  {
    if Sum(Uses(s, b)) == 0 { SumZero(Uses(s, b), t); }
  }

  lemma StepKeepsCounts<V, L>(s: State<V, L>, e: Event<V, L>)
    requires CountInv(s) && Enabled(s, e)
    ensures CountInv(Next(s, e))
  {
    hide Sum, KernelStep, Buffers, CountInv;
    match e
    case NewTask(g) => NewTaskKeepsCounts(s, g);
    case Register(alive) => RegisterKeepsCounts(s, alive);
    case Schedule => ScheduleKeepsCounts(s);
    case Release(t) => ReleaseKeepsCounts(s, t);
    case KernelEnd(t) => KernelEndKeepsCounts(s, t);
    case _ => PhaseKeepsCounts(s, e);
  }

  lemma ScheduleKeepsCounts<V, L>(s: State<V, L>)
    requires CountInv(s) && Enabled(s, Schedule)
    ensures CountInv(Next(s, Schedule))
  {
    hide Sum;
    var s1, n := Next(s, Schedule), |s.tasks| - 1;
    assert HoldsOk(s.tasks[n]);
    TaskKeepsCounts(s, s1, n, s1.tasks[n]);
  }

  lemma KernelEndKeepsCounts<V, L>(s: State<V, L>, t: nat)
    requires CountInv(s) && Enabled(s, KernelEnd(t))
    ensures CountInv(Next(s, KernelEnd(t)))
  {
    hide Sum;
    var s1 := Next(s, KernelEnd(t));
    assert HoldsOk(s.tasks[t]);
    if Sum(Actives(s)) == 0 { SumZero(Actives(s), t); }
    TaskKeepsCounts(s, s1, t, s1.tasks[t]);
  }

  /** Steps that change no count. */
  lemma PhaseKeepsCounts<V, L>(s: State<V, L>, e: Event<V, L>)
    requires CountInv(s) && Enabled(s, e) && (e.Begin? || e.Compute? || e.EndKernel? || e.Notify?)
    ensures CountInv(Next(s, e))
  {
    hide Sum, KernelStep, Buffers;
    var s1 := Next(s, e);
    assert HoldsOk(s.tasks[e.t]);
    TaskKeepsCounts(s, s1, e.t, s1.tasks[e.t]);
  }

  lemma {:induction false} RunKeepsCounts<V, L>(s: State<V, L>, es: seq<Event<V, L>>)
    requires CountInv(s) && Possible(s, es)
    ensures CountInv(Run(s, es))
    decreases |es|
  {
    if es != [] {
      StepKeepsCounts(s, es[0]);
      RunKeepsCounts(Next(s, es[0]), es[1..]);
    }
  }

  // ---------------------------------------------------------------- main results

  ghost predicate Registered<V, L>(x: Task<V, L>, b: nat) {
    x.registered <= |x.group.accesses| && Accesses(x.group.accesses[..x.registered], b)
  }

  /** In every run the counters are exact; a buffer wait returns only when every kernel that
      registered the buffer is over, a queue wait only when every scheduled task finished. */
  lemma WaitsAreRight<V, L>(m: Memory<V>, es: seq<Event<V, L>>, b: nat, t: nat)
    requires Possible(Start(m), es)
    ensures var s := Run(Start(m), es);
            && Users(s.users, b) == Sum(Uses(s, b)) && s.running == Sum(Actives(s))
            && (Users(s.users, b) == 0 && t < |s.tasks| && Registered(s.tasks[t], b) ==> KernelOver(s.tasks[t].phase))
            && (s.running == 0 && t < |s.tasks| ==> s.tasks[t].phase.Building? || s.tasks[t].phase.Finished?)
  {
    var s0 := Start<V, L>(m);
    assert forall x: nat :: UsersOk(s0, x);
    RunKeepsCounts(s0, es);
    var s := Run(s0, es);
    assert UsersOk(s, b);
    if t < |s.tasks| {
      var x := s.tasks[t];
      assert HoldsOk(x);
      if s.running == 0 { SumZero(Actives(s), t); }
      if Users(s.users, b) == 0 && Registered(x, b) {
        SumZero(Uses(s, b), t);
        var j :| 0 <= j < x.registered && x.group.accesses[..x.registered][j].buf == b;
        assert Buffers(x.group.accesses[..x.registered])[j] == b;
      }
    }
  }
}
