/**
 Every interleaving of the task threads ends with the buffer contents that running the
 command groups one at a time, in submission order, would give, provided every later writer
 of a buffer that a command group only reads is reached from the reader by producer links. A
 reader that writes no buffer need not be considered when only contents matter.
 */
module TaskSerial {
  import opened TaskModel
  import opened TaskOrder

  /** Memory after the first i command groups, each taking ks[i] kernel steps, one at a time. */
  ghost function SerialMem<V, L>(gs: seq<Group<V, L>>, ks: seq<nat>, m: Memory<V>, i: nat): Memory<V>
    requires i <= |gs| == |ks|
    decreases i
  {
    if i == 0 then m else Steps(gs[i - 1], ks[i - 1], SerialMem(gs, ks, m, i - 1)).mem
  }

  /** ks[i] is the number of steps after which kernel i is done, run in its turn. */
  ghost predicate RunsToEnd<V, L>(gs: seq<Group<V, L>>, ks: seq<nat>, m: Memory<V>, i: nat)
    requires |gs| == |ks|
  {
    i < |gs| ==>
      var before := SerialMem(gs, ks, m, i);
      && gs[i].done(Steps(gs[i], ks[i], before).local)
      && forall j: nat :: j < ks[i] ==> !gs[i].done(Steps(gs[i], j, before).local)
  }

  ghost predicate SerialRun<V, L>(gs: seq<Group<V, L>>, ks: seq<nat>, m: Memory<V>) {
    |gs| == |ks| && forall i: nat :: RunsToEnd(gs, ks, m, i)
  }

  /** The task counts: when only contents matter, just those that write some buffer. */
  ghost predicate Watched(all: bool, accs: seq<Access>) {
    all || exists b :: Writes(accs, b)
  }

  /** The condition a caller can check on the accessors alone: the readers that count reach
      every later writer of what they read. */
  ghost predicate ReadersReachWriters(ps: seq<seq<Access>>, all: bool) {
    forall r: nat, w: nat, b: nat ::
      r < w < |ps| && Watched(all, ps[r]) && Accesses(ps[r], b) && !Writes(ps[r], b) && Writes(ps[w], b) ==>
          Reaches(ps, r, w)
  }

  // ---------------------------------------------------------------- kernels in isolation

  ghost predicate AgreeOn<V>(accs: seq<Access>, m: Memory<V>, m1: Memory<V>) {
    m.Keys == m1.Keys && forall b :: b in m && Accesses(accs, b) ==> m[b] == m1[b]
  }

  ghost predicate AgreeOff<V>(accs: seq<Access>, m: Memory<V>, m1: Memory<V>) {
    m.Keys == m1.Keys && forall b :: b in m && !Writes(accs, b) ==> m[b] == m1[b]
  }

  lemma {:induction false} StepsWriteOnlyOwn<V, L>(g: Group<V, L>, k: nat, m: Memory<V>)
    ensures AgreeOff(g.accesses, m, Steps(g, k, m).mem)
    decreases k
  {
    if k > 0 { StepsWriteOnlyOwn(g, k - 1, m); }
  }

  lemma KernelStepWritesOnlyOwn<V, L>(g: Group<V, L>, l: L, m: Memory<V>)
    ensures AgreeOff(g.accesses, m, KernelStep(g, Config(l, m)).mem)
  {
  }

  lemma KernelStepSeesOnlyOwn<V, L>(g: Group<V, L>, l: L, m: Memory<V>, m1: Memory<V>)
    requires AgreeOn(g.accesses, m, m1)
    ensures KernelStep(g, Config(l, m)).local == KernelStep(g, Config(l, m1)).local
    ensures AgreeOn(g.accesses, KernelStep(g, Config(l, m)).mem, KernelStep(g, Config(l, m1)).mem)
  {
    assert View(g.accesses, m) == View(g.accesses, m1);
  }

  lemma {:induction false} StepsSeeOnlyOwn<V, L>(g: Group<V, L>, k: nat, m: Memory<V>, m1: Memory<V>)
    requires AgreeOn(g.accesses, m, m1)
    ensures Steps(g, k, m).local == Steps(g, k, m1).local
    ensures AgreeOn(g.accesses, Steps(g, k, m).mem, Steps(g, k, m1).mem)
    decreases k
  {
    if k > 0 {
      StepsSeeOnlyOwn(g, k - 1, m, m1);
      var c, c1 := Steps(g, k - 1, m), Steps(g, k - 1, m1);
      KernelStepSeesOnlyOwn(g, c.local, c.mem, c1.mem);
    }
  }

  lemma {:induction false} SerialKeys<V, L>(gs: seq<Group<V, L>>, ks: seq<nat>, m: Memory<V>, i: nat)
    requires i <= |gs| == |ks|
    ensures SerialMem(gs, ks, m, i).Keys == m.Keys
    decreases i
  {
    if i > 0 {
      SerialKeys(gs, ks, m, i - 1);
      StepsWriteOnlyOwn(gs[i - 1], ks[i - 1], SerialMem(gs, ks, m, i - 1));
    }
  }

  /** Kernels that took no step or do not write b leave it alone. */
  lemma {:induction false} SerialKeeps<V, L>(gs: seq<Group<V, L>>, ks: seq<nat>, m: Memory<V>, i: nat, j: nat, b: nat)
    requires i <= j <= |gs| == |ks| && b in m
    requires forall x :: i <= x < j ==> ks[x] == 0 || !Writes(gs[x].accesses, b)
    ensures b in SerialMem(gs, ks, m, i) && b in SerialMem(gs, ks, m, j)
    ensures SerialMem(gs, ks, m, j)[b] == SerialMem(gs, ks, m, i)[b]
    decreases j
  {
    SerialKeys(gs, ks, m, i);
    SerialKeys(gs, ks, m, j);
    if i < j {
      SerialKeeps(gs, ks, m, i, j - 1, b);
      StepsWriteOnlyOwn(gs[j - 1], ks[j - 1], SerialMem(gs, ks, m, j - 1));
    }
  }

  // ---------------------------------------------------------------- one more step of kernel u

  /** Kernels after u that have taken steps neither access what u writes nor write what u
      accesses. */
  ghost predicate Independent<V, L>(gs: seq<Group<V, L>>, ks: seq<nat>, u: nat)
    requires u < |gs| == |ks|
  {
    forall x, b :: u < x < |gs| && ks[x] > 0 ==>
      && !(Accesses(gs[x].accesses, b) && Writes(gs[u].accesses, b))
      && !(Writes(gs[x].accesses, b) && Accesses(gs[u].accesses, b))
  }

  lemma {:induction false} SerialBefore<V, L>(gs: seq<Group<V, L>>, ks: seq<nat>, ks1: seq<nat>, m: Memory<V>, i: nat)
    requires i <= |gs| == |ks| == |ks1| && ks[..i] == ks1[..i]
    ensures SerialMem(gs, ks, m, i) == SerialMem(gs, ks1, m, i)
    decreases i
  {
    if i > 0 {
      assert ks[i - 1] == ks[..i][i - 1] == ks1[..i][i - 1] == ks1[i - 1];
      assert ks[..i - 1] == ks[..i][..i - 1] == ks1[..i][..i - 1] == ks1[..i - 1];
      SerialBefore(gs, ks, ks1, m, i - 1);
    }
  }

  lemma {:induction false} SerialAfter<V, L>(gs: seq<Group<V, L>>, ks: seq<nat>, m: Memory<V>, u: nat, i: nat)
    requires u < i <= |gs| == |ks| && Independent(gs, ks, u)
    ensures AgreeOff(gs[u].accesses, SerialMem(gs, ks, m, i), SerialMem(gs, ks[u := ks[u] + 1], m, i))
    decreases i
  {
    var ks1 := ks[u := ks[u] + 1];
    SerialKeys(gs, ks, m, i);
    SerialKeys(gs, ks1, m, i);
    if i == u + 1 {
      SerialBefore(gs, ks, ks1, m, u);
    } else {
      var x := i - 1;
      SerialAfter(gs, ks, m, u, x);
      var a, a1 := SerialMem(gs, ks, m, x), SerialMem(gs, ks1, m, x);
      if ks[x] > 0 {
        forall b | b in a && Accesses(gs[x].accesses, b) ensures a[b] == a1[b] {
          assert !Writes(gs[u].accesses, b);
        }
        StepsSeeOnlyOwn(gs[x], ks[x], a, a1);
        StepsWriteOnlyOwn(gs[x], ks[x], a);
        StepsWriteOnlyOwn(gs[x], ks[x], a1);
        forall b | b in a && !Writes(gs[u].accesses, b)
          ensures Steps(gs[x], ks[x], a).mem[b] == Steps(gs[x], ks[x], a1).mem[b]
        {
          if Writes(gs[x].accesses, b) { WriterAccesses(gs[x].accesses, b); }
        }
      }
    }
  }

  /** A step of kernel u on the shared memory is the next step of its serial turn. */
  lemma StepIsSerial<V, L>(gs: seq<Group<V, L>>, ks: seq<nat>, m: Memory<V>, u: nat, l: L, mem: Memory<V>)
    requires u < |gs| == |ks| && Independent(gs, ks, u)
    requires mem == SerialMem(gs, ks, m, |gs|) && l == Steps(gs[u], ks[u], SerialMem(gs, ks, m, u)).local
    ensures var ks1, c := ks[u := ks[u] + 1], KernelStep(gs[u], Config(l, mem));
            && c.mem == SerialMem(gs, ks1, m, |gs|)
            && c.local == Steps(gs[u], ks1[u], SerialMem(gs, ks1, m, u)).local
  {
    hide KernelStep, Accesses, Writes;
    var n, ks1, g := |gs|, ks[u := ks[u] + 1], gs[u];
    var own := SerialMem(gs, ks, m, u + 1);
    SerialBefore(gs, ks, ks1, m, u);
    SerialKeys(gs, ks, m, n);
    SerialKeys(gs, ks, m, u + 1);
    SerialKeys(gs, ks1, m, n);
    SerialAfter(gs, ks, m, u, n);
    forall b | b in m && Accesses(g.accesses, b) ensures mem[b] == own[b] {
      SerialKeeps(gs, ks, m, u + 1, n, b);
    }
    assert Steps(g, ks[u], SerialMem(gs, ks, m, u)) == Config(l, own);
    KernelStepSeesOnlyOwn(g, l, mem, own);
    KernelStepWritesOnlyOwn(g, l, mem);
    var c, d := KernelStep(g, Config(l, mem)), KernelStep(g, Config(l, own));
    assert d.mem == SerialMem(gs, ks1, m, u + 1);
    forall b | b in m ensures c.mem[b] == SerialMem(gs, ks1, m, n)[b] {
      if Writes(g.accesses, b) {
        WriterAccesses(g.accesses, b);
        SerialKeeps(gs, ks1, m, u + 1, n, b);
      }
    }
  }

  // ---------------------------------------------------------------- the invariant over runs

  ghost function Groups<V, L>(s: State<V, L>): seq<Group<V, L>> {
    seq(|s.tasks|, i requires 0 <= i < |s.tasks| => s.tasks[i].group)
  }

  ghost function Counts<V, L>(s: State<V, L>): seq<nat> {
    seq(|s.tasks|, i requires 0 <= i < |s.tasks| => s.tasks[i].steps)
  }

  /** Task t, if it counts, is where its serial turn would be after as many steps. */
  ghost predicate LocalOk<V, L>(s: State<V, L>, m: Memory<V>, t: nat, all: bool) {
    t < |s.tasks| ==>
      var x := s.tasks[t];
      && (!Started(x.phase) ==> x.steps == 0)
      && (Watched(all, x.group.accesses) ==>
            var before := SerialMem(Groups(s), Counts(s), m, t);
            && x.local == Steps(x.group, x.steps, before).local
            && (forall j: nat :: j < x.steps ==> !x.group.done(Steps(x.group, j, before).local))
            && (KernelOver(x.phase) ==> x.group.done(x.local)))
  }

  ghost predicate MemInv<V, L>(s: State<V, L>, m: Memory<V>, all: bool) {
    && s.mem == SerialMem(Groups(s), Counts(s), m, |s.tasks|)
    && forall t: nat :: LocalOk(s, m, t, all)
  }

  lemma {:induction false} SerialExtends<V, L>(gs: seq<Group<V, L>>, ks: seq<nat>, g: Group<V, L>, k: nat,
          m: Memory<V>, i: nat)
    requires i <= |gs| == |ks|
    ensures SerialMem(gs + [g], ks + [k], m, i) == SerialMem(gs, ks, m, i)
    decreases i
  {
    if i > 0 { SerialExtends(gs, ks, g, k, m, i - 1); }
  }

  lemma NewTaskKeepsMem<V, L>(s: State<V, L>, g: Group<V, L>, m: Memory<V>, all: bool)
    requires MemInv(s, m, all) && Enabled(s, NewTask(g))
    ensures MemInv(Next(s, NewTask(g)), m, all)
  {
    var s1 := Next(s, NewTask(g));
    assert Groups(s1) == Groups(s) + [g] && Counts(s1) == Counts(s) + [0];
    SerialExtends(Groups(s), Counts(s), g, 0, m, |s.tasks|);
    forall t: nat ensures LocalOk(s1, m, t, all) {
      assert LocalOk(s, m, t, all);
      if t < |s.tasks| { SerialExtends(Groups(s), Counts(s), g, 0, m, t); }
    }
  }

  /** A task whose kernel is running shares no written buffer with a later started task. */
  lemma RunningIsIndependent<V, L>(s: State<V, L>, m: Memory<V>, u: nat, all: bool)
    requires GraphInv(s) && MemInv(s, m, all) && ReadersReachWriters(Programs(s), all)
    requires u < |s.tasks| && s.tasks[u].phase.Running? && Watched(all, s.tasks[u].group.accesses)
    ensures Independent(Groups(s), Counts(s), u)
  {
    var gs, ks := Groups(s), Counts(s);
    forall x, b | u < x < |gs| && ks[x] > 0
      ensures !(Accesses(gs[x].accesses, b) && Writes(gs[u].accesses, b))
      ensures !(Writes(gs[x].accesses, b) && Accesses(gs[u].accesses, b))
    {
      assert LocalOk(s, m, x, all) && Programs(s)[x] == gs[x].accesses && Programs(s)[u] == gs[u].accesses;
      if Accesses(gs[x].accesses, b) && Writes(gs[u].accesses, b) {
        StartsAfterWriters(s, u, x, b);
      }
      if Writes(gs[x].accesses, b) && Accesses(gs[u].accesses, b) {
        WriterAccesses(gs[x].accesses, b);
        if !Writes(gs[u].accesses, b) { StartsAfterAncestors(s, u, x); }
      }
    }
  }

  lemma ComputeKeepsMem<V, L>(s: State<V, L>, u: nat, m: Memory<V>, all: bool)
    requires GraphInv(s) && MemInv(s, m, all) && Enabled(s, Compute(u)) && ReadersReachWriters(Programs(s), all)
    requires Watched(all, s.tasks[u].group.accesses)
    ensures MemInv(Next(s, Compute(u)), m, all)
  {
    hide KernelStep, SerialMem, Independent, GraphInv, ReadersReachWriters, Watched;
    var s1 := Next(s, Compute(u));
    var gs, ks := Groups(s), Counts(s);
    var ks1 := ks[u := ks[u] + 1];
    assert Groups(s1) == gs && Counts(s1) == ks1;
    RunningIsIndependent(s, m, u, all);
    assert LocalOk(s, m, u, all);
    StepIsSerial(gs, ks, m, u, s.tasks[u].local, s.mem);
    forall t: nat ensures LocalOk(s1, m, t, all) {
      if t < |s.tasks| {
        assert LocalOk(s, m, t, all);
        assert gs[t] == s.tasks[t].group && ks[t] == s.tasks[t].steps && gs[t] == s1.tasks[t].group;
        if t < u {
          SerialBefore(gs, ks, ks1, m, t);
          assert s1.tasks[t] == s.tasks[t];
        } else if t == u {
          SerialBefore(gs, ks, ks1, m, u);
          assert s1.tasks[u].steps == ks1[u] && s1.tasks[u].phase == s.tasks[u].phase;
          forall j: nat | j < ks1[u] ensures !gs[u].done(Steps(gs[u], j, SerialMem(gs, ks1, m, u)).local) {
            if j == ks[u] { assert Steps(gs[u], j, SerialMem(gs, ks1, m, u)).local == s.tasks[u].local; }
          }
        } else if Watched(all, gs[t].accesses) {
          OthersKeepLocal(gs, ks, m, u, t);
          assert s1.tasks[t] == s.tasks[t];
          forall j: nat | j < ks[t] ensures !gs[t].done(Steps(gs[t], j, SerialMem(gs, ks1, m, t)).local) {
            assert Steps(gs[t], j, SerialMem(gs, ks1, m, t)).local == Steps(gs[t], j, SerialMem(gs, ks, m, t)).local;
          }
        }
      }
    }
  }

  /** A kernel that writes no buffer leaves the memory as it is. */
  lemma SilentStep<V, L>(g: Group<V, L>, c: Config<V, L>)
    requires !Watched(false, g.accesses)
    ensures KernelStep(g, c).mem == c.mem
  {
  }

  lemma {:induction false} SilentSteps<V, L>(g: Group<V, L>, k: nat, m: Memory<V>)
    requires !Watched(false, g.accesses)
    ensures Steps(g, k, m).mem == m
    decreases k
  {
    hide KernelStep, Watched;
    if k > 0 {
      SilentSteps(g, k - 1, m);
      SilentStep(g, Steps(g, k - 1, m));
    }
  }

  lemma {:induction false} SilentSerial<V, L>(gs: seq<Group<V, L>>, ks: seq<nat>, m: Memory<V>, u: nat, k: nat, i: nat)
    requires u < |gs| == |ks| && i <= |gs| && !Watched(false, gs[u].accesses)
    ensures SerialMem(gs, ks[u := k], m, i) == SerialMem(gs, ks, m, i)
    decreases i
  {
    hide Steps, Watched;
    if i > 0 {
      SilentSerial(gs, ks, m, u, k, i - 1);
      if i - 1 == u {
        SilentSteps(gs[u], k, SerialMem(gs, ks, m, u));
        SilentSteps(gs[u], ks[u], SerialMem(gs, ks, m, u));
      }
    }
  }

  lemma SilentKeepsMem<V, L>(s: State<V, L>, u: nat, m: Memory<V>, all: bool)
    requires MemInv(s, m, all) && Enabled(s, Compute(u)) && !Watched(all, s.tasks[u].group.accesses)
    ensures MemInv(Next(s, Compute(u)), m, all)
  {
    hide KernelStep, SerialMem, Watched, Steps;
    var s1 := Next(s, Compute(u));
    var gs, ks := Groups(s), Counts(s);
    assert !all && !Watched(false, gs[u].accesses) by { WatchedMeans(all, gs[u].accesses); }
    SilentStep(gs[u], Config(s.tasks[u].local, s.mem));
    assert Groups(s1) == gs && Counts(s1) == ks[u := ks[u] + 1];
    SilentSerial(gs, ks, m, u, ks[u] + 1, |gs|);
    forall t: nat ensures LocalOk(s1, m, t, all) {
      assert LocalOk(s, m, t, all);
      if t < |s.tasks| { SilentSerial(gs, ks, m, u, ks[u] + 1, t); }
    }
  }

  lemma WatchedMeans(all: bool, accs: seq<Access>)
    ensures all ==> Watched(all, accs)
    ensures !all ==> Watched(all, accs) == Watched(false, accs)
  {
  }

  lemma OthersKeepLocal<V, L>(gs: seq<Group<V, L>>, ks: seq<nat>, m: Memory<V>, u: nat, t: nat)
    requires u < t < |gs| == |ks| && Independent(gs, ks, u)
    ensures forall j: nat :: j <= ks[t] ==>
              Steps(gs[t], j, SerialMem(gs, ks[u := ks[u] + 1], m, t)).local
              == Steps(gs[t], j, SerialMem(gs, ks, m, t)).local
  {
    var a, a1 := SerialMem(gs, ks, m, t), SerialMem(gs, ks[u := ks[u] + 1], m, t);
    SerialAfter(gs, ks, m, u, t);
    forall j: nat | j <= ks[t] ensures Steps(gs[t], j, a1).local == Steps(gs[t], j, a).local {
      if ks[t] > 0 {
        forall b | b in a && Accesses(gs[t].accesses, b) ensures a[b] == a1[b] {
          assert !Writes(gs[u].accesses, b);
        }
        StepsSeeOnlyOwn(gs[t], j, a, a1);
      }
    }
  }

  lemma StepKeepsMem<V, L>(s: State<V, L>, e: Event<V, L>, m: Memory<V>, all: bool)
    requires GraphInv(s) && MemInv(s, m, all) && Enabled(s, e) && ReadersReachWriters(Programs(s), all)
    ensures MemInv(Next(s, e), m, all)
  {
    hide MemInv, GraphInv, ReadersReachWriters, KernelStep;
    match e
    case NewTask(g) => NewTaskKeepsMem(s, g, m, all);
    case Compute(u) =>
      if Watched(all, s.tasks[u].group.accesses) {
        ComputeKeepsMem(s, u, m, all);
      } else {
        SilentKeepsMem(s, u, m, all);
      }
    case Schedule => PhaseKeepsMem(s, Next(s, e), |s.tasks| - 1, m, all);
    case Register(_) => PhaseKeepsMem(s, Next(s, e), |s.tasks| - 1, m, all);
    case _ => PhaseKeepsMem(s, Next(s, e), e.t, m, all);
  }

  /** Steps that leave all kernels where they are. */
  lemma PhaseKeepsMem<V, L>(s: State<V, L>, s1: State<V, L>, t: nat, m: Memory<V>, all: bool)
    requires MemInv(s, m, all) && t < |s.tasks| == |s1.tasks| && s1.mem == s.mem
    requires forall i: nat :: i < |s.tasks| && i != t ==> s1.tasks[i] == s.tasks[i]
    requires var x, y := s.tasks[t], s1.tasks[t];
             && y.group == x.group && y.local == x.local && y.steps == x.steps
             && (Started(x.phase) ==> Started(y.phase))
             && (KernelOver(y.phase) ==> KernelOver(x.phase) || x.group.done(x.local))
    ensures MemInv(s1, m, all)
  {
    hide SerialMem, Steps;
    assert Groups(s1) == Groups(s) && Counts(s1) == Counts(s);
    forall i: nat ensures LocalOk(s1, m, i, all) {
      assert LocalOk(s, m, i, all);
    }
  }

  // ---------------------------------------------------------------- growing programs

  lemma {:induction false} ReachesDepends(ps: seq<seq<Access>>, qs: seq<seq<Access>>, r: nat, w: nat)
    requires w < |ps| && w < |qs| && ps[..w + 1] == qs[..w + 1] && Reaches(ps, r, w)
    ensures Reaches(qs, r, w)
    decreases w
  {
    hide Edge;
    if r != w {
      var x: nat :| r <= x < w && Edge(ps, x, w) && Reaches(ps, r, x);
      EdgeDepends(ps, qs, x, w);
      CutShorter(ps, qs, w, x + 1);
      ReachesDepends(ps, qs, r, x);
    }
  }

  lemma PrefixReaches(ps: seq<seq<Access>>, qs: seq<seq<Access>>, all: bool)
    requires ps <= qs && ReadersReachWriters(qs, all)
    ensures ReadersReachWriters(ps, all)
  {
    forall r: nat, w: nat, b: nat |
      r < w < |ps| && Watched(all, ps[r]) && Accesses(ps[r], b) && !Writes(ps[r], b) && Writes(ps[w], b)
      ensures Reaches(ps, r, w)
    {
      assert ps[r] == qs[r] && ps[w] == qs[w];
      ReachesDepends(qs, ps, r, w);
    }
  }

  lemma ProgramsGrowOnce<V, L>(s: State<V, L>, e: Event<V, L>)
    requires Enabled(s, e)
    ensures Programs(s) <= Programs(Next(s, e))
  {
    hide KernelStep, AddBuffer;
    var s1 := Next(s, e);
    match e {
      case NewTask(g) =>
      case Register(_) =>
      case Schedule =>
      case _ => assert s1.tasks[e.t].group == s.tasks[e.t].group;
    }
    assert forall i: nat :: i < |s.tasks| ==> s1.tasks[i].group == s.tasks[i].group;
  }

  lemma {:induction false} ProgramsGrow<V, L>(s: State<V, L>, es: seq<Event<V, L>>)
    requires Possible(s, es)
    ensures Programs(s) <= Programs(Run(s, es))
    decreases |es|
  {
    if es != [] {
      var s1 := Next(s, es[0]);
      ProgramsGrowOnce(s, es[0]);
      ProgramsGrow(s1, es[1..]);
    }
  }

  lemma {:induction false} RunKeepsMem<V, L>(s: State<V, L>, es: seq<Event<V, L>>, m: Memory<V>, all: bool)
    requires GraphInv(s) && MemInv(s, m, all) && Possible(s, es) && ReadersReachWriters(Programs(Run(s, es)), all)
    ensures MemInv(Run(s, es), m, all) && GraphInv(Run(s, es))
    decreases |es|
  {
    if es != [] {
      ProgramsGrow(s, es);
      PrefixReaches(Programs(s), Programs(Run(s, es)), all);
      StepKeepsMem(s, es[0], m, all);
      StepKeepsGraph(s, es[0]);
      RunKeepsMem(Next(s, es[0]), es[1..], m, all);
    }
  }

  // ---------------------------------------------------------------- main results

  lemma StartIsGood<V, L>(m: Memory<V>, all: bool)
    ensures GraphInv(Start<V, L>(m)) && MemInv(Start<V, L>(m), m, all)
  {
    var s := Start<V, L>(m);
    assert forall t: nat :: TaskOk(s, t);
    assert forall b: nat :: LatestOk(s, b);
    assert forall t: nat :: LocalOk(s, m, t, all);
  }

  ghost predicate AllOver<V, L>(s: State<V, L>) {
    forall t: nat :: t < |s.tasks| ==> KernelOver(s.tasks[t].phase)
  }

  /** The tasks that count ran to their end as in their serial turn. */
  ghost predicate WatchedRun<V, L>(gs: seq<Group<V, L>>, ks: seq<nat>, m: Memory<V>) {
    |gs| == |ks| && forall i: nat :: i < |gs| && Watched(false, gs[i].accesses) ==> RunsToEnd(gs, ks, m, i)
  }

  /** Whatever the interleaving, once all kernels are over each took the steps of the serial
      execution in submission order, and the buffers hold what that leaves in them. */
  lemma EveryInterleavingIsSerial<V, L>(m: Memory<V>, es: seq<Event<V, L>>)
    requires Possible(Start(m), es)
    requires var s := Run(Start(m), es); ReadersReachWriters(Programs(s), true) && AllOver(s)
    ensures var s := Run(Start(m), es);
            SerialRun(Groups(s), Counts(s), m) && s.mem == SerialMem(Groups(s), Counts(s), m, |s.tasks|)
  {
    StartIsGood<V, L>(m, true);
    RunKeepsMem(Start(m), es, m, true);
    var s := Run(Start(m), es);
    forall i: nat ensures RunsToEnd(Groups(s), Counts(s), m, i) {
      assert LocalOk(s, m, i, true);
    }
  }

  /** When only the readers that write something reach the later writers of what they read,
      the same holds of the tasks that write. */
  lemma WritersRunSerially<V, L>(m: Memory<V>, es: seq<Event<V, L>>)
    requires Possible(Start(m), es)
    requires var s := Run(Start(m), es); ReadersReachWriters(Programs(s), false) && AllOver(s)
    ensures var s := Run(Start(m), es);
            WatchedRun(Groups(s), Counts(s), m) && s.mem == SerialMem(Groups(s), Counts(s), m, |s.tasks|)
  {
    StartIsGood<V, L>(m, false);
    RunKeepsMem(Start(m), es, m, false);
    var s := Run(Start(m), es);
    forall i: nat | i < |s.tasks| && Watched(false, Groups(s)[i].accesses)
      ensures RunsToEnd(Groups(s), Counts(s), m, i)
    {
      assert LocalOk(s, m, i, false);
    }
  }

  /** Serial executions agree on the contents at every turn. */
  lemma {:induction false} SerialMemIsUnique<V, L>(gs: seq<Group<V, L>>, ks: seq<nat>, ks1: seq<nat>, m: Memory<V>,
          i: nat)
    requires WatchedRun(gs, ks, m) && WatchedRun(gs, ks1, m) && i <= |gs|
    ensures SerialMem(gs, ks, m, i) == SerialMem(gs, ks1, m, i)
    decreases i
  {
    hide Watched, Steps;
    if i > 0 {
      SerialMemIsUnique(gs, ks, ks1, m, i - 1);
      var before := SerialMem(gs, ks, m, i - 1);
      if Watched(false, gs[i - 1].accesses) {
        assert RunsToEnd(gs, ks, m, i - 1) && RunsToEnd(gs, ks1, m, i - 1);
        assert ks[i - 1] == ks1[i - 1];
      } else {
        SilentSteps(gs[i - 1], ks[i - 1], before);
        SilentSteps(gs[i - 1], ks1[i - 1], before);
      }
    }
  }

  /** There is only one serial execution. */
  lemma {:induction false} SerialRunIsUnique<V, L>(gs: seq<Group<V, L>>, ks: seq<nat>, ks1: seq<nat>, m: Memory<V>)
    requires SerialRun(gs, ks, m) && SerialRun(gs, ks1, m)
    ensures ks == ks1
  {
    forall i | 0 <= i < |gs| ensures ks[i] == ks1[i] {
      SerialMemIsUnique(gs, ks, ks1, m, i);
      assert RunsToEnd(gs, ks, m, i) && RunsToEnd(gs, ks1, m, i);
    }
  }

  /** Then the buffers end with the contents that the serial execution leaves. */
  lemma ContentsAreSerial<V, L>(m: Memory<V>, es: seq<Event<V, L>>, ks: seq<nat>)
    requires Possible(Start(m), es)
    requires var s := Run(Start(m), es);
             ReadersReachWriters(Programs(s), false) && AllOver(s) && SerialRun(Groups(s), ks, m)
    ensures var s := Run(Start(m), es); s.mem == SerialMem(Groups(s), ks, m, |s.tasks|)
  {
    var s := Run(Start(m), es);
    WritersRunSerially(m, es);
    SerialMemIsUnique(Groups(s), Counts(s), ks, m, |s.tasks|);
  }

  /** Two interleavings of the same command groups end with the same buffer contents. */
  lemma InterleavingsAgree<V, L>(m: Memory<V>, es: seq<Event<V, L>>, fs: seq<Event<V, L>>)
    requires Possible(Start(m), es) && Possible(Start(m), fs)
    requires var s, s1 := Run(Start(m), es), Run(Start(m), fs);
             Groups(s) == Groups(s1) && ReadersReachWriters(Programs(s), false) && AllOver(s) && AllOver(s1)
    ensures Run(Start(m), es).mem == Run(Start(m), fs).mem
  {
    var s, s1 := Run(Start(m), es), Run(Start(m), fs);
    assert Programs(s) == Programs(s1) by {
      forall i: nat | i < |s.tasks| ensures Programs(s)[i] == Programs(s1)[i] {
        assert Groups(s)[i].accesses == Groups(s1)[i].accesses;
      }
    }
    WritersRunSerially(m, es);
    WritersRunSerially(m, fs);
    SerialMemIsUnique(Groups(s), Counts(s), Counts(s1), m, |s.tasks|);
  }
}
