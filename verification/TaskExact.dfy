/**
 The producer links order a later writer after an earlier reader exactly when a path of
 links leads from the reader to the writer: without one, some schedule runs the writer first
 and the reader sees what it wrote. So the condition under which every schedule behaves as
 the serial execution is exact.
 */
module TaskExact {
  import opened TaskModel
  import opened TaskOrder
  import opened TaskSerial

  /** What a kernel does: nothing; look whether buffer b holds a 1 and store the answer in
      buffer c; or store a 1 in b. */
  datatype Role = Bystander | Observer(b: nat, c: nat) | Setter(b: nat)

  predicate Sees(role: Role, m: Memory<int>) {
    role.Observer? && role.b in m && m[role.b] == 1
  }

  predicate Target(role: Role, x: nat) {
    (role.Setter? && x == role.b) || (role.Observer? && x == role.c)
  }

  /** An observer is done after one step when it sees the 1, after two when it does not. */
  function Kernel(accs: seq<Access>, role: Role): Group<int, int> {
    Group(accs,
          if role.Bystander? then 2 else 0,
          (l: int, m: Memory<int>) =>
            (if role.Observer? && l == 0 && !Sees(role, m) then 1 else 2,
             if role.Setter? then map[role.b := 1]
             else if role.Observer? then map[role.c := if Sees(role, m) then 1 else 0]
             else map[]),
          (l: int) => l == 2)
  }

  /** Task r observes b and answers in c, task w sets b, the others stand by. */
  datatype Cast = Cast(ps: seq<seq<Access>>, r: nat, w: nat, b: nat, c: nat)
  {
    function Role(t: nat): Role {
      if t == r then Observer(b, c) else if t == w then Setter(b) else Bystander
    }

    function Group(t: nat): Group<int, int>
      requires t < |ps|
    {
      Kernel(ps[t], Role(t))
    }
  }

  /** One more event at the end of a run. */
  lemma Then<V, L>(s: State<V, L>, es: seq<Event<V, L>>, e: Event<V, L>) returns (fs: seq<Event<V, L>>)
    requires Possible(s, es) && Enabled(Run(s, es), e)
    ensures Possible(s, fs) && Run(s, fs) == Next(Run(s, es), e)
  {
    RunOne(Run(s, es), e);
    RunAppend(s, es, [e]);
    fs := es + [e];
  }

  // ---------------------------------------------------------------- submitting everything

  /** A task that has not begun. */
  ghost predicate Fresh(x: Task<int, int>) {
    x.phase.Waiting? && x.local == x.group.init && x.steps == 0
  }

  ghost predicate Plays(s: State<int, int>, c: Cast) {
    |s.tasks| == |c.ps| && forall t: nat :: t < |s.tasks| ==> s.tasks[t].group == c.Group(t)
  }

  /** s1 is s with k accesses of the newest task registered. */
  ghost predicate Registering(s: State<int, int>, s1: State<int, int>, k: nat) {
    && |s1.tasks| == |s.tasks| > 0 && s1.mem == s.mem
    && var n := |s.tasks| - 1; var x, x1 := s.tasks[n], s1.tasks[n];
       && s1.tasks[..n] == s.tasks[..n]
       && x1.phase.Building? && x1.registered == k <= |x.group.accesses|
       && x1.group == x.group && x1.local == x.local && x1.steps == x.steps
  }

  lemma RegisterRest(s0: State<int, int>, es: seq<Event<int, int>>, s: State<int, int>, k: nat, rest: nat)
      returns (fs: seq<Event<int, int>>)
    requires Possible(s0, es) && Registering(s, Run(s0, es), k) && k + rest == |s.tasks[|s.tasks| - 1].group.accesses|
    ensures Possible(s0, fs) && Registering(s, Run(s0, fs), k + rest)
    decreases rest
  {
    if rest == 0 {
      fs := es;
    } else {
      fs := Then(s0, es, Register(true));
      var s1, s2 := Run(s0, es), Run(s0, fs);
      assert s2.tasks[..|s.tasks| - 1] == s1.tasks[..|s.tasks| - 1];
      fs := RegisterRest(s0, fs, s, k + 1, rest - 1);
    }
  }

  lemma SubmitOne(s0: State<int, int>, es: seq<Event<int, int>>, g: Group<int, int>) returns (fs: seq<Event<int, int>>)
    requires Possible(s0, es) && Enabled(Run(s0, es), NewTask(g))
    ensures Possible(s0, fs)
    ensures var s, s1 := Run(s0, es), Run(s0, fs); var n := |s.tasks|;
            |s1.tasks| == n + 1 && s1.tasks[..n] == s.tasks && s1.mem == s.mem && s1.tasks[n].group == g &&
              Fresh(s1.tasks[n])
  {
    var n := |Run(s0, es).tasks|;
    fs := Then(s0, es, NewTask(g));
    assert Run(s0, fs).tasks[..n] == Run(s0, es).tasks;
    fs := RegisterRest(s0, fs, Run(s0, fs), 0, |g.accesses|);
    fs := Then(s0, fs, Schedule);
  }

  lemma {:induction false} SubmitAll(m: Memory<int>, c: Cast, n: nat) returns (es: seq<Event<int, int>>)
    requires n <= |c.ps|
    ensures Possible(Start<int, int>(m), es)
    ensures var s := Run(Start<int, int>(m), es);
            |s.tasks| == n && s.mem == m && forall t: nat :: t < n ==>
                s.tasks[t].group == c.Group(t) && Fresh(s.tasks[t])
    decreases n
  {
    if n == 0 {
      es := [];
    } else {
      var s0 := Start<int, int>(m);
      es := SubmitAll(m, c, n - 1);
      var s := Run(s0, es);
      assert n > 1 ==> Fresh(s.tasks[n - 2]);
      es := SubmitOne(s0, es, c.Group(n - 1));
      var s1 := Run(s0, es);
      forall t: nat | t < n ensures s1.tasks[t].group == c.Group(t) && Fresh(s1.tasks[t]) {
        if t < n - 1 { assert s1.tasks[t] == s1.tasks[..n - 1][t]; }
      }
    }
  }

  // ---------------------------------------------------------------- producers are links

  ghost predicate EdgeInv<V, L>(s: State<V, L>) {
    forall t: nat, u: nat :: t < |s.tasks| && u in s.tasks[t].producers ==> Edge(Programs(s), u, t)
  }

  lemma NewTaskKeepsEdges<V, L>(s: State<V, L>, g: Group<V, L>)
    requires EdgeInv(s) && Enabled(s, NewTask(g))
    ensures EdgeInv(Next(s, NewTask(g)))
  {
    hide Edge;
    var s1 := Next(s, NewTask(g));
    assert Programs(s1) == Programs(s) + [g.accesses];
    forall t: nat, u: nat | t < |s1.tasks| && u in s1.tasks[t].producers ensures Edge(Programs(s1), u, t) {
      assert Programs(s)[..t + 1] == Programs(s1)[..t + 1];
      EdgeDepends(Programs(s), Programs(s1), u, t);
    }
  }

  lemma RegisterKeepsEdges<V, L>(s: State<V, L>, alive: bool)
    requires GraphInv(s) && EdgeInv(s) && Enabled(s, Register(alive))
    ensures EdgeInv(Next(s, Register(alive)))
  {
    var s1 := Next(s, Register(alive));
    var n := |s.tasks|;
    assert Programs(s1) == Programs(s);
    var x := s.tasks[n - 1];
    var b := x.group.accesses[x.registered].buf;
    assert LatestOk(s, b);
    assert b in s.latest && s.latest[b] != n - 1 ==>
             Programs(s)[n - 1][x.registered].buf == b && Edge(Programs(s), s.latest[b], n - 1);
  }

  lemma SameLinksKeepEdges<V, L>(s: State<V, L>, s1: State<V, L>, t: nat, x: Task<V, L>)
    requires EdgeInv(s) && t < |s.tasks| && s1.tasks == s.tasks[t := x]
    requires x.group == s.tasks[t].group && x.producers == s.tasks[t].producers
    ensures EdgeInv(s1)
  {
    hide Edge;
    assert Programs(s1) == Programs(s);
  }

  lemma StepKeepsEdges<V, L>(s: State<V, L>, e: Event<V, L>)
    requires GraphInv(s) && EdgeInv(s) && Enabled(s, e)
    ensures EdgeInv(Next(s, e))
  {
    hide EdgeInv, GraphInv, KernelStep;
    var s1 := Next(s, e);
    match e
    case NewTask(g) => NewTaskKeepsEdges(s, g);
    case Register(alive) => RegisterKeepsEdges(s, alive);
    case Schedule => SameLinksKeepEdges(s, s1, |s.tasks| - 1, s1.tasks[|s.tasks| - 1]);
    case _ => SameLinksKeepEdges(s, s1, e.t, s1.tasks[e.t]);
  }

  lemma {:induction false} RunKeepsEdges<V, L>(s: State<V, L>, es: seq<Event<V, L>>)
    requires GraphInv(s) && EdgeInv(s) && Possible(s, es)
    ensures EdgeInv(Run(s, es))
    decreases |es|
  {
    if es != [] {
      StepKeepsEdges(s, es[0]);
      StepKeepsGraph(s, es[0]);
      RunKeepsEdges(Next(s, es[0]), es[1..]);
    }
  }

  // ---------------------------------------------------------------- running a task

  ghost predicate SameBut(s: State<int, int>, s1: State<int, int>, t: nat) {
    && t < |s.tasks| == |s1.tasks| && s1.tasks[t].group == s.tasks[t].group
    && forall i: nat :: i < |s.tasks| && i != t ==> s1.tasks[i] == s.tasks[i]
  }

  lemma ReleaseRest(s0: State<int, int>, es: seq<Event<int, int>>, t: nat, k: nat) returns (fs: seq<Event<int, int>>)
    requires Possible(s0, es)
    requires var s := Run(s0, es); t < |s.tasks| && s.tasks[t].phase.Releasing? && |s.tasks[t].inUse| == k
    ensures Possible(s0, fs)
    ensures var s, s1 := Run(s0, es), Run(s0, fs);
            SameBut(s, s1, t) && s1.tasks[t].phase.Ended? && s1.tasks[t].steps == s.tasks[t].steps && s1.mem == s.mem
    decreases k
  {
    if k == 0 {
      fs := Then(s0, es, Notify(t));
    } else {
      fs := Then(s0, es, Release(t));
      fs := ReleaseRest(s0, fs, t, k - 1);
    }
  }

  /** What one step of a kernel does to the memory and to its own state. */
  lemma KernelDoes(accs: seq<Access>, role: Role, l: int, m: Memory<int>)
    ensures var c := KernelStep(Kernel(accs, role), Config(l, m));
            && c.mem.Keys == m.Keys && (l == 1 || !role.Observer? ==> c.local == 2) && (c.local == 1 || c.local == 2)
            && (forall x :: x in m && !(Writes(accs, x) && Target(role, x)) ==> c.mem[x] == m[x])
            && (role.Setter? && Writes(accs, role.b) && role.b in m ==> c.mem[role.b] == 1)
            && (role.Observer? && Accesses(accs, role.b) && role.b in m ==>
                  && (l == 0 ==> (c.local == 2 <==> m[role.b] == 1))
                  && (Writes(accs, role.c) && role.c in m ==> c.mem[role.c] == if m[role.b] == 1 then 1 else 0))
  {
    var v := View(accs, m);
    assert forall x :: x in m && Accesses(accs, x) ==> x in v && v[x] == m[x];
    var c := KernelStep(Kernel(accs, role), Config(l, m));
    assert role.Observer? ==> c.local == if l == 0 && !Sees(role, v) then 1 else 2;
    assert role.Observer? && role.c in m && Writes(accs, role.c) ==> c.mem[role.c] == if Sees(role, v) then 1 else 0;
  }

  /** What a whole kernel does. */
  ghost predicate KernelEffect(s: State<int, int>, s1: State<int, int>, t: nat, accs: seq<Access>, role: Role) {
    && SameBut(s, s1, t) && s1.mem.Keys == s.mem.Keys
    && (forall x :: x in s.mem && !(Writes(accs, x) && Target(role, x)) ==> s1.mem[x] == s.mem[x])
    && (role.Setter? && Writes(accs, role.b) && role.b in s.mem ==> s1.mem[role.b] == 1)
    && (role.Observer? && Accesses(accs, role.b) && role.b in s.mem && s.mem[role.b] == 1 ==>
          && s1.tasks[t].steps == s.tasks[t].steps + 1
          && (Writes(accs, role.c) && role.c in s.mem ==> s1.mem[role.c] == 1))
  }

  lemma RunKernel(s0: State<int, int>, es: seq<Event<int, int>>, t: nat, accs: seq<Access>, role: Role)
      returns (fs: seq<Event<int, int>>)
    requires Possible(s0, es)
    requires var s := Run(s0, es); t < |s.tasks| && var x := s.tasks[t];
             x.phase.Running? && x.group == Kernel(accs, role) && x.local == x.group.init
    ensures Possible(s0, fs)
    ensures var s, s1 := Run(s0, es), Run(s0, fs);
            KernelEffect(s, s1, t, accs, role) && s1.tasks[t].phase.Running? && s1.tasks[t].local == 2
  {
    hide KernelStep;
    fs := es;
    if !role.Bystander? {
      var s := Run(s0, fs);
      KernelDoes(accs, role, 0, s.mem);
      fs := Then(s0, fs, Compute(t));
      var s1 := Run(s0, fs);
      if s1.tasks[t].local != 2 {
        KernelDoes(accs, role, 1, s1.mem);
        fs := Then(s0, fs, Compute(t));
      }
    }
  }

  /** A task that can begin can run to its end. */
  lemma RunTask(s0: State<int, int>, es: seq<Event<int, int>>, t: nat, accs: seq<Access>, role: Role)
      returns (fs: seq<Event<int, int>>)
    requires Possible(s0, es) && Enabled(Run(s0, es), Begin(t))
    requires var x := Run(s0, es).tasks[t]; x.group == Kernel(accs, role) && Fresh(x)
    ensures Possible(s0, fs)
    ensures var s, s1 := Run(s0, es), Run(s0, fs); KernelEffect(s, s1, t, accs, role) && s1.tasks[t].phase.Ended?
  {
    var s := Run(s0, es);
    fs := Then(s0, es, Begin(t));
    fs := RunKernel(s0, fs, t, accs, role);
    fs := Then(s0, fs, EndKernel(t));
    fs := ReleaseRest(s0, fs, t, |Run(s0, fs).tasks[t].inUse|);
  }

  // ---------------------------------------------------------------- running around r

  /** Tasks before d, and those before k that r does not reach, have ended; the others wait. */
  ghost predicate Ran(s: State<int, int>, c: Cast, k: nat, d: nat) {
    && Plays(s, c)
    && (forall t: nat :: t < |s.tasks| ==>
          if t < d || (t < k && !Reaches(c.ps, c.r, t)) then HasEnded(s.tasks[t].phase) else Fresh(s.tasks[t]))
  }

  /** Once the setter has run, b holds the 1. */
  ghost predicate Seen(s: State<int, int>, c: Cast) {
    && c.r < |s.tasks| == |c.ps| && c.w < |s.tasks| && c.b != c.c
    && (c.b in s.mem && HasEnded(s.tasks[c.w].phase) && Writes(c.ps[c.w], c.b) ==> s.mem[c.b] == 1)
  }

  lemma PlaysPrograms(s: State<int, int>, c: Cast)
    requires Plays(s, c)
    ensures Programs(s) == c.ps
  {
  }

  /** The next task in either order has all its producers behind it. */
  lemma CanBegin(s: State<int, int>, c: Cast, k: nat, d: nat, t: nat)
    requires GraphInv(s) && EdgeInv(s) && Ran(s, c, k, d) && t < |c.ps| && Fresh(s.tasks[t])
    requires t == d || (t == k && !Reaches(c.ps, c.r, t))
    ensures Enabled(s, Begin(t))
  {
    PlaysPrograms(s, c);
    assert TaskOk(s, t);
    forall i | 0 <= i < |s.tasks[t].producers|
      ensures s.tasks[t].producers[i] < |s.tasks| && HasEnded(s.tasks[s.tasks[t].producers[i]].phase)
    {
      var u := s.tasks[t].producers[i];
      assert u in s.tasks[t].producers && Edge(c.ps, u, t);
      assert Reaches(c.ps, c.r, u) ==> c.r <= u;
    }
  }

  /** Run one more task. */
  lemma RunNext(m: Memory<int>, es: seq<Event<int, int>>, c: Cast, k: nat, d: nat, t: nat)
      returns (fs: seq<Event<int, int>>)
    requires Possible(Start<int, int>(m), es)
    requires var s := Run(Start<int, int>(m), es);
             Ran(s, c, k, d) && Seen(s, c) && c.r != c.w && t < |c.ps| && Fresh(s.tasks[t]) && s.mem.Keys == m.Keys
    requires t == d || (t == k && !Reaches(c.ps, c.r, t))
    ensures Possible(Start<int, int>(m), fs)
    ensures var s, s1 := Run(Start<int, int>(m), es), Run(Start<int, int>(m), fs);
            && SameBut(s, s1, t) && HasEnded(s1.tasks[t].phase) && Seen(s1, c) && s1.mem.Keys == m.Keys
            && (t == c.r && Accesses(c.ps[t], c.b) && c.b in m && s.mem[c.b] == 1 ==>
                  s1.tasks[t].steps == 1 && (Writes(c.ps[t], c.c) && c.c in m ==> s1.mem[c.c] == 1))
            && (t != c.r && c.c in m ==> s1.mem[c.c] == s.mem[c.c])
  {
    hide KernelStep;
    var s0 := Start<int, int>(m);
    var s := Run(s0, es);
    GoodRun(m, es);
    CanBegin(s, c, k, d, t);
    fs := RunTask(s0, es, t, c.ps[t], c.Role(t));
  }

  lemma RanNext(s: State<int, int>, s1: State<int, int>, c: Cast, k: nat, d: nat, t: nat)
    requires Ran(s, c, k, d) && SameBut(s, s1, t) && HasEnded(s1.tasks[t].phase)
    ensures t == k && !Reaches(c.ps, c.r, t) ==> Ran(s1, c, k + 1, d)
    ensures t == d ==> Ran(s1, c, k, d + 1)
  {
    hide Reaches;
  }

  lemma RanSkips(s: State<int, int>, c: Cast, k: nat, d: nat)
    requires Ran(s, c, k, d)
    ensures Reaches(c.ps, c.r, k) ==> Ran(s, c, k + 1, d)
    ensures d < k && !Reaches(c.ps, c.r, d) ==> Ran(s, c, k, d + 1)
  {
    hide Reaches;
  }

  lemma {:induction false} RunAround(m: Memory<int>, c: Cast, k: nat) returns (es: seq<Event<int, int>>)
    requires k <= |c.ps| && c.r < |c.ps| && c.w < |c.ps| && c.r != c.w && c.b != c.c
    ensures Possible(Start<int, int>(m), es)
    ensures var s := Run(Start<int, int>(m), es); Ran(s, c, k, 0) && Seen(s, c) && s.mem.Keys == m.Keys
    decreases k
  {
    hide Next, Enabled, Reaches, Possible, Run;
    var s0 := Start<int, int>(m);
    if k == 0 {
      es := SubmitAll(m, c, |c.ps|);
    } else {
      es := RunAround(m, c, k - 1);
      var s := Run(s0, es);
      if Reaches(c.ps, c.r, k - 1) {
        RanSkips(s, c, k - 1, 0);
      } else {
        es := RunNext(m, es, c, k - 1, 0, k - 1);
        RanNext(s, Run(s0, es), c, k - 1, 0, k - 1);
      }
    }
  }

  /** Run the rest, in submission order: r, and what it reaches. */
  lemma {:induction false} RunRest(m: Memory<int>, c: Cast, d: nat) returns (es: seq<Event<int, int>>)
    requires d <= |c.ps| && c.r < |c.ps| && c.w < |c.ps| && c.b in m && c.b != c.c
    requires Accesses(c.ps[c.r], c.b) && Writes(c.ps[c.w], c.b) && !Reaches(c.ps, c.r, c.w)
    ensures Possible(Start<int, int>(m), es)
    ensures var s := Run(Start<int, int>(m), es);
            && Ran(s, c, |c.ps|, d) && Seen(s, c) && s.mem.Keys == m.Keys
            && (c.r < d ==> s.tasks[c.r].steps == 1 && (Writes(c.ps[c.r], c.c) && c.c in m ==> s.mem[c.c] == 1))
    decreases d
  {
    hide Next, Enabled, Possible, Run;
    var s0, n := Start<int, int>(m), |c.ps|;
    assert c.r != c.w;
    if d == 0 {
      es := RunAround(m, c, n);
    } else {
      es := RunRest(m, c, d - 1);
      var s := Run(s0, es);
      if Reaches(c.ps, c.r, d - 1) {
        assert HasEnded(s.tasks[c.w].phase);
        es := RunNext(m, es, c, n, d - 1, d - 1);
        RanNext(s, Run(s0, es), c, n, d - 1, d - 1);
      } else {
        assert d - 1 != c.r;
        RanSkips(s, c, n, d - 1);
      }
    }
  }

  lemma GoodRun(m: Memory<int>, es: seq<Event<int, int>>)
    requires Possible(Start<int, int>(m), es)
    ensures GraphInv(Run(Start<int, int>(m), es)) && EdgeInv(Run(Start<int, int>(m), es))
  {
    var s := Start<int, int>(m);
    assert forall t: nat :: TaskOk(s, t);
    assert forall b: nat :: LatestOk(s, b);
    RunKeepsGraph(s, es);
    RunKeepsEdges(s, es);
  }

  /** In every run of these command groups, task w starts only after task r ended. */
  ghost predicate AlwaysAfter(m: Memory<int>, ps: seq<seq<Access>>, r: nat, w: nat) {
    forall es: seq<Event<int, int>> ::
      Possible(Start<int, int>(m), es) && Programs(Run(Start<int, int>(m), es)) == ps ==>
      var s := Run(Start<int, int>(m), es);
      r < |s.tasks| && w < |s.tasks| && !s.tasks[w].phase.Building? && !s.tasks[w].phase.Waiting? ==>
      s.tasks[r].phase.Ended? || s.tasks[r].phase.Finished?
  }

  /** A later task always runs after an earlier one if and only if producer links lead from
      the earlier to the later. */
  lemma AlwaysAfterIffReaches(m: Memory<int>, ps: seq<seq<Access>>, r: nat, w: nat)
    requires r < w < |ps|
    ensures AlwaysAfter(m, ps, r, w) <==> Reaches(ps, r, w)
  {
    var s0 := Start<int, int>(m);
    if Reaches(ps, r, w) {
      forall es: seq<Event<int, int>> | Possible(s0, es) && Programs(Run(s0, es)) == ps
        ensures var s := Run(s0, es); Started(s.tasks[w].phase) ==> HasEnded(s.tasks[r].phase)
      {
        GoodRun(m, es);
        if Started(Run(s0, es).tasks[w].phase) { StartsAfterAncestors(Run(s0, es), r, w); }
      }
    } else {
      var c := Cast(ps, r, w, 0, 1);
      var es := RunAround(m, c, w);
      GoodRun(m, es);
      PlaysPrograms(Run(s0, es), c);
      CanBegin(Run(s0, es), c, w, 0, w);
      es := Then(s0, es, Begin(w));
      assert Reaches(ps, r, r);
      assert !HasEnded(Run(s0, es).tasks[r].phase) && Started(Run(s0, es).tasks[w].phase);
      assert Programs(Run(s0, es)) == ps;
    }
  }

  /** The smallest case: one command group reads a buffer, the next writes it, and nothing
      orders them. */
  lemma ReaderThenWriterIsUnordered(m: Memory<int>)
    ensures !AlwaysAfter(m, [[Access(0, false)], [Access(0, true)]], 0, 1)
  {
    var ps := [[Access(0, false)], [Access(0, true)]];
    assert !Writes(ps[0], 0);
    assert LastWriter(ps, 1, 0) == -1;
    assert !Edge(ps, 0, 1);
    AlwaysAfterIffReaches(m, ps, 0, 1);
  }

  // ---------------------------------------------------------------- when runs are serial

  ghost predicate Complete(s: State<int, int>, ps: seq<seq<Access>>) {
    Programs(s) == ps && AllOver(s)
  }

  ghost predicate Serial(s: State<int, int>, m: Memory<int>) {
    SerialRun(Groups(s), Counts(s), m) && s.mem == SerialMem(Groups(s), Counts(s), m, |s.tasks|)
  }

  /** Whatever the kernels, the contents and the schedule: once all kernels are over, each took
      the steps it takes in the serial execution, and the buffers hold what that leaves. */
  ghost predicate AlwaysSerial(ps: seq<seq<Access>>) {
    forall m: Memory<int>, es: seq<Event<int, int>> ::
      Possible(Start<int, int>(m), es) && Complete(Run(Start<int, int>(m), es), ps) ==>
          Serial(Run(Start<int, int>(m), es), m)
  }

  /** The same, of the contents only. */
  ghost predicate AlwaysSameContents(ps: seq<seq<Access>>) {
    forall m: Memory<int>, es: seq<Event<int, int>>, ks: seq<nat> ::
      Possible(Start<int, int>(m), es) && Complete(Run(Start<int, int>(m), es), ps) ==>
        SameContents(Run(Start<int, int>(m), es), m, ks)
  }

  ghost predicate SameContents(s: State<int, int>, m: Memory<int>, ks: seq<nat>) {
    SerialRun(Groups(s), ks, m) ==> s.mem == SerialMem(Groups(s), ks, m, |s.tasks|)
  }

  // What the cast does in its serial execution.

  ghost function SerialCounts(c: Cast): seq<nat> {
    seq(|c.ps|, t => if t == c.r then 2 else if t == c.w then 1 else 0)
  }

  ghost predicate CastGroups(gs: seq<Group<int, int>>, c: Cast) {
    |gs| == |c.ps| && forall t: nat :: t < |gs| ==> gs[t] == c.Group(t)
  }

  ghost predicate Conflict(c: Cast) {
    && c.r < c.w < |c.ps| && c.b != c.c
    && Accesses(c.ps[c.r], c.b) && Writes(c.ps[c.w], c.b) && !Reaches(c.ps, c.r, c.w)
  }

  function CastMemory(c: Cast): Memory<int> {
    map[c.b := 0, c.c := 0]
  }

  /** An observer that sees no 1 takes two steps and answers 0. */
  lemma ObserverRuns(accs: seq<Access>, role: Role, m: Memory<int>)
    requires role.Observer? && role.b != role.c && Accesses(accs, role.b) && role.b in m && m[role.b] == 0
    ensures var g := Kernel(accs, role);
            && Steps(g, 0, m) == Config(0, m) && Steps(g, 1, m).local == 1 && Steps(g, 2, m).local == 2
            && (role.c in m && m[role.c] == 0 ==> role.c in Steps(g, 2, m).mem && Steps(g, 2, m).mem[role.c] == 0)
  {
    hide KernelStep, Kernel;
    var g := Kernel(accs, role);
    assert g.init == 0 by { KernelStarts(accs, role); }
    var c1 := Steps(g, 1, m);
    assert c1 == KernelStep(g, Steps(g, 0, m));
    assert Steps(g, 2, m) == KernelStep(g, c1);
    KernelDoes(accs, role, 0, m);
    KernelDoes(accs, role, 1, c1.mem);
    assert c1 == Config(1, c1.mem);
  }

  lemma KernelStarts(accs: seq<Access>, role: Role)
    ensures var g := Kernel(accs, role);
            g.init == (if role.Bystander? then 2 else 0) && forall l :: g.done(l) <==> l == 2
  {
  }

  /** Before its turn nobody touched the buffers of the observer. */
  lemma BeforeObserver(gs: seq<Group<int, int>>, ks: seq<nat>, m: Memory<int>, c: Cast, x: nat)
    requires CastGroups(gs, c) && |ks| == |gs| && c.r < c.w < |gs| && x in m
    requires forall t :: 0 <= t < c.r ==> ks[t] == 0
    ensures x in SerialMem(gs, ks, m, c.r) && SerialMem(gs, ks, m, c.r)[x] == m[x]
  {
    SerialKeeps(gs, ks, m, 0, c.r, x);
  }

  /** In any serial execution of the cast r needs two steps. */
  lemma ObserverTakesTwo(gs: seq<Group<int, int>>, ks: seq<nat>, m: Memory<int>, c: Cast)
    requires CastGroups(gs, c) && SerialRun(gs, ks, m) && Conflict(c) && c.b in m && m[c.b] == 0
    ensures ks[c.r] != 1
  {
    hide KernelStep, Kernel, SerialMem, Reaches, Steps;
    forall x | 0 <= x < c.r ensures ks[x] == 0 {
      assert RunsToEnd(gs, ks, m, x) && gs[x] == c.Group(x);
      KernelStarts(c.ps[x], c.Role(x));
      BystanderStays(gs[x], SerialMem(gs, ks, m, x));
    }
    BeforeObserver(gs, ks, m, c, c.b);
    assert RunsToEnd(gs, ks, m, c.r) && gs[c.r] == c.Group(c.r);
    ObserverRuns(c.ps[c.r], c.Role(c.r), SerialMem(gs, ks, m, c.r));
    KernelStarts(c.ps[c.r], c.Role(c.r));
  }

  lemma BystanderStays(g: Group<int, int>, m: Memory<int>)
    ensures Steps(g, 0, m) == Config(g.init, m)
  {
  }

  /** The serial execution of the cast, which leaves a 0 in c. */
  lemma CastIsSerial(gs: seq<Group<int, int>>, c: Cast)
    requires CastGroups(gs, c) && Conflict(c)
    ensures var m := CastMemory(c);
            && SerialRun(gs, SerialCounts(c), m)
            && c.c in SerialMem(gs, SerialCounts(c), m, |gs|) && SerialMem(gs, SerialCounts(c), m, |gs|)[c.c] == 0
  {
    hide KernelStep, Kernel, SerialMem, Reaches, Steps;
    var m, ks := CastMemory(c), SerialCounts(c);
    BeforeObserver(gs, ks, m, c, c.b);
    BeforeObserver(gs, ks, m, c, c.c);
    var before := SerialMem(gs, ks, m, c.r);
    ObserverRuns(c.ps[c.r], c.Role(c.r), before);
    forall i: nat ensures RunsToEnd(gs, ks, m, i) {
      if i < |gs| {
        var now := SerialMem(gs, ks, m, i);
        assert gs[i] == c.Group(i);
        KernelStarts(c.ps[i], c.Role(i));
        BystanderStays(gs[i], now);
        if i == c.w { SetterRuns(c.ps[i], c.Role(i), now); }
      }
    }
    SerialTail(gs, ks, m, c, |gs|);
  }

  lemma SetterRuns(accs: seq<Access>, role: Role, m: Memory<int>)
    requires role.Setter?
    ensures var g := Kernel(accs, role);
            && Steps(g, 0, m).local == 0 && Steps(g, 1, m).local == 2 && Steps(g, 1, m).mem.Keys == m.Keys
            && forall x :: x in m && x != role.b ==> Steps(g, 1, m).mem[x] == m[x]
  {
    hide KernelStep, Kernel;
    KernelStarts(accs, role);
    var g := Kernel(accs, role);
    assert Steps(g, 1, m) == KernelStep(g, Steps(g, 0, m));
    KernelDoes(accs, role, 0, m);
  }

  lemma {:induction false} SerialTail(gs: seq<Group<int, int>>, ks: seq<nat>, m: Memory<int>, c: Cast, i: nat)
    requires CastGroups(gs, c) && Conflict(c) && c.r < i <= |gs| && ks == SerialCounts(c) && m == CastMemory(c)
    ensures c.c in SerialMem(gs, ks, m, i) && SerialMem(gs, ks, m, i)[c.c] == 0
    decreases i
  {
    hide KernelStep, Kernel, Reaches, Steps;
    var x := i - 1;
    var before := SerialMem(gs, ks, m, x);
    assert gs[x] == c.Group(x);
    if x == c.r {
      BeforeObserver(gs, ks, m, c, c.b);
      BeforeObserver(gs, ks, m, c, c.c);
      ObserverRuns(c.ps[x], c.Role(x), before);
    } else {
      SerialTail(gs, ks, m, c, x);
      BystanderStays(gs[x], before);
      if x == c.w { SetterRuns(c.ps[x], c.Role(x), before); }
    }
  }

  /** The schedule that runs the setter first. */
  lemma WrongWayRound(c: Cast) returns (es: seq<Event<int, int>>)
    requires Conflict(c)
    ensures Possible(Start<int, int>(CastMemory(c)), es)
    ensures var s := Run(Start<int, int>(CastMemory(c)), es);
            && Complete(s, c.ps) && CastGroups(Groups(s), c) && |s.tasks| == |c.ps| && Counts(s)[c.r] == 1
            && (Writes(c.ps[c.r], c.c) ==> c.c in s.mem && s.mem[c.c] == 1)
  {
    hide Next, Enabled, Possible, Run, Reaches;
    es := RunRest(CastMemory(c), c, |c.ps|);
    PlaysPrograms(Run(Start<int, int>(CastMemory(c)), es), c);
  }

  lemma UnorderedIsNotSerial(c: Cast)
    requires Conflict(c)
    ensures !AlwaysSerial(c.ps)
  {
    hide Next, Enabled, Possible, Run, SerialRun, Conflict;
    var m := CastMemory(c);
    var es := WrongWayRound(c);
    var s := Run(Start<int, int>(m), es);
    if Serial(s, m) {
      ObserverTakesTwo(Groups(s), Counts(s), m, c);
      assert false;
    }
  }

  /** If the reader writes a buffer, the contents end up different. */
  lemma UnorderedChangesContents(c: Cast)
    requires Conflict(c) && Writes(c.ps[c.r], c.c)
    ensures !AlwaysSameContents(c.ps)
  {
    hide Next, Enabled, Possible, Run, SerialRun, Conflict;
    var m := CastMemory(c);
    var es := WrongWayRound(c);
    var s := Run(Start<int, int>(m), es);
    CastIsSerial(Groups(s), c);
    assert !SameContents(s, m, SerialCounts(c));
  }

  /** Every schedule of these command groups is serial, for all kernels, if and only if every
      later writer of a buffer that a command group only reads is reached from the reader. */
  lemma AlwaysSerialIff(ps: seq<seq<Access>>)
    ensures AlwaysSerial(ps) <==> ReadersReachWriters(ps, true)
  {
    hide Next, Enabled, Possible, Run, SerialRun, Reaches;
    if ReadersReachWriters(ps, true) {
      forall m: Memory<int>, es: seq<Event<int, int>> |
        Possible(Start<int, int>(m), es) && Complete(Run(Start<int, int>(m), es), ps)
        ensures Serial(Run(Start<int, int>(m), es), m)
      {
        EveryInterleavingIsSerial(m, es);
      }
    } else {
      var r: nat, w: nat, b: nat :|
        r < w < |ps| && Accesses(ps[r], b) && !Writes(ps[r], b) && Writes(ps[w], b) && !Reaches(ps, r, w);
      UnorderedIsNotSerial(Cast(ps, r, w, b, b + 1));
    }
  }

  /** Every schedule ends with the contents of the serial execution, for all kernels, if and
      only if that holds of the readers that write some buffer. */
  lemma SameContentsIff(ps: seq<seq<Access>>)
    ensures AlwaysSameContents(ps) <==> ReadersReachWriters(ps, false)
  {
    hide Next, Enabled, Possible, Run, SerialRun, Reaches;
    if ReadersReachWriters(ps, false) {
      forall m: Memory<int>, es: seq<Event<int, int>>, ks: seq<nat> |
        Possible(Start<int, int>(m), es) && Complete(Run(Start<int, int>(m), es), ps)
        ensures SameContents(Run(Start<int, int>(m), es), m, ks)
      {
        if SerialRun(Groups(Run(Start<int, int>(m), es)), ks, m) { ContentsAreSerial(m, es, ks); }
      }
    } else {
      var r: nat, w: nat, b: nat :|
        && r < w < |ps| && Watched(false, ps[r]) && Accesses(ps[r], b) && !Writes(ps[r], b) && Writes(ps[w], b)
        && !Reaches(ps, r, w);
      var c: nat :| Writes(ps[r], c);
      UnorderedChangesContents(Cast(ps, r, w, b, c));
    }
  }
}
