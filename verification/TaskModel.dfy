/**
 The task graph behind the command groups: registration of buffers through their latest
 producer, one thread per task that waits for its producers, and the use counts.

 A kernel is any deterministic transition system that sees the buffers its command group
 has accessors for and writes those it has write accessors for; its steps interleave with
 those of the other kernels.
 */
module TaskModel {
  import opened Basics

  datatype Access = Access(buf: nat, write: bool)

  type Memory<V> = map<nat, V>

  datatype Group<!V, !L> = Group(
    accesses: seq<Access>,
    init: L,
    step: (L, Memory<V>) -> (L, Memory<V>),
    done: L -> bool)

  /** Where a task is: its command group still registers buffers, its thread waits for the
      producers, runs the kernel, releases the buffers, has notified its consumers, and has
      told the queue. */
  datatype Phase = Building | Waiting | Running | Releasing | Ended | Finished

  /** `registered` accesses have been added so far; `inUse` are the buffers not released
      yet; `steps` counts the kernel steps taken. */
  datatype Task<!V, !L> = Task(
    group: Group<V, L>,
    registered: nat,
    inUse: seq<nat>,
    producers: seq<nat>,
    phase: Phase,
    local: L,
    steps: nat)

  datatype State<!V, !L> = State(
    tasks: seq<Task<V, L>>,
    latest: map<nat, nat>,
    mem: Memory<V>,
    users: map<nat, nat>,
    running: nat)

  predicate Started(p: Phase) {
    p.Running? || p.Releasing? || p.Ended? || p.Finished?
  }

  /** execution_ended is set. */
  predicate HasEnded(p: Phase) {
    p.Ended? || p.Finished?
  }

  predicate KernelOver(p: Phase) {
    p.Releasing? || p.Ended? || p.Finished?
  }

  /** Decrement of an unsigned counter. */
  function Decrement(x: nat): nat {
    if x == 0 then Wrap64(x - 1) else x - 1
  }

  function Users(users: map<nat, nat>, b: nat): nat {
    if b in users then users[b] else 0
  }

  // ---------------------------------------------------------------- kernels

  predicate Accesses(accs: seq<Access>, b: nat) {
    exists j :: 0 <= j < |accs| && accs[j].buf == b
  }

  predicate Writes(accs: seq<Access>, b: nat) {
    exists j :: 0 <= j < |accs| && accs[j].buf == b && accs[j].write
  }

  function View<V>(accs: seq<Access>, m: Memory<V>): Memory<V> {
    map b | b in m && Accesses(accs, b) :: m[b]
  }

  function Overwrite<V>(accs: seq<Access>, m: Memory<V>, w: Memory<V>): Memory<V> {
    map b | b in m :: if b in w && Writes(accs, b) then w[b] else m[b]
  }

  datatype Config<!V, !L> = Config(local: L, mem: Memory<V>)

  function KernelStep<V, L>(g: Group<V, L>, c: Config<V, L>): Config<V, L> {
    var r := g.step(c.local, View(g.accesses, c.mem));
    Config(r.0, Overwrite(g.accesses, c.mem, r.1))
  }

  ghost function Steps<V, L>(g: Group<V, L>, k: nat, m: Memory<V>): Config<V, L>
    decreases k
  {
    if k == 0 then Config(g.init, m) else KernelStep(g, Steps(g, k - 1, m))
  }

  // ---------------------------------------------------------------- registration

  /** What add_buffer changes: the use count, the latest producer and the producer list.
      The latest producer is held by a weak pointer, which is dead when `alive` is false. */
  datatype Registration = Registration(latest: map<nat, nat>, users: map<nat, nat>, producers: seq<nat>)

  function AddBuffer(r: Registration, t: nat, a: Access, alive: bool): Registration {
    Registration(
      if a.write then r.latest[a.buf := t] else r.latest,
      r.users[a.buf := Users(r.users, a.buf) + 1],
      if a.buf in r.latest && alive && r.latest[a.buf] != t then r.producers + [r.latest[a.buf]] else r.producers)
  }

  // ---------------------------------------------------------------- steps

  datatype Event<!V, !L> =
    | NewTask(group: Group<V, L>)
    | Register(alive: bool)
    | Schedule
    | Begin(t: nat)
    | Compute(t: nat)
    | EndKernel(t: nat)
    | Release(t: nat)
    | Notify(t: nat)
    | KernelEnd(t: nat)

  ghost predicate Enabled<V, L>(s: State<V, L>, e: Event<V, L>) {
    var n := |s.tasks|;
    match e
    case NewTask(g) => n > 0 ==> !s.tasks[n - 1].phase.Building?
    case Register(alive) =>
      && n > 0 && var t := s.tasks[n - 1];
         && t.phase.Building? && t.registered < |t.group.accesses|
         && var b := t.group.accesses[t.registered].buf;
            !alive ==> b in s.latest && s.latest[b] < n && s.tasks[s.latest[b]].phase.Finished?
    case Schedule => n > 0 && s.tasks[n - 1].phase.Building? &&
      s.tasks[n - 1].registered == |s.tasks[n - 1].group.accesses|
    case Begin(t) =>
      && t < n && s.tasks[t].phase.Waiting?
      && forall i :: 0 <= i < |s.tasks[t].producers| ==>
          s.tasks[t].producers[i] < n && HasEnded(s.tasks[s.tasks[t].producers[i]].phase)
    case Compute(t) => t < n && s.tasks[t].phase.Running? && !s.tasks[t].group.done(s.tasks[t].local)
    case EndKernel(t) => t < n && s.tasks[t].phase.Running? && s.tasks[t].group.done(s.tasks[t].local)
    case Release(t) => t < n && s.tasks[t].phase.Releasing? && s.tasks[t].inUse != []
    case Notify(t) => t < n && s.tasks[t].phase.Releasing? && s.tasks[t].inUse == []
    case KernelEnd(t) => t < n && s.tasks[t].phase.Ended?
  }

  ghost function SetTask<V, L>(s: State<V, L>, t: nat, x: Task<V, L>): State<V, L>
    requires t < |s.tasks|
  {
    s.(tasks := s.tasks[t := x])
  }

  ghost function Next<V, L>(s: State<V, L>, e: Event<V, L>): State<V, L>
    requires Enabled(s, e)
  {
    var n := |s.tasks|;
    match e
    case NewTask(g) => s.(tasks := s.tasks + [Task(g, 0, [], [], Building, g.init, 0)])
    case Register(alive) =>
      var t := s.tasks[n - 1];
      var a := t.group.accesses[t.registered];
      var r := AddBuffer(Registration(s.latest, s.users, t.producers), n - 1, a, alive);
      SetTask(s, n - 1, t.(registered := t.registered + 1, inUse := t.inUse + [a.buf], producers := r.producers))
        .(latest := r.latest, users := r.users)
    case Schedule => SetTask(s, n - 1, s.tasks[n - 1].(phase := Waiting)).(running := s.running + 1)
    case Begin(t) => SetTask(s, t, s.tasks[t].(phase := Running))
    case Compute(t) =>
      var c := KernelStep(s.tasks[t].group, Config(s.tasks[t].local, s.mem));
      SetTask(s, t, s.tasks[t].(local := c.local, steps := s.tasks[t].steps + 1)).(mem := c.mem)
    case EndKernel(t) => SetTask(s, t, s.tasks[t].(phase := Releasing))
    case Release(t) =>
      var b := s.tasks[t].inUse[0];
      SetTask(s, t, s.tasks[t].(inUse := s.tasks[t].inUse[1..]))
        .(users := s.users[b := Decrement(Users(s.users, b))])
    case Notify(t) => SetTask(s, t, s.tasks[t].(phase := Ended))
    case KernelEnd(t) =>
      SetTask(s, t, s.tasks[t].(phase := Finished)).(running := Decrement(s.running))
  }

  ghost function Start<V, L>(m: Memory<V>): State<V, L> {
    State([], map[], m, map[], 0)
  }

  /** An interleaving of the submitting thread and the task threads. */
  ghost predicate Possible<V, L>(s: State<V, L>, es: seq<Event<V, L>>)
    decreases |es|
  {
    es == [] || (Enabled(s, es[0]) && Possible(Next(s, es[0]), es[1..]))
  }

  ghost function Run<V, L>(s: State<V, L>, es: seq<Event<V, L>>): State<V, L>
    requires Possible(s, es)
    decreases |es|
  {
    if es == [] then s else Run(Next(s, es[0]), es[1..])
  }

  lemma {:induction false} RunAppend<V, L>(s: State<V, L>, es: seq<Event<V, L>>, fs: seq<Event<V, L>>)
    requires Possible(s, es) && Possible(Run(s, es), fs)
    ensures Possible(s, es + fs) && Run(s, es + fs) == Run(Run(s, es), fs)
    decreases |es|
  {
    hide Next, Enabled;
    if es == [] {
      assert es + fs == fs;
    } else {
      assert (es + fs)[0] == es[0];
      RunAppend(Next(s, es[0]), es[1..], fs);
      assert (es + fs)[1..] == es[1..] + fs;
    }
  }

  lemma RunOne<V, L>(s: State<V, L>, e: Event<V, L>)
    requires Enabled(s, e)
    ensures Possible(s, [e]) && Run(s, [e]) == Next(s, e)
  {
    assert [e][1..] == [];
    assert Possible(Next(s, e), []);
  }

  // ---------------------------------------------------------------- one task thread

  function Repeat<V, L>(e: Event<V, L>, k: nat): seq<Event<V, L>> {
    seq(k, _ => e)
  }

  /** What the thread of task t does, in order, when its kernel takes k steps and n buffers are
      registered. */
  function ThreadEvents<V, L>(t: nat, k: nat, n: nat): seq<Event<V, L>> {
    [Begin(t)] + Repeat(Compute(t), k) + [EndKernel(t)] + Repeat(Release(t), n) + [Notify(t), KernelEnd(t)]
  }
}
