/**
 Tasks, buffers and queues as the objects the source updates in place. Registration is
 proved to be TaskModel.AddBuffer, and the release loop to give back every registration.
 */
module Tasks {
  import opened TaskModel

  class Buffer {
    const id: nat
    var numberOfUsers: nat
    var latestProducer: Task?
    /** notify_all calls on the ready condition. */
    var readySignals: nat

    constructor (id: nat)
      ensures this.id == id && numberOfUsers == 0 && latestProducer == null && readySignals == 0
    {
      this.id := id;
      numberOfUsers, latestProducer, readySignals := 0, null, 0;
    }

    method Use()
      modifies this`numberOfUsers
      ensures numberOfUsers == old(numberOfUsers) + 1
    {
      numberOfUsers := numberOfUsers + 1;
    }

    /** Waiters are notified exactly when the count reaches zero. */
    method Release()
      modifies this`numberOfUsers, this`readySignals
      ensures numberOfUsers == Decrement(old(numberOfUsers))
      ensures readySignals > old(readySignals) <==> numberOfUsers == 0
    {
      numberOfUsers := Decrement(numberOfUsers);
      if numberOfUsers == 0 {
        readySignals := readySignals + 1;
      }
    }

    /** The previous producer, or null when its task is gone. */
    method SetLatestProducer(newer: Task, alive: bool) returns (previous: Task?)
      modifies this`latestProducer
      ensures latestProducer == newer && previous == if alive then old(latestProducer) else null
    {
      previous := if alive then latestProducer else null;
      latestProducer := newer;
    }
  }

  class Queue {
    var runningKernels: nat
    var finishedSignals: nat

    constructor ()
      ensures runningKernels == 0 && finishedSignals == 0
    {
      runningKernels, finishedSignals := 0, 0;
    }

    method KernelStart()
      modifies this`runningKernels
      ensures runningKernels == old(runningKernels) + 1
    {
      runningKernels := runningKernels + 1;
    }

    method KernelEnd()
      modifies this
      ensures runningKernels == Decrement(old(runningKernels))
      ensures finishedSignals > old(finishedSignals) <==> runningKernels == 0
    {
      runningKernels := Decrement(runningKernels);
      if runningKernels == 0 {
        finishedSignals := finishedSignals + 1;
      }
    }
  }

  /** The contents of the buffers. */
  class Store {
    var mem: Memory<int>

    constructor (mem: Memory<int>)
      ensures this.mem == mem
    {
      this.mem := mem;
    }
  }

  function Ids(ts: seq<Task>): seq<nat> {
    seq(|ts|, i requires 0 <= i < |ts| => ts[i].id)
  }

  function BufferIds(bs: seq<Buffer>): seq<nat> {
    seq(|bs|, i requires 0 <= i < |bs| => bs[i].id)
  }

  class Task {
    const id: nat
    const group: Group<int, int>
    const ownerQueue: Queue
    const store: Store
    var local: int
    var buffersInUse: seq<Buffer>
    var producerTasks: seq<Task>
    var executionEnded: bool

    constructor (id: nat, group: Group<int, int>, q: Queue, store: Store)
      ensures this.id == id && this.group == group && ownerQueue == q && this.store == store
      ensures local == group.init && buffersInUse == [] && producerTasks == [] && !executionEnded
    {
      this.id, this.group, ownerQueue, this.store := id, group, q, store;
      local, buffersInUse, producerTasks, executionEnded := group.init, [], [], false;
    }

    /** r is what the model knows of this task and this buffer. */
    ghost predicate Matches(buf: Buffer, r: Registration)
      reads this, buf
    {
      && Users(r.users, buf.id) == buf.numberOfUsers
      && (buf.latestProducer == null <==> buf.id !in r.latest)
      && (buf.latestProducer != null ==> r.latest[buf.id] == buf.latestProducer.id)
      && r.producers == Ids(producerTasks)
    }

    method AddBuffer(buf: Buffer, isWrite: bool, alive: bool, ghost r: Registration)
      requires Matches(buf, r)
      requires buf.latestProducer != null && buf.latestProducer.id == id ==> buf.latestProducer == this
      modifies this`buffersInUse, this`producerTasks, buf`numberOfUsers, buf`latestProducer
      ensures buffersInUse == old(buffersInUse) + [buf]
      ensures Matches(buf, TaskModel.AddBuffer(r, id, Access(buf.id, isWrite), alive))
    {
      buffersInUse := buffersInUse + [buf];
      buf.Use();
      var latest: Task?;
      if isWrite {
        latest := buf.SetLatestProducer(this, alive);
      } else {
        latest := if alive then buf.latestProducer else null;
      }
      if latest != null && latest != this {
        producerTasks := producerTasks + [latest];
      }
    }

    // -------------------------------------------------------------- the thread

    /** The objects are as the model state s says. */
    ghost predicate Couples(s: State<int, int>)
      reads this, ownerQueue, store, set b | b in buffersInUse, set t | t in producerTasks
    {
      && id < |s.tasks| && s.tasks[id].group == group && s.tasks[id].local == local
      && s.tasks[id].inUse == BufferIds(buffersInUse) && (executionEnded <==> HasEnded(s.tasks[id].phase))
      && (s.tasks[id].phase.Building? || s.tasks[id].phase.Waiting? ==>
            s.tasks[id].producers == Ids(producerTasks) && ProducersAre(s))
      && ownerQueue.runningKernels == s.running && store.mem == s.mem
      && (forall b, c :: b in buffersInUse && c in buffersInUse && b.id == c.id ==> b == c)
      && (forall b :: b in buffersInUse ==> b.numberOfUsers == Users(s.users, b.id))
    }

    ghost predicate ProducersAre(s: State<int, int>)
      reads this, set t | t in producerTasks
    {
      forall t :: t in producerTasks ==> t.id < |s.tasks| && (t.executionEnded <==> HasEnded(s.tasks[t.id].phase))
    }

    /** The queue learns of the kernel before its thread starts. */
    method Schedule(ghost s: State<int, int>)
      requires Couples(s) && id == |s.tasks| - 1 && Enabled(s, Event.Schedule) && this !in producerTasks
      modifies ownerQueue
      ensures Couples(Next(s, Event.Schedule))
    {
      ownerQueue.KernelStart();
      assert forall t :: t in producerTasks ==> t.id < |s.tasks|;
      ghost var s1 := Next(s, Event.Schedule);
      assert forall i: nat :: i < |s.tasks| ==> (HasEnded(s1.tasks[i].phase) <==> HasEnded(s.tasks[i].phase));
    }

    /** Returns once every producer has ended; nothing else is waited for. */
    method WaitForProducers(ghost s: State<int, int>)
      requires Couples(s) && s.tasks[id].phase.Waiting? && forall t :: t in producerTasks ==> t.executionEnded
      modifies this`producerTasks
      ensures producerTasks == [] && Enabled(s, Begin(id)) && Couples(Next(s, Begin(id)))
      ensures Next(s, Begin(id)).tasks[id].phase.Running?
    {
      forall i | 0 <= i < |producerTasks|
        ensures Ids(producerTasks)[i] < |s.tasks| && HasEnded(s.tasks[Ids(producerTasks)[i]].phase)
      {
        assert producerTasks[i] in producerTasks;
      }
      producerTasks := [];
    }

    /** The kernel, here of k steps, on the contents of the buffers. */
    method RunKernel(ghost s: State<int, int>, ghost k: nat)
      requires Couples(s) && s.tasks[id].phase.Running? && TakesSteps(s, id, k)
      modifies this`local, store
      ensures Enabled(Computing(s, id, k), EndKernel(id))
      ensures var s1 := Next(Computing(s, id, k), EndKernel(id)); Couples(s1) && s1.tasks[id].phase.Releasing?
      ensures store.mem == Alone(s, id, k).mem
    {
      ghost var i := 0;
      assert Computing(s, id, 0).tasks == s.tasks;
      while !group.done(local)
        invariant 0 <= i <= k && Config(local, store.mem) == Alone(s, id, i)
        decreases k - i
      {
        var c := KernelStep(group, Config(local, store.mem));
        local, store.mem := c.local, c.mem;
        i := i + 1;
      }
      assert i == k;
    }

    /** Every registration is given back once, also when a buffer is registered twice. */
    method ReleaseBuffers(ghost s: State<int, int>) returns (ghost s1: State<int, int>)
      requires Couples(s) && s.tasks[id].phase.Releasing?
      requires forall b :: b in buffersInUse ==> multiset(buffersInUse)[b] <= b.numberOfUsers
      modifies this`buffersInUse, set b | b in buffersInUse
      ensures buffersInUse == [] && Couples(s1) && Enabled(s1, Notify(id))
      ensures Reached(s, Repeat(Event.Release(id), old(|buffersInUse|)), s1)
      ensures forall b :: b in old(buffersInUse) ==>
                && b.numberOfUsers == old(b.numberOfUsers) - multiset(old(buffersInUse))[b]
                && b.latestProducer == old(b.latestProducer)
    {
      hide Next, Enabled, Reached, Couples, Repeat, Users;
      var bs := buffersInUse;
      var i := 0;
      s1 := s;
      CouplingMeans(s);
      NothingReleased(s, id);
      while i < |bs|
        invariant 0 <= i <= |bs| && buffersInUse == bs
        invariant Reached(s, Repeat(Event.Release(id), i), s1) && Released(s, s1, id, i)
        invariant forall b :: b in bs ==> b.numberOfUsers == Users(s1.users, b.id)
        invariant forall b :: b in bs ==>
                    && b.numberOfUsers == old(b.numberOfUsers) - multiset(bs[..i])[b]
                    && b.latestProducer == old(b.latestProducer)
      {
        CountOne(bs, i);
        ReleaseOne(s, s1, id, i);
        bs[i].Release();
        s1 := Next(s1, Event.Release(id));
        i := i + 1;
      }
      assert bs[..i] == bs;
      buffersInUse := [];
      AllReleased(s, s1, id);
      assert Couples(s1) by { CouplingHolds(s, s1); }
    }

    /** What coupling means for the buffers. */
    lemma CouplingMeans(s: State<int, int>)
      requires Couples(s)
      ensures id < |s.tasks| && s.tasks[id].inUse == BufferIds(buffersInUse)
      ensures forall b :: b in buffersInUse ==> b.numberOfUsers == Users(s.users, b.id)
      ensures forall b, c :: b in buffersInUse && c in buffersInUse && b.id == c.id ==> b == c
      ensures ownerQueue.runningKernels == s.running && store.mem == s.mem
      ensures s.tasks[id].group == group && s.tasks[id].local == local &&
              (executionEnded <==> HasEnded(s.tasks[id].phase))
    {
    }

    lemma CouplingHolds(s: State<int, int>, s1: State<int, int>)
      requires id < |s.tasks| && s.tasks[id].phase.Releasing? && s.tasks[id].group == group &&
               s.tasks[id].local == local
      requires ownerQueue.runningKernels == s.running && store.mem == s.mem && !executionEnded
      requires Released(s, s1, id, |s.tasks[id].inUse|) && buffersInUse == []
      ensures Couples(s1)
    {
    }

    method NotifyConsumers(ghost s: State<int, int>)
      requires Couples(s) && Enabled(s, Notify(id))
      modifies this`executionEnded
      ensures executionEnded && Couples(Next(s, Notify(id))) && Enabled(Next(s, Notify(id)), Event.KernelEnd(id))
    {
      executionEnded := true;
    }

    method ReportToQueue(ghost s: State<int, int>)
      requires Couples(s) && Enabled(s, Event.KernelEnd(id))
      modifies ownerQueue
      ensures Couples(Next(s, Event.KernelEnd(id))) && Next(s, Event.KernelEnd(id)).tasks[id].phase.Finished?
    {
      ownerQueue.KernelEnd();
    }

    /** The thread of the task goes through the model's steps of the task, in their order. */
    method Execute(ghost s: State<int, int>, ghost k: nat) returns (ghost s1: State<int, int>)
      requires Couples(s) && s.tasks[id].phase.Waiting? && TakesSteps(s, id, k)
      requires this !in producerTasks && forall t :: t in producerTasks ==> t.executionEnded
      requires forall b :: b in buffersInUse ==> multiset(buffersInUse)[b] <= b.numberOfUsers
      modifies this, ownerQueue, store, set b | b in buffersInUse
      ensures executionEnded && producerTasks == [] && buffersInUse == []
      ensures Reached(s, ThreadEvents(id, k, old(|buffersInUse|)), s1) && Couples(s1) && s1.tasks[id].phase.Finished?
      ensures store.mem == Alone(s, id, k).mem
      ensures forall b :: b in old(buffersInUse) ==>
                b.numberOfUsers == old(b.numberOfUsers) - multiset(old(buffersInUse))[b]
    {
      hide Next, Enabled, Couples, Reached, ThreadEvents, TakesSteps, Alone, Computing, Users, Decrement;
      ghost var n := |buffersInUse|;
      WaitForProducers(s);
      ghost var begun := Next(s, Begin(id));
      BeginKeepsAlone(s, id, k);
      RunKernel(begun, k);
      ghost var over := Next(Computing(begun, id, k), EndKernel(id));
      ghost var released := ReleaseBuffers(over);
      NotifyConsumers(released);
      ReportToQueue(Next(released, Notify(id)));
      s1 := Next(Next(released, Notify(id)), Event.KernelEnd(id));
      ThreadReaches(s, id, k, n, begun, over, released);
    }
  }

  // ---------------------------------------------------------------- the thread in the model

  /** Kernel of task t after j steps on its own from s. */
  ghost function Alone<V, L>(s: State<V, L>, t: nat, j: nat): Config<V, L>
    requires t < |s.tasks|
  {
    if j == 0 then Config(s.tasks[t].local, s.mem) else KernelStep(s.tasks[t].group, Alone(s, t, j - 1))
  }

  /** The kernel of task t, on its own, is done after k steps and not before. */
  ghost predicate TakesSteps<V, L>(s: State<V, L>, t: nat, k: nat)
    requires t < |s.tasks|
  {
    var g := s.tasks[t].group;
    g.done(Alone(s, t, k).local) && forall j: nat :: j < k ==> !g.done(Alone(s, t, j).local)
  }

  ghost predicate Reached<V, L>(s: State<V, L>, es: seq<Event<V, L>>, s1: State<V, L>) {
    Possible(s, es) && Run(s, es) == s1
  }

  lemma Then<V, L>(s: State<V, L>, es: seq<Event<V, L>>, s1: State<V, L>, e: Event<V, L>)
    requires Reached(s, es, s1) && Enabled(s1, e)
    ensures Reached(s, es + [e], Next(s1, e))
  {
    hide Next, Enabled;
    RunOne(s1, e);
    RunAppend(s, es, [e]);
  }

  /** Task t after j kernel steps. */
  ghost function Computing<V, L>(s: State<V, L>, t: nat, j: nat): State<V, L>
    requires t < |s.tasks|
  {
    var x := s.tasks[t];
    SetTask(s, t, x.(phase := Running, local := Alone(s, t, j).local, steps := x.steps + j)).(mem := Alone(s, t, j).mem)
  }

  lemma {:induction false} ComputeAlone<V, L>(s: State<V, L>, t: nat, k: nat, j: nat)
    requires t < |s.tasks| && Enabled(s, Begin(t)) && TakesSteps(s, t, k) && j <= k
    ensures Reached(s, [Begin(t)] + Repeat(Compute(t), j), Computing(s, t, j))
    decreases j
  {
    hide KernelStep;
    if j == 0 {
      RunOne(s, Begin(t));
      assert [Begin(t)] + Repeat<V, L>(Compute(t), 0) == [Begin(t)];
      assert Next(s, Begin(t)).tasks == Computing(s, t, 0).tasks;
    } else {
      ComputeAlone(s, t, k, j - 1);
      var s1 := Computing(s, t, j - 1);
      Then(s, [Begin(t)] + Repeat(Compute(t), j - 1), s1, Compute(t));
      assert Next(s1, Compute(t)).tasks == Computing(s, t, j).tasks;
      assert [Begin(t)] + Repeat<V, L>(Compute(t), j) == [Begin(t)] + Repeat(Compute(t), j - 1) + [Compute(t)];
    }
  }

  ghost predicate Released<V, L>(s: State<V, L>, s1: State<V, L>, t: nat, j: nat)
    requires t < |s.tasks|
  {
    && |s1.tasks| == |s.tasks| && s1.mem == s.mem && s1.running == s.running && j <= |s.tasks[t].inUse|
    && s1.tasks == s.tasks[t := s.tasks[t].(phase := Releasing, inUse := s.tasks[t].inUse[j..])]
  }

  lemma {:induction false} ReleaseAlone<V, L>(s: State<V, L>, es: seq<Event<V, L>>, s1: State<V, L>, t: nat, j: nat)
      returns (s2: State<V, L>)
    requires Reached(s, es, s1) && t < |s1.tasks| && s1.tasks[t].phase.Releasing? && j <= |s1.tasks[t].inUse|
    ensures Reached(s, es + Repeat(Event.Release(t), j), s2) && Released(s1, s2, t, j)
    decreases j
  {
    hide Reached;
    if j == 0 {
      s2 := s1;
      assert es + Repeat(Event.Release(t), 0) == es;
    } else {
      var before := ReleaseAlone(s, es, s1, t, j - 1);
      Then(s, es + Repeat(Event.Release(t), j - 1), before, Event.Release(t));
      s2 := Next(before, Event.Release(t));
      assert es + Repeat(Event.Release(t), j) == es + Repeat(Event.Release(t), j - 1) + [Event.Release(t)];
    }
  }

  /** The thread's events are a run of the model: the task finishes, holds no buffer any more,
      and its kernel has computed what it computes on its own. */
  lemma ThreadIsModelRun<V, L>(s: State<V, L>, t: nat, k: nat)
    requires Enabled(s, Begin(t)) && TakesSteps(s, t, k)
    ensures var es := ThreadEvents(t, k, |s.tasks[t].inUse|);
            && Possible(s, es)
            && var s1 := Run(s, es);
               && t < |s1.tasks| && s1.tasks[t].phase.Finished? && s1.tasks[t].inUse == []
               && s1.mem == Alone(s, t, k).mem && s1.running == Decrement(s.running)
  {
    hide KernelStep;
    var n := |s.tasks[t].inUse|;
    ComputeAlone(s, t, k, k);
    var es := [Begin(t)] + Repeat<V, L>(Compute(t), k);
    var s1 := Computing(s, t, k);
    Then(s, es, s1, EndKernel(t));
    var s2 := Next(s1, EndKernel(t));
    var s3 := ReleaseAlone(s, es + [EndKernel(t)], s2, t, n);
    var fs := es + [EndKernel(t)] + Repeat(Event.Release(t), n);
    Then(s, fs, s3, Notify(t));
    Then(s, fs + [Notify(t)], Next(s3, Notify(t)), Event.KernelEnd(t));
    assert fs + [Notify(t)] + [Event.KernelEnd(t)] == ThreadEvents(t, k, n);
  }

  lemma BeginKeepsAlone<V, L>(s: State<V, L>, t: nat, k: nat)
    requires Enabled(s, Begin(t)) && TakesSteps(s, t, k)
    ensures TakesSteps(Next(s, Begin(t)), t, k)
    ensures forall j: nat :: Alone(Next(s, Begin(t)), t, j) == Alone(s, t, j)
  {
    forall j: nat ensures Alone(Next(s, Begin(t)), t, j) == Alone(s, t, j) { SameAlone(s, Next(s, Begin(t)), t, j); }
  }

  lemma {:induction false} SameAlone<V, L>(s: State<V, L>, s1: State<V, L>, t: nat, j: nat)
    requires t < |s.tasks| && t < |s1.tasks| && s1.mem == s.mem
    requires s1.tasks[t].local == s.tasks[t].local && s1.tasks[t].group == s.tasks[t].group
    ensures Alone(s1, t, j) == Alone(s, t, j)
    decreases j
  {
    hide KernelStep;
    if j > 0 { SameAlone(s, s1, t, j - 1); }
  }

  /** The stages of a thread make up its run. */
  lemma ThreadReaches<V, L>(s: State<V, L>, t: nat, k: nat, n: nat, begun: State<V, L>, over: State<V, L>,
          released: State<V, L>)
    requires Enabled(s, Begin(t)) && TakesSteps(s, t, k) && begun == Next(s, Begin(t))
    requires t < |begun.tasks| && Enabled(Computing(begun, t, k), EndKernel(t))
    requires over == Next(Computing(begun, t, k), EndKernel(t))
    requires Reached(over, Repeat(Event.Release(t), n), released) && Enabled(released, Notify(t))
    ensures Reached(s, ThreadEvents(t, k, n), Next(Next(released, Notify(t)), Event.KernelEnd(t)))
  {
    hide KernelStep;
    BeginKeepsAlone(s, t, k);
    ComputeAlone(s, t, k, k);
    var es := [Begin(t)] + Repeat<V, L>(Compute(t), k);
    assert Computing(begun, t, k) == Computing(s, t, k) by {
      assert Computing(begun, t, k).tasks == Computing(s, t, k).tasks;
    }
    Then(s, es, Computing(s, t, k), EndKernel(t));
    var fs := es + [EndKernel(t)];
    RunAppend(s, fs, Repeat(Event.Release(t), n));
    Then(s, fs + Repeat(Event.Release(t), n), released, Notify(t));
    Then(s, fs + Repeat(Event.Release(t), n) + [Notify(t)], Next(released, Notify(t)), Event.KernelEnd(t));
    assert fs + Repeat(Event.Release(t), n) + [Notify(t)] + [Event.KernelEnd(t)] == ThreadEvents(t, k, n);
  }

  lemma CountOne(bs: seq<Buffer>, i: nat)
    requires i < |bs|
    ensures bs[..i + 1] == bs[..i] + [bs[i]] && multiset(bs)[bs[i]] >= multiset(bs[..i])[bs[i]] + 1
  {
    assert bs == bs[..i] + [bs[i]] + bs[i + 1..];
  }

  lemma NothingReleased<V, L>(s: State<V, L>, t: nat)
    requires t < |s.tasks| && s.tasks[t].phase.Releasing?
    ensures Reached(s, Repeat(Event.Release(t), 0), s) && Released(s, s, t, 0)
  {
    assert s.tasks[t].inUse[0..] == s.tasks[t].inUse;
    assert Repeat<V, L>(Event.Release(t), 0) == [];
  }

  /** One more buffer released. */
  lemma ReleaseOne<V, L>(s: State<V, L>, s1: State<V, L>, t: nat, i: nat)
    requires t < |s.tasks| && Reached(s, Repeat(Event.Release(t), i), s1) && Released(s, s1, t, i) &&
             i < |s.tasks[t].inUse|
    ensures Enabled(s1, Event.Release(t))
    ensures var s2 := Next(s1, Event.Release(t)); var b := s.tasks[t].inUse[i];
            && Reached(s, Repeat(Event.Release(t), i + 1), s2) && Released(s, s2, t, i + 1)
            && forall x: nat :: Users(s2.users, x) == if x == b then Decrement(Users(s1.users, x))
              else Users(s1.users, x)
  {
    assert s1.tasks[t].inUse[0] == s.tasks[t].inUse[i];
    Then(s, Repeat(Event.Release(t), i), s1, Event.Release(t));
    assert Repeat<V, L>(Event.Release(t), i + 1) == Repeat(Event.Release(t), i) + [Event.Release(t)];
  }

  lemma AllReleased<V, L>(s: State<V, L>, s1: State<V, L>, t: nat)
    requires t < |s.tasks| && Released(s, s1, t, |s.tasks[t].inUse|)
    ensures Enabled(s1, Notify(t))
  {
  }
}
