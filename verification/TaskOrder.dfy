/**
 The order that the producer links impose on the tasks.
 */
module TaskOrder {
  import opened TaskModel

  // ---------------------------------------------------------------- the static graph

  /** The last command group before t that writes b, or -1. */
  ghost function LastWriter(ps: seq<seq<Access>>, t: nat, b: nat): (u: int)
    requires t <= |ps|
    ensures -1 <= u < t
    ensures u >= 0 ==> Writes(ps[u], b)
    ensures forall x :: u < x < t ==> !Writes(ps[x], b)
    decreases t
  {
    if t == 0 then -1 else if Writes(ps[t - 1], b) then t - 1 else LastWriter(ps, t - 1, b)
  }

  /** add_buffer links t to u. */
  ghost predicate Edge(ps: seq<seq<Access>>, u: int, t: nat) {
    t < |ps| && exists j :: 0 <= j < |ps[t]| && LastWriter(ps, t, ps[t][j].buf) == u
  }

  /** A path of producer links leads from r to w. */
  ghost predicate Reaches(ps: seq<seq<Access>>, r: nat, w: nat)
    decreases w
  {
    r == w || exists x: nat :: r <= x < w && Edge(ps, x, w) && Reaches(ps, r, x)
  }

  ghost function Programs<V, L>(s: State<V, L>): seq<seq<Access>> {
    seq(|s.tasks|, i requires 0 <= i < |s.tasks| => s.tasks[i].group.accesses)
  }

  // ---------------------------------------------------------------- invariant

  /** Writer of b before task t is a producer of t, or has ended. */
  ghost predicate Linked<V, L>(s: State<V, L>, t: nat, j: int)
    requires t < |s.tasks|
  {
    var x := s.tasks[t];
    0 <= j < x.registered && j < |x.group.accesses| ==>
      var u := LastWriter(Programs(s), t, x.group.accesses[j].buf);
      u < 0 || u in x.producers || HasEnded(s.tasks[u].phase)
  }

  ghost predicate ProducersOk<V, L>(s: State<V, L>, t: nat)
    requires t < |s.tasks|
  {
    forall u :: u in s.tasks[t].producers ==>
      u < t && (Started(s.tasks[t].phase) ==> HasEnded(s.tasks[u].phase))
  }

  ghost predicate TaskOk<V, L>(s: State<V, L>, t: nat) {
    t < |s.tasks| ==>
      var x := s.tasks[t];
      && x.registered <= |x.group.accesses|
      && (x.phase.Building? ==> t == |s.tasks| - 1)
      && (!x.phase.Building? ==> x.registered == |x.group.accesses|)
      && ProducersOk(s, t)
      && (forall j: int :: Linked(s, t, j))
  }

  /** The latest writer among the accesses registered so far. */
  ghost function LatestWriter<V, L>(s: State<V, L>, b: nat): int {
    var n := |s.tasks|;
    if n == 0 then -1
    else if s.tasks[n - 1].registered <= |s.tasks[n - 1].group.accesses|
         && Writes(s.tasks[n - 1].group.accesses[..s.tasks[n - 1].registered], b) then n - 1
    else LastWriter(Programs(s), n - 1, b)
  }

  ghost predicate LatestOk<V, L>(s: State<V, L>, b: nat) {
    if b in s.latest then s.latest[b] == LatestWriter(s, b) else LatestWriter(s, b) == -1
  }

  ghost predicate GraphInv<V, L>(s: State<V, L>) {
    && (forall t: nat :: TaskOk(s, t))
    && (forall b: nat :: LatestOk(s, b))
  }

  // ---------------------------------------------------------------- preservation

  lemma {:induction false} LastWriterDepends(ps: seq<seq<Access>>, qs: seq<seq<Access>>, t: nat, b: nat)
    requires t <= |ps| && t <= |qs| && ps[..t] == qs[..t]
    ensures LastWriter(ps, t, b) == LastWriter(qs, t, b)
    decreases t
  {
    if t > 0 {
      assert ps[t - 1] == ps[..t][t - 1] == qs[..t][t - 1] == qs[t - 1];
      assert ps[..t - 1] == ps[..t][..t - 1] == qs[..t][..t - 1] == qs[..t - 1];
      LastWriterDepends(ps, qs, t - 1, b);
    }
  }

  lemma CutShorter(ps: seq<seq<Access>>, qs: seq<seq<Access>>, w: nat, i: nat)
    requires i <= w < |ps| && w < |qs| && ps[..w + 1] == qs[..w + 1]
    ensures ps[..i] == qs[..i]
  {
    assert ps[..i] == ps[..w + 1][..i] == qs[..w + 1][..i] == qs[..i];
  }

  lemma EdgeDepends(ps: seq<seq<Access>>, qs: seq<seq<Access>>, u: nat, t: nat)
    requires t < |ps| && t < |qs| && ps[..t + 1] == qs[..t + 1] && Edge(ps, u, t)
    ensures Edge(qs, u, t)
  {
    var j :| 0 <= j < |ps[t]| && LastWriter(ps, t, ps[t][j].buf) == u;
    CutShorter(ps, qs, t, t);
    assert ps[t] == ps[..t + 1][t] == qs[..t + 1][t] == qs[t];
    LastWriterDepends(ps, qs, t, ps[t][j].buf);
  }

  /** Steps that change only how far one task has come. */
  lemma ProgressKeepsGraph<V, L>(s: State<V, L>, s1: State<V, L>, t: nat)
    requires GraphInv(s) && t < |s.tasks| && |s1.tasks| == |s.tasks| && s1.latest == s.latest
    requires forall i: nat :: i < |s.tasks| && i != t ==> s1.tasks[i] == s.tasks[i]
    requires var x, y := s.tasks[t], s1.tasks[t];
             && y.group == x.group && y.registered == x.registered && y.producers == x.producers
             && (y.phase.Building? ==> x.phase.Building?)
             && (x.phase.Building? && !y.phase.Building? ==> x.registered == |x.group.accesses|)
             && (HasEnded(x.phase) ==> HasEnded(y.phase))
             && (Started(y.phase) && !Started(x.phase) ==> forall u :: u in x.producers ==>
                 u < t && HasEnded(s.tasks[u].phase))
    ensures GraphInv(s1)
  {
    assert Programs(s1) == Programs(s);
    forall i: nat ensures TaskOk(s1, i) {
      assert TaskOk(s, i);
      if i < |s.tasks| {
        forall j: int ensures Linked(s1, i, j) {
          assert Linked(s, i, j);
        }
        assert ProducersOk(s1, i) by {
          assert ProducersOk(s, i);
        }
      }
    }
    forall b: nat ensures LatestOk(s1, b) {
      assert LatestOk(s, b);
    }
  }

  lemma NewTaskKeepsTask<V, L>(s: State<V, L>, g: Group<V, L>, i: nat)
    requires GraphInv(s) && Enabled(s, NewTask(g))
    ensures TaskOk(Next(s, NewTask(g)), i)
  {
    hide LatestOk;
    var s1 := Next(s, NewTask(g));
    assert TaskOk(s, i);
    if i < |s.tasks| {
      assert Programs(s1)[..i] == Programs(s)[..i];
      forall j: int ensures Linked(s1, i, j) {
        assert Linked(s, i, j);
        if 0 <= j < |s.tasks[i].group.accesses| {
          LastWriterDepends(Programs(s), Programs(s1), i, s.tasks[i].group.accesses[j].buf);
        }
      }
      assert ProducersOk(s, i);
    }
  }

  lemma NewTaskKeepsLatest<V, L>(s: State<V, L>, g: Group<V, L>, b: nat)
    requires GraphInv(s) && Enabled(s, NewTask(g))
    ensures LatestOk(Next(s, NewTask(g)), b)
  {
    var s1, n := Next(s, NewTask(g)), |s.tasks|;
    assert LatestOk(s, b);
    assert Programs(s1)[..n] == Programs(s)[..n];
    LastWriterDepends(Programs(s), Programs(s1), n, b);
    assert g.accesses[..0] == [];
    if n > 0 {
      assert TaskOk(s, n - 1);
      assert s.tasks[n - 1].group.accesses[..s.tasks[n - 1].registered] == Programs(s)[n - 1];
    }
  }

  lemma NewTaskKeepsGraph<V, L>(s: State<V, L>, g: Group<V, L>)
    requires GraphInv(s) && Enabled(s, NewTask(g))
    ensures GraphInv(Next(s, NewTask(g)))
  {
    forall i: nat ensures TaskOk(Next(s, NewTask(g)), i) { NewTaskKeepsTask(s, g, i); }
    forall b: nat ensures LatestOk(Next(s, NewTask(g)), b) { NewTaskKeepsLatest(s, g, b); }
  }

  lemma RegisterKeepsLatest<V, L>(s: State<V, L>, alive: bool, b: nat)
    requires GraphInv(s) && Enabled(s, Register(alive))
    ensures LatestOk(Next(s, Register(alive)), b)
  {
    var s1 := Next(s, Register(alive));
    var n := |s.tasks|;
    var x := s.tasks[n - 1];
    var accs := x.group.accesses;
    assert LatestOk(s, b) && Programs(s1) == Programs(s);
    assert accs[..x.registered + 1] == accs[..x.registered] + [accs[x.registered]];
    WritesMore(accs[..x.registered], accs[x.registered], b);
  }

  lemma WritesMore(accs: seq<Access>, a: Access, b: nat)
    ensures Writes(accs + [a], b) <==> Writes(accs, b) || (a.buf == b && a.write)
  {
    var more := accs + [a];
    assert more[|accs|] == a;
    if Writes(accs, b) {
      var j :| 0 <= j < |accs| && accs[j].buf == b && accs[j].write;
      assert more[j] == accs[j];
    }
  }

  lemma RegisterLinks<V, L>(s: State<V, L>, alive: bool, j: int)
    requires GraphInv(s) && Enabled(s, Register(alive))
    ensures Linked(Next(s, Register(alive)), |s.tasks| - 1, j)
  {
    var s1 := Next(s, Register(alive));
    var n := |s.tasks|;
    var x := s.tasks[n - 1];
    var accs := x.group.accesses;
    assert TaskOk(s, n - 1) && Linked(s, n - 1, j) && Programs(s1) == Programs(s);
    var b := accs[x.registered].buf;
    assert LatestOk(s, b);
    var u := LastWriter(Programs(s), n - 1, b);
    if j == x.registered && u >= 0 {
      if Writes(accs[..x.registered], b) {
        // b was registered for writing before, so its previous writer is linked already.
        var k :| 0 <= k < x.registered && accs[..x.registered][k].buf == b;
        assert Linked(s, n - 1, k) && accs[k].buf == b;
      } else {
        assert s.latest[b] == u;
      }
    }
  }

  lemma RegisterKeepsGraph<V, L>(s: State<V, L>, alive: bool)
    requires GraphInv(s) && Enabled(s, Register(alive))
    ensures GraphInv(Next(s, Register(alive)))
  {
    var s1 := Next(s, Register(alive));
    var n := |s.tasks|;
    var x := s.tasks[n - 1];
    assert Programs(s1) == Programs(s);
    forall i: nat ensures TaskOk(s1, i) {
      assert TaskOk(s, i);
      if i < n {
        forall j: int ensures Linked(s1, i, j) {
          assert Linked(s, i, j);
          if i == n - 1 { RegisterLinks(s, alive, j); }
        }
        assert ProducersOk(s1, i) by {
          assert ProducersOk(s, i) && LatestOk(s, x.group.accesses[x.registered].buf);
        }
      }
    }
    forall b: nat ensures LatestOk(s1, b) {
      RegisterKeepsLatest(s, alive, b);
    }
  }

  lemma StepKeepsGraph<V, L>(s: State<V, L>, e: Event<V, L>)
    requires GraphInv(s) && Enabled(s, e)
    ensures GraphInv(Next(s, e))
  {
    var s1 := Next(s, e);
    match e
    case NewTask(g) => NewTaskKeepsGraph(s, g);
    case Register(alive) => RegisterKeepsGraph(s, alive);
    case Schedule => ProgressKeepsGraph(s, s1, |s.tasks| - 1);
    case Begin(t) =>
      assert TaskOk(s, t);
      forall u | u in s.tasks[t].producers ensures u < t && HasEnded(s.tasks[u].phase) {
        var i :| 0 <= i < |s.tasks[t].producers| && s.tasks[t].producers[i] == u;
      }
      ProgressKeepsGraph(s, s1, t);
    case Compute(t) => ProgressKeepsGraph(s, s1, t);
    case EndKernel(t) => ProgressKeepsGraph(s, s1, t);
    case Release(t) => ProgressKeepsGraph(s, s1, t);
    case Notify(t) => ProgressKeepsGraph(s, s1, t);
    case KernelEnd(t) => ProgressKeepsGraph(s, s1, t);
  }

  lemma {:induction false} RunKeepsGraph<V, L>(s: State<V, L>, es: seq<Event<V, L>>)
    requires GraphInv(s) && Possible(s, es)
    ensures GraphInv(Run(s, es))
    decreases |es|
  {
    if es != [] {
      StepKeepsGraph(s, es[0]);
      RunKeepsGraph(Next(s, es[0]), es[1..]);
    }
  }

  // ---------------------------------------------------------------- order of execution

  /** A task starts only after every earlier writer of any buffer it accesses has ended:
      readers see all earlier writers finished, and writers of one buffer never overlap
      and run in submission order. */
  lemma {:induction false} StartsAfterWriters<V, L>(s: State<V, L>, u: nat, t: nat, b: nat)
    requires GraphInv(s) && u < t < |s.tasks|
    requires !s.tasks[t].phase.Building? && !s.tasks[t].phase.Waiting?
    requires Accesses(s.tasks[t].group.accesses, b) && Writes(s.tasks[u].group.accesses, b)
    ensures s.tasks[u].phase.Ended? || s.tasks[u].phase.Finished?
    decreases t
  {
    var x := s.tasks[t];
    assert TaskOk(s, t);
    var j :| 0 <= j < |x.group.accesses| && x.group.accesses[j].buf == b;
    assert Linked(s, t, j);
    var w := LastWriter(Programs(s), t, b);
    assert Programs(s)[u] == s.tasks[u].group.accesses;
    assert w >= u && HasEnded(s.tasks[w].phase);
    if w != u {
      WriterAccesses(s.tasks[w].group.accesses, b);
      StartsAfterWriters(s, u, w, b);
    }
  }

  lemma WriterAccesses(accs: seq<Access>, b: nat)
    requires Writes(accs, b)
    ensures Accesses(accs, b)
  {
  }

  /** A started task waited for the task add_buffer linked it to. */
  lemma StartsAfterProducer<V, L>(s: State<V, L>, x: nat, w: nat)
    requires GraphInv(s) && x < w < |s.tasks| && Edge(Programs(s), x, w)
    requires !s.tasks[w].phase.Building? && !s.tasks[w].phase.Waiting?
    ensures s.tasks[x].phase.Ended? || s.tasks[x].phase.Finished?
  {
    var j :| 0 <= j < |Programs(s)[w]| && LastWriter(Programs(s), w, Programs(s)[w][j].buf) == x;
    assert TaskOk(s, w) && Linked(s, w, j);
  }

  /** A task starts only after every task on a producer path to it has ended. */
  lemma {:induction false} StartsAfterAncestors<V, L>(s: State<V, L>, r: nat, w: nat)
    requires GraphInv(s) && r < w < |s.tasks| && Reaches(Programs(s), r, w)
    requires !s.tasks[w].phase.Building? && !s.tasks[w].phase.Waiting?
    ensures s.tasks[r].phase.Ended? || s.tasks[r].phase.Finished?
    decreases w
  {
    hide GraphInv, Edge, Programs;
    var x: nat :| r <= x < w && Edge(Programs(s), x, w) && Reaches(Programs(s), r, x);
    StartsAfterProducer(s, x, w);
    if x != r { StartsAfterAncestors(s, r, x); }
  }

  /** While some task is unfinished, the first such task can step, unless its command group
      is still being built. */
  lemma SomeTaskCanStep<V, L>(s: State<V, L>, t: nat)
    requires GraphInv(s) && t < |s.tasks| && !s.tasks[t].phase.Finished? && !s.tasks[t].phase.Building?
    requires forall u: nat :: u < t ==> s.tasks[u].phase.Finished?
    ensures Enabled(s, Begin(t)) || Enabled(s, Compute(t)) || Enabled(s, EndKernel(t))
         || Enabled(s, Release(t)) || Enabled(s, Notify(t)) || Enabled(s, KernelEnd(t))
  {
    assert TaskOk(s, t);
    if s.tasks[t].phase.Waiting? {
      forall i | 0 <= i < |s.tasks[t].producers|
        ensures s.tasks[t].producers[i] < |s.tasks| && HasEnded(s.tasks[s.tasks[t].producers[i]].phase)
      {
        assert s.tasks[t].producers[i] in s.tasks[t].producers;
      }
    }
  }
}
