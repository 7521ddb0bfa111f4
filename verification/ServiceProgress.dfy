/**
 Progress of the service protocol. The host stays with a tile that chained its last request,
 and a tile may wait for other tiles between two requests, so the two can wait for each other.
 Apart from failed polls every step takes some of a bounded effort, and the runs settle: wait_all
 returns, or the host waits for a request that is not going to come.
 */
module ServiceProgress {
  import opened Basics
  import opened ServiceModel
  import opened ServiceProtocol

  // ---------------------------------------------------------------- histories

  /** Requests sent, the current one included. */
  function Sent<D, R>(d: Device<D, R>): nat {
    |d.got| + if d.pc.Ready? || d.pc.Halted? then 0 else 1
  }

  /** The other tiles have what tile i needed for its request number k. */
  ghost predicate Granted<D, R, S>(sys: System<D, R, S>, s: State<D, R, S>, i: nat, k: nat)
    requires i < |s.tiles| && k <= |s.tiles[i].got|
  {
    forall j: nat :: j < |s.tiles| ==> sys.need(i, s.tiles[i].got[..k], j) <= |s.tiles[j].got|
  }

  /** Every request was granted, and the done request is the last of a halted tile. */
  ghost predicate HistoryOk<D, R, S>(sys: System<D, R, S>, s: State<D, R, S>, i: nat) {
    i < |s.tiles| ==>
      var d := s.tiles[i];
      && (forall k: nat :: k < Sent(d) ==> Granted(sys, s, i, k))
      && (forall k: nat :: k < |d.got| && sys.next(i, d.got[..k]).index == 0 ==> d.pc.Halted? && k == |d.got| - 1)
      && (d.pc.Halted? ==> d.got != [] && sys.next(i, d.got[..|d.got| - 1]).index == 0)
  }

  ghost predicate Good<D, R, S>(sys: System<D, R, S>, s: State<D, R, S>) {
    Inv(sys, s) && forall i: nat :: HistoryOk(sys, s, i)
  }

  /** Results only come in addition. */
  ghost predicate Grows<D, R, S>(s: State<D, R, S>, s1: State<D, R, S>) {
    |s1.tiles| == |s.tiles| && forall i: nat :: i < |s.tiles| ==> s.tiles[i].got <= s1.tiles[i].got
  }

  lemma StepGrows<D, R, S>(sys: System<D, R, S>, s: State<D, R, S>, a: Actor)
    requires CanStep(sys, s, a)
    ensures Grows(s, Step(sys, s, a))
  {
  }

  lemma GrantedStays<D, R, S>(sys: System<D, R, S>, s: State<D, R, S>, s1: State<D, R, S>, i: nat, k: nat)
    requires Grows(s, s1) && i < |s.tiles| && k <= |s.tiles[i].got| && Granted(sys, s, i, k)
    ensures Granted(sys, s1, i, k)
  {
    assert s1.tiles[i].got[..k] == s.tiles[i].got[..k];
  }

  /** A step of tile i itself. */
  lemma OwnStepKeepsHistory<D, R, S>(sys: System<D, R, S>, s: State<D, R, S>, i: nat)
    requires Good(sys, s) && CanStep(sys, s, Tile(i))
    ensures HistoryOk(sys, Step(sys, s, Tile(i)), i)
  {
    hide Inv;
    var s1 := Step(sys, s, Tile(i));
    var d, d1 := s.tiles[i], s1.tiles[i];
    StepGrows(sys, s, Tile(i));
    assert HistoryOk(sys, s, i);
    if d.pc.Arrived2? { RecordIsNext(sys, s, i); }
    assert d.got[..|d.got|] == d.got && d1.got[..|d.got|] == d.got;
    forall k: nat | k < Sent(d1) ensures Granted(sys, s1, i, k) {
      if k < Sent(d) { assert Granted(sys, s, i, k); }
      GrantedStays(sys, s, s1, i, k);
    }
    assert forall k: nat :: k <= |d.got| ==> d1.got[..k] == d.got[..k];
  }

  lemma RecordIsNext<D, R, S>(sys: System<D, R, S>, s: State<D, R, S>, i: nat)
    requires Inv(sys, s) && i < |s.tiles| && s.tiles[i].pc.Arrived2?
    ensures s.tiles[i].record == sys.next(i, s.tiles[i].got)
  {
    assert TileInv(sys, s, i);
  }

  lemma StepKeepsHistory<D, R, S>(sys: System<D, R, S>, s: State<D, R, S>, a: Actor, i: nat)
    requires Good(sys, s) && CanStep(sys, s, a)
    ensures HistoryOk(sys, Step(sys, s, a), i)
  {
    hide Inv, Granted;
    var s1 := Step(sys, s, a);
    StepGrows(sys, s, a);
    assert HistoryOk(sys, s, i);
    if a == Tile(i) {
      OwnStepKeepsHistory(sys, s, i);
    } else if i < |s.tiles| {
      assert s1.tiles[i].got == s.tiles[i].got && s1.tiles[i].pc == s.tiles[i].pc;
      forall k: nat | k < Sent(s1.tiles[i]) ensures Granted(sys, s1, i, k) { GrantedStays(sys, s, s1, i, k); }
    }
  }

  lemma StepKeepsGood<D, R, S>(sys: System<D, R, S>, s: State<D, R, S>, a: Actor)
    requires Good(sys, s) && CanStep(sys, s, a)
    ensures Good(sys, Step(sys, s, a)) && |Step(sys, s, a).tiles| == |s.tiles|
  {
    hide Inv, HistoryOk;
    match a {
      case Tile(i) => DeviceStepKeepsInv(sys, s, i);
      case TheHost => HostStepKeepsInv(sys, s);
    }
    forall i: nat ensures HistoryOk(sys, Step(sys, s, a), i) { StepKeepsHistory(sys, s, a, i); }
  }

  lemma {:induction false} RunKeepsGood<D, R, S>(sys: System<D, R, S>, s: State<D, R, S>, acts: seq<Actor>)
    requires Good(sys, s) && Possible(sys, s, acts)
    ensures Good(sys, Run(sys, s, acts)) && |Run(sys, s, acts).tiles| == |s.tiles|
    decreases |acts|
  {
    hide Good, Step;
    if acts != [] {
      StepKeepsGood(sys, s, acts[0]);
      RunKeepsGood(sys, Step(sys, s, acts[0]), acts[1..]);
    }
  }

  lemma StartIsHealthy<D, R, S>(sys: System<D, R, S>, s: State<D, R, S>)
    requires Start(sys, s)
    ensures Good(sys, s)
  {
    StartIsGood(sys, s);
  }

  // ---------------------------------------------------------------- halted tiles are done

  lemma {:induction false} OfFrom<D, R>(log: seq<Entry<D, R>>, i: nat, j: nat) returns (k: nat)
    requires j < |Of(log, i)|
    ensures k < |log| && log[k] == Of(log, i)[j] && log[k].tile == i
    decreases |log|
  {
    var n := |log| - 1;
    if j < |Of(log[..n], i)| { k := OfFrom(log[..n], i, j); } else { k := n; }
  }

  /** A tile that is not being served has got the results of its logged requests. */
  lemma GotIsServed<D, R, S>(sys: System<D, R, S>, s: State<D, R, S>, i: nat)
    requires Good(sys, s) && i < |s.tiles| && !Pending(s, i)
    ensures Rets(Of(s.log, i)) == s.tiles[i].got && |Of(s.log, i)| == |s.tiles[i].got|
    ensures forall j: nat :: j < |s.tiles[i].got| ==> Of(s.log, i)[j].request == sys.next(i, s.tiles[i].got[..j])
  {
    assert TileInv(sys, s, i);
    assert |Rets(Of(s.log, i))| == |Of(s.log, i)|;
  }

  lemma IdleIsNotPending<D, R, S>(sys: System<D, R, S>, s: State<D, R, S>, i: nat)
    requires Good(sys, s) && i < |s.tiles| && (s.tiles[i].pc.Ready? || s.tiles[i].pc.Halted?)
    ensures !Pending(s, i)
  {
    assert TileInv(sys, s, i);
  }

  lemma HaltedIsDone<D, R, S>(sys: System<D, R, S>, s: State<D, R, S>, i: nat)
    requires Good(sys, s) && i < |s.tiles| && s.tiles[i].pc.Halted?
    ensures i in DoneTiles(s.log)
  {
    IdleIsNotPending(sys, s, i);
    GotIsServed(sys, s, i);
    assert HistoryOk(sys, s, i);
    var k := OfFrom(s.log, i, |s.tiles[i].got| - 1);
  }

  lemma ReadyIsNotDone<D, R, S>(sys: System<D, R, S>, s: State<D, R, S>, i: nat)
    requires Good(sys, s) && i < |s.tiles| && s.tiles[i].pc.Ready?
    ensures i !in DoneTiles(s.log)
  {
    IdleIsNotPending(sys, s, i);
    GotIsServed(sys, s, i);
    assert HistoryOk(sys, s, i);
    if i in DoneTiles(s.log) {
      var k: nat :| k < |s.log| && s.log[k].request.index == 0 && s.log[k].tile == i;
      var j := OfContains(s.log, k);
    }
  }

  lemma {:induction false} LargeSet(a: set<nat>, n: nat)
    requires forall x: nat :: x < n ==> x in a
    ensures |a| >= n
    decreases n
  {
    if n > 0 {
      LargeSet(a - {n - 1}, n - 1);
      assert |a| == |a - {n - 1}| + 1;
    }
  }

  lemma AllHaltedIsDone<D, R, S>(sys: System<D, R, S>, s: State<D, R, S>)
    requires Good(sys, s) && forall i: nat :: i < |s.tiles| ==> s.tiles[i].pc.Halted?
    ensures s.host.done >= |s.tiles|
  {
    forall i: nat | i < |s.tiles| ensures i in DoneTiles(s.log) { HaltedIsDone(sys, s, i); }
    LargeSet(DoneTiles(s.log), |s.tiles|);
  }

  // ---------------------------------------------------------------- a measure

  /** Every tile sends its done request among its first n + 1 requests, whatever it gets. */
  ghost predicate DoneWithin<D, R(!new), S>(sys: System<D, R, S>, n: nat) {
    forall i: nat, got: seq<R> :: |got| == n ==> SendsDone(sys, i, got)
  }

  ghost predicate SendsDone<D, R, S>(sys: System<D, R, S>, i: nat, got: seq<R>) {
    exists j: nat :: j <= |got| && sys.next(i, got[..j]).index == 0
  }

  lemma NotDoneYet<D, R, S>(sys: System<D, R, S>, s: State<D, R, S>, i: nat, j: nat)
    requires Good(sys, s) && i < |s.tiles| && !s.tiles[i].pc.Halted? && j < |s.tiles[i].got|
    ensures sys.next(i, s.tiles[i].got[..j]).index != 0
  {
    assert HistoryOk(sys, s, i);
  }

  lemma RequestsLeft<D, R(!new), S>(sys: System<D, R, S>, s: State<D, R, S>, n: nat, i: nat)
    requires Good(sys, s) && DoneWithin(sys, n) && i < |s.tiles| && !s.tiles[i].pc.Halted?
    ensures |s.tiles[i].got| <= n
  {
    hide Good;
    var got := s.tiles[i].got;
    if |got| > n {
      assert SendsDone(sys, i, got[..n]);
      var j: nat :| j <= n && sys.next(i, got[..n][..j]).index == 0;
      assert got[..n][..j] == got[..j];
      NotDoneYet(sys, s, i, j);
    }
  }

  /** Steps left of a request, counting the host's part of the two barriers. */
  function Phase<D, R>(d: Device<D, R>): nat {
    match d.pc
    case Ready => 7
    case Written => 6
    case Arrived1 => if d.dev != d.host then 5 else 4
    case Passed1 => 3
    case Arrived2 => if d.dev != d.host then 2 else 1
    case Halted => 0
  }

  function Left<D, R>(d: Device<D, R>, n: nat): nat {
    if d.pc.Halted? || |d.got| > n then 0 else 7 * (n - |d.got|) + Phase(d)
  }

  ghost function Work<D, R, S>(s: State<D, R, S>, n: nat): nat {
    Sum(seq(|s.tiles|, i requires 0 <= i < |s.tiles| => Left(s.tiles[i], n)))
  }

  function HostLeft<D>(h: Host<D>): nat {
    match h.pc
    case Poll => 6
    case Seen1 => 5
    case Joined => 4
    case Loaded => 3
    case Stored => 2
    case Seen2 => 1
    case Returned => 0
  }

  /** The tile has arrived at a barrier that the host has not joined. */
  predicate Waits<D, R>(d: Device<D, R>) {
    d.dev != d.host
  }

  /** Failed polls until the host meets a waiting tile, or returns. */
  ghost function Distance<D, R, S>(s: State<D, R, S>): int {
    var n, at := |s.tiles|, s.host.at;
    if (exists j: nat :: at <= j < n && Waits(s.tiles[j])) || s.host.done >= n then n - at else 2 * n - at
  }

  ghost predicate Closer<D, R, S>(s: State<D, R, S>, s1: State<D, R, S>, n: nat) {
    || Work(s1, n) < Work(s, n)
    || (Work(s1, n) == Work(s, n) && HostLeft(s1.host) < HostLeft(s.host))
    || (Work(s1, n) == Work(s, n) && HostLeft(s1.host) == HostLeft(s.host) && 0 <= Distance(s1) < Distance(s))
  }

  /** When only tile i changes, the work changes by what it has left. */
  lemma WorkChanges<D, R, S>(s: State<D, R, S>, s1: State<D, R, S>, n: nat, i: nat, d: Device<D, R>)
    requires i < |s.tiles| && s1.tiles == s.tiles[i := d]
    ensures Work(s1, n) + Left(s.tiles[i], n) == Work(s, n) + Left(d, n)
  {
    var w := seq(|s.tiles|, j requires 0 <= j < |s.tiles| => Left(s.tiles[j], n));
    var w1 := seq(|s1.tiles|, j requires 0 <= j < |s1.tiles| => Left(s1.tiles[j], n));
    assert w1 == w[i := Left(d, n)];
    SumUpdate(w, i, Left(d, n));
  }

  lemma TileGetsCloser<D, R(!new), S>(sys: System<D, R, S>, s: State<D, R, S>, n: nat, i: nat)
    requires Good(sys, s) && DoneWithin(sys, n) && CanStep(sys, s, Tile(i))
    ensures Work(Step(sys, s, Tile(i)), n) < Work(s, n)
  {
    hide DoneWithin, Sum;
    var s1 := Step(sys, s, Tile(i));
    assert TileInv(sys, s, i);
    RequestsLeft(sys, s, n, i);
    StepKeepsGood(sys, s, Tile(i));
    if !s1.tiles[i].pc.Halted? { RequestsLeft(sys, s1, n, i); }
    WorkChanges(s, s1, n, i, s1.tiles[i]);
  }

  predicate FailedPoll<D, R, S>(s: State<D, R, S>, a: Actor) {
    a.TheHost? && s.host.pc.Poll? && s.host.at < |s.tiles| && !Waits(s.tiles[s.host.at])
  }

  /** What a step of the host does to the work: only joining a barrier takes some. */
  lemma HostWork<D, R(!new), S>(sys: System<D, R, S>, s: State<D, R, S>, n: nat)
    requires Good(sys, s) && DoneWithin(sys, n) && HostCanStep(s)
    ensures var s1 := Step(sys, s, TheHost);
            Work(s1, n) == Work(s, n) - if s.host.pc.Seen1? || s.host.pc.Seen2? then 1 else 0
  {
    hide DoneWithin, Sum, LogInv, DoneInv, ChainInv;
    var s1, i := Step(sys, s, TheHost), s.host.at;
    assert TileInv(sys, s, i);
    if !s.tiles[i].pc.Halted? { RequestsLeft(sys, s, n, i); }
    assert s1.tiles == s.tiles[i := s1.tiles[i]];
    WorkChanges(s, s1, n, i, s1.tiles[i]);
  }

  lemma HostServesCloser<D, R(!new), S>(sys: System<D, R, S>, s: State<D, R, S>, n: nat)
    requires Good(sys, s) && DoneWithin(sys, n) && HostCanStep(s) && !FailedPoll(s, TheHost)
    ensures Closer(s, Step(sys, s, TheHost), n)
  {
    hide DoneWithin, Good, Work, Distance;
    HostWork(sys, s, n);
  }

  /** A failed poll brings the host closer to a waiting tile, or to its return. */
  lemma HostPasses<D, R(!new), S>(sys: System<D, R, S>, s: State<D, R, S>, n: nat)
    requires Good(sys, s) && DoneWithin(sys, n) && HostCanStep(s) && FailedPoll(s, TheHost) && !s.host.chain
    requires s.host.done >= |s.tiles| || exists j: nat :: j < |s.tiles| && Waits(s.tiles[j])
    ensures Closer(s, Step(sys, s, TheHost), n)
  {
    hide DoneWithin, Good, Work;
    HostWork(sys, s, n);
    var s1 := Step(sys, s, TheHost);
    assert s1.tiles == s.tiles;
    if s.host.done < |s.tiles| {
      var j: nat :| j < |s.tiles| && Waits(s.tiles[j]);
      assert s1.host.pc.Poll? && (s1.host.at == s.host.at + 1 || s1.host.at == 0);
      assert s1.host.at == 0 ==> s1.host.at <= j < |s1.tiles| && Waits(s1.tiles[j]);
    }
  }

  // ---------------------------------------------------------------- effort of a run

  /** Effort left: every step but a failed poll takes some of it. */
  ghost function Effort<D, R, S>(s: State<D, R, S>, n: nat): nat {
    6 * Work(s, n) + HostLeft(s.host)
  }

  lemma StepTakesEffort<D, R(!new), S>(sys: System<D, R, S>, s: State<D, R, S>, a: Actor, n: nat)
    requires Good(sys, s) && DoneWithin(sys, n) && CanStep(sys, s, a)
    ensures Effort(Step(sys, s, a), n) <= Effort(s, n)
    ensures !FailedPoll(s, a) ==> Effort(Step(sys, s, a), n) < Effort(s, n)
  {
    hide Good, DoneWithin, Work;
    match a
    case Tile(i) => TileGetsCloser(sys, s, n, i);
    case TheHost => HostWork(sys, s, n);
  }

  /** Steps of a run that are not failed polls. */
  ghost function Effective<D, R, S>(sys: System<D, R, S>, s: State<D, R, S>, acts: seq<Actor>): nat
    requires Possible(sys, s, acts)
    decreases |acts|
  {
    if acts == [] then 0
    else (if FailedPoll(s, acts[0]) then 0 else 1) + Effective(sys, Step(sys, s, acts[0]), acts[1..])
  }

  /** Whatever the schedule, a run has only so many steps that are not failed polls. */
  lemma {:induction false} EffectiveStepsAreBounded<D, R(!new), S>(sys: System<D, R, S>, s: State<D, R, S>,
          acts: seq<Actor>, n: nat)
    requires Good(sys, s) && DoneWithin(sys, n) && Possible(sys, s, acts)
    ensures Effective(sys, s, acts) + Effort(Run(sys, s, acts), n) <= Effort(s, n)
    decreases |acts|
  {
    hide Good, DoneWithin, Step, Effort, FailedPoll;
    if acts != [] {
      StepTakesEffort(sys, s, acts[0], n);
      StepKeepsGood(sys, s, acts[0]);
      EffectiveStepsAreBounded(sys, Step(sys, s, acts[0]), acts[1..], n);
    }
  }

  // ---------------------------------------------------------------- settling

  /** Tile i can step, where tile i starts at most cap[i] requests. */
  predicate Moves<D, R, S>(sys: System<D, R, S>, s: State<D, R, S>, cap: seq<nat>, i: nat)
    requires |cap| == |s.tiles|
  {
    CanStep(sys, s, Tile(i)) && (s.tiles[i].pc.Ready? ==> |s.tiles[i].got| < cap[i])
  }

  /** No tile moves, and the host polls in vain: the tile it is chained to, or all of them. */
  ghost predicate Settled<D, R, S>(sys: System<D, R, S>, s: State<D, R, S>, cap: seq<nat>)
    requires |cap| == |s.tiles|
  {
    && s.host.pc.Poll? && s.host.at < |s.tiles|
    && (forall i: nat :: !Moves(sys, s, cap, i))
    && if s.host.chain then !Waits(s.tiles[s.host.at])
       else s.host.done < |s.tiles| && forall i: nat :: i < |s.tiles| ==> !Waits(s.tiles[i])
  }

  /** A host that no tile keeps waiting can step. */
  lemma HostIsFree<D, R, S>(sys: System<D, R, S>, s: State<D, R, S>, cap: seq<nat>)
    requires Good(sys, s) && |cap| == |s.tiles| && !s.host.pc.Returned? && forall i: nat :: !Moves(sys, s, cap, i)
    ensures HostCanStep(s)
  {
    assert TileInv(sys, s, s.host.at);
    assert !Moves(sys, s, cap, s.host.at);
  }

  lemma SettleStep<D, R(!new), S>(sys: System<D, R, S>, s: State<D, R, S>, cap: seq<nat>, n: nat) returns (a: Actor)
    requires Good(sys, s) && DoneWithin(sys, n) && |cap| == |s.tiles|
    requires !s.host.pc.Returned? && !Settled(sys, s, cap)
    ensures CanStep(sys, s, a) && Closer(s, Step(sys, s, a), n) && (a.Tile? ==> Moves(sys, s, cap, a.i))
  {
    hide DoneWithin, Good, Work, Distance;
    if i: nat :| Moves(sys, s, cap, i) {
      a := Tile(i);
      TileGetsCloser(sys, s, n, i);
    } else {
      a := TheHost;
      HostIsFree(sys, s, cap);
      if FailedPoll(s, a) { HostPasses(sys, s, n); } else { HostServesCloser(sys, s, n); }
    }
  }

  ghost predicate Capped<D, R, S>(s: State<D, R, S>, cap: seq<nat>)
    requires |cap| == |s.tiles|
  {
    forall i: nat :: i < |s.tiles| ==> Sent(s.tiles[i]) <= cap[i]
  }

  lemma StepKeepsCapped<D, R, S>(sys: System<D, R, S>, s: State<D, R, S>, cap: seq<nat>, a: Actor)
    requires CanStep(sys, s, a) && |cap| == |s.tiles| && Capped(s, cap) && (a.Tile? ==> Moves(sys, s, cap, a.i))
    ensures Capped(Step(sys, s, a), cap)
  {
    var s1 := Step(sys, s, a);
    forall i: nat | i < |s1.tiles| ensures Sent(s1.tiles[i]) <= cap[i] { assert Sent(s.tiles[i]) <= cap[i]; }
  }

  /** Where a run leads: possible, and to t. */
  ghost predicate Leads<D, R, S>(sys: System<D, R, S>, s: State<D, R, S>, acts: seq<Actor>, t: State<D, R, S>) {
    Possible(sys, s, acts) && Run(sys, s, acts) == t
  }

  lemma LeadsOn<D, R, S>(sys: System<D, R, S>, s: State<D, R, S>, a: Actor, rest: seq<Actor>, t: State<D, R, S>)
    requires CanStep(sys, s, a) && Leads(sys, Step(sys, s, a), rest, t)
    ensures Leads(sys, s, [a] + rest, t)
  {
    hide Step, CanStep;
    assert ([a] + rest)[1..] == rest;
  }

  lemma LeadsNowhere<D, R, S>(sys: System<D, R, S>, s: State<D, R, S>)
    ensures Leads(sys, s, [], s)
  {
  }

  /** Every state has a run that returns or settles, within the given numbers of requests. */
  lemma {:induction false} Settle<D, R(!new), S>(sys: System<D, R, S>, s: State<D, R, S>, cap: seq<nat>, n: nat)
      returns (acts: seq<Actor>, t: State<D, R, S>)
    requires Good(sys, s) && DoneWithin(sys, n) && |cap| == |s.tiles|
    ensures Leads(sys, s, acts, t) && Good(sys, t) && |t.tiles| == |s.tiles|
    ensures t.host.pc.Returned? || Settled(sys, t, cap)
    ensures Capped(s, cap) ==> Capped(t, cap)
    decreases Work(s, n), HostLeft(s.host), Distance(s)
  {
    hide Good, DoneWithin, Step, Work, Distance, Settled, Leads, Capped;
    if s.host.pc.Returned? || Settled(sys, s, cap) {
      acts, t := [], s;
      LeadsNowhere(sys, s);
    } else {
      var a := SettleStep(sys, s, cap, n);
      StepKeepsGood(sys, s, a);
      if Capped(s, cap) { StepKeepsCapped(sys, s, cap, a); }
      var rest;
      rest, t := Settle(sys, Step(sys, s, a), cap, n);
      acts := [a] + rest;
      LeadsOn(sys, s, a, rest, t);
    }
  }

  // ---------------------------------------------------------------- when something still happens

  /** No tile can step. The host is chained to a tile that has halted or is held, or every tile
      has halted or is held and some have not halted. */
  ghost predicate Stuck<D, R, S>(sys: System<D, R, S>, s: State<D, R, S>) {
    && s.host.pc.Poll? && s.host.at < |s.tiles| && (forall i: nat :: !CanStep(sys, s, Tile(i)))
    && if s.host.chain then Idle(s.tiles[s.host.at])
       else
         && (forall i: nat :: i < |s.tiles| ==> Idle(s.tiles[i]))
         && (exists i: nat :: i < |s.tiles| && s.tiles[i].pc.Ready?)
  }

  /** Halted, or between two requests. */
  predicate Idle<D, R>(d: Device<D, R>) {
    d.pc.Halted? || d.pc.Ready?
  }

  /** Enough requests for every tile. */
  function Plenty(tiles: nat, n: nat): seq<nat> {
    seq(tiles, _ => n + 1)
  }

  /** A tile the host does not wait for, and that cannot step, is halted or held. */
  lemma StillIsIdle<D, R, S>(sys: System<D, R, S>, s: State<D, R, S>, i: nat)
    requires Good(sys, s) && i < |s.tiles| && s.host.pc.Poll? && !CanStep(sys, s, Tile(i))
    ensures Waits(s.tiles[i]) <==> !Idle(s.tiles[i])
    ensures Waits(s.tiles[i]) ==> s.tiles[i].pc.Arrived1?
  {
    assert TileInv(sys, s, i);
  }

  lemma DoneIsHalted<D, R, S>(sys: System<D, R, S>, s: State<D, R, S>)
    requires Good(sys, s) && s.host.pc.Poll? && forall i: nat :: i < |s.tiles| ==> Idle(s.tiles[i])
    ensures s.host.done >= |s.tiles| <==> forall i: nat :: i < |s.tiles| ==> s.tiles[i].pc.Halted?
  {
    if forall i: nat :: i < |s.tiles| ==> s.tiles[i].pc.Halted? {
      AllHaltedIsDone(sys, s);
    } else {
      var i: nat :| i < |s.tiles| && s.tiles[i].pc.Ready?;
      ReadyIsNotDone(sys, s, i);
      SmallSet(DoneTiles(s.log), |s.tiles|);
    }
  }

  lemma StuckIsSettled<D, R(!new), S>(sys: System<D, R, S>, s: State<D, R, S>, n: nat)
    requires Good(sys, s) && DoneWithin(sys, n)
    ensures Stuck(sys, s) <==> Settled(sys, s, Plenty(|s.tiles|, n))
  {
    hide DoneWithin, Inv, HistoryOk;
    var cap := Plenty(|s.tiles|, n);
    forall i: nat ensures Moves(sys, s, cap, i) <==> CanStep(sys, s, Tile(i)) {
      if CanStep(sys, s, Tile(i)) { RequestsLeft(sys, s, n, i); }
    }
    if s.host.pc.Poll? && s.host.at < |s.tiles| && forall i: nat :: !CanStep(sys, s, Tile(i)) {
      forall i: nat | i < |s.tiles| ensures Waits(s.tiles[i]) <==> !Idle(s.tiles[i]) { StillIsIdle(sys, s, i); }
      if forall i: nat :: i < |s.tiles| ==> Idle(s.tiles[i]) { DoneIsHalted(sys, s); }
    }
  }

  /** In a stuck state only failed polls are left, for ever. */
  lemma {:induction false} StuckStaysStuck<D, R, S>(sys: System<D, R, S>, s: State<D, R, S>, acts: seq<Actor>)
    requires Good(sys, s) && Stuck(sys, s) && Possible(sys, s, acts)
    ensures Stuck(sys, Run(sys, s, acts)) && Effective(sys, s, acts) == 0
    decreases |acts|
  {
    if acts != [] {
      assert acts[0] == TheHost;
      StuckPolls(sys, s);
      StepKeepsGood(sys, s, acts[0]);
      StuckStaysStuck(sys, Step(sys, s, acts[0]), acts[1..]);
    }
  }

  lemma StuckPolls<D, R, S>(sys: System<D, R, S>, s: State<D, R, S>)
    requires Good(sys, s) && Stuck(sys, s)
    ensures FailedPoll(s, TheHost) && CanStep(sys, s, TheHost) && Stuck(sys, Step(sys, s, TheHost))
  {
    hide Inv, HistoryOk;
    StillIsIdle(sys, s, s.host.at);
    if !s.host.chain { DoneIsHalted(sys, s); }
    var s1 := Step(sys, s, TheHost);
    assert s1.tiles == s.tiles;
    forall i: nat ensures !CanStep(sys, s1, Tile(i)) { assert !CanStep(sys, s, Tile(i)); }
  }

  /** Before wait_all returns, a run can go on to its return or to a step that is not a failed
      poll if and only if the state is not stuck. */
  lemma ProgressIff<D, R(!new), S>(sys: System<D, R, S>, s: State<D, R, S>, n: nat)
    requires Good(sys, s) && DoneWithin(sys, n) && !s.host.pc.Returned?
    ensures (exists acts: seq<Actor> :: Continues(sys, s, acts)) <==> !Stuck(sys, s)
  {
    hide Good, DoneWithin, Stuck, Settled, Step;
    if Stuck(sys, s) {
      forall acts: seq<Actor> ensures !Continues(sys, s, acts) {
        if Possible(sys, s, acts) {
          StuckStaysStuck(sys, s, acts);
          StuckIsPolling(sys, Run(sys, s, acts));
        }
      }
    } else {
      StuckIsSettled(sys, s, n);
      var acts, t := Settle(sys, s, Plenty(|s.tiles|, n), n);
      if !t.host.pc.Returned? { SomethingHappened(sys, s, acts, t, n); }
      assert Continues(sys, s, acts);
    }
  }

  ghost predicate Continues<D, R, S>(sys: System<D, R, S>, s: State<D, R, S>, acts: seq<Actor>) {
    Possible(sys, s, acts) && (Run(sys, s, acts).host.pc.Returned? || Effective(sys, s, acts) > 0)
  }

  lemma StuckIsPolling<D, R, S>(sys: System<D, R, S>, s: State<D, R, S>)
    requires Stuck(sys, s)
    ensures s.host.pc.Poll?
  {
  }

  /** Failed polls alone do not settle a state. */
  lemma {:induction false} SomethingHappened<D, R(!new), S>(sys: System<D, R, S>, s: State<D, R, S>,
          acts: seq<Actor>, t: State<D, R, S>, n: nat)
    requires Good(sys, s) && DoneWithin(sys, n) && Leads(sys, s, acts, t) && |t.tiles| == |s.tiles|
    requires !Stuck(sys, s) && !s.host.pc.Returned? && Settled(sys, t, Plenty(|t.tiles|, n))
    ensures Effective(sys, s, acts) > 0
    decreases |acts|
  {
    hide DoneWithin, Inv, HistoryOk;
    if acts == [] {
      StuckIsSettled(sys, s, n);
    } else if FailedPoll(s, acts[0]) {
      var s1 := Step(sys, s, acts[0]);
      StepKeepsGood(sys, s, acts[0]);
      RunKeepsGood(sys, s1, acts[1..]);
      if s1.host.pc.Returned? { ReturnedStays(sys, s1, acts[1..]); }
      if Stuck(sys, s1) { PollsDoNotStick(sys, s); }
      SomethingHappened(sys, s1, acts[1..], t, n);
    }
  }

  lemma {:induction false} ReturnedStays<D, R, S>(sys: System<D, R, S>, s: State<D, R, S>, acts: seq<Actor>)
    requires s.host.pc.Returned? && Possible(sys, s, acts)
    ensures Run(sys, s, acts).host.pc.Returned?
    decreases |acts|
  {
    if acts != [] { ReturnedStays(sys, Step(sys, s, acts[0]), acts[1..]); }
  }

  lemma PollsDoNotStick<D, R, S>(sys: System<D, R, S>, s: State<D, R, S>)
    requires Good(sys, s) && HostCanStep(s) && FailedPoll(s, TheHost) && Stuck(sys, Step(sys, s, TheHost))
    ensures Stuck(sys, s)
  {
    hide Inv, HistoryOk;
    var s1 := Step(sys, s, TheHost);
    assert s1.tiles == s.tiles;
    forall i: nat ensures !CanStep(sys, s, Tile(i)) { assert !CanStep(sys, s1, Tile(i)); }
    StillIsIdle(sys, s, s.host.at);
  }

  // ---------------------------------------------------------------- polls

  function Polls(k: nat): seq<Actor> {
    seq(k, _ => TheHost)
  }

  /** When no tile can step, a host that is not stuck has somebody to serve, or returns. */
  lemma SomebodyWaits<D, R, S>(sys: System<D, R, S>, s: State<D, R, S>)
    requires Good(sys, s) && !Stuck(sys, s) && !s.host.pc.Returned? && forall i: nat :: !CanStep(sys, s, Tile(i))
    ensures CanStep(sys, s, TheHost) && 0 < Distance(s) <= 2 * |s.tiles|
    ensures FailedPoll(s, TheHost) ==>
              !s.host.chain && (s.host.done >= |s.tiles| || exists j: nat :: j < |s.tiles| && Waits(s.tiles[j]))
  {
    hide Inv, HistoryOk;
    HostIsFree(sys, s, Plenty(|s.tiles|, 0));
    if FailedPoll(s, TheHost) {
      forall i: nat | i < |s.tiles| ensures Waits(s.tiles[i]) <==> !Idle(s.tiles[i]) { StillIsIdle(sys, s, i); }
      if forall i: nat :: i < |s.tiles| ==> Idle(s.tiles[i]) { DoneIsHalted(sys, s); }
    }
  }

  /** When no tile can step and the state is not stuck, two sweeps of the host bring its return
      or a step that is not a failed poll. */
  lemma {:induction false} SweepFindsWork<D, R(!new), S>(sys: System<D, R, S>, s: State<D, R, S>, n: nat)
      returns (k: nat)
    requires Good(sys, s) && DoneWithin(sys, n) && !Stuck(sys, s) && !s.host.pc.Returned?
    requires forall i: nat :: !CanStep(sys, s, Tile(i))
    ensures 0 < k <= Distance(s) <= 2 * |s.tiles| && Possible(sys, s, Polls(k))
    ensures var t := Run(sys, s, Polls(k)); t.host.pc.Returned? || Effort(t, n) < Effort(s, n)
    decreases Distance(s)
  {
    SomebodyWaits(sys, s);
    hide Good, DoneWithin, Effort, Work, Distance, Stuck;
    var s1 := Step(sys, s, TheHost);
    StepTakesEffort(sys, s, TheHost, n);
    LeadsNowhere(sys, s1);
    LeadsOn(sys, s, TheHost, [], s1);
    if !FailedPoll(s, TheHost) || s1.host.pc.Returned? {
      k := 1;
      assert Polls(1) == [TheHost] + [];
    } else {
      HostPasses(sys, s, n);
      HostWork(sys, s, n);
      assert s1.tiles == s.tiles && s1.host.pc.Poll?;
      forall j: nat ensures !CanStep(sys, s1, Tile(j)) { assert !CanStep(sys, s, Tile(j)); }
      StepKeepsGood(sys, s, TheHost);
      if Stuck(sys, s1) { PollsDoNotStick(sys, s); }
      var rest := SweepFindsWork(sys, s1, n);
      k := rest + 1;
      assert Polls(k)[0] == TheHost && Polls(k)[1..] == Polls(rest);
    }
  }
}
