/**
 The exact condition on the programs of the tiles under which wait_all can return from every
 state that a run reaches, whatever the services do. It speaks of the results the tiles have,
 not of runs: no chained request may be a done request or be followed by a wait that another
 tile has not met yet, and the tiles must not wait for each other in a circle.
 */
module ServiceExact {
  import opened Basics
  import opened ServiceModel
  import opened ServiceProtocol
  import opened ServiceProgress

  // ---------------------------------------------------------------- the condition

  /** The results that each tile has got. */
  type Config<R> = seq<seq<R>>

  /** Tile i may send its request number k when the tiles have the results of c. */
  ghost predicate Free<D, R, S>(sys: System<D, R, S>, c: Config<R>, i: nat, k: nat)
    requires i < |c| && k <= |c[i]|
  {
    forall j: nat :: j < |c| ==> sys.need(i, c[i][..k], j) <= |c[j]|
  }

  ghost predicate IsDone<D, R, S>(sys: System<D, R, S>, c: Config<R>, i: nat)
    requires i < |c|
  {
    c[i] != [] && sys.next(i, c[i][..|c[i]| - 1]).index == 0
  }

  /** The last request of tile i announced another one. */
  ghost predicate Open<D, R, S>(sys: System<D, R, S>, c: Config<R>, i: nat)
    requires i < |c|
  {
    c[i] != [] && sys.next(i, c[i][..|c[i]| - 1]).chained
  }

  /** The requests of tile i could all be sent, given what the others have, and none follows a
      done request. */
  ghost predicate PlausibleAt<D, R, S>(sys: System<D, R, S>, c: Config<R>, i: nat) {
    i < |c| ==> forall k: nat :: k < |c[i]| ==>
      Free(sys, c, i, k) && (sys.next(i, c[i][..k]).index == 0 ==> k == |c[i]| - 1)
  }

  ghost predicate Plausible<D, R, S>(sys: System<D, R, S>, c: Config<R>) {
    forall i: nat :: PlausibleAt(sys, c, i)
  }

  /** A tile that announced another request, when no other tile did, can send it at once. */
  ghost predicate ChainsOn<D, R, S>(sys: System<D, R, S>, c: Config<R>, i: nat)
    requires i < |c|
  {
    Open(sys, c, i) && (forall j: nat :: j < |c| && j != i ==> !Open(sys, c, j)) ==>
      !IsDone(sys, c, i) && Free(sys, c, i, |c[i]|)
  }

  /** When no request was announced, all tiles are done or some tile can send one. */
  ghost predicate GoesOn<D, R, S>(sys: System<D, R, S>, c: Config<R>) {
    (forall i: nat :: i < |c| ==> !Open(sys, c, i)) ==>
      || (forall i: nat :: i < |c| ==> IsDone(sys, c, i))
      || (exists i: nat :: i < |c| && !IsDone(sys, c, i) && Free(sys, c, i, |c[i]|))
  }

  ghost predicate FineAt<D, R, S>(sys: System<D, R, S>, c: Config<R>) {
    GoesOn(sys, c) && forall i: nat :: i < |c| ==> ChainsOn(sys, c, i)
  }

  /** The condition on the programs of n tiles. */
  ghost predicate ProgramsOk<D, R(!new), S>(sys: System<D, R, S>, n: nat) {
    forall c: Config<R> :: |c| == n && Plausible(sys, c) ==> FineAt(sys, c)
  }

  // ---------------------------------------------------------------- states and configurations

  ghost function Gots<D, R, S>(s: State<D, R, S>): Config<R> {
    seq(|s.tiles|, i requires 0 <= i < |s.tiles| => s.tiles[i].got)
  }

  lemma GotsArePlausible<D, R, S>(sys: System<D, R, S>, s: State<D, R, S>)
    requires Good(sys, s)
    ensures Plausible(sys, Gots(s))
  {
    hide Inv;
    var c := Gots(s);
    forall i: nat ensures PlausibleAt(sys, c, i) {
      assert HistoryOk(sys, s, i);
      if i < |c| {
        forall k: nat | k < |c[i]| ensures Free(sys, c, i, k) { assert Granted(sys, s, i, k); }
      }
    }
  }

  lemma {:induction false} OfLast<D, R>(log: seq<Entry<D, R>>, i: nat) returns (k: nat)
    requires Of(log, i) != []
    ensures k < |log| && log[k] == Of(log, i)[|Of(log, i)| - 1] && log[k].tile == i
    ensures forall m: nat :: k < m < |log| ==> log[m].tile != i
    decreases |log|
  {
    var n := |log| - 1;
    if log[n].tile == i {
      k := n;
    } else {
      k := OfLast(log[..n], i);
      forall m: nat | k < m < |log| ensures log[m].tile != i { assert m < n ==> log[..n][m].tile != i; }
    }
  }

  /** The last request of an idle tile is chained only if it is the last of all. */
  lemma OpenIsLast<D, R, S>(sys: System<D, R, S>, s: State<D, R, S>, i: nat)
    requires Good(sys, s) && i < |s.tiles| && Idle(s.tiles[i])
    ensures Open(sys, Gots(s), i) <==> LastChained(s.log) && s.log[|s.log| - 1].tile == i
  {
    IdleIsNotPending(sys, s, i);
    GotIsServed(sys, s, i);
    var es := Of(s.log, i);
    if es != [] {
      var k := OfLast(s.log, i);
      assert ChainKept(s.log, k);
    }
    if s.log != [] && s.log[|s.log| - 1].tile == i {
      assert es[|es| - 1] == s.log[|s.log| - 1];
    }
  }

  lemma IdleDone<D, R, S>(sys: System<D, R, S>, s: State<D, R, S>, i: nat)
    requires Good(sys, s) && i < |s.tiles| && Idle(s.tiles[i])
    ensures IsDone(sys, Gots(s), i) <==> s.tiles[i].pc.Halted?
  {
    assert HistoryOk(sys, s, i);
  }

  lemma FreeIsMayGo<D, R, S>(sys: System<D, R, S>, s: State<D, R, S>, i: nat)
    requires i < |s.tiles|
    ensures Free(sys, Gots(s), i, |s.tiles[i].got|) <==> MayGo(sys, s, i)
  {
    var c, got := Gots(s), s.tiles[i].got;
    assert c[i][..|got|] == got;
  }

  // ---------------------------------------------------------------- the condition suffices

  /** A tile that waits for the host, or that cannot step, has closed its chain, unless the
      host is with it. */
  lemma OthersAreClosed<D, R, S>(sys: System<D, R, S>, s: State<D, R, S>, j: nat)
    requires Good(sys, s) && s.host.pc.Poll? && s.host.at < |s.tiles| && j < |s.tiles| && j != s.host.at
    requires !CanStep(sys, s, Tile(j))
    ensures !Open(sys, Gots(s), j)
  {
    assert TileInv(sys, s, j);
    GotIsServed(sys, s, j);
    var es := Of(s.log, j);
    if es != [] {
      var k := OfLast(s.log, j);
      assert ChainKept(s.log, k);
    }
  }

  lemma FineIsNotStuck<D, R, S>(sys: System<D, R, S>, s: State<D, R, S>)
    requires Good(sys, s) && FineAt(sys, Gots(s))
    ensures !Stuck(sys, s)
  {
    hide Good, Inv, Free, Open, IsDone, CanStep;
    if Stuck(sys, s) {
      var c, at := Gots(s), s.host.at;
      forall i: nat | i < |c| && Idle(s.tiles[i])
        ensures (IsDone(sys, c, i) <==> s.tiles[i].pc.Halted?) && (!IsDone(sys, c, i) ==> !Free(sys, c, i, |c[i]|))
        ensures Open(sys, c, i) <==> LastChained(s.log) && s.log[|s.log| - 1].tile == i
      {
        IdleDone(sys, s, i);
        FreeIsMayGo(sys, s, i);
        OpenIsLast(sys, s, i);
        assert !CanStep(sys, s, Tile(i));
        if s.tiles[i].pc.Ready? { HeldCannotGo(sys, s, i); }
      }
      ChainIsLast(sys, s);
      if s.host.chain {
        assert ChainsOn(sys, c, at);
        forall j: nat | j < |c| && j != at ensures !Open(sys, c, j) { OthersAreClosed(sys, s, j); }
      }
    }
  }

  lemma HeldCannotGo<D, R, S>(sys: System<D, R, S>, s: State<D, R, S>, i: nat)
    requires i < |s.tiles| && s.tiles[i].pc.Ready? && !CanStep(sys, s, Tile(i))
    ensures !MayGo(sys, s, i)
  {
  }

  lemma ChainIsLast<D, R, S>(sys: System<D, R, S>, s: State<D, R, S>)
    requires Good(sys, s) && s.host.pc.Poll?
    ensures s.host.chain <==> LastChained(s.log)
    ensures s.host.chain ==> s.log[|s.log| - 1].tile == s.host.at
  {
  }

  /** wait_all can still return from wherever a run has led. */
  ghost predicate AlwaysCanReturn<D, R, S>(sys: System<D, R, S>, s: State<D, R, S>) {
    forall acts: seq<Actor> :: Possible(sys, s, acts) ==> CanReturn(sys, Run(sys, s, acts))
  }

  ghost predicate CanReturn<D, R, S>(sys: System<D, R, S>, s: State<D, R, S>) {
    exists acts: seq<Actor> :: Possible(sys, s, acts) && Run(sys, s, acts).host.pc.Returned?
  }

  /** With fine programs that all finish, wait_all can always return, whatever the services. */
  lemma FineProgramsReturn<D, R(!new), S>(sys: System<D, R, S>, s: State<D, R, S>, n: nat)
    requires Start(sys, s) && DoneWithin(sys, n) && ProgramsOk(sys, |s.tiles|)
    ensures AlwaysCanReturn(sys, s)
  {
    hide Good, DoneWithin, Start, Stuck, Settled, Step, FineAt, Plausible, Gots;
    StartIsHealthy(sys, s);
    forall acts: seq<Actor> | Possible(sys, s, acts) ensures CanReturn(sys, Run(sys, s, acts)) {
      RunKeepsGood(sys, s, acts);
      var t := Run(sys, s, acts);
      var more, u := Settle(sys, t, Plenty(|t.tiles|, n), n);
      if !u.host.pc.Returned? {
        StuckIsSettled(sys, u, n);
        GotsArePlausible(sys, u);
        assert |Gots(u)| == |u.tiles| by { GotsLength(u); }
        FineIsNotStuck(sys, u);
      }
    }
  }

  lemma GotsLength<D, R, S>(s: State<D, R, S>)
    ensures |Gots(s)| == |s.tiles|
  {
  }

  // ---------------------------------------------------------------- states without return

  /** The tiles of b are halted or wait for a result of another tile of b, and not all are
      halted. */
  ghost predicate Circle<D, R, S>(sys: System<D, R, S>, s: State<D, R, S>, b: set<nat>) {
    && (forall i :: i in b ==> i < |s.tiles| && InCircle(sys, s, b, i))
    && exists i :: i in b && s.tiles[i].pc.Ready?
  }

  ghost predicate InCircle<D, R, S>(sys: System<D, R, S>, s: State<D, R, S>, b: set<nat>, i: nat)
    requires i < |s.tiles|
  {
    || s.tiles[i].pc.Halted?
    || (&& s.tiles[i].pc.Ready?
        && exists j :: j in b && j < |s.tiles| && |s.tiles[j].got| < sys.need(i, s.tiles[i].got, j))
  }

  lemma CircleStays<D, R, S>(sys: System<D, R, S>, s: State<D, R, S>, b: set<nat>, a: Actor)
    requires Circle(sys, s, b) && CanStep(sys, s, a)
    ensures Circle(sys, Step(sys, s, a), b)
  {
    var s1 := Step(sys, s, a);
    forall i | i in b ensures i < |s1.tiles| && s1.tiles[i].got == s.tiles[i].got && s1.tiles[i].pc == s.tiles[i].pc {
      assert InCircle(sys, s, b, i);
      assert a != Tile(i);
    }
    forall i | i in b ensures InCircle(sys, s1, b, i) { assert InCircle(sys, s, b, i); }
  }

  lemma {:induction false} CircleNeverReturns<D, R, S>(sys: System<D, R, S>, s: State<D, R, S>, b: set<nat>,
          acts: seq<Actor>)
    requires Good(sys, s) && Circle(sys, s, b) && Possible(sys, s, acts)
    ensures !Run(sys, s, acts).host.pc.Returned?
    decreases |acts|
  {
    hide Good, Step;
    if acts == [] {
      var i :| i in b && s.tiles[i].pc.Ready?;
      ReadyIsNotDone(sys, s, i);
      if s.host.pc.Returned? { ReturnedIsDone(sys, s, i); }
    } else {
      CircleStays(sys, s, b, acts[0]);
      StepKeepsGood(sys, s, acts[0]);
      CircleNeverReturns(sys, Step(sys, s, acts[0]), b, acts[1..]);
    }
  }

  lemma ReturnedIsDone<D, R, S>(sys: System<D, R, S>, s: State<D, R, S>, i: nat)
    requires Good(sys, s) && i < |s.tiles| && s.host.pc.Returned?
    ensures i in DoneTiles(s.log)
  {
    SmallSet(DoneTiles(s.log), |s.tiles|);
  }

  /** The host is chained to a tile that is halted or held, and no other tile has a result to
      pick up, so the tile stays held. */
  ghost predicate HeldChain<D, R, S>(sys: System<D, R, S>, s: State<D, R, S>) {
    && s.host.pc.Poll? && s.host.chain && s.host.at < |s.tiles|
    && (s.tiles[s.host.at].pc.Halted? || (s.tiles[s.host.at].pc.Ready? && !MayGo(sys, s, s.host.at)))
    && forall j: nat :: j < |s.tiles| ==> NothingToPick(s.tiles[j])
  }

  predicate NothingToPick<D, R>(d: Device<D, R>) {
    d.pc.Ready? || d.pc.Halted? || d.pc.Written? || (d.pc.Arrived1? && Waits(d))
  }

  lemma HeldChainStays<D, R, S>(sys: System<D, R, S>, s: State<D, R, S>, a: Actor)
    requires Good(sys, s) && HeldChain(sys, s) && CanStep(sys, s, a)
    ensures HeldChain(sys, Step(sys, s, a))
  {
    var s1 := Step(sys, s, a);
    assert TileInv(sys, s, s.host.at);
    if a.Tile? {
      assert NothingToPick(s.tiles[a.i]) && TileInv(sys, s, a.i);
      assert forall j: nat :: j < |s.tiles| ==> s1.tiles[j].got == s.tiles[j].got;
    }
    forall j: nat | j < |s1.tiles| ensures NothingToPick(s1.tiles[j]) { assert NothingToPick(s.tiles[j]); }
  }

  lemma {:induction false} HeldChainNeverReturns<D, R, S>(sys: System<D, R, S>, s: State<D, R, S>, acts: seq<Actor>)
    requires Good(sys, s) && HeldChain(sys, s) && Possible(sys, s, acts)
    ensures !Run(sys, s, acts).host.pc.Returned?
    decreases |acts|
  {
    hide Good, Step;
    if acts != [] {
      HeldChainStays(sys, s, acts[0]);
      StepKeepsGood(sys, s, acts[0]);
      HeldChainNeverReturns(sys, Step(sys, s, acts[0]), acts[1..]);
    }
  }

  // ---------------------------------------------------------------- services that give the results of c

  /** How often tile i was served. */
  function Occurs(x: seq<nat>, i: nat): nat {
    if x == [] then 0 else Occurs(x[..|x| - 1], i) + if x[|x| - 1] == i then 1 else 0
  }

  function Answer<R>(c: Config<R>, r: R, i: nat, k: nat): R {
    if i < |c| && k < |c[i]| then c[i][k] else r
  }

  function Answers<D, R>(c: Config<R>, r: R): (seq<nat>, nat, Request<D>) -> (seq<nat>, R) {
    (x: seq<nat>, i: nat, q: Request<D>) => (x + [i], Answer(c, r, i, Occurs(x, i)))
  }

  lemma {:induction false} ReplayOccurs<D, R>(sys: System<D, R, seq<nat>>, c: Config<R>, r: R, log: seq<Entry<D, R>>,
          i: nat)
    requires sys.act == Answers(c, r) && sys.init == []
    ensures Occurs(Replay(sys, log), i) == |Of(log, i)|
    decreases |log|
  {
    if log != [] {
      var n := |log| - 1;
      ReplayOccurs(sys, c, r, log[..n], i);
      var x := Replay(sys, log[..n]);
      assert Replay(sys, log) == x + [log[n].tile];
      assert (x + [log[n].tile])[..|x|] == x;
    }
  }

  lemma {:induction false} LogAnswers<D, R>(sys: System<D, R, seq<nat>>, c: Config<R>, r: R, log: seq<Entry<D, R>>,
          i: nat, k: nat)
    requires sys.act == Answers(c, r) && sys.init == [] && (forall m: int :: Computed(sys, log, m)) && k < |Of(log, i)|
    ensures Of(log, i)[k].ret == Answer(c, r, i, k)
    decreases |log|
  {
    var n := |log| - 1;
    if k < |Of(log[..n], i)| {
      forall m: int ensures Computed(sys, log[..n], m) {
        assert Computed(sys, log, m);
        assert 0 <= m < n ==> log[..n][..m] == log[..m];
      }
      LogAnswers(sys, c, r, log[..n], i, k);
    } else {
      assert Computed(sys, log, n);
      ReplayOccurs(sys, c, r, log[..n], i);
    }
  }

  /** Under these services the tiles get the results of c. */
  lemma GotsFollow<D, R>(sys: System<D, R, seq<nat>>, s: State<D, R, seq<nat>>, c: Config<R>, r: R, i: nat)
    requires sys.act == Answers(c, r) && sys.init == [] && Good(sys, s)
    requires |c| == |s.tiles| && i < |c| && |s.tiles[i].got| <= |c[i]|
    ensures s.tiles[i].got == c[i][..|s.tiles[i].got|]
  {
    var got, es := s.tiles[i].got, Of(s.log, i);
    assert TileInv(sys, s, i);
    forall k: nat | k < |got| ensures got[k] == c[i][k] {
      assert got[k] == Rets(es)[k] == es[k].ret;
      LogAnswers(sys, c, r, s.log, i, k);
    }
  }

  // ---------------------------------------------------------------- the condition is needed

  function Lengths<R>(c: Config<R>): seq<nat> {
    seq(|c|, i requires 0 <= i < |c| => |c[i]|)
  }

  /** s is below c: a prefix of the results of c in every tile. */
  ghost predicate Below<D, R, S>(s: State<D, R, S>, c: Config<R>) {
    |c| == |s.tiles| && forall i: nat :: i < |c| ==> BelowAt(s.tiles[i].got, c[i])
  }

  ghost predicate BelowAt<R>(got: seq<R>, h: seq<R>) {
    got <= h
  }

  /** The same of the results stored by the host. */
  ghost predicate ServedBelow<D, R, S>(s: State<D, R, S>, c: Config<R>) {
    |c| == |s.tiles| && forall i: nat :: i < |c| ==> BelowAt(Rets(Of(s.log, i)), c[i])
  }

  lemma ServedFollow<D, R>(sys: System<D, R, seq<nat>>, s: State<D, R, seq<nat>>, c: Config<R>, r: R, i: nat)
    requires sys.act == Answers(c, r) && sys.init == [] && Good(sys, s)
    requires |c| == |s.tiles| && i < |c| && Sent(s.tiles[i]) <= |c[i]|
    ensures BelowAt(Rets(Of(s.log, i)), c[i])
  {
    var es := Of(s.log, i);
    assert TileInv(sys, s, i);
    assert |Rets(es)| <= Sent(s.tiles[i]);
    forall k: nat | k < |es| ensures Rets(es)[k] == c[i][k] {
      LogAnswers(sys, c, r, s.log, i, k);
    }
  }

  lemma CappedIsBelow<D, R>(sys: System<D, R, seq<nat>>, s: State<D, R, seq<nat>>, c: Config<R>, r: R)
    requires sys.act == Answers(c, r) && sys.init == [] && Good(sys, s)
    requires |c| == |s.tiles| && Capped(s, Lengths(c))
    ensures Below(s, c) && ServedBelow(s, c)
  {
    hide Good;
    forall i: nat | i < |c| ensures BelowAt(s.tiles[i].got, c[i]) && BelowAt(Rets(Of(s.log, i)), c[i]) {
      assert Sent(s.tiles[i]) <= Lengths(c)[i];
      GotsFollow(sys, s, c, r, i);
      ServedFollow(sys, s, c, r, i);
    }
  }

  /** A tile below c that has not all its results of c is not halted. */
  lemma LaggardIsNotHalted<D, R, S>(sys: System<D, R, S>, s: State<D, R, S>, c: Config<R>, i: nat)
    requires Good(sys, s) && Below(s, c) && Plausible(sys, c) && i < |c| && |s.tiles[i].got| < |c[i]|
    ensures !s.tiles[i].pc.Halted?
  {
    hide Inv;
    var got := s.tiles[i].got;
    assert HistoryOk(sys, s, i) && PlausibleAt(sys, c, i) && BelowAt(got, c[i]);
    assert got != [] ==> got[..|got| - 1] == c[i][..|got| - 1];
  }

  /** If the host is chained in a settled state below c, the tile it is with stays held. */
  lemma ChainedIsHeld<D, R, S>(sys: System<D, R, S>, s: State<D, R, S>, c: Config<R>)
    requires Good(sys, s) && Below(s, c) && Plausible(sys, c) && !FineAt(sys, c)
    requires Settled(sys, s, Lengths(c)) && s.host.chain
    ensures HeldChain(sys, s)
  {
    hide Good, Inv, Free, Plausible;
    var at, cap := s.host.at, Lengths(c);
    forall j: nat | j < |s.tiles| ensures NothingToPick(s.tiles[j]) && (j == at ==> Idle(s.tiles[j])) {
      assert !Moves(sys, s, cap, j);
      SettledTile(sys, s, cap, j);
    }
    if s.tiles[at].pc.Ready? && MayGo(sys, s, at) {
      assert !Moves(sys, s, cap, at);
      assert |s.tiles[at].got| == |c[at]| by { assert BelowAt(s.tiles[at].got, c[at]); }
      assert s.tiles[at].got == c[at] by { assert BelowAt(s.tiles[at].got, c[at]); }
      ChainIsLast(sys, s);
      OpenIsLast(sys, s, at);
      IdleDone(sys, s, at);
      assert Open(sys, c, at) && !IsDone(sys, c, at) && Gots(s)[at] == c[at];
      FreeAbove(sys, s, c, at);
      AtIsCulprit(sys, c, at);
    }
  }

  /** More results elsewhere only free a tile. */
  lemma FreeAbove<D, R, S>(sys: System<D, R, S>, s: State<D, R, S>, c: Config<R>, i: nat)
    requires Below(s, c) && i < |c| && s.tiles[i].got == c[i] && MayGo(sys, s, i)
    ensures Free(sys, c, i, |c[i]|)
  {
    assert c[i][..|c[i]|] == c[i];
    forall j: nat | j < |c| ensures sys.need(i, c[i], j) <= |c[j]| { assert BelowAt(s.tiles[j].got, c[j]); }
  }

  /** When c is not fine, a tile with an open chain in c is halted or held there. */
  lemma AtIsCulprit<D, R, S>(sys: System<D, R, S>, c: Config<R>, i: nat)
    requires i < |c| && Open(sys, c, i) && !IsDone(sys, c, i) && Free(sys, c, i, |c[i]|)
    ensures FineAt(sys, c)
  {
    hide Free, IsDone;
    forall j: nat | j < |c| ensures ChainsOn(sys, c, j) {
    }
  }

  lemma SettledTile<D, R, S>(sys: System<D, R, S>, s: State<D, R, S>, cap: seq<nat>, j: nat)
    requires Good(sys, s) && |cap| == |s.tiles| && s.host.pc.Poll? && j < |s.tiles| && !Moves(sys, s, cap, j)
    ensures NothingToPick(s.tiles[j]) && (!Waits(s.tiles[j]) ==> Idle(s.tiles[j]))
  {
    assert TileInv(sys, s, j);
  }

  /** If the host is not chained, the tiles that lag behind c wait for each other, or all of the
      tiles do. */
  lemma UnchainedIsCircle<D, R, S>(sys: System<D, R, S>, s: State<D, R, S>, c: Config<R>) returns (b: set<nat>)
    requires Good(sys, s) && Below(s, c) && Plausible(sys, c) && !FineAt(sys, c)
    requires Settled(sys, s, Lengths(c)) && !s.host.chain
    ensures Circle(sys, s, b)
  {
    hide Good, Inv, Plausible;
    var cap := Lengths(c);
    forall i: nat | i < |s.tiles| ensures Idle(s.tiles[i]) {
      assert !Moves(sys, s, cap, i);
      SettledTile(sys, s, cap, i);
    }
    if i: nat :| i < |c| && |s.tiles[i].got| < |c[i]| {
      b := set j: nat | j < |c| && |s.tiles[j].got| < |c[j]|;
      forall j | j in b ensures InCircle(sys, s, b, j) && s.tiles[j].pc.Ready? {
        LaggardIsNotHalted(sys, s, c, j);
        assert !Moves(sys, s, cap, j);
        LaggardWaitsForLaggard(sys, s, c, j);
      }
      assert i in b && s.tiles[i].pc.Ready?;
    } else {
      b := Everybody(|c|);
      forall j: nat | j < |c| ensures s.tiles[j].got == c[j] { assert BelowAt(s.tiles[j].got, c[j]); }
      assert Gots(s) == c;
      EverybodyWaits(sys, s);
    }
  }

  lemma LaggardWaitsForLaggard<D, R, S>(sys: System<D, R, S>, s: State<D, R, S>, c: Config<R>, i: nat)
    requires Below(s, c) && Plausible(sys, c) && i < |c| && |s.tiles[i].got| < |c[i]| && !MayGo(sys, s, i)
    ensures exists j: nat :: j < |c| && |s.tiles[j].got| < |c[j]| && |s.tiles[j].got| < sys.need(i, s.tiles[i].got, j)
  {
    var got := s.tiles[i].got;
    assert PlausibleAt(sys, c, i) && BelowAt(got, c[i]);
    assert Free(sys, c, i, |got|) && c[i][..|got|] == got;
    var j: nat :| j < |s.tiles| && |s.tiles[j].got| < sys.need(i, got, j);
    assert sys.need(i, c[i][..|got|], j) <= |c[j]|;
  }

  predicate IsTile(i: nat, n: nat) {
    i < n
  }

  function Everybody(n: nat): set<nat> {
    set i: nat | i < n && IsTile(i, n)
  }

  /** In a settled state with the results of c itself, all the tiles wait for each other. */
  lemma EverybodyWaits<D, R, S>(sys: System<D, R, S>, s: State<D, R, S>)
    requires Good(sys, s) && !FineAt(sys, Gots(s)) && Settled(sys, s, Lengths(Gots(s))) && !s.host.chain
    requires forall i: nat :: i < |s.tiles| ==> Idle(s.tiles[i])
    ensures Circle(sys, s, Everybody(|Gots(s)|))
  {
    hide Good, Inv, Open, IsDone, Free;
    var c, b := Gots(s), Everybody(|Gots(s)|);
    ChainIsLast(sys, s);
    forall i: nat | i < |c| ensures !Open(sys, c, i) && (IsDone(sys, c, i) <==> s.tiles[i].pc.Halted?) {
      OpenIsLast(sys, s, i);
      IdleDone(sys, s, i);
    }
    assert !GoesOn(sys, c);
    forall i | i in b ensures InCircle(sys, s, b, i) {
      FreeIsMayGo(sys, s, i);
    }
  }

  /** A start with n tiles. */
  function Launch<D, R, S>(n: nat, d: D, r: R, init: S): State<D, R, S> {
    State(seq(n, _ => Device(Ready, 0, 0, Request(0, d, false), r, [])),
          Host(0, if n == 0 then Returned else Poll, Request(0, d, false), false, 0), init, [])
  }

  /** Programs that are not fine hang under the services that give them the results of c. */
  lemma BadProgramsHang<D, R(!new)>(sys: System<D, R, seq<nat>>, c: Config<R>, d: D, r: R, n: nat)
    requires DoneWithin(sys, n) && Plausible(sys, c) && !FineAt(sys, c)
    ensures var bad := sys.(act := Answers(c, r), init := []);
            Start(bad, Launch(|c|, d, r, [])) && !AlwaysCanReturn(bad, Launch(|c|, d, r, []))
  {
    var bad, s := sys.(act := Answers(c, r), init := []), Launch(|c|, d, r, []);
    assert Plausible(bad, c) && !FineAt(bad, c) && DoneWithin(bad, n) by {
      SameAt(sys, bad, c);
      SamePrograms(sys, bad, n);
    }
    StartIsHealthy(bad, s);
    assert Capped(s, Lengths(c));
    hide Good, DoneWithin, Plausible, FineAt, Settled, Capped, Start, AlwaysCanReturn;
    var acts, t := Settle(bad, s, Lengths(c), n);
    CappedIsBelow(bad, t, c, r);
    forall more: seq<Actor> | Possible(bad, t, more) ensures !Run(bad, t, more).host.pc.Returned? {
      NoWayOut(bad, t, c, more);
    }
    assert !AlwaysCanReturn(bad, s) by { NotAlways(bad, s, acts, t); }
  }

  lemma NotAlways<D, R, S>(sys: System<D, R, S>, s: State<D, R, S>, acts: seq<Actor>, t: State<D, R, S>)
    requires Leads(sys, s, acts, t) && !CanReturn(sys, t)
    ensures !AlwaysCanReturn(sys, s)
  {
  }

  /** The condition looks only at the programs. */
  lemma SameAt<D, R, S>(sys: System<D, R, S>, sys1: System<D, R, S>, c: Config<R>)
    requires sys1.next == sys.next && sys1.need == sys.need
    ensures Plausible(sys1, c) == Plausible(sys, c) && FineAt(sys1, c) == FineAt(sys, c)
  {
    forall i: nat, k: nat | i < |c| && k <= |c[i]| ensures Free(sys1, c, i, k) == Free(sys, c, i, k) {
    }
    hide Free;
    forall i: nat ensures PlausibleAt(sys1, c, i) == PlausibleAt(sys, c, i) {
    }
    forall i: nat | i < |c| ensures IsDone(sys1, c, i) == IsDone(sys, c, i) && Open(sys1, c, i) == Open(sys, c, i) {
    }
    hide IsDone, Open;
    forall i: nat | i < |c| ensures ChainsOn(sys1, c, i) == ChainsOn(sys, c, i) {
    }
    assert GoesOn(sys1, c) == GoesOn(sys, c);
  }

  lemma SamePrograms<D, R(!new), S>(sys: System<D, R, S>, sys1: System<D, R, S>, n: nat)
    requires sys1.next == sys.next && sys1.need == sys.need
    ensures DoneWithin(sys1, n) == DoneWithin(sys, n) && ProgramsOk(sys1, n) == ProgramsOk(sys, n)
  {
    hide Plausible, FineAt;
    forall i: nat, got: seq<R> ensures SendsDone(sys1, i, got) == SendsDone(sys, i, got) {
    }
    forall c: Config<R> ensures Plausible(sys1, c) == Plausible(sys, c) && FineAt(sys1, c) == FineAt(sys, c) {
      SameAt(sys, sys1, c);
    }
  }

  lemma NoWayOut<D, R, S>(sys: System<D, R, S>, t: State<D, R, S>, c: Config<R>, more: seq<Actor>)
    requires Good(sys, t) && Below(t, c) && ServedBelow(t, c) && Plausible(sys, c) && !FineAt(sys, c)
    requires t.host.pc.Returned? || Settled(sys, t, Lengths(c))
    requires Possible(sys, t, more)
    ensures !Run(sys, t, more).host.pc.Returned?
  {
    hide Good, Plausible, FineAt;
    if t.host.pc.Returned? {
      ReturnedIsFine(sys, t, c);
    } else if t.host.chain {
      ChainedIsHeld(sys, t, c);
      HeldChainNeverReturns(sys, t, more);
    } else {
      var b := UnchainedIsCircle(sys, t, c);
      CircleNeverReturns(sys, t, b, more);
    }
  }

  /** When wait_all returns below c, all tiles are done in c and no chain is open. */
  lemma ReturnedIsFine<D, R, S>(sys: System<D, R, S>, t: State<D, R, S>, c: Config<R>)
    requires Good(sys, t) && ServedBelow(t, c) && Plausible(sys, c) && t.host.pc.Returned?
    ensures FineAt(sys, c)
  {
    hide Good, Plausible, ServedBelow, IsDone, Open;
    forall i: nat | i < |c| ensures IsDone(sys, c, i) && !Open(sys, c, i) {
      ReturnedTile(sys, t, c, i);
    }
  }

  lemma ReturnedTile<D, R, S>(sys: System<D, R, S>, t: State<D, R, S>, c: Config<R>, i: nat)
    requires Good(sys, t) && ServedBelow(t, c) && Plausible(sys, c) && t.host.pc.Returned? && i < |c|
    ensures IsDone(sys, c, i) && !Open(sys, c, i)
  {
    ReturnedIsDone(sys, t, i);
    var es := Of(t.log, i);
    var k: nat :| k < |t.log| && t.log[k].request.index == 0 && t.log[k].tile == i;
    var j := OfContains(t.log, k);
    assert TileInv(sys, t, i) && PlausibleAt(sys, c, i) && BelowAt(Rets(es), c[i]);
    assert es[j].request == sys.next(i, Rets(es)[..j]) && Rets(es)[..j] == c[i][..j];
    assert j == |c[i]| - 1 && |es| == |c[i]|;
    var m := OfLast(t.log, i);
    assert ChainKept(t.log, m);
  }

  // ---------------------------------------------------------------- main results

  /** wait_all can return from every state that a run of n tiles reaches, whatever the services
      are and however they start. */
  ghost predicate ReturnsWithAnyServices<D(!new), R(!new)>(sys: System<D, R, seq<nat>>, n: nat) {
    forall act: (seq<nat>, nat, Request<D>) -> (seq<nat>, R), init: seq<nat>, s: State<D, R, seq<nat>> ::
      |s.tiles| == n && Start(With(sys, act, init), s) ==> AlwaysCanReturn(With(sys, act, init), s)
  }

  function With<D, R, S>(sys: System<D, R, S>, act: (S, nat, Request<D>) -> (S, R), init: S): System<D, R, S> {
    sys.(act := act, init := init)
  }

  /** For tiles that all finish, that holds exactly for the programs that are fine. */
  lemma AlwaysCanReturnIff<D(!new), R(!new)>(sys: System<D, R, seq<nat>>, tiles: nat, n: nat, d: D, r: R)
    requires DoneWithin(sys, n)
    ensures ReturnsWithAnyServices(sys, tiles) <==> ProgramsOk(sys, tiles)
  {
    hide DoneWithin, Start, AlwaysCanReturn, Plausible, FineAt;
    if ProgramsOk(sys, tiles) {
      forall act: (seq<nat>, nat, Request<D>) -> (seq<nat>, R), init: seq<nat>, s: State<D, R, seq<nat>> |
        |s.tiles| == tiles && Start(With(sys, act, init), s)
        ensures AlwaysCanReturn(With(sys, act, init), s)
      {
        SamePrograms(sys, With(sys, act, init), n);
        SamePrograms(sys, With(sys, act, init), tiles);
        FineProgramsReturn(With(sys, act, init), s, n);
      }
    } else {
      var c: Config<R> :| |c| == tiles && Plausible(sys, c) && !FineAt(sys, c);
      BadProgramsHang(sys, c, d, r, n);
      var s: State<D, R, seq<nat>> := Launch(tiles, d, r, []);
      assert |s.tiles| == tiles;
      assert With(sys, Answers(c, r), []) == sys.(act := Answers(c, r), init := []);
    }
  }

  // ---------------------------------------------------------------- tiles that do not wait

  /** No tile waits for another one between its requests. */
  ghost predicate NoWaits<D, R(!new), S>(sys: System<D, R, S>) {
    forall i: nat, got: seq<R>, j: nat :: sys.need(i, got, j) == 0
  }

  /** got leads tile i to its done request. */
  ghost predicate LeadsToDone<D, R, S>(sys: System<D, R, S>, i: nat, got: seq<R>) {
    sys.next(i, got).index == 0 && forall k: nat :: k < |got| ==> sys.next(i, got[..k]).index != 0
  }

  ghost predicate NoChainedDone<D, R(!new), S>(sys: System<D, R, S>, n: nat) {
    forall i: nat, got: seq<R> :: i < n && LeadsToDone(sys, i, got) ==> !sys.next(i, got).chained
  }

  /** Then programs are fine exactly when no done request is chained. */
  lemma WithoutWaitsIff<D, R(!new), S>(sys: System<D, R, S>, n: nat, r: R)
    requires NoWaits(sys)
    ensures ProgramsOk(sys, n) <==> NoChainedDone(sys, n)
  {
    if NoChainedDone(sys, n) {
      forall c: Config<R> | |c| == n && Plausible(sys, c) ensures FineAt(sys, c) { UnchainedIsFine(sys, c); }
    } else {
      var i: nat, got: seq<R> :| i < n && LeadsToDone(sys, i, got) && sys.next(i, got).chained;
      var c: Config<R> := seq(n, _ => [])[i := got + [r]];
      assert forall k: nat :: k <= |got| ==> c[i][..k] == got[..k];
      assert c[i][..|c[i]| - 1] == got[..|got|] == got;
      forall j: nat ensures PlausibleAt(sys, c, j) {
      }
      assert !ChainsOn(sys, c, i);
    }
  }

  lemma UnchainedIsFine<D, R(!new), S>(sys: System<D, R, S>, c: Config<R>)
    requires NoWaits(sys) && NoChainedDone(sys, |c|) && Plausible(sys, c)
    ensures FineAt(sys, c)
  {
    forall i: nat | i < |c| ensures ChainsOn(sys, c, i) {
      if c[i] != [] {
        var got := c[i][..|c[i]| - 1];
        assert PlausibleAt(sys, c, i);
        forall k: nat | k < |got| ensures sys.next(i, got[..k]).index != 0 { assert got[..k] == c[i][..k]; }
        assert sys.next(i, got).index == 0 ==> LeadsToDone(sys, i, got);
      }
    }
    assert forall i: nat :: i < |c| ==> Free(sys, c, i, |c[i]|);
  }

  // ---------------------------------------------------------------- examples

  /** A tile whose first request is done and asks for chaining. */
  function Chainer(): System<int, int, seq<nat>> {
    System((i: nat, got: seq<int>) => Request(0, 0, true), (i: nat, got: seq<int>, j: nat) => 0, Answers([[0]], 0), [])
  }

  /** With it wait_all cannot always return. */
  lemma ChainerHangs()
    ensures Start(Chainer(), Launch(1, 0, 0, [])) && !AlwaysCanReturn(Chainer(), Launch(1, 0, 0, []))
  {
    var sys, c: Config<int> := Chainer(), [[0]];
    FirstIsDone(sys);
    assert c[0][..0] == [];
    forall i: nat ensures PlausibleAt(sys, c, i) {
    }
    assert !ChainsOn(sys, c, 0);
    BadProgramsHang(sys, c, 0, 0, 0);
    assert sys == sys.(act := Answers(c, 0), init := []);
  }

  lemma FirstIsDone(sys: System<int, int, seq<nat>>)
    requires forall i: nat, got: seq<int> :: sys.next(i, got).index == 0
    ensures DoneWithin(sys, 0)
  {
    forall i: nat, got: seq<int> | |got| == 0 ensures SendsDone(sys, i, got) {
      assert sys.next(i, got[..0]).index == 0;
    }
  }

  /** Two tiles that send one request each, meet in a barrier, and are done. The first request
      of tile 0 is chained or not: log chains its last piece, logln does not. */
  function LogThenBarrier(chained: bool): System<int, int, seq<nat>> {
    System((i: nat, got: seq<int>) => if got == [] then Request(1, 0, chained && i == 0) else Request(0, 0, false),
           (i: nat, got: seq<int>, j: nat) => if |got| == 1 && j < 2 then 1 else 0,
           Answers([[0], []], 0), [])
  }

  lemma LogIsDone(chained: bool)
    ensures DoneWithin(LogThenBarrier(chained), 1) && NoChainedDone(LogThenBarrier(chained), 2)
  {
    var sys := LogThenBarrier(chained);
    forall i: nat, got: seq<int> | |got| == 1 ensures SendsDone(sys, i, got) {
      assert sys.next(i, got[..1]).index == 0;
    }
  }

  /** With log, no done request is chained, and yet wait_all cannot always return: the host stays
      with tile 0, which waits in the barrier for tile 1, which waits for the host. */
  lemma LogThenBarrierHangs()
    ensures var sys := LogThenBarrier(true);
            && DoneWithin(sys, 1) && NoChainedDone(sys, 2) && Start(sys, Launch(2, 0, 0, []))
            && !AlwaysCanReturn(sys, Launch(2, 0, 0, []))
  {
    var sys, c: Config<int> := LogThenBarrier(true), [[0], []];
    LogIsDone(true);
    assert c[0][..0] == [] && c[0][..1] == [0];
    forall i: nat ensures PlausibleAt(sys, c, i) {
    }
    assert Open(sys, c, 0) && !Open(sys, c, 1);
    assert sys.need(0, c[0][..|c[0]|], 1) > |c[1]|;
    assert !ChainsOn(sys, c, 0);
    BadProgramsHang(sys, c, 0, 0, 1);
    assert sys == sys.(act := Answers(c, 0), init := []);
  }

  /** With logln it always can. */
  lemma LoglnThenBarrierReturns()
    ensures DoneWithin(LogThenBarrier(false), 1) && ProgramsOk(LogThenBarrier(false), 2)
  {
    var sys := LogThenBarrier(false);
    LogIsDone(false);
    forall c: Config<int> | |c| == 2 && Plausible(sys, c) ensures FineAt(sys, c) {
      forall i: nat | i < 2 ensures !Open(sys, c, i) && |c[i]| <= 2 && (|c[i]| == 2 ==> IsDone(sys, c, i)) {
        assert PlausibleAt(sys, c, i);
        if |c[i]| >= 2 { assert sys.next(i, c[i][..1]).index == 0; }
      }
      if i: nat :| i < 2 && c[i] == [] {
        assert Free(sys, c, i, 0) && !IsDone(sys, c, i);
      } else if i: nat :| i < 2 && |c[i]| == 1 {
        assert c[i][..0] == [];
        assert Free(sys, c, i, 1) && !IsDone(sys, c, i);
      }
    }
  }
}
