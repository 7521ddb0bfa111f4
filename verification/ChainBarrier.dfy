/**
 The token barrier along a chain of tiles. Tile 0 starts the token; tile i has its own lock
 i and raises the lock of tile i + 1. A step is one lock operation of one fiber; a fiber
 that finds the wrong value sleeps until it is notified, and a release notifies one sleeper.

 `rounds` is how often every tile calls the barrier. With `atomicClose` the two closing
 releases happen without a fiber switch between them.
 */
module ChainBarrier {
  import opened Basics

  datatype Pc = Out | WaitSelf | WaitNextFree | Raise | WaitAck | Close1 | Close2

  datatype Tile = Tile(round: nat, pc: Pc, asleep: bool)

  datatype Chain = Chain(tiles: seq<Tile>, lock: seq<bool>, rounds: nat, atomicClose: bool)

  function Create(n: nat, rounds: nat, atomicClose: bool): Chain {
    Chain(seq(n, _ => Tile(0, Out, false)), seq(n, _ => false), rounds, atomicClose)
  }

  // ---------------------------------------------------------------- program of a tile

  /** Once it has the token, or at once for tile 0. */
  function HaveToken(t: Tile, i: nat, n: nat): Tile {
    if i + 1 < n then t.(pc := WaitNextFree) else TokenBack(t, i)
  }

  /** Once the token is back, or at once for the last tile. */
  function TokenBack(t: Tile, i: nat): Tile {
    if i > 0 then t.(pc := Close1) else Leave(t)
  }

  function Leave(t: Tile): Tile {
    t.(round := t.round + 1, pc := Out)
  }

  function Enter(t: Tile, i: nat, n: nat): Tile {
    if i > 0 then t.(pc := WaitSelf) else HaveToken(t, i, n)
  }

  /** Tile i sleeps on lock k. */
  predicate SleepsOn(c: Chain, i: nat, k: nat) {
    && i < |c.tiles| && c.tiles[i].asleep
    && ((i == k && c.tiles[i].pc.WaitSelf?) || (i + 1 == k && (c.tiles[i].pc.WaitNextFree? || c.tiles[i].pc.WaitAck?)))
  }

  function SetTile(c: Chain, i: nat, t: Tile): Chain
    requires i < |c.tiles|
  {
    c.(tiles := c.tiles[i := t])
  }

  /** acquire_with_value: go on, or sleep. */
  function Acquire(c: Chain, i: nat, k: nat, value: bool, next: Tile): Chain
    requires i < |c.tiles| && k < |c.lock|
  {
    SetTile(c, i, if c.lock[k] == value then next else c.tiles[i].(asleep := true))
  }

  /** release_with_value, whose notify_one reaches tile w if it sleeps on the lock. */
  function Release(c: Chain, i: nat, k: nat, value: bool, next: Tile, w: nat): Chain
    requires i < |c.tiles| && k < |c.lock|
  {
    var c1 := SetTile(c.(lock := c.lock[k := value]), i, next);
    if SleepsOn(c1, w, k) then SetTile(c1, w, c1.tiles[w].(asleep := false)) else c1
  }

  /** notify_one wakes some sleeper if there is one. */
  ghost predicate Notifies(c: Chain, k: nat, w: nat) {
    (exists j: nat :: SleepsOn(c, j, k)) ==> SleepsOn(c, w, k)
  }

  predicate CanStep(c: Chain, i: nat) {
    i < |c.tiles| && !c.tiles[i].asleep && c.tiles[i].round < c.rounds
  }

  ghost predicate Enabled(c: Chain, i: nat, w: nat) {
    && CanStep(c, i) && |c.lock| == |c.tiles|
    && var t := c.tiles[i];
       && ((t.pc.WaitNextFree? || t.pc.Raise? || t.pc.WaitAck?) ==> i + 1 < |c.lock|)
       && (t.pc.Raise? ==> Notifies(c, i + 1, w))
       && (t.pc.Close1? || t.pc.Close2? ==> Notifies(c, i, w))
  }

  /** Tile i takes its next step; a release notifies tile w. */
  ghost function Step(c: Chain, i: nat, w: nat): Chain
    requires Enabled(c, i, w)
  {
    var t, n := c.tiles[i], |c.tiles|;
    match t.pc
    case Out => SetTile(c, i, Enter(t, i, n))
    case WaitSelf => Acquire(c, i, i, true, HaveToken(t, i, n))
    case WaitNextFree => Acquire(c, i, i + 1, false, t.(pc := Raise))
    case Raise => Release(c, i, i + 1, true, t.(pc := WaitAck), w)
    case WaitAck => Acquire(c, i, i + 1, false, TokenBack(t, i))
    case Close1 => Release(c, i, i, false, if c.atomicClose then Leave(t) else t.(pc := Close2), w)
    case Close2 => Release(c, i, i, false, Leave(t), w)
  }

  // ---------------------------------------------------------------- invariant

  /** Times tile p has raised the lock of its successor. */
  function Raised(p: Tile): nat {
    p.round + if p.pc.WaitAck? || p.pc.Close1? || p.pc.Close2? then 1 else 0
  }

  /** Times tile q has lowered its own lock, a repeated release not counted. */
  function Closed(q: Tile): nat {
    q.round + if q.pc.Close2? then 1 else 0
  }

  predicate HoldsToken(q: Tile) {
    q.pc.WaitNextFree? || q.pc.Raise? || q.pc.WaitAck? || q.pc.Close1?
  }

  predicate TileOk(c: Chain, i: int) {
    0 <= i < |c.tiles| ==>
      var t := c.tiles[i];
      && t.round <= c.rounds && (!t.pc.Out? ==> t.round < c.rounds)
      && (i == 0 ==> !t.pc.WaitSelf? && !t.pc.Close1? && !t.pc.Close2?)
      && (i == |c.tiles| - 1 ==> !t.pc.WaitNextFree? && !t.pc.Raise? && !t.pc.WaitAck?)
      && (t.asleep ==> t.pc.WaitSelf? || t.pc.WaitAck?)
      && (t.pc.Close2? ==> !c.atomicClose && c.rounds == 1)
  }

  /** Tiles i - 1 and i agree on how often the token went over lock i and came back. */
  predicate LinkOk(c: Chain, i: int) {
    |c.lock| == |c.tiles| && 0 < i < |c.tiles| ==>
      var p, q := c.tiles[i - 1], c.tiles[i];
      && (Raised(p) == Closed(q) || Raised(p) == Closed(q) + 1)
      && (c.lock[i] <==> Raised(p) == Closed(q) + 1)
      && (HoldsToken(q) ==> c.lock[i])
      && (!p.pc.WaitAck? ==> !c.lock[i])
      && (q.asleep && q.pc.WaitSelf? ==> !c.lock[i])
      && (p.asleep && p.pc.WaitAck? ==> c.lock[i])
  }

  ghost predicate Inv(c: Chain) {
    |c.lock| == |c.tiles| && (forall i: int :: TileOk(c, i)) && (forall i: int :: LinkOk(c, i))
  }

  /** The two closing releases cannot meet a token of the next round. */
  predicate Sound(c: Chain) {
    c.atomicClose || c.rounds <= 1 || |c.tiles| <= 1
  }

  lemma StepKeepsTiles(c: Chain, i: nat, w: nat, j: int)
    requires Inv(c) && Enabled(c, i, w) && Sound(c)
    ensures TileOk(Step(c, i, w), j)
  {
    assert TileOk(c, j) && TileOk(c, i) && LinkOk(c, i + 1);
  }

  lemma MoveKeepsLinks(c: Chain, i: nat, w: nat, j: int)
    requires Inv(c) && Enabled(c, i, w) && !c.tiles[i].pc.Raise? && !c.tiles[i].pc.Close1? && !c.tiles[i].pc.Close2?
    ensures LinkOk(Step(c, i, w), j)
  {
    assert TileOk(c, i) && LinkOk(c, j) && LinkOk(c, i) && LinkOk(c, i + 1);
  }

  lemma RaiseKeepsLinks(c: Chain, i: nat, w: nat, j: int)
    requires Inv(c) && Enabled(c, i, w) && c.tiles[i].pc.Raise?
    ensures LinkOk(Step(c, i, w), j)
  {
    assert TileOk(c, i) && TileOk(c, i + 1) && LinkOk(c, j) && LinkOk(c, i + 1);
    if SleepsOn(c, i + 1, i + 1) { assert SleepsOn(c, w, i + 1); }
  }

  lemma CloseKeepsLinks(c: Chain, i: nat, w: nat, j: int)
    requires Inv(c) && Enabled(c, i, w) && (c.tiles[i].pc.Close1? || c.tiles[i].pc.Close2?) && Sound(c)
    ensures LinkOk(Step(c, i, w), j)
  {
    assert TileOk(c, i) && TileOk(c, i - 1) && LinkOk(c, j) && LinkOk(c, i);
    if i > 0 && SleepsOn(c, i - 1, i) { assert SleepsOn(c, w, i); }
  }

  lemma StepKeepsInv(c: Chain, i: nat, w: nat)
    requires Inv(c) && Enabled(c, i, w) && Sound(c)
    ensures Inv(Step(c, i, w))
  {
    forall j: int ensures TileOk(Step(c, i, w), j) { StepKeepsTiles(c, i, w, j); }
    forall j: int ensures LinkOk(Step(c, i, w), j) {
      if c.tiles[i].pc.Raise? { RaiseKeepsLinks(c, i, w, j); }
      else if c.tiles[i].pc.Close1? || c.tiles[i].pc.Close2? { CloseKeepsLinks(c, i, w, j); }
      else { MoveKeepsLinks(c, i, w, j); }
    }
  }

  // ---------------------------------------------------------------- runs

  datatype Move = Move(tile: nat, wakes: nat)

  ghost predicate Possible(c: Chain, ms: seq<Move>)
    decreases |ms|
  {
    ms == [] || (Enabled(c, ms[0].tile, ms[0].wakes) && Possible(Step(c, ms[0].tile, ms[0].wakes), ms[1..]))
  }

  ghost function Run(c: Chain, ms: seq<Move>): Chain
    requires Possible(c, ms)
    decreases |ms|
  {
    if ms == [] then c else Run(Step(c, ms[0].tile, ms[0].wakes), ms[1..])
  }

  lemma {:induction false} RunKeepsInv(c: Chain, ms: seq<Move>)
    requires Inv(c) && Possible(c, ms) && Sound(c)
    ensures Inv(Run(c, ms))
    decreases |ms|
  {
    if ms != [] {
      var m := ms[0];
      StepKeepsInv(c, m.tile, m.wakes);
      RunKeepsInv(Step(c, m.tile, m.wakes), ms[1..]);
    }
  }

  lemma CreateIsGood(n: nat, rounds: nat, atomicClose: bool)
    ensures Inv(Create(n, rounds, atomicClose))
  {
    var c := Create(n, rounds, atomicClose);
    assert forall i: int :: TileOk(c, i);
    assert forall i: int :: LinkOk(c, i);
  }

  // ---------------------------------------------------------------- it is a barrier

  predicate Entered(t: Tile, k: nat) {
    t.round > k || (t.round == k && !t.pc.Out?)
  }

  /** No tile has left round k unless every tile has entered it. */
  ghost predicate Safe(c: Chain) {
    forall i: nat, j: nat, k: nat :: i < |c.tiles| && j < |c.tiles| && c.tiles[j].round > k ==> Entered(c.tiles[i], k)
  }

  /** A tile that closed round k was told so by its successor. */
  lemma {:induction false} ClosedUpwards(c: Chain, i: nat, j: nat, k: nat)
    requires Inv(c) && i <= j < |c.tiles| && Closed(c.tiles[i]) > k
    ensures Closed(c.tiles[j]) > k
    decreases j
  {
    if i < j {
      ClosedUpwards(c, i, j - 1, k);
      assert LinkOk(c, j) && TileOk(c, j - 1);
    }
  }

  /** The token of round k reached a tile through all tiles before it. */
  lemma {:induction false} RaisedDownwards(c: Chain, i: nat, j: nat, k: nat)
    requires Inv(c) && i <= j < |c.tiles| && Raised(c.tiles[j]) > k
    ensures Raised(c.tiles[i]) > k
    decreases j - i
  {
    if i < j {
      assert LinkOk(c, j) && TileOk(c, j);
      RaisedDownwards(c, i, j - 1, k);
    }
  }

  lemma InvIsSafe(c: Chain)
    requires Inv(c)
    ensures Safe(c)
  {
    forall i: nat, j: nat, k: nat | i < |c.tiles| && j < |c.tiles| && c.tiles[j].round > k
      ensures Entered(c.tiles[i], k)
    {
      var last := |c.tiles| - 1;
      ClosedUpwards(c, j, last, k);
      assert TileOk(c, i) && TileOk(c, last);
      RaisedDownwards(c, i, last, k);
    }
  }

  /** Every run keeps the barrier property and never loses a wake-up. */
  lemma BarrierHolds(n: nat, rounds: nat, atomicClose: bool, ms: seq<Move>)
    requires Possible(Create(n, rounds, atomicClose), ms) && (atomicClose || rounds <= 1 || n <= 1)
    ensures Inv(Run(Create(n, rounds, atomicClose), ms)) && Safe(Run(Create(n, rounds, atomicClose), ms))
  {
    CreateIsGood(n, rounds, atomicClose);
    RunKeepsInv(Create(n, rounds, atomicClose), ms);
    InvIsSafe(Run(Create(n, rounds, atomicClose), ms));
  }

  // ---------------------------------------------------------------- it makes progress

  /** At most one fiber sleeps on a lock, so notify_one suffices. */
  lemma OneSleeper(c: Chain, i: nat, j: nat, k: nat)
    requires Inv(c) && SleepsOn(c, i, k) && SleepsOn(c, j, k)
    ensures i == j
  {
    assert LinkOk(c, k) && TileOk(c, i) && TileOk(c, j);
  }

  lemma {:induction false} SleeperWaitsBelow(c: Chain, i: nat) returns (j: nat)
    requires Inv(c) && i < |c.tiles| && c.tiles[i].asleep && c.tiles[i].pc.WaitSelf?
    ensures CanStep(c, j) && c.tiles[j].round <= c.tiles[i].round
    decreases i
  {
    assert TileOk(c, i) && TileOk(c, i - 1) && LinkOk(c, i);
    j := i - 1;
    if c.tiles[j].asleep { j := SleeperWaitsBelow(c, j); }
  }

  lemma {:induction false} SleeperWaitsAbove(c: Chain, i: nat) returns (j: nat)
    requires Inv(c) && i < |c.tiles| && c.tiles[i].asleep && c.tiles[i].pc.WaitAck?
    ensures CanStep(c, j) && c.tiles[j].round <= c.tiles[i].round
    decreases |c.tiles| - i
  {
    assert TileOk(c, i) && TileOk(c, i + 1) && LinkOk(c, i + 1);
    j := i + 1;
    if c.tiles[j].asleep { j := SleeperWaitsAbove(c, j); }
  }

  /** Until every tile has left its last round some tile, no further than the given one, is
      awake and can step. */
  lemma NoDeadlock(c: Chain, i: nat) returns (j: nat, w: nat)
    requires Inv(c) && i < |c.tiles| && c.tiles[i].round < c.rounds
    ensures Enabled(c, j, w) && c.tiles[j].round <= c.tiles[i].round
  {
    assert TileOk(c, i);
    if !c.tiles[i].asleep {
      j := i;
    } else if c.tiles[i].pc.WaitSelf? {
      j := SleeperWaitsBelow(c, i);
    } else {
      j := SleeperWaitsAbove(c, i);
    }
    assert TileOk(c, j);
    var k := if c.tiles[j].pc.Raise? then j + 1 else j;
    w := if exists x: nat :: SleepsOn(c, x, k) then var x: nat :| SleepsOn(c, x, k); x else 0;
  }

  // ---------------------------------------------------------------- it comes to an end

  /** How far a tile is in its round; a tile that waits is further once it sleeps, and further
      still once the lock has the value it waits for. */
  function Progress(t: Tile, own: bool, next: bool): nat {
    match t.pc
    case Out => 0
    case WaitSelf => if t.asleep then 2 else if own then 3 else 1
    case WaitNextFree => 4
    case Raise => 5
    case WaitAck => if t.asleep then 7 else if next then 6 else 8
    case Close1 => 9
    case Close2 => 10
  }

  /** Twelve for every round left, less what the tile has done of the current one. */
  function TileLeft(c: Chain, i: nat): int
    requires i < |c.tiles| == |c.lock|
  {
    12 * (c.rounds - c.tiles[i].round) - Progress(c.tiles[i], c.lock[i], i + 1 < |c.lock| && c.lock[i + 1])
  }

  lemma TileLeftIsPositive(c: Chain, i: nat)
    requires Inv(c) && i < |c.tiles|
    ensures 0 <= TileLeft(c, i) <= 12 * c.rounds
  {
    assert TileOk(c, i);
  }

  lemma StepKeepsShape(c: Chain, i: nat, w: nat)
    requires Inv(c) && Enabled(c, i, w)
    ensures var c1 := Step(c, i, w); |c1.tiles| == |c1.lock| == |c.tiles| && c1.rounds == c.rounds
  {
  }

  /** A lock operation takes some of what its own tile has left. */
  lemma StepTakes(c: Chain, i: nat, w: nat)
    requires Inv(c) && Enabled(c, i, w)
    ensures var c1 := Step(c, i, w); i < |c1.tiles| == |c1.lock| && TileLeft(c1, i) < TileLeft(c, i)
  {
    assert TileOk(c, i) && LinkOk(c, i) && LinkOk(c, i + 1);
  }

  /** A release changes one lock and may wake one sleeper; that brings others no further back. */
  lemma ReleaseAddsNothing(c: Chain, i: nat, k: nat, value: bool, next: Tile, w: nat, j: nat)
    requires Inv(c) && i < |c.tiles| && 0 < k < |c.tiles| && j < |c.tiles| && j != i
    requires value ==> i + 1 == k
    requires !value ==> i == k
    requires value ==> !c.lock[k]
    ensures var c1 := Release(c, i, k, value, next, w);
            j < |c1.tiles| == |c1.lock| && c1.rounds == c.rounds && TileLeft(c1, j) <= TileLeft(c, j)
  {
    assert TileOk(c, j) && LinkOk(c, j) && LinkOk(c, j + 1);
  }

  /** It adds to no other tile. */
  lemma StepAddsNothing(c: Chain, i: nat, w: nat, j: nat)
    requires Inv(c) && Enabled(c, i, w) && j < |c.tiles| && j != i
    ensures var c1 := Step(c, i, w); j < |c1.tiles| == |c1.lock| && TileLeft(c1, j) <= TileLeft(c, j)
  {
    var t := c.tiles[i];
    assert TileOk(c, i) && LinkOk(c, i + 1);
    if t.pc.Raise? {
      ReleaseAddsNothing(c, i, i + 1, true, t.(pc := WaitAck), w, j);
    } else if t.pc.Close1? {
      ReleaseAddsNothing(c, i, i, false, if c.atomicClose then Leave(t) else t.(pc := Close2), w, j);
    } else if t.pc.Close2? {
      ReleaseAddsNothing(c, i, i, false, Leave(t), w, j);
    } else {
      assert Step(c, i, w) == SetTile(c, i, Step(c, i, w).tiles[i]);
    }
  }

  function NatOf(x: int): nat {
    if x < 0 then 0 else x
  }

  ghost function ChainLeft(c: Chain): nat
    requires |c.lock| == |c.tiles|
  {
    Sum(seq(|c.tiles|, i requires 0 <= i < |c.tiles| => NatOf(TileLeft(c, i))))
  }

  lemma ChainStepTakes(c: Chain, i: nat, w: nat)
    requires Inv(c) && Enabled(c, i, w) && Sound(c)
    ensures Inv(Step(c, i, w)) && ChainLeft(Step(c, i, w)) < ChainLeft(c)
  {
    StepKeepsInv(c, i, w);
    var c1 := Step(c, i, w);
    StepKeepsShape(c, i, w);
    hide Step, Inv, TileLeft;
    var l := seq(|c.tiles|, j requires 0 <= j < |c.tiles| => NatOf(TileLeft(c, j)));
    var l1 := seq(|c1.tiles|, j requires 0 <= j < |c1.tiles| => NatOf(TileLeft(c1, j)));
    forall j: nat | j < |c.tiles| ensures l1[j] <= l[j] - if j == i then 1 else 0 {
      if j == i { StepTakes(c, i, w); } else { StepAddsNothing(c, i, w, j); }
      TileLeftIsPositive(c, j);
      TileLeftIsPositive(c1, j);
    }
    SumShrinks(l, l1, i);
  }

  lemma ChainLeftIsBounded(c: Chain)
    requires Inv(c)
    ensures ChainLeft(c) <= |c.tiles| * (12 * c.rounds)
  {
    assert |c.lock| == |c.tiles|;
    hide Inv, TileLeft;
    var l := seq(|c.tiles|, j requires 0 <= j < |c.tiles| => NatOf(TileLeft(c, j)));
    forall j: nat | j < |c.tiles| ensures l[j] <= 12 * c.rounds { TileLeftIsPositive(c, j); }
    SumBound(l, 12 * c.rounds);
  }

  lemma {:induction false} RunTakes(c: Chain, ms: seq<Move>)
    requires Inv(c) && Possible(c, ms) && Sound(c)
    ensures Inv(Run(c, ms)) && |ms| + ChainLeft(Run(c, ms)) <= ChainLeft(c)
    decreases |ms|
  {
    if ms != [] {
      var m := ms[0];
      ChainStepTakes(c, m.tile, m.wakes);
      RunTakes(Step(c, m.tile, m.wakes), ms[1..]);
    }
  }

  /** Every run has at most twelve lock operations per tile and round, and one that cannot go on
      has led every tile through all its rounds. */
  lemma AllRoundsEnd(n: nat, rounds: nat, atomicClose: bool, ms: seq<Move>)
    requires Possible(Create(n, rounds, atomicClose), ms) && (atomicClose || rounds <= 1 || n <= 1)
    ensures |ms| <= n * (12 * rounds)
    ensures var c := Run(Create(n, rounds, atomicClose), ms);
            (forall i: nat, w: nat :: !Enabled(c, i, w)) ==> forall i: nat :: i < |c.tiles| ==>
                c.tiles[i].round == rounds
  {
    var c0 := Create(n, rounds, atomicClose);
    CreateIsGood(n, rounds, atomicClose);
    RunTakes(c0, ms);
    ChainLeftIsBounded(c0);
    SameRounds(c0, ms);
    var c := Run(c0, ms);
    if forall i: nat, w: nat :: !Enabled(c, i, w) {
      forall i: nat | i < |c.tiles| ensures c.tiles[i].round == rounds {
        assert TileOk(c, i);
        if c.tiles[i].round < rounds { var j, w := NoDeadlock(c, i); }
      }
    }
  }

  lemma {:induction false} SameRounds(c: Chain, ms: seq<Move>)
    requires Possible(c, ms)
    ensures Run(c, ms).rounds == c.rounds
    decreases |ms|
  {
    if ms != [] { SameRounds(Step(c, ms[0].tile, ms[0].wakes), ms[1..]); }
  }
}
