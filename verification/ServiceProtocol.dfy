/**
 What every run of the service protocol keeps: the two counters of a tile differ by at most
 one, the host reads a record only while its tile waits, each request is served once and its
 result reaches the tile that asked, chained requests are served back to back, and the host
 returns only when every tile is done.
 */
module ServiceProtocol {
  import opened Basics
  import opened ServiceModel

  // ---------------------------------------------------------------- the log

  /** The entries of tile i, in order. */
  ghost function Of<D, R>(log: seq<Entry<D, R>>, i: nat): seq<Entry<D, R>> {
    if log == [] then []
    else
      var last := log[|log| - 1];
      Of(log[..|log| - 1], i) + if last.tile == i then [last] else []
  }

  ghost function Rets<D, R>(es: seq<Entry<D, R>>): seq<R> {
    seq(|es|, j requires 0 <= j < |es| => es[j].ret)
  }

  lemma OfAppend<D, R>(log: seq<Entry<D, R>>, e: Entry<D, R>, i: nat)
    ensures Of(log + [e], i) == Of(log, i) + if e.tile == i then [e] else []
  {
    assert (log + [e])[..|log|] == log;
  }

  /** The state of the services after the logged requests. */
  ghost function Replay<D, R, S>(sys: System<D, R, S>, log: seq<Entry<D, R>>): S {
    if log == [] then sys.init
    else
      var last := log[|log| - 1];
      sys.act(Replay(sys, log[..|log| - 1]), last.tile, last.request).0
  }

  /** Every logged result is what the service computed from the data the tile sent. */
  ghost predicate Computed<D, R, S>(sys: System<D, R, S>, log: seq<Entry<D, R>>, k: int) {
    0 <= k < |log| ==> log[k].ret == sys.act(Replay(sys, log[..k]), log[k].tile, log[k].request).1
  }

  predicate LastChained<D, R>(log: seq<Entry<D, R>>) {
    log != [] && log[|log| - 1].request.chained
  }

  /** A chained request is followed at once by the next request of the same tile. */
  predicate ChainKept<D, R>(log: seq<Entry<D, R>>, k: int) {
    0 <= k < |log| - 1 && log[k].request.chained ==> log[k + 1].tile == log[k].tile
  }

  ghost function DoneTiles<D, R>(log: seq<Entry<D, R>>): set<nat> {
    set k | 0 <= k < |log| && log[k].request.index == 0 :: log[k].tile
  }

  // ---------------------------------------------------------------- invariant

  predicate At<D, R, S>(s: State<D, R, S>, i: nat) {
    s.host.at == i && !s.host.pc.Returned?
  }

  /** The host is between the two barriers of tile i. */
  predicate Between<D, R, S>(s: State<D, R, S>, i: nat) {
    At(s, i) && (s.host.pc.Joined? || s.host.pc.Loaded? || s.host.pc.Stored?)
  }

  /** The result of tile i is stored and the tile has not picked it up. */
  predicate Pending<D, R, S>(s: State<D, R, S>, i: nat)
    requires i < |s.tiles|
  {
    if At(s, i) && (s.host.pc.Stored? || s.host.pc.Seen2?) then true
    else if At(s, i) && (s.host.pc.Joined? || s.host.pc.Loaded?) then false
    else s.tiles[i].pc.Arrived2?
  }

  predicate CountersOk<D, R, S>(s: State<D, R, S>, i: nat)
    requires i < |s.tiles|
  {
    var d := s.tiles[i];
    && d.dev < U32 && d.host < U32
    && if At(s, i) && s.host.pc.Seen1? then d.pc.Arrived1? && d.dev == Bump(d.host)
       else if Between(s, i) then
         ((d.pc.Arrived1? || d.pc.Passed1?) && d.dev == d.host) || (d.pc.Arrived2? && d.dev == Bump(d.host))
       else if At(s, i) && s.host.pc.Seen2? then d.pc.Arrived2? && d.dev == Bump(d.host)
       else if d.pc.Arrived1? then d.dev == Bump(d.host)
       else !d.pc.Passed1? && d.dev == d.host
  }

  ghost predicate ServedOk<D, R, S>(sys: System<D, R, S>, s: State<D, R, S>, i: nat)
    requires i < |s.tiles|
  {
    var d, es := s.tiles[i], Of(s.log, i);
    && Rets(es) == (if Pending(s, i) then d.got + [d.ret] else d.got)
    && (forall j :: 0 <= j < |es| ==> es[j].request == sys.next(i, Rets(es)[..j]))
    && (forall j :: 0 <= j < |d.got| && es[j].request.index == 0 ==> d.pc.Halted?)
  }

  ghost predicate TileInv<D, R, S>(sys: System<D, R, S>, s: State<D, R, S>, i: nat) {
    i < |s.tiles| ==>
      var d := s.tiles[i];
      && CountersOk(s, i)
      && ServedOk(sys, s, i)
      && (d.pc.Written? || d.pc.Arrived1? || d.pc.Passed1? || d.pc.Arrived2? ==> d.record == sys.next(i, d.got))
      && (At(s, i) && s.host.pc.Loaded? ==> s.host.copy == d.record)
  }

  predicate ChainInv<D, R, S>(s: State<D, R, S>) {
    var h, log := s.host, s.log;
    && (h.pc.Returned? ==> !LastChained(log))
    && (h.pc.Poll? || h.pc.Seen1? || h.pc.Joined? ==> h.chain == LastChained(log))
    && (h.pc.Loaded? ==> h.chain == h.copy.chained)
    && (h.pc.Stored? || h.pc.Seen2? ==> log != [] && log[|log| - 1].tile == h.at && h.chain == LastChained(log))
    && (LastChained(log) && !h.pc.Returned? ==> log[|log| - 1].tile == h.at)
  }

  ghost predicate LogInv<D, R, S>(sys: System<D, R, S>, s: State<D, R, S>) {
    && s.services == Replay(sys, s.log)
    && (forall k: int :: Computed(sys, s.log, k))
    && (forall k: int :: ChainKept(s.log, k))
    && (forall k :: 0 <= k < |s.log| ==> s.log[k].tile < |s.tiles|)
  }

  ghost predicate DoneInv<D, R, S>(s: State<D, R, S>) {
    && s.host.done == |DoneTiles(s.log)| + (if s.host.pc.Loaded? && s.host.copy.index == 0 then 1 else 0)
    && (s.host.pc.Returned? ==> s.host.done >= |s.tiles|)
  }

  ghost predicate Inv<D, R, S>(sys: System<D, R, S>, s: State<D, R, S>) {
    && (!s.host.pc.Returned? ==> s.host.at < |s.tiles|)
    && (forall i: nat :: TileInv(sys, s, i))
    && ChainInv(s) && LogInv(sys, s) && DoneInv(s)
  }

  // ---------------------------------------------------------------- device steps

  lemma DeviceStepKeepsTile<D, R, S>(sys: System<D, R, S>, s: State<D, R, S>, i: nat)
    requires Inv(sys, s) && CanStep(sys, s, Tile(i))
    ensures TileInv(sys, Step(sys, s, Tile(i)), i)
  {
    assert TileInv(sys, s, i);
    var d, es := s.tiles[i], Of(s.log, i);
    if d.pc.Arrived2? {
      assert Pending(s, i);
      assert |es| == |d.got| + 1 && es[|d.got|].request == sys.next(i, Rets(es)[..|d.got|]);
      assert Rets(es)[..|d.got|] == d.got;
    }
  }

  lemma DeviceStepKeepsInv<D, R, S>(sys: System<D, R, S>, s: State<D, R, S>, i: nat)
    requires Inv(sys, s) && CanStep(sys, s, Tile(i))
    ensures Inv(sys, Step(sys, s, Tile(i)))
  {
    var s1 := Step(sys, s, Tile(i));
    forall j: nat ensures TileInv(sys, s1, j) {
      assert TileInv(sys, s, j);
      if j == i { DeviceStepKeepsTile(sys, s, i); }
    }
  }

  // ---------------------------------------------------------------- host steps

  lemma HostMoveKeepsTile<D, R, S>(sys: System<D, R, S>, s: State<D, R, S>, j: nat)
    requires Inv(sys, s) && CanStep(sys, s, TheHost) && !s.host.pc.Loaded?
    ensures TileInv(sys, Step(sys, s, TheHost), j)
  {
    hide Of, Rets, Bump, DoneInv, LogInv, ChainInv;
    assert TileInv(sys, s, j) && TileInv(sys, s, s.host.at);
    var s1 := Step(sys, s, TheHost);
    if j < |s.tiles| {
      assert s1.log == s.log && s1.tiles[j] == s.tiles[j].(host := s1.tiles[j].host);
      assert CountersOk(s1, j);
      assert Pending(s1, j) == Pending(s, j);
    }
  }

  lemma ServeKeepsTile<D, R, S>(sys: System<D, R, S>, s: State<D, R, S>, j: nat)
    requires Inv(sys, s) && CanStep(sys, s, TheHost) && s.host.pc.Loaded?
    ensures TileInv(sys, Step(sys, s, TheHost), j)
  {
    hide Of, DoneInv, LogInv, ChainInv, Bump;
    assert TileInv(sys, s, j);
    var s1 := Step(sys, s, TheHost);
    var e := s1.log[|s.log|];
    OfAppend(s.log, e, j);
    assert s1.log == s.log + [e];
    var es := Of(s.log, j);
    assert Of(s1.log, j) == if j == s.host.at then es + [e] else es;
    if j == s.host.at {
      var d := s.tiles[j];
      assert Rets(es + [e]) == Rets(es) + [e.ret];
      assert forall k :: 0 <= k <= |es| ==> Rets(es + [e])[..k] == Rets(es)[..k];
      assert Rets(es)[..|es|] == d.got;
      assert e.request == sys.next(j, d.got);
    }
  }

  lemma HostStepKeepsChain<D, R, S>(sys: System<D, R, S>, s: State<D, R, S>)
    requires Inv(sys, s) && CanStep(sys, s, TheHost)
    ensures ChainInv(Step(sys, s, TheHost))
  {
  }

  lemma ServeKeepsLog<D, R, S>(sys: System<D, R, S>, s: State<D, R, S>)
    requires Inv(sys, s) && CanStep(sys, s, TheHost) && s.host.pc.Loaded?
    ensures LogInv(sys, Step(sys, s, TheHost))
  {
    hide TileInv, DoneInv;
    var s1 := Step(sys, s, TheHost);
    assert s1.log[..|s.log|] == s.log;
    forall k: int ensures Computed(sys, s1.log, k) {
      assert Computed(sys, s.log, k);
      assert 0 <= k < |s.log| ==> s1.log[..k] == s.log[..k];
    }
    forall k: int ensures ChainKept(s1.log, k) {
      assert ChainKept(s.log, k);
    }
  }

  lemma {:induction false} OfContains<D, R>(log: seq<Entry<D, R>>, k: nat) returns (j: nat)
    requires k < |log|
    ensures j < |Of(log, log[k].tile)| && Of(log, log[k].tile)[j] == log[k]
    decreases |log|
  {
    var n := |log| - 1;
    if k == n {
      j := |Of(log[..n], log[k].tile)|;
    } else {
      j := OfContains(log[..n], k);
    }
  }

  /** A tile whose request is being served has not reported done before. */
  lemma ServedTileIsNotDone<D, R, S>(sys: System<D, R, S>, s: State<D, R, S>)
    requires Inv(sys, s) && CanStep(sys, s, TheHost) && s.host.pc.Loaded?
    ensures s.host.at !in DoneTiles(s.log)
  {
    var i := s.host.at;
    assert TileInv(sys, s, i);
    assert |Of(s.log, i)| == |Rets(Of(s.log, i))| == |s.tiles[i].got|;
    if i in DoneTiles(s.log) {
      var k: nat :| k < |s.log| && s.log[k].request.index == 0 && s.log[k].tile == i;
      var j := OfContains(s.log, k);
    }
  }

  lemma HostStepKeepsDone<D, R, S>(sys: System<D, R, S>, s: State<D, R, S>)
    requires Inv(sys, s) && CanStep(sys, s, TheHost)
    ensures DoneInv(Step(sys, s, TheHost))
  {
    var s1 := Step(sys, s, TheHost);
    if s.host.pc.Loaded? {
      ServedTileIsNotDone(sys, s);
      DoneAppend(s.log, s1.log[|s.log|]);
    }
    hide DoneTiles, LogInv, ChainInv, TileInv;
  }

  lemma DoneAppend<D, R>(log: seq<Entry<D, R>>, e: Entry<D, R>)
    ensures DoneTiles(log + [e]) == DoneTiles(log) + if e.request.index == 0 then {e.tile} else {}
  {
    var log1 := log + [e];
    forall x | x in DoneTiles(log) ensures x in DoneTiles(log1) {
      var k :| 0 <= k < |log| && log[k].request.index == 0 && log[k].tile == x;
      assert log1[k] == log[k];
    }
    if e.request.index == 0 { assert log1[|log|] == e; }
  }

  lemma HostStepKeepsInv<D, R, S>(sys: System<D, R, S>, s: State<D, R, S>)
    requires Inv(sys, s) && CanStep(sys, s, TheHost)
    ensures Inv(sys, Step(sys, s, TheHost))
  {
    hide TileInv, DoneTiles, Of, ChainInv, DoneInv;
    var s1 := Step(sys, s, TheHost);
    HostStepKeepsChain(sys, s);
    HostStepKeepsDone(sys, s);
    if s.host.pc.Loaded? { ServeKeepsLog(sys, s); }
    forall j: nat ensures TileInv(sys, s1, j) {
      if s.host.pc.Loaded? { ServeKeepsTile(sys, s, j); } else { HostMoveKeepsTile(sys, s, j); }
    }
  }

  lemma {:induction false} RunKeepsInv<D, R, S>(sys: System<D, R, S>, s: State<D, R, S>, acts: seq<Actor>)
    requires Inv(sys, s) && Possible(sys, s, acts)
    ensures Inv(sys, Run(sys, s, acts))
    decreases |acts|
  {
    if acts != [] {
      match acts[0] {
        case Tile(i) => DeviceStepKeepsInv(sys, s, i);
        case TheHost => HostStepKeepsInv(sys, s);
      }
      RunKeepsInv(sys, Step(sys, s, acts[0]), acts[1..]);
    }
  }

  lemma StartIsGood<D, R, S>(sys: System<D, R, S>, s: State<D, R, S>)
    requires Start(sys, s)
    ensures Inv(sys, s)
  {
    forall i: nat ensures TileInv(sys, s, i) {
    }
    assert DoneTiles(s.log) == {};
    assert forall k: int :: Computed(sys, s.log, k);
    assert forall k: int :: ChainKept(s.log, k);
  }

  // ---------------------------------------------------------------- main results

  /** In every run the device counter is the host counter or its successor modulo 2^32. */
  lemma CountersStayClose<D, R, S>(sys: System<D, R, S>, s: State<D, R, S>, acts: seq<Actor>, i: nat)
    requires Start(sys, s) && Possible(sys, s, acts) && i < |Run(sys, s, acts).tiles|
    ensures var d := Run(sys, s, acts).tiles[i];
            d.dev < U32 && d.host < U32 && ((d.dev - d.host) % U32 == 0 || (d.dev - d.host) % U32 == 1)
  {
    StartIsGood(sys, s);
    RunKeepsInv(sys, s, acts);
    assert TileInv(sys, Run(sys, s, acts), i);
  }

  /** Whenever the host reads a record or stores a result, the tile sits between its two
      barriers and the record is the request it is waiting for. */
  lemma HostReadsStableRecord<D, R, S>(sys: System<D, R, S>, s: State<D, R, S>, acts: seq<Actor>)
    requires Start(sys, s) && Possible(sys, s, acts)
    ensures var t := Run(sys, s, acts);
            (t.host.pc.Joined? || t.host.pc.Loaded?) ==>
              && t.host.at < |t.tiles|
              && var d := t.tiles[t.host.at];
                 && (d.pc.Arrived1? || d.pc.Passed1? || d.pc.Arrived2?)
                 && d.record == sys.next(t.host.at, d.got)
                 && (t.host.pc.Loaded? ==> t.host.copy == d.record)
  {
    StartIsGood(sys, s);
    RunKeepsInv(sys, s, acts);
    assert TileInv(sys, Run(sys, s, acts), Run(sys, s, acts).host.at);
  }

  /** Each request is served once, in order: the log of tile i is the sequence of requests its
      program makes when it gets the logged results, the results the tile has got are the
      logged ones, and every logged result is what the services computed when it was served. */
  lemma EachRequestServedOnce<D, R, S>(sys: System<D, R, S>, s: State<D, R, S>, acts: seq<Actor>, i: nat)
    requires Start(sys, s) && Possible(sys, s, acts) && i < |Run(sys, s, acts).tiles|
    ensures var t := Run(sys, s, acts);
            var es, got := Of(t.log, i), t.tiles[i].got;
            && got <= Rets(es) && |es| <= |got| + 1
            && (forall j :: 0 <= j < |es| ==> es[j].request == sys.next(i, Rets(es)[..j]))
            && t.services == Replay(sys, t.log) && (forall k: int :: Computed(sys, t.log, k))
  {
    StartIsGood(sys, s);
    RunKeepsInv(sys, s, acts);
    assert TileInv(sys, Run(sys, s, acts), i);
  }

  lemma ChainedRequestsStayTogether<D, R, S>(sys: System<D, R, S>, s: State<D, R, S>, acts: seq<Actor>, k: int)
    requires Start(sys, s) && Possible(sys, s, acts)
    ensures ChainKept(Run(sys, s, acts).log, k)
  {
    StartIsGood(sys, s);
    RunKeepsInv(sys, s, acts);
  }

  lemma {:induction false} SmallSet(a: set<nat>, n: nat)
    requires forall x :: x in a ==> x < n
    ensures |a| <= n && (|a| == n ==> forall x: nat :: x < n ==> x in a)
    decreases n
  {
    if n > 0 {
      SmallSet(a - {n - 1}, n - 1);
      assert |a| == |a - {n - 1}| + if n - 1 in a then 1 else 0;
      if |a| == n {
        forall x: nat | x < n ensures x in a { assert x < n - 1 ==> x in a - {n - 1}; }
      }
    } else {
      assert a == {};
    }
  }

  /** wait_all returns only when every tile has sent its done request. */
  lemma ReturnsWhenAllDone<D, R, S>(sys: System<D, R, S>, s: State<D, R, S>, acts: seq<Actor>, i: nat)
    requires Start(sys, s) && Possible(sys, s, acts)
    ensures var t := Run(sys, s, acts);
            t.host.pc.Returned? && i < |t.tiles| ==> i in DoneTiles(t.log)
  {
    StartIsGood(sys, s);
    RunKeepsInv(sys, s, acts);
    var t := Run(sys, s, acts);
    SmallSet(DoneTiles(t.log), |t.tiles|);
  }
}
