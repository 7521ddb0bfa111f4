/**
 When the closing releases can be separated by a fiber switch and the barrier is used more
 than once, the second release can wipe out the token of the next round. The barrier
 therefore holds in every run exactly for atomic closing, a single round, or a single tile.
 */
module ChainBarrierExact {
  import opened ChainBarrier

  // ---------------------------------------------------------------- building runs

  /** A run in which tile i only moves in its round rr[i]. */
  ghost predicate Guarded(c: Chain, ms: seq<Move>, rr: seq<nat>)
    decreases |ms|
  {
    ms == [] ||
    (&& Enabled(c, ms[0].tile, ms[0].wakes) && ms[0].tile < |rr| && c.tiles[ms[0].tile].round == rr[ms[0].tile]
     && Guarded(Step(c, ms[0].tile, ms[0].wakes), ms[1..], rr))
  }

  lemma {:induction false} GuardedIsPossible(c: Chain, ms: seq<Move>, rr: seq<nat>)
    requires Guarded(c, ms, rr)
    ensures Possible(c, ms) && |Run(c, ms).tiles| == |c.tiles|
    decreases |ms|
  {
    if ms != [] { GuardedIsPossible(Step(c, ms[0].tile, ms[0].wakes), ms[1..], rr); }
  }

  lemma {:induction false} RunAppend(c: Chain, ms: seq<Move>, ns: seq<Move>)
    requires Possible(c, ms) && Possible(Run(c, ms), ns)
    ensures Possible(c, ms + ns) && Run(c, ms + ns) == Run(Run(c, ms), ns)
    decreases |ms|
  {
    hide Enabled, Step;
    if ms == [] {
      assert ms + ns == ns;
    } else {
      RunAppend(Step(c, ms[0].tile, ms[0].wakes), ms[1..], ns);
      assert (ms + ns)[1..] == ms[1..] + ns;
    }
  }

  /** ms leads from c to d. */
  ghost predicate Leads(c: Chain, ms: seq<Move>, rr: seq<nat>, d: Chain) {
    Guarded(c, ms, rr) && Possible(c, ms) && Run(c, ms) == d
  }

  lemma Nothing(c: Chain, rr: seq<nat>)
    ensures Leads(c, [], rr, c)
  {
  }

  /** One more step of tile i, on a chain where nobody sleeps. */
  lemma {:induction false} Then(c: Chain, ms: seq<Move>, rr: seq<nat>, d: Chain, i: nat, e: Chain)
      returns (ns: seq<Move>)
    requires Leads(c, ms, rr, d) && Enabled(d, i, i) && Step(d, i, i) == e && i < |rr| && d.tiles[i].round == rr[i]
    ensures Leads(c, ns, rr, e)
    decreases |ms|
  {
    hide Enabled, Step;
    if ms == [] {
      ns := [Move(i, i)];
      assert ns[1..] == [];
      Nothing(e, rr);
    } else {
      var c1 := Step(c, ms[0].tile, ms[0].wakes);
      var rest := Then(c1, ms[1..], rr, d, i, e);
      ns := [ms[0]] + rest;
      assert ns[1..] == rest;
    }
  }

  // ---------------------------------------------------------------- one round

  function Same(n: nat, r: nat): seq<nat> {
    seq(n, _ => r)
  }

  /** Every tile is between rounds r - 1 and r. */
  function Uniform(n: nat, r: nat, rounds: nat): Chain {
    Chain(seq(n, _ => Tile(r, Out, false)), seq(n, _ => false), rounds, false)
  }

  /** The token has gone over locks 1 to k; the tiles before k wait for it to come back. */
  function Forward(n: nat, k: nat, r: nat, rounds: nat): Chain {
    Chain(seq(n, i => Tile(r, if i < k then WaitAck else Out, false)), seq(n, i => 1 <= i <= k), rounds, false)
  }

  /** The tiles after k have left round r and tile k is about to close. */
  function Backward(n: nat, k: nat, r: nat, rounds: nat): Chain {
    Chain(seq(n, i => if i < k then Tile(r, WaitAck, false)
                      else if i == k then Tile(r, Close1, false) else Tile(r + 1, Out, false)),
          seq(n, i => 1 <= i <= k), rounds, false)
  }

  /** Everyone has left round r except tile 1, which still has its second release to do. */
  function HalfClosed(n: nat, r: nat, rounds: nat): Chain {
    Chain(seq(n, i => if i == 1 then Tile(r, Close2, false) else Tile(r + 1, Out, false)),
          seq(n, _ => false), rounds, false)
  }

  lemma {:induction false} GoForward(n: nat, k: nat, r: nat, rounds: nat) returns (ms: seq<Move>)
    requires k < n && r < rounds
    ensures Leads(Uniform(n, r, rounds), ms, Same(n, r), Forward(n, k, r, rounds))
    decreases k
  {
    hide Leads;
    var c, rr := Uniform(n, r, rounds), Same(n, r);
    if k == 0 {
      ms := [];
      Nothing(c, rr);
      assert c.tiles == Forward(n, 0, r, rounds).tiles && c.lock == Forward(n, 0, r, rounds).lock;
    } else {
      var i := k - 1;
      ms := GoForward(n, i, r, rounds);
      var f := Forward(n, i, r, rounds);
      var f0 := if i > 0 then SetTile(f, i, Tile(r, WaitSelf, false)) else f;
      if i > 0 {
        ms := Then(c, ms, rr, f, i, f0);
      }
      var f1 := SetTile(f, i, Tile(r, WaitNextFree, false));
      ms := Then(c, ms, rr, f0, i, f1);
      var f2 := SetTile(f, i, Tile(r, Raise, false));
      ms := Then(c, ms, rr, f1, i, f2);
      var f3 := SetTile(f.(lock := f.lock[k := true]), i, Tile(r, WaitAck, false));
      ms := Then(c, ms, rr, f2, i, f3);
      assert f3 == Forward(n, k, r, rounds) by {
        assert f.lock[k := true] == Forward(n, k, r, rounds).lock;
        assert f.tiles[i := Tile(r, WaitAck, false)] == Forward(n, k, r, rounds).tiles;
      }
    }
  }

  lemma {:induction false} GoBackward(n: nat, k: nat, r: nat, rounds: nat) returns (ms: seq<Move>)
    requires 0 < k < n && r < rounds
    ensures Leads(Uniform(n, r, rounds), ms, Same(n, r), Backward(n, k, r, rounds))
    decreases n - k
  {
    hide Leads, Uniform;
    var c, rr := Uniform(n, r, rounds), Same(n, r);
    var b := Backward(n, k, r, rounds);
    if k == n - 1 {
      ms := GoForward(n, k, r, rounds);
      var f := Forward(n, k, r, rounds);
      var f1 := SetTile(f, k, Tile(r, WaitSelf, false));
      ms := Then(c, ms, rr, f, k, f1);
      assert SetTile(f, k, Tile(r, Close1, false)) == b by {
        assert f.tiles[k := Tile(r, Close1, false)] == b.tiles;
        assert f.lock == b.lock;
      }
      ms := Then(c, ms, rr, f1, k, b);
    } else {
      var j := k + 1;
      ms := GoBackward(n, j, r, rounds);
      var f := Backward(n, j, r, rounds);
      var f1 := SetTile(f.(lock := f.lock[j := false]), j, Tile(r, Close2, false));
      ms := Then(c, ms, rr, f, j, f1);
      var f2 := SetTile(f1, j, Tile(r + 1, Out, false));
      assert f1.lock[j := false] == f1.lock;
      ms := Then(c, ms, rr, f1, j, f2);
      assert SetTile(f2, k, Tile(r, Close1, false)) == b by {
        assert f2.tiles[k := Tile(r, Close1, false)] == b.tiles;
        assert f2.lock == b.lock;
      }
      ms := Then(c, ms, rr, f2, k, b);
    }
  }

  lemma GoHalf(n: nat, r: nat, rounds: nat) returns (ms: seq<Move>)
    requires n >= 2 && r < rounds
    ensures Leads(Uniform(n, r, rounds), ms, Same(n, r), HalfClosed(n, r, rounds))
  {
    hide Leads, Uniform;
    var c, rr := Uniform(n, r, rounds), Same(n, r);
    ms := GoBackward(n, 1, r, rounds);
    var b := Backward(n, 1, r, rounds);
    var s := SetTile(b.(lock := b.lock[1 := false]), 1, Tile(r, Close2, false));
    ms := Then(c, ms, rr, b, 1, s);
    var h := SetTile(s, 0, Tile(r + 1, Out, false));
    ms := Then(c, ms, rr, s, 0, h);
    assert h == HalfClosed(n, r, rounds) by {
      assert h.tiles == HalfClosed(n, r, rounds).tiles && h.lock == HalfClosed(n, r, rounds).lock;
    }
  }

  /** A whole round, everyone in turn. */
  lemma FullRound(n: nat, r: nat, rounds: nat) returns (ms: seq<Move>)
    requires n >= 1 && r < rounds
    ensures Leads(Uniform(n, r, rounds), ms, Same(n, r), Uniform(n, r + 1, rounds))
  {
    hide Leads;
    var c, d, rr := Uniform(n, r, rounds), Uniform(n, r + 1, rounds), Same(n, r);
    if n == 1 {
      Nothing(c, rr);
      assert c.tiles[0 := Tile(r + 1, Out, false)] == d.tiles;
      ms := Then(c, [], rr, c, 0, d);
    } else {
      ms := GoHalf(n, r, rounds);
      var h := HalfClosed(n, r, rounds);
      assert h.tiles[1 := Tile(r + 1, Out, false)] == d.tiles && h.lock[1 := false] == d.lock;
      ms := Then(c, ms, rr, h, 1, d);
    }
  }

  // ---------------------------------------------------------------- the token is lost

  /** Tile 0 has left the second round and nobody else has entered it. */
  function Lost(n: nat, rounds: nat): Chain {
    Chain(seq(n, i => Tile(if i == 0 then 2 else 1, Out, false)), seq(n, _ => false), rounds, false)
  }

  /** Tile 0 raises the lock of tile 1 for the second round; the second release of the first
      round lowers it again. */
  lemma LoseToken(n: nat, rounds: nat) returns (ms: seq<Move>)
    requires n >= 2 && rounds >= 2
    ensures Leads(HalfClosed(n, 0, rounds), ms, Same(n, 0)[0 := 1], Lost(n, rounds))
  {
    hide Leads;
    var s, rr := HalfClosed(n, 0, rounds), Same(n, 0)[0 := 1];
    Nothing(s, rr);
    var s1 := SetTile(s, 0, Tile(1, WaitNextFree, false));
    ms := Then(s, [], rr, s, 0, s1);
    var s2 := SetTile(s, 0, Tile(1, Raise, false));
    ms := Then(s, ms, rr, s1, 0, s2);
    var s3 := SetTile(s.(lock := s.lock[1 := true]), 0, Tile(1, WaitAck, false));
    ms := Then(s, ms, rr, s2, 0, s3);
    assert s.lock[1 := true][1 := false] == s.lock;
    var s4 := SetTile(SetTile(s, 0, Tile(1, WaitAck, false)), 1, Tile(1, Out, false));
    ms := Then(s, ms, rr, s3, 1, s4);
    var s5 := SetTile(s4, 0, Tile(2, Out, false));
    ms := Then(s, ms, rr, s4, 0, s5);
    assert s5 == Lost(n, rounds) by {
      assert s5.tiles == Lost(n, rounds).tiles;
    }
  }

  lemma TokenIsLost(n: nat, rounds: nat) returns (ms: seq<Move>)
    requires n >= 2 && rounds >= 2
    ensures Possible(Create(n, rounds, false), ms) && !Safe(Run(Create(n, rounds, false), ms))
  {
    ms := GoHalf(n, 0, rounds);
    var ns := LoseToken(n, rounds);
    assert Create(n, rounds, false) == Uniform(n, 0, rounds);
    RunAppend(Uniform(n, 0, rounds), ms, ns);
    ms := ms + ns;
    var last := Lost(n, rounds);
    assert !Entered(last.tiles[1], 1) && last.tiles[0].round > 1;
  }

  ghost predicate AlwaysSafe(n: nat, rounds: nat, atomicClose: bool) {
    forall ms: seq<Move> ::
      Possible(Create(n, rounds, atomicClose), ms) ==> Safe(Run(Create(n, rounds, atomicClose), ms))
  }

  lemma BarrierHoldsIff(n: nat, rounds: nat, atomicClose: bool)
    ensures AlwaysSafe(n, rounds, atomicClose) <==> atomicClose || rounds <= 1 || n <= 1
  {
    var c := Create(n, rounds, atomicClose);
    if atomicClose || rounds <= 1 || n <= 1 {
      forall ms: seq<Move> | Possible(c, ms) ensures Safe(Run(c, ms)) {
        BarrierHolds(n, rounds, atomicClose, ms);
      }
    } else {
      var ms := TokenIsLost(n, rounds);
    }
  }
}
