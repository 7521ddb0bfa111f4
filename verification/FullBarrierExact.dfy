/**
 The full barrier holds in every run exactly for atomic closing, a single round, or a grid of
 at most one tile: in a larger grid the token of the second round can be lost in all columns,
 or in the only row.
 */
module FullBarrierExact {
  import opened ChainBarrier
  import opened ChainBarrierExact
  import opened GridBarrier
  import opened FullBarrier

  ghost predicate GridLeads(g: Grid, ms: seq<GridMove>, h: Grid) {
    GridPossible(g, ms) && GridRun(g, ms) == h
  }

  lemma {:induction false} GridThen(g: Grid, ms: seq<GridMove>, h: Grid, ns: seq<GridMove>, k: Grid)
    requires GridLeads(g, ms, h) && GridLeads(h, ns, k)
    ensures GridLeads(g, ms + ns, k)
    decreases |ms|
  {
    hide GridEnabled, GridStep;
    if ms == [] {
      assert ms + ns == ns;
    } else {
      GridThen(GridStep(g, ms[0].x, ms[0].y, ms[0].wakes), ms[1..], h, ns, k);
      assert (ms + ns)[1..] == ms[1..] + ns;
    }
  }

  // ---------------------------------------------------------------- runs of one chain in the grid

  lemma StepKeepsSize(c: Chain, i: nat, w: nat)
    requires Enabled(c, i, w)
    ensures |ChainBarrier.Step(c, i, w).tiles| == |c.tiles|
  {
  }

  /** A run of column x in which every tile is in its column barrier. */
  lemma {:induction false} LiftColumn(g: Grid, x: nat, ms: seq<Move>, rr: seq<nat>, d: Chain)
      returns (ns: seq<GridMove>)
    requires g.Shape() && x < g.sizeX && |rr| == g.sizeY && Leads(g.cols[x], ms, rr, d)
    requires forall y: nat :: y < g.sizeY ==> g.Row(x, y).round == rr[y]
    ensures GridLeads(g, ns, g.(cols := g.cols[x := d])) && |d.tiles| == g.sizeY
    decreases |ms|
  {
    if ms == [] {
      ns := [];
      assert g.cols[x := d] == g.cols;
    } else {
      var m := ms[0];
      StepKeepsSize(g.cols[x], m.tile, m.wakes);
      var g1 := GridStep(g, x, m.tile, m.wakes);
      var rest := LiftColumn(g1, x, ms[1..], rr, d);
      ns := [GridMove(x, m.tile, m.wakes)] + rest;
      assert ns[1..] == rest;
      assert g1.cols[x := d] == g.cols[x := d];
    }
  }

  /** A run of row y in which every tile is in its row barrier. */
  lemma {:induction false} LiftRow(g: Grid, y: nat, ms: seq<Move>, rr: seq<nat>, d: Chain) returns (ns: seq<GridMove>)
    requires g.Shape() && y < g.sizeY && |rr| == g.sizeX && Leads(g.rows[y], ms, rr, d)
    requires forall x: nat :: x < g.sizeX ==> g.Col(x, y).round != rr[RowIndex(x, y, g.sizeX)]
    ensures GridLeads(g, ns, g.(rows := g.rows[y := d])) && |d.tiles| == g.sizeX
    decreases |ms|
  {
    if ms == [] {
      ns := [];
      assert g.rows[y := d] == g.rows;
    } else {
      var m := ms[0];
      StepKeepsSize(g.rows[y], m.tile, m.wakes);
      var x: nat := RowIndex(m.tile, y, g.sizeX);
      assert RowIndex(x, y, g.sizeX) == m.tile;
      var g1 := GridStep(g, x, y, m.wakes);
      var rest := LiftRow(g1, y, ms[1..], rr, d);
      ns := [GridMove(x, y, m.wakes)] + rest;
      assert ns[1..] == rest;
      assert g1.rows[y := d] == g.rows[y := d];
    }
  }

  /** Columns before x are in state d, the others in state c. */
  function Columns(g: Grid, c: Chain, d: Chain, x: nat): Grid {
    g.(cols := seq(g.sizeX, i => if i < x then d else c))
  }

  /** The same run in the first x columns. */
  lemma {:induction false} LiftColumns(g: Grid, c: Chain, d: Chain, ms: seq<Move>, rr: seq<nat>, x: nat)
      returns (ns: seq<GridMove>)
    requires |g.rows| == g.sizeY && |c.tiles| == |d.tiles| == |rr| == g.sizeY && x <= g.sizeX && Leads(c, ms, rr, d)
    requires forall y :: 0 <= y < g.sizeY ==> |g.rows[y].tiles| == g.sizeX
    requires forall i: nat, y: nat :: i < g.sizeX && y < g.sizeY ==> g.rows[y].tiles[i].round == rr[y]
    ensures GridLeads(Columns(g, c, d, 0), ns, Columns(g, c, d, x))
    decreases x
  {
    hide Leads, GridLeads;
    var g0 := Columns(g, c, d, 0);
    if x == 0 {
      ns := [];
      assert GridLeads(g0, ns, g0) by { GridNothing(g0); }
    } else {
      ns := LiftColumns(g, c, d, ms, rr, x - 1);
      var g1 := Columns(g, c, d, x - 1);
      assert g1.Shape();
      var more := LiftColumn(g1, x - 1, ms, rr, d);
      assert g1.cols[x - 1 := d] == Columns(g, c, d, x).cols;
      GridThen(g0, ns, g1, more, Columns(g, c, d, x));
      ns := ns + more;
    }
  }

  lemma GridNothing(g: Grid)
    ensures GridLeads(g, [], g)
  {
  }

  // ---------------------------------------------------------------- losing the token

  /** Tile (x, y) has left the second full barrier and tile (a, b) has not entered it. */
  ghost predicate Broken(g: Grid, x: nat, y: nat, a: nat, b: nat) {
    && g.Shape() && x < g.sizeX && y < g.sizeY && a < g.sizeX && b < g.sizeY
    && g.Row(x, y).round > 1 && !Entered(g.Col(a, b), 1)
  }

  /** All columns in state c; row 0 between rounds r - 1 and r, the others before round 0. */
  function Stage(sizeX: nat, sizeY: nat, rounds: nat, c: Chain, r: nat): Grid {
    Grid(sizeX, sizeY, seq(sizeX, _ => c), seq(sizeY, y => Uniform(sizeX, if y == 0 then r else 0, rounds)))
  }

  lemma StageShape(sizeX: nat, sizeY: nat, rounds: nat, c: Chain, r: nat)
    requires |c.tiles| == sizeY
    ensures var g := Stage(sizeX, sizeY, rounds, c, r);
            && g.Shape()
            && (forall y: nat, i: nat :: y < sizeY && i < sizeX ==> g.rows[y].tiles[i].round == if y == 0 then r else 0)
  {
    var g := Stage(sizeX, sizeY, rounds, c, r);
    forall y: nat | y < sizeY ensures g.rows[y] == Uniform(sizeX, if y == 0 then r else 0, rounds) {
    }
  }

  lemma StageColumns(sizeX: nat, sizeY: nat, rounds: nat, c: Chain, d: Chain, r: nat, ms: seq<Move>, rr: seq<nat>)
      returns (ns: seq<GridMove>)
    requires |c.tiles| == |d.tiles| == |rr| == sizeY && Leads(c, ms, rr, d)
    requires forall y :: 0 <= y < sizeY ==> rr[y] == if y == 0 then r else 0
    ensures GridLeads(Stage(sizeX, sizeY, rounds, c, r), ns, Stage(sizeX, sizeY, rounds, d, r))
  {
    hide Leads, GridLeads;
    var g := Stage(sizeX, sizeY, rounds, c, r);
    StageShape(sizeX, sizeY, rounds, c, r);
    ns := LiftColumns(g, c, d, ms, rr, sizeX);
    assert Columns(g, c, d, 0).cols == g.cols;
    assert Columns(g, c, d, sizeX).cols == Stage(sizeX, sizeY, rounds, d, r).cols;
  }

  lemma StageRow(sizeX: nat, sizeY: nat, rounds: nat, c: Chain, r: nat) returns (ns: seq<GridMove>)
    requires |c.tiles| == sizeY && sizeY > 0 && sizeX > 0 && r < rounds && c.tiles[0].round != r
    ensures GridLeads(Stage(sizeX, sizeY, rounds, c, r), ns, Stage(sizeX, sizeY, rounds, c, r + 1))
  {
    hide Leads, GridLeads;
    var g, d := Stage(sizeX, sizeY, rounds, c, r), Uniform(sizeX, r + 1, rounds);
    var ms := FullRound(sizeX, r, rounds);
    StageShape(sizeX, sizeY, rounds, c, r);
    ns := LiftRow(g, 0, ms, Same(sizeX, r), d);
    assert g.rows[0 := d] == Stage(sizeX, sizeY, rounds, c, r + 1).rows;
  }

  /** Several rows: every column loses the token between tiles 0 and 1, and row 0 passes its
      own barriers in between. */
  lemma LostInColumns(sizeX: nat, sizeY: nat, rounds: nat) returns (ms: seq<GridMove>, g: Grid)
    requires sizeX >= 1 && sizeY >= 2 && rounds >= 2
    ensures GridLeads(CreateGrid(sizeX, sizeY, rounds, false), ms, g) && Broken(g, 0, 0, 0, 1)
  {
    hide Leads, GridLeads;
    var c0, c1, c2 := Uniform(sizeY, 0, rounds), HalfClosed(sizeY, 0, rounds), Lost(sizeY, rounds);
    var g0 := Stage(sizeX, sizeY, rounds, c0, 0);
    var half := GoHalf(sizeY, 0, rounds);
    ms := StageColumns(sizeX, sizeY, rounds, c0, c1, 0, half, Same(sizeY, 0));
    var ns := StageRow(sizeX, sizeY, rounds, c1, 0);
    GridThen(g0, ms, Stage(sizeX, sizeY, rounds, c1, 0), ns, Stage(sizeX, sizeY, rounds, c1, 1));
    ms := ms + ns;
    var lose := LoseToken(sizeY, rounds);
    ns := StageColumns(sizeX, sizeY, rounds, c1, c2, 1, lose, Same(sizeY, 0)[0 := 1]);
    GridThen(g0, ms, Stage(sizeX, sizeY, rounds, c1, 1), ns, Stage(sizeX, sizeY, rounds, c2, 1));
    ms := ms + ns;
    ns := StageRow(sizeX, sizeY, rounds, c2, 1);
    g := Stage(sizeX, sizeY, rounds, c2, 2);
    GridThen(g0, ms, Stage(sizeX, sizeY, rounds, c2, 1), ns, g);
    ms := ms + ns;
    assert g0 == CreateGrid(sizeX, sizeY, rounds, false);
    StageShape(sizeX, sizeY, rounds, c2, 2);
  }

  /** One row: the columns are passed in one step, and the row loses the token. */
  lemma LostInRow(sizeX: nat, rounds: nat) returns (ms: seq<GridMove>, g: Grid)
    requires sizeX >= 2 && rounds >= 2
    ensures GridLeads(CreateGrid(sizeX, 1, rounds, false), ms, g) &&
            Broken(g, RowIndex(0, 0, sizeX), 0, RowIndex(1, 0, sizeX), 0)
  {
    hide Leads, GridLeads;
    var c0, c1, c2 := Uniform(1, 0, rounds), Uniform(1, 1, rounds), Uniform(1, 2, rounds);
    var g0, g1 := Stage(sizeX, 1, rounds, c0, 0), Stage(sizeX, 1, rounds, c1, 0);
    var round := FullRound(1, 0, rounds);
    ms := StageColumns(sizeX, 1, rounds, c0, c1, 0, round, Same(1, 0));
    var half := GoHalf(sizeX, 0, rounds);
    var g2 := g1.(rows := g1.rows[0 := HalfClosed(sizeX, 0, rounds)]);
    var ns := LiftRow(g1, 0, half, Same(sizeX, 0), HalfClosed(sizeX, 0, rounds));
    GridThen(g0, ms, g1, ns, g2);
    ms := ms + ns;
    var first: nat := RowIndex(0, 0, sizeX);
    round := FullRound(1, 1, rounds);
    var g3 := g2.(cols := g2.cols[first := c2]);
    ns := LiftColumn(g2, first, round, Same(1, 1), c2);
    GridThen(g0, ms, g2, ns, g3);
    ms := ms + ns;
    var lose := LoseToken(sizeX, rounds);
    ns := LiftRow(g3, 0, lose, Same(sizeX, 0)[0 := 1], Lost(sizeX, rounds));
    g := g3.(rows := g3.rows[0 := Lost(sizeX, rounds)]);
    GridThen(g0, ms, g3, ns, g);
    ms := ms + ns;
    assert g0 == CreateGrid(sizeX, 1, rounds, false);
  }

  // ---------------------------------------------------------------- on the machine

  lemma {:induction false} MachineFollows(m: Machine, ms: seq<GridMove>) returns (ns: seq<TileMove>)
    requires Good(m) && GridPossible(GridOf(m), ms)
    ensures MachinePossible(m, ns) && Good(MachineRun(m, ns)) && GridOf(MachineRun(m, ns)) == GridRun(GridOf(m), ms)
    decreases |ms|
  {
    hide Good, GridOf, GridEnabled, GridStep, MachineEnabled, MachineStep;
    if ms == [] {
      ns := [];
    } else {
      var x, y := ms[0].x, ms[0].y;
      EnabledOnGrid(m, x, y, ms[0].wakes);
      var q := SameWake(m, x, y, ms[0].wakes);
      var rest := MachineFollows(MachineStep(m, x, y, q), ms[1..]);
      ns := [TileMove(x, y, q)] + rest;
      assert ns[1..] == rest;
    }
  }

  lemma EnabledOnGrid(m: Machine, x: nat, y: nat, w: nat)
    requires Good(m) && GridEnabled(GridOf(m), x, y, w)
    ensures x < m.sizeX && y < m.sizeY
  {
  }

  lemma GridSizes(m: Machine)
    requires Good(m)
    ensures GridOf(m).sizeX == m.sizeX && GridOf(m).sizeY == m.sizeY
  {
  }

  lemma BrokenMachine(m: Machine, x: nat, y: nat, a: nat, b: nat)
    requires Good(m) && Broken(GridOf(m), x, y, a, b)
    ensures !FullBarrierSafe(m)
  {
    hide GridOf, Good;
    GridSizes(m);
    GridOfTile(m, x, y);
    GridOfTile(m, a, b);
    assert m.row[Position(x, y)].round > 1 && !Entered(m.col[Position(a, b)], 1);
  }

  ghost predicate AlwaysFullBarrier(sizeX: nat, sizeY: nat, rounds: nat, atomicClose: bool, id0: nat, id1: nat) {
    var m := Boot(sizeX, sizeY, rounds, atomicClose, id0, id1);
    forall ms: seq<TileMove> :: MachinePossible(m, ms) ==> FullBarrierSafe(MachineRun(m, ms))
  }

  /** full_barrier holds in every run if and only if the closing releases are not separated, or
      it is called at most once, or the grid has at most one tile. */
  lemma FullBarrierHoldsIff(sizeX: nat, sizeY: nat, rounds: nat, atomicClose: bool, id0: nat, id1: nat)
    requires id0 != id1
    ensures AlwaysFullBarrier(sizeX, sizeY, rounds, atomicClose, id0, id1) <==>
            atomicClose || rounds <= 1 || sizeX * sizeY <= 1
  {
    hide MachinePossible, MachineRun, FullBarrierSafe, Boot, Broken, CreateGrid;
    SmallProduct(sizeX, sizeY);
    var m := Boot(sizeX, sizeY, rounds, atomicClose, id0, id1);
    if GridSound(sizeX, sizeY, rounds, atomicClose) {
      forall ms: seq<TileMove> | MachinePossible(m, ms) ensures FullBarrierSafe(MachineRun(m, ms)) {
        FullBarrierHolds(sizeX, sizeY, rounds, atomicClose, id0, id1, ms);
      }
    } else {
      BootIsGood(sizeX, sizeY, rounds, atomicClose, id0, id1);
      if sizeY >= 2 {
        var ms, g := LostInColumns(sizeX, sizeY, rounds);
        var ns := MachineFollows(m, ms);
        BrokenMachine(MachineRun(m, ns), 0, 0, 0, 1);
      } else {
        var ms, g := LostInRow(sizeX, rounds);
        var ns := MachineFollows(m, ms);
        BrokenMachine(MachineRun(m, ns), RowIndex(0, 0, sizeX), 0, RowIndex(1, 0, sizeX), 0);
      }
    }
  }

  lemma SmallProduct(a: nat, b: nat)
    ensures a * b <= 1 <==> a == 0 || b == 0 || (a == 1 && b == 1)
  {
    if a >= 1 && b >= 2 {
      assert 1 * b <= a * b;
    } else if a >= 2 && b == 1 {
      assert a * b == a;
    }
  }
}
