/**
 The full barrier of a grid of tiles: a column barrier from the south, then a row barrier
 whose direction depends on the parity of the row, on separate lock ids.
 */
module GridBarrier {
  import opened Basics
  import opened ChainBarrier

  // ---------------------------------------------------------------- geography

  datatype Dir = South | West | North | East | Self

  datatype Position = Position(x: int, y: int)
  {
    /** Odd rows have their own memory to the west. */
    predicate SelfIsWest() {
      y % 2 == 1
    }

    predicate IsValid(sizeX: int, sizeY: int) {
      x >= 0 && y >= 0 && x < sizeX && y < sizeY
    }

    /** The tile whose memory and locks lie in direction d, which depends on the parity. */
    function On(d: Dir): Position {
      match d
      case South => Position(x, y - 1)
      case North => Position(x, y + 1)
      case West => if SelfIsWest() then this else Position(x - 1, y)
      case East => if SelfIsWest() then Position(x + 1, y) else this
      case Self => this
    }

    /** The tile one step in direction d, whatever the parity. */
    function Step(d: Dir): Position {
      match d
      case South => Position(x, y - 1)
      case North => Position(x, y + 1)
      case West => Position(x - 1, y)
      case East => Position(x + 1, y)
      case Self => this
    }
  }

  function Opposite(d: Dir): Dir {
    match d
    case South => North
    case West => East
    case North => South
    case East => West
    case Self => Self
  }

  /** Direction in which the row barrier of row y starts. */
  function RowStart(y: int): Dir {
    if y % 2 == 1 then West else East
  }

  /** The lock a tile uses towards its successor is the one the successor calls its own if
      and only if the barrier runs along the column or starts on the side of the row's own
      memory; both barriers of full_barrier do. */
  lemma WiringIsRightIff(p: Position, start: Dir)
    requires start != Self
    ensures p.On(Opposite(start)) == p.Step(Opposite(start)).On(Self) <==>
            start == South || start == North || start == RowStart(p.y)
  {
  }

  /** Odd rows have their own locks to the west and start there, even rows to the east. */
  lemma OwnSide(x: int, y: int)
    ensures y % 2 == 1 ==> RowStart(y) == West && Position(x, y).On(West) == Position(x, y)
    ensures y % 2 == 1 ==> Position(x, y).On(East) == Position(x + 1, y)
    ensures y % 2 == 0 ==> RowStart(y) == East && Position(x, y).On(East) == Position(x, y)
    ensures y % 2 == 0 ==> Position(x, y).On(West) == Position(x - 1, y)
  {
  }

  /** Place of tile (x, y) in the chain of its row, counted from where its barrier starts. */
  function RowIndex(x: nat, y: nat, sizeX: nat): int {
    if RowStart(y) == West then x else sizeX - 1 - x
  }

  /** Following the successor direction goes one place up the chain, and the first place has
      no neighbour on the starting side. */
  lemma RowIndexFollowsWiring(x: nat, y: nat, sizeX: nat, sizeY: nat)
    requires x < sizeX && y < sizeY
    ensures var p, next := Position(x, y), Position(x, y).Step(Opposite(RowStart(y)));
            && (next.IsValid(sizeX, sizeY) <==> RowIndex(x, y, sizeX) + 1 < sizeX)
            && (next.IsValid(sizeX, sizeY) ==> RowIndex(next.x, y, sizeX) == RowIndex(x, y, sizeX) + 1)
            && (p.Step(RowStart(y)).IsValid(sizeX, sizeY) <==> RowIndex(x, y, sizeX) > 0)
  {
  }

  // ---------------------------------------------------------------- the grid

  /** The state of the column barriers, indexed by y in column x, and of the row barriers. */
  datatype Grid = Grid(sizeX: nat, sizeY: nat, cols: seq<Chain>, rows: seq<Chain>)
  {
    predicate Shape() {
      && |cols| == sizeX && |rows| == sizeY
      && (forall x :: 0 <= x < sizeX ==> |cols[x].tiles| == sizeY)
      && (forall y :: 0 <= y < sizeY ==> |rows[y].tiles| == sizeX)
    }

    function Col(x: nat, y: nat): Tile
      requires Shape() && x < sizeX && y < sizeY
    {
      cols[x].tiles[y]
    }

    function Row(x: nat, y: nat): Tile
      requires Shape() && x < sizeX && y < sizeY
    {
      rows[y].tiles[RowIndex(x, y, sizeX)]
    }

    /** The tile is in, or about to enter, its column barrier. */
    predicate InColumn(x: nat, y: nat)
      requires Shape() && x < sizeX && y < sizeY
    {
      Col(x, y).round == Row(x, y).round
    }
  }

  function CreateGrid(sizeX: nat, sizeY: nat, rounds: nat, atomicClose: bool): Grid {
    Grid(sizeX, sizeY,
         seq(sizeX, _ => Create(sizeY, rounds, atomicClose)),
         seq(sizeY, _ => Create(sizeX, rounds, atomicClose)))
  }

  ghost predicate GridEnabled(g: Grid, x: nat, y: nat, w: nat) {
    g.Shape() && x < g.sizeX && y < g.sizeY &&
    if g.InColumn(x, y) then Enabled(g.cols[x], y, w) else Enabled(g.rows[y], RowIndex(x, y, g.sizeX), w)
  }

  /** Tile (x, y) takes the next step of full_barrier. */
  ghost function GridStep(g: Grid, x: nat, y: nat, w: nat): Grid
    requires GridEnabled(g, x, y, w)
  {
    if g.InColumn(x, y) then g.(cols := g.cols[x := ChainBarrier.Step(g.cols[x], y, w)])
    else g.(rows := g.rows[y := ChainBarrier.Step(g.rows[y], RowIndex(x, y, g.sizeX), w)])
  }

  /** A tile is in at most one of its two barriers. */
  predicate TurnOk(g: Grid, x: int, y: int)
    requires g.Shape()
  {
    0 <= x < g.sizeX && 0 <= y < g.sizeY ==>
      var t, u := g.Col(x, y), g.Row(x, y);
      (t.round == u.round && u.pc.Out?) || (t.round == u.round + 1 && t.pc.Out?)
  }

  ghost predicate ChainOk(c: Chain, rounds: nat, atomicClose: bool) {
    Inv(c) && c.rounds == rounds && c.atomicClose == atomicClose
  }

  ghost predicate GridInv(g: Grid, rounds: nat, atomicClose: bool) {
    && g.Shape()
    && (forall x :: 0 <= x < g.sizeX ==> ChainOk(g.cols[x], rounds, atomicClose))
    && (forall y :: 0 <= y < g.sizeY ==> ChainOk(g.rows[y], rounds, atomicClose))
    && (forall x: int, y: int :: TurnOk(g, x, y))
  }

  /** The closing releases of the barriers of a grid cannot meet a token of the next round. */
  predicate GridSound(sizeX: nat, sizeY: nat, rounds: nat, atomicClose: bool) {
    atomicClose || rounds <= 1 || sizeX == 0 || sizeY == 0 || (sizeX == 1 && sizeY == 1)
  }

  lemma StepIsLocal(c: Chain, i: nat, w: nat)
    requires Inv(c) && Enabled(c, i, w)
    ensures var c1 := ChainBarrier.Step(c, i, w);
            && |c1.tiles| == |c.tiles| && c1.rounds == c.rounds && c1.atomicClose == c.atomicClose
            && (forall j: nat :: j < |c.tiles| && j != i ==>
                c1.tiles[j].round == c.tiles[j].round && c1.tiles[j].pc == c.tiles[j].pc)
            && (|| c1.tiles[i].round == c.tiles[i].round
                || (c1.tiles[i].round == c.tiles[i].round + 1 && c1.tiles[i].pc.Out?))
  {
    assert TileOk(c, i);
  }

  lemma GridStepKeepsInv(g: Grid, x: nat, y: nat, w: nat, rounds: nat, atomicClose: bool)
    requires GridInv(g, rounds, atomicClose) && GridEnabled(g, x, y, w) &&
             GridSound(g.sizeX, g.sizeY, rounds, atomicClose)
    ensures GridInv(GridStep(g, x, y, w), rounds, atomicClose)
  {
    hide Inv, ChainBarrier.Step, Enabled;
    var g1 := GridStep(g, x, y, w);
    var k := RowIndex(x, y, g.sizeX);
    if g.InColumn(x, y) {
      StepKeepsInv(g.cols[x], y, w);
      StepIsLocal(g.cols[x], y, w);
    } else {
      StepKeepsInv(g.rows[y], k, w);
      StepIsLocal(g.rows[y], k, w);
    }
    assert g1.Shape();
    forall a: int, b: int ensures TurnOk(g1, a, b) {
      assert TurnOk(g, a, b);
    }
  }

  // ---------------------------------------------------------------- runs

  datatype GridMove = GridMove(x: nat, y: nat, wakes: nat)

  ghost predicate GridPossible(g: Grid, ms: seq<GridMove>)
    decreases |ms|
  {
    ms == [] || (GridEnabled(g, ms[0].x, ms[0].y, ms[0].wakes) &&
      GridPossible(GridStep(g, ms[0].x, ms[0].y, ms[0].wakes), ms[1..]))
  }

  ghost function GridRun(g: Grid, ms: seq<GridMove>): Grid
    requires GridPossible(g, ms)
    decreases |ms|
  {
    if ms == [] then g else GridRun(GridStep(g, ms[0].x, ms[0].y, ms[0].wakes), ms[1..])
  }

  // ---------------------------------------------------------------- main results

  /** When a tile has left full barrier k, every tile of the grid has entered it. */
  lemma LeftMeansAllEntered(g: Grid, rounds: nat, atomicClose: bool, x: nat, y: nat, a: nat, b: nat, k: nat)
    requires GridInv(g, rounds, atomicClose) && x < g.sizeX && y < g.sizeY && a < g.sizeX && b < g.sizeY
    requires g.Row(x, y).round > k
    ensures Entered(g.Col(a, b), k)
  {
    hide Inv;
    InvIsSafe(g.rows[y]);
    assert Entered(g.Row(a, y), k);
    assert TurnOk(g, a, y);
    InvIsSafe(g.cols[a]);
    assert g.Col(a, y).round > k;
  }

  /** While a tile has full barriers left to pass, some tile of the grid can step. */
  lemma {:induction false} GridNoDeadlock(g: Grid, rounds: nat, atomicClose: bool, x: nat, y: nat)
      returns (a: nat, b: nat, w: nat)
    requires GridInv(g, rounds, atomicClose) && x < g.sizeX && y < g.sizeY && g.Row(x, y).round < rounds
    ensures GridEnabled(g, a, b, w)
    decreases g.Col(x, y).round + g.Row(x, y).round
  {
    assert TurnOk(g, x, y);
    if g.InColumn(x, y) {
      a := x;
      b, w := NoDeadlock(g.cols[x], y);
    } else {
      b := y;
      var j;
      j, w := NoDeadlock(g.rows[y], RowIndex(x, y, g.sizeX));
      a := if RowStart(y) == West then j else g.sizeX - 1 - j;
    }
    assert TurnOk(g, a, b);
    if g.InColumn(a, b) != g.InColumn(x, y) {
      a, b, w := GridNoDeadlock(g, rounds, atomicClose, a, b);
    }
  }

  // ---------------------------------------------------------------- it comes to an end

  /** What the chains of a grid have left. */
  ghost function GridLeft(g: Grid, rounds: nat, atomicClose: bool): nat
    requires GridInv(g, rounds, atomicClose)
  {
    Sum(ChainsLeft(g.cols)) + Sum(ChainsLeft(g.rows))
  }

  ghost function ChainsLeft(cs: seq<Chain>): seq<nat>
    requires forall x :: 0 <= x < |cs| ==> |cs[x].lock| == |cs[x].tiles|
  {
    seq(|cs|, x requires 0 <= x < |cs| => ChainLeft(cs[x]))
  }

  lemma OneChainTakes(cs: seq<Chain>, x: nat, c: Chain)
    requires forall k :: 0 <= k < |cs| ==> |cs[k].lock| == |cs[k].tiles|
    requires x < |cs| && |c.lock| == |c.tiles| && ChainLeft(c) < ChainLeft(cs[x])
    ensures Sum(ChainsLeft(cs[x := c])) < Sum(ChainsLeft(cs))
  {
    hide ChainLeft;
    SumShrinks(ChainsLeft(cs), ChainsLeft(cs[x := c]), x);
  }

  lemma GridStepTakes(g: Grid, x: nat, y: nat, w: nat, rounds: nat, atomicClose: bool)
    requires GridInv(g, rounds, atomicClose) && GridEnabled(g, x, y, w)
    requires GridSound(g.sizeX, g.sizeY, rounds, atomicClose)
    ensures GridInv(GridStep(g, x, y, w), rounds, atomicClose)
    ensures GridLeft(GridStep(g, x, y, w), rounds, atomicClose) < GridLeft(g, rounds, atomicClose)
  {
    GridStepKeepsInv(g, x, y, w, rounds, atomicClose);
    hide Inv, Enabled, ChainBarrier.Step, ChainLeft, ChainsLeft;
    var k := RowIndex(x, y, g.sizeX);
    if g.InColumn(x, y) {
      ChainStepTakes(g.cols[x], y, w);
      OneChainTakes(g.cols, x, ChainBarrier.Step(g.cols[x], y, w));
    } else {
      ChainStepTakes(g.rows[y], k, w);
      OneChainTakes(g.rows, y, ChainBarrier.Step(g.rows[y], k, w));
    }
  }

  lemma GridLeftIsBounded(g: Grid, rounds: nat, atomicClose: bool)
    requires GridInv(g, rounds, atomicClose)
    ensures GridLeft(g, rounds, atomicClose)
            <= g.sizeX * (g.sizeY * (12 * rounds)) + g.sizeY * (g.sizeX * (12 * rounds))
  {
    forall x: nat | x < g.sizeX ensures ChainsLeft(g.cols)[x] <= g.sizeY * (12 * rounds) {
      assert ChainOk(g.cols[x], rounds, atomicClose);
      ChainLeftIsBounded(g.cols[x]);
    }
    forall y: nat | y < g.sizeY ensures ChainsLeft(g.rows)[y] <= g.sizeX * (12 * rounds) {
      assert ChainOk(g.rows[y], rounds, atomicClose);
      ChainLeftIsBounded(g.rows[y]);
    }
    hide Inv, ChainLeft, ChainsLeft;
    SumBound(ChainsLeft(g.cols), g.sizeY * (12 * rounds));
    SumBound(ChainsLeft(g.rows), g.sizeX * (12 * rounds));
    assert |ChainsLeft(g.cols)| == g.sizeX &&
           |ChainsLeft(g.rows)| == g.sizeY by { ChainsLength(g.cols); ChainsLength(g.rows); }
  }

  lemma ChainsLength(cs: seq<Chain>)
    requires forall x :: 0 <= x < |cs| ==> |cs[x].lock| == |cs[x].tiles|
    ensures |ChainsLeft(cs)| == |cs|
  {
  }
}
