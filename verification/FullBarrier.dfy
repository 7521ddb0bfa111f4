/**
 full_barrier on the locks of the tiles: every tile has a lock per lock id, and a tile reaches
 the locks of its neighbours through directions whose meaning depends on the parity of its
 row. The wiring makes every column and every row one chain, so the grid of chains describes
 what the tiles do.
 */
module FullBarrier {
  import opened ChainBarrier
  import opened GridBarrier

  datatype Kind = Vertical | Horizontal

  /** The direction from which the token comes in each of the two barriers. */
  function Start(kind: Kind, p: Position): Dir {
    if kind.Vertical? then South else RowStart(p.y)
  }

  function Onwards(kind: Kind, p: Position): Dir {
    Opposite(Start(kind, p))
  }

  datatype LockAt = LockAt(pos: Position, id: nat)

  /** `col` and `row` are where each tile is in its column and its row barrier; locks are
      false until set. */
  datatype Machine = Machine(
    sizeX: nat,
    sizeY: nat,
    rounds: nat,
    atomicClose: bool,
    id0: nat,
    id1: nat,
    col: map<Position, Tile>,
    row: map<Position, Tile>,
    locks: map<LockAt, bool>)
  {
    function Fibers(kind: Kind): map<Position, Tile> {
      if kind.Vertical? then col else row
    }

    function Id(kind: Kind): nat {
      if kind.Vertical? then id0 else id1
    }

    function Lock(l: LockAt): bool {
      l in locks && locks[l]
    }

    /** has_neighbor. */
    predicate HasNeighbor(p: Position, d: Dir) {
      p.Step(d).IsValid(sizeX, sizeY)
    }

    ghost predicate Shape() {
      forall p: Position :: OnGrid(p)
    }

    predicate OnGrid(p: Position) {
      (p in col <==> p.IsValid(sizeX, sizeY)) && (p in row <==> p.IsValid(sizeX, sizeY))
    }
  }

  /** lock(id) and lock(opposite, id) as the tile at p sees them. */
  function OwnLock(m: Machine, kind: Kind, p: Position): LockAt {
    LockAt(p.On(Self), m.Id(kind))
  }

  function NextLock(m: Machine, kind: Kind, p: Position): LockAt {
    LockAt(p.On(Onwards(kind, p)), m.Id(kind))
  }

  // ---------------------------------------------------------------- barrier_impl

  function AfterEntry(m: Machine, kind: Kind, p: Position, t: Tile): Tile {
    if m.HasNeighbor(p, Start(kind, p)) then t.(pc := WaitSelf) else AfterToken(m, kind, p, t)
  }

  function AfterToken(m: Machine, kind: Kind, p: Position, t: Tile): Tile {
    if m.HasNeighbor(p, Onwards(kind, p)) then t.(pc := WaitNextFree) else AfterAck(m, kind, p, t)
  }

  function AfterAck(m: Machine, kind: Kind, p: Position, t: Tile): Tile {
    if m.HasNeighbor(p, Start(kind, p)) then t.(pc := Close1) else Leave(t)
  }

  function SetFiber(m: Machine, kind: Kind, p: Position, t: Tile): Machine {
    if kind.Vertical? then m.(col := m.col[p := t]) else m.(row := m.row[p := t])
  }

  /** The fiber of tile q sleeps on the lock l. */
  predicate Waits(m: Machine, kind: Kind, q: Position, l: LockAt) {
    && q in m.Fibers(kind) && m.Fibers(kind)[q].asleep
    && var pc := m.Fibers(kind)[q].pc;
       (pc.WaitSelf? && OwnLock(m, kind, q) == l) || ((pc.WaitNextFree? || pc.WaitAck?) && NextLock(m, kind, q) == l)
  }

  function AcquireLock(m: Machine, kind: Kind, p: Position, l: LockAt, value: bool, next: Tile): Machine
    requires p in m.Fibers(kind)
  {
    SetFiber(m, kind, p, if m.Lock(l) == value then next else m.Fibers(kind)[p].(asleep := true))
  }

  function WakeUp(m: Machine, kind: Kind, q: Position, l: LockAt): Machine {
    if Waits(m, kind, q, l) then SetFiber(m, kind, q, m.Fibers(kind)[q].(asleep := false)) else m
  }

  function ReleaseLock(m: Machine, kind: Kind, p: Position, l: LockAt, value: bool, next: Tile, q: Position): Machine {
    var m1 := SetFiber(m.(locks := m.locks[l := value]), kind, p, next);
    WakeUp(WakeUp(m1, Vertical, q, l), Horizontal, q, l)
  }

  /** notify_one on l reaches the fiber of q, if anyone sleeps on l. */
  ghost predicate Reached(m: Machine, l: LockAt, q: Position) {
    (exists kind: Kind, r: Position :: Waits(m, kind, r, l)) ==> Waits(m, Vertical, q, l) || Waits(m, Horizontal, q, l)
  }

  ghost predicate BarrierEnabled(m: Machine, kind: Kind, p: Position, q: Position) {
    && p in m.Fibers(kind)
    && var t := m.Fibers(kind)[p];
       && !t.asleep && t.round < m.rounds
       && (t.pc.Raise? ==> Reached(m, NextLock(m, kind, p), q))
       && (t.pc.Close1? || t.pc.Close2? ==> Reached(m, OwnLock(m, kind, p), q))
  }

  /** One lock operation of barrier_impl. */
  ghost function BarrierStep(m: Machine, kind: Kind, p: Position, q: Position): Machine
    requires BarrierEnabled(m, kind, p, q)
  {
    var t, own, next := m.Fibers(kind)[p], OwnLock(m, kind, p), NextLock(m, kind, p);
    match t.pc
    case Out => SetFiber(m, kind, p, AfterEntry(m, kind, p, t))
    case WaitSelf => AcquireLock(m, kind, p, own, true, AfterToken(m, kind, p, t))
    case WaitNextFree => AcquireLock(m, kind, p, next, false, t.(pc := Raise))
    case Raise => ReleaseLock(m, kind, p, next, true, t.(pc := WaitAck), q)
    case WaitAck => AcquireLock(m, kind, p, next, false, AfterAck(m, kind, p, t))
    case Close1 => ReleaseLock(m, kind, p, own, false, if m.atomicClose then Leave(t) else t.(pc := Close2), q)
    case Close2 => ReleaseLock(m, kind, p, own, false, Leave(t), q)
  }

  // ---------------------------------------------------------------- lines of tiles

  /** Tiles in the order in which the token visits them. */
  datatype Line = Line(kind: Kind, at: seq<Position>)

  predicate Before(m: Machine, line: Line, r: Position, k: int) {
    r.IsValid(m.sizeX, m.sizeY) && 0 <= k < |line.at| ==>
      (r.On(Onwards(line.kind, r)) == line.at[k] <==> k > 0 && r == line.at[k - 1])
  }

  predicate PlaceOk(m: Machine, line: Line, k: int) {
    0 <= k < |line.at| ==>
      var p := line.at[k];
      && p.IsValid(m.sizeX, m.sizeY)
      && (m.HasNeighbor(p, Start(line.kind, p)) <==> k > 0)
      && (m.HasNeighbor(p, Onwards(line.kind, p)) <==> k + 1 < |line.at|)
  }

  predicate Distinct(line: Line, j: int, k: int) {
    0 <= j < |line.at| && 0 <= k < |line.at| && line.at[j] == line.at[k] ==> j == k
  }

  /** The neighbour tests and the locks agree with the order of the line: the lock that a tile
      reaches onwards is the own lock of the next tile, and of no other tile of the grid. */
  ghost predicate Wired(m: Machine, line: Line) {
    && (forall k: int :: PlaceOk(m, line, k))
    && (forall j: int, k: int :: Distinct(line, j, k))
    && (forall r: Position, k: int :: Before(m, line, r, k))
  }

  function Column(m: Machine, x: nat): Line {
    Line(Vertical, seq(m.sizeY, y => Position(x, y)))
  }

  function RowLine(m: Machine, y: nat): Line {
    Line(Horizontal, seq(m.sizeX, k requires 0 <= k => Position(RowIndex(k, y, m.sizeX), y)))
  }

  lemma ColumnIsWired(m: Machine, x: nat)
    requires x < m.sizeX
    ensures Wired(m, Column(m, x))
    ensures forall p: Position :: OwnLock(m, Vertical, p).id == NextLock(m, Vertical, p).id == m.id0
  {
    var line := Column(m, x);
    forall r: Position, k: int ensures Before(m, line, r, k) {
      WiringIsRightIff(r, South);
    }
  }

  lemma RowIsWired(m: Machine, y: nat)
    requires y < m.sizeY
    ensures Wired(m, RowLine(m, y))
    ensures forall p: Position :: OwnLock(m, Horizontal, p).id == NextLock(m, Horizontal, p).id == m.id1
  {
    var line := RowLine(m, y);
    forall k: int ensures PlaceOk(m, line, k) {
      if 0 <= k < m.sizeX { RowIndexFollowsWiring(line.at[k].x, y, m.sizeX, m.sizeY); }
    }
    forall r: Position, k: int ensures Before(m, line, r, k) {
      WiringIsRightIff(r, RowStart(r.y));
    }
  }

  // ---------------------------------------------------------------- a line is a chain

  function ChainOf(m: Machine, line: Line): Chain
    requires forall k :: 0 <= k < |line.at| ==> line.at[k] in m.Fibers(line.kind)
  {
    Chain(seq(|line.at|, k requires 0 <= k < |line.at| => m.Fibers(line.kind)[line.at[k]]),
          seq(|line.at|, k requires 0 <= k < |line.at| => m.Lock(LockAt(line.at[k], m.Id(line.kind)))),
          m.rounds, m.atomicClose)
  }

  /** Place of q in the line, or its length. */
  function IndexIn(at: seq<Position>, q: Position): (k: nat)
    ensures k <= |at| && (k < |at| ==> at[k] == q) && (k == |at| ==> q !in at)
  {
    if at == [] || at[0] == q then 0 else 1 + IndexIn(at[1..], q)
  }

  lemma LineInFibers(m: Machine, line: Line)
    requires m.Shape() && Wired(m, line)
    ensures forall k :: 0 <= k < |line.at| ==> line.at[k] in m.Fibers(line.kind)
  {
    forall k | 0 <= k < |line.at| ensures line.at[k] in m.Fibers(line.kind) {
      assert PlaceOk(m, line, k) && m.OnGrid(line.at[k]);
    }
  }

  ghost predicate Ready(m: Machine, line: Line) {
    && m.Shape() && Wired(m, line) && m.id0 != m.id1
    && (forall k :: 0 <= k < |line.at| ==> line.at[k] in m.Fibers(line.kind))
  }

  function LineLock(m: Machine, line: Line, k: nat): LockAt
    requires k < |line.at|
  {
    LockAt(line.at[k], m.Id(line.kind))
  }

  /** Who sleeps on the k-th lock of a line is on the line, where the chain says. */
  lemma WaitsIsSleeps(m: Machine, line: Line, kind: Kind, r: Position, k: nat)
    requires Ready(m, line) && k < |line.at|
    ensures Waits(m, kind, r, LineLock(m, line, k)) <==>
            kind == line.kind && SleepsOn(ChainOf(m, line), IndexIn(line.at, r), k)
  {
    var i := IndexIn(line.at, r);
    assert m.OnGrid(r) && PlaceOk(m, line, k) && Before(m, line, r, k) && Distinct(line, i, k) &&
           Distinct(line, i, k - 1);
  }

  lemma ReachedIsNotifies(m: Machine, line: Line, k: nat, q: Position)
    requires Ready(m, line) && k < |line.at|
    ensures Reached(m, LineLock(m, line, k), q) <==> Notifies(ChainOf(m, line), k, IndexIn(line.at, q))
  {
    hide Waits, SleepsOn;
    var c, l := ChainOf(m, line), LineLock(m, line, k);
    WaitsIsSleeps(m, line, Vertical, q, k);
    WaitsIsSleeps(m, line, Horizontal, q, k);
    if exists j: nat :: SleepsOn(c, j, k) {
      var j: nat :| SleepsOn(c, j, k);
      SleeperOnLine(m, line, j, k);
    }
    if exists kind: Kind, r: Position :: Waits(m, kind, r, l) {
      var kind: Kind, r: Position :| Waits(m, kind, r, l);
      WaitsIsSleeps(m, line, kind, r, k);
    }
  }

  lemma SleeperOnLine(m: Machine, line: Line, j: nat, k: nat)
    requires Ready(m, line) && k < |line.at| && SleepsOn(ChainOf(m, line), j, k)
    ensures j < |line.at| && Waits(m, line.kind, line.at[j], LineLock(m, line, k))
  {
    assert Distinct(line, j, IndexIn(line.at, line.at[j]));
    WaitsIsSleeps(m, line, line.kind, line.at[j], k);
  }

  /** m1 differs from m only in what belongs to the line. */
  ghost predicate OnlyLine(m: Machine, m1: Machine, line: Line) {
    && m1 == m.(col := m1.col, row := m1.row, locks := m1.locks)
    && (if line.kind.Vertical? then m1.row == m.row else m1.col == m.col)
    && m1.Fibers(line.kind).Keys == m.Fibers(line.kind).Keys
    && (forall r :: r in m.Fibers(line.kind) && r !in line.at ==> m1.Fibers(line.kind)[r] == m.Fibers(line.kind)[r])
    && (forall l: LockAt :: l.pos !in line.at || l.id != m.Id(line.kind) ==> m1.Lock(l) == m.Lock(l))
  }

  /** Sizes, lock ids and the set of tiles decide the wiring. */
  lemma StaysReady(m: Machine, m1: Machine, line: Line)
    requires Ready(m, line) && m1 == m.(col := m1.col, row := m1.row, locks := m1.locks)
    requires m1.col.Keys == m.col.Keys && m1.row.Keys == m.row.Keys
    ensures Ready(m1, line)
  {
    forall r: Position ensures m1.OnGrid(r) { assert m.OnGrid(r); }
    forall j: int ensures PlaceOk(m1, line, j) { assert PlaceOk(m, line, j); }
    forall r: Position, j: int ensures Before(m1, line, r, j) { assert Before(m, line, r, j); }
  }

  lemma SetFiberIsSetTile(m: Machine, line: Line, k: nat, t: Tile)
    requires Ready(m, line) && k < |line.at|
    ensures var m1 := SetFiber(m, line.kind, line.at[k], t);
            Ready(m1, line) && OnlyLine(m, m1, line) && ChainOf(m1, line) == SetTile(ChainOf(m, line), k, t)
  {
    hide Wired, Machine.Shape;
    var m1 := SetFiber(m, line.kind, line.at[k], t);
    assert m1.col.Keys == m.col.Keys && m1.row.Keys == m.row.Keys;
    StaysReady(m, m1, line);
    var c, c1 := ChainOf(m, line), ChainOf(m1, line);
    forall j | 0 <= j < |line.at| ensures c1.tiles[j] == c.tiles[k := t][j] {
      OnePlace(m, line, j, k);
    }
    assert c1.tiles == c.tiles[k := t];
    assert c1.lock == c.lock;
  }

  lemma OnePlace(m: Machine, line: Line, j: nat, k: nat)
    requires Ready(m, line) && j < |line.at| && k < |line.at|
    ensures line.at[j] == line.at[k] <==> j == k
  {
    assert Distinct(line, j, k);
  }

  lemma SetLockIsSet(m: Machine, line: Line, k: nat, value: bool)
    requires Ready(m, line) && k < |line.at|
    ensures var m1 := m.(locks := m.locks[LineLock(m, line, k) := value]); var c := ChainOf(m, line);
            Ready(m1, line) && OnlyLine(m, m1, line) && ChainOf(m1, line) == c.(lock := c.lock[k := value])
  {
    hide Wired, Machine.Shape;
    var m1 := m.(locks := m.locks[LineLock(m, line, k) := value]);
    StaysReady(m, m1, line);
    var c, c1 := ChainOf(m, line), ChainOf(m1, line);
    forall j | 0 <= j < |line.at| ensures c1.lock[j] == c.lock[k := value][j] {
      OnePlace(m, line, j, k);
    }
    assert c1.lock == c.lock[k := value];
    assert c1.tiles == c.tiles;
  }

  lemma OnlyLineTwice(m: Machine, m1: Machine, m2: Machine, line: Line)
    requires OnlyLine(m, m1, line) && OnlyLine(m1, m2, line)
    ensures OnlyLine(m, m2, line)
  {
  }

  lemma ReleaseIsRelease(m: Machine, line: Line, i: nat, k: nat, value: bool, next: Tile, q: Position)
    requires Ready(m, line) && i < |line.at| && k < |line.at|
    ensures var m1 := ReleaseLock(m, line.kind, line.at[i], LineLock(m, line, k), value, next, q);
            && Ready(m1, line) && OnlyLine(m, m1, line)
            && ChainOf(m1, line) == Release(ChainOf(m, line), i, k, value, next, IndexIn(line.at, q))
  {
    hide Ready, OnlyLine, ChainOf, Waits, SleepsOn;
    var l, w := LineLock(m, line, k), IndexIn(line.at, q);
    var m1 := m.(locks := m.locks[l := value]);
    SetLockIsSet(m, line, k, value);
    var m2 := SetFiber(m1, line.kind, line.at[i], next);
    SetFiberIsSetTile(m1, line, i, next);
    OnlyLineTwice(m, m1, m2, line);
    WaitsIsSleeps(m2, line, Vertical, q, k);
    WaitsIsSleeps(m2, line, Horizontal, q, k);
    if Waits(m2, line.kind, q, l) {
      SleeperIsFiber(m2, line, q, k);
      var m3 := SetFiber(m2, line.kind, q, m2.Fibers(line.kind)[q].(asleep := false));
      SetFiberIsSetTile(m2, line, w, m2.Fibers(line.kind)[q].(asleep := false));
      OnlyLineTwice(m, m2, m3, line);
      WaitsIsSleeps(m3, line, Horizontal, q, k);
    }
  }

  lemma SleeperIsFiber(m: Machine, line: Line, q: Position, k: nat)
    requires Ready(m, line) && k < |line.at| && Waits(m, line.kind, q, LineLock(m, line, k))
    ensures var w := IndexIn(line.at, q);
            && w < |line.at| && line.at[w] == q && q in m.Fibers(line.kind)
            && w < |ChainOf(m, line).tiles| && ChainOf(m, line).tiles[w] == m.Fibers(line.kind)[q]
            && !Waits(SetFiber(m, line.kind, q, m.Fibers(line.kind)[q].(asleep := false)), line.kind, q,
                LineLock(m, line, k))
  {
    WaitsIsSleeps(m, line, line.kind, q, k);
  }

  /** Where a tile stands in its barrier fits its place in the line. */
  predicate PcFits(c: Chain, k: nat)
    requires k < |c.tiles|
  {
    var pc := c.tiles[k].pc;
    pc.WaitNextFree? || pc.Raise? || pc.WaitAck? ==> k + 1 < |c.tiles|
  }

  lemma LineSees(m: Machine, line: Line, k: nat)
    requires Ready(m, line) && k < |line.at|
    ensures var c, p := ChainOf(m, line), line.at[k]; var t := c.tiles[k];
            && p in m.Fibers(line.kind) && m.Fibers(line.kind)[p] == t
            && |c.tiles| == |c.lock| == |line.at| && c.rounds == m.rounds && c.atomicClose == m.atomicClose
            && AfterEntry(m, line.kind, p, t) == Enter(t, k, |c.tiles|)
            && AfterToken(m, line.kind, p, t) == HaveToken(t, k, |c.tiles|)
            && AfterAck(m, line.kind, p, t) == TokenBack(t, k)
            && OwnLock(m, line.kind, p) == LineLock(m, line, k) && m.Lock(LineLock(m, line, k)) == c.lock[k]
            && (k + 1 < |line.at| ==>
                  && NextLock(m, line.kind, p) == LineLock(m, line, k + 1)
                  && m.Lock(LineLock(m, line, k + 1)) == c.lock[k + 1])
  {
    assert PlaceOk(m, line, k) && Before(m, line, line.at[k], k + 1);
  }

  lemma LineEnabled(m: Machine, line: Line, k: nat, q: Position)
    requires Ready(m, line) && k < |line.at| && PcFits(ChainOf(m, line), k)
    ensures BarrierEnabled(m, line.kind, line.at[k], q) <==> Enabled(ChainOf(m, line), k, IndexIn(line.at, q))
  {
    hide Ready, ChainOf, Reached, Notifies, AfterEntry, AfterToken, AfterAck, OwnLock, NextLock;
    LineSees(m, line, k);
    ReachedIsNotifies(m, line, k, q);
    if k + 1 < |line.at| { ReachedIsNotifies(m, line, k + 1, q); }
  }

  /** A lock operation of a tile is the step of its place in the chain. */
  lemma LineStep(m: Machine, line: Line, k: nat, q: Position)
    requires Ready(m, line) && k < |line.at| && PcFits(ChainOf(m, line), k) &&
             BarrierEnabled(m, line.kind, line.at[k], q)
    ensures Enabled(ChainOf(m, line), k, IndexIn(line.at, q))
    ensures var m1 := BarrierStep(m, line.kind, line.at[k], q);
            && Ready(m1, line) && OnlyLine(m, m1, line)
            && ChainOf(m1, line) == ChainBarrier.Step(ChainOf(m, line), k, IndexIn(line.at, q))
  {
    LineSees(m, line, k);
    LineEnabled(m, line, k, q);
    var c, p := ChainOf(m, line), line.at[k];
    var t, w := c.tiles[k], IndexIn(line.at, q);
    hide Ready, ChainOf, Reached, Notifies, AfterEntry, AfterToken, AfterAck, OwnLock, NextLock, OnlyLine, Enter,
      HaveToken, TokenBack, ReleaseLock, Release, SetFiber, SetTile;
    match t.pc
    case Out => SetFiberIsSetTile(m, line, k, Enter(t, k, |c.tiles|));
    case WaitSelf =>
      SetFiberIsSetTile(m, line, k, if c.lock[k] then HaveToken(t, k, |c.tiles|) else t.(asleep := true));
    case WaitNextFree => SetFiberIsSetTile(m, line, k, if c.lock[k + 1] then t.(asleep := true) else t.(pc := Raise));
    case Raise => ReleaseIsRelease(m, line, k, k + 1, true, t.(pc := WaitAck), q);
    case WaitAck => SetFiberIsSetTile(m, line, k, if c.lock[k + 1] then t.(asleep := true) else TokenBack(t, k));
    case Close1 => ReleaseIsRelease(m, line, k, k, false, if m.atomicClose then Leave(t) else t.(pc := Close2), q);
    case Close2 => ReleaseIsRelease(m, line, k, k, false, Leave(t), q);
  }

  // ---------------------------------------------------------------- the machine is a grid of chains

  /** The barrier that a tile is in or about to enter: full_barrier does the column first. */
  function Turn(m: Machine, p: Position): Kind
    requires p in m.col && p in m.row
  {
    if m.col[p].round == m.row[p].round then Vertical else Horizontal
  }

  function LineOf(m: Machine, kind: Kind, x: nat, y: nat): Line {
    if kind.Vertical? then Column(m, x) else RowLine(m, y)
  }

  function PlaceOf(m: Machine, kind: Kind, x: nat, y: nat): int {
    if kind.Vertical? then y else RowIndex(x, y, m.sizeX)
  }

  ghost predicate MachineEnabled(m: Machine, x: nat, y: nat, q: Position) {
    && Position(x, y) in m.col && Position(x, y) in m.row
    && BarrierEnabled(m, Turn(m, Position(x, y)), Position(x, y), q)
  }

  /** Tile (x, y) takes the next step of full_barrier. */
  ghost function MachineStep(m: Machine, x: nat, y: nat, q: Position): Machine
    requires MachineEnabled(m, x, y, q)
  {
    BarrierStep(m, Turn(m, Position(x, y)), Position(x, y), q)
  }

  ghost predicate Good(m: Machine) {
    m.Shape() && m.id0 != m.id1
  }

  lemma LineIsReady(m: Machine, kind: Kind, x: nat, y: nat)
    requires Good(m) && x < m.sizeX && y < m.sizeY
    ensures Ready(m, LineOf(m, kind, x, y))
    ensures var line, k := LineOf(m, kind, x, y), PlaceOf(m, kind, x, y);
            line.kind == kind && 0 <= k < |line.at| && line.at[k] == Position(x, y)
  {
    ColumnIsWired(m, x);
    RowIsWired(m, y);
    LineInFibers(m, LineOf(m, kind, x, y));
  }

  ghost function GridOf(m: Machine): Grid
    requires Good(m)
  {
    GridOfIsDefined(m);
    Grid(m.sizeX, m.sizeY,
         seq(m.sizeX, x requires 0 <= x < m.sizeX => ChainOf(m, Column(m, x))),
         seq(m.sizeY, y requires 0 <= y < m.sizeY => ChainOf(m, RowLine(m, y))))
  }

  lemma GridOfIsDefined(m: Machine)
    requires Good(m)
    ensures forall x: nat, k: nat :: x < m.sizeX && k < m.sizeY ==> Column(m, x).at[k] in m.col
    ensures forall y: nat, k: nat :: y < m.sizeY && k < m.sizeX ==> RowLine(m, y).at[k] in m.row
  {
    forall x: nat, k: nat | x < m.sizeX && k < m.sizeY ensures Column(m, x).at[k] in m.col {
      assert m.OnGrid(Column(m, x).at[k]);
    }
    forall y: nat, k: nat | y < m.sizeY && k < m.sizeX ensures RowLine(m, y).at[k] in m.row {
      assert m.OnGrid(RowLine(m, y).at[k]);
    }
  }

  /** Both views of a tile agree. */
  lemma GridOfTile(m: Machine, x: nat, y: nat)
    requires Good(m) && x < m.sizeX && y < m.sizeY
    ensures var g, p := GridOf(m), Position(x, y);
            && g.Shape() && p in m.col && p in m.row && g.Col(x, y) == m.col[p] && g.Row(x, y) == m.row[p]
  {
    assert m.OnGrid(Position(x, y));
    GridOfIsDefined(m);
    assert Column(m, x).at[y] == Position(x, y);
    assert RowLine(m, y).at[RowIndex(x, y, m.sizeX)] == Position(x, y);
    assert GridOf(m).cols[x] == ChainOf(m, Column(m, x)) && GridOf(m).rows[y] == ChainOf(m, RowLine(m, y));
  }

  lemma OtherLine(m: Machine, m1: Machine, line: Line, other: Line)
    requires Ready(m, line) && Ready(m, other) && Ready(m1, other) && OnlyLine(m, m1, line)
    requires other.kind != line.kind || forall p :: p in other.at ==> p !in line.at
    ensures ChainOf(m1, other) == ChainOf(m, other)
  {
    var c, c1 := ChainOf(m, other), ChainOf(m1, other);
    assert c1.tiles == c.tiles;
    assert c1.lock == c.lock;
  }

  /** Line (x, y) of either kind keeps its chain when another line steps. */
  lemma OtherLines(m: Machine, m1: Machine, kind: Kind, x: nat, y: nat, other: Kind, a: nat, b: nat)
    requires Good(m) && Good(m1) && x < m.sizeX && y < m.sizeY && a < m.sizeX && b < m.sizeY
    requires OnlyLine(m, m1, LineOf(m, kind, x, y))
    requires other != kind || (if kind.Vertical? then a != x else b != y)
    ensures LineOf(m1, other, a, b) == LineOf(m, other, a, b) && Ready(m, LineOf(m, other, a, b)) &&
            Ready(m1, LineOf(m, other, a, b))
    ensures ChainOf(m1, LineOf(m, other, a, b)) == ChainOf(m, LineOf(m, other, a, b))
  {
    hide Ready, OnlyLine;
    assert m1.sizeX == m.sizeX && m1.sizeY == m.sizeY by { OnlyLineKeepsSizes(m, m1, LineOf(m, kind, x, y)); }
    assert LineOf(m1, other, a, b) == LineOf(m, other, a, b);
    LineIsReady(m, kind, x, y);
    LineIsReady(m, other, a, b);
    LineIsReady(m1, other, a, b);
    OtherLine(m, m1, LineOf(m, kind, x, y), LineOf(m, other, a, b));
  }

  lemma OnlyLineKeepsSizes(m: Machine, m1: Machine, line: Line)
    requires OnlyLine(m, m1, line)
    ensures m1.sizeX == m.sizeX && m1.sizeY == m.sizeY && m1.id0 == m.id0 && m1.id1 == m.id1
  {
  }

  lemma GridChanges(m: Machine, m1: Machine, kind: Kind, x: nat, y: nat)
    requires Good(m) && Good(m1) && x < m.sizeX && y < m.sizeY && OnlyLine(m, m1, LineOf(m, kind, x, y))
    ensures var line := LineOf(m, kind, x, y); var g, g1 := GridOf(m), GridOf(m1);
            && Ready(m1, line)
            && g1 == if kind.Vertical? then g.(cols := g.cols[x := ChainOf(m1, line)])
                     else g.(rows := g.rows[y := ChainOf(m1, line)])
  {
    hide Ready, OnlyLine, ChainOf;
    var line := LineOf(m, kind, x, y);
    OnlyLineKeepsSizes(m, m1, line);
    LineIsReady(m, kind, x, y);
    LineIsReady(m1, kind, x, y);
    assert LineOf(m1, kind, x, y) == line;
    var g, g1 := GridOf(m), GridOf(m1);
    forall a: nat | a < m.sizeX && (kind.Horizontal? || a != x) ensures g1.cols[a] == g.cols[a] {
      OtherLines(m, m1, kind, x, y, Vertical, a, y);
    }
    forall b: nat | b < m.sizeY && (kind.Vertical? || b != y) ensures g1.rows[b] == g.rows[b] {
      OtherLines(m, m1, kind, x, y, Horizontal, x, b);
    }
    if kind.Vertical? {
      assert g1.cols == g.cols[x := ChainOf(m1, line)];
      assert g1.rows == g.rows;
    } else {
      assert g1.rows == g.rows[y := ChainOf(m1, line)];
      assert g1.cols == g.cols;
    }
  }

  /** The chain and the place in it that a tile of the machine steps in. */
  ghost predicate Steps(m: Machine, x: nat, y: nat, line: Line, k: nat)
    requires Good(m) && x < m.sizeX && y < m.sizeY
  {
    GridOfTile(m, x, y);
    var kind := Turn(m, Position(x, y));
    line == LineOf(m, kind, x, y) && k == PlaceOf(m, kind, x, y)
  }

  lemma EnabledAlike(m: Machine, x: nat, y: nat, q: Position, line: Line, k: nat)
    requires Good(m) && x < m.sizeX && y < m.sizeY && Steps(m, x, y, line, k)
    requires Ready(m, line) && k < |line.at| && PcFits(ChainOf(m, line), k)
    ensures MachineEnabled(m, x, y, q) <==> GridEnabled(GridOf(m), x, y, IndexIn(line.at, q))
  {
    hide Ready, BarrierEnabled, Enabled, ChainOf;
    GridOfTile(m, x, y);
    LineIsReady(m, line.kind, x, y);
    LineEnabled(m, line, k, q);
  }

  /** Each lock operation of a tile is a step of the grid of chains. */
  lemma MachineStepIsGridStep(m: Machine, x: nat, y: nat, q: Position, line: Line, k: nat)
    requires Good(m) && x < m.sizeX && y < m.sizeY && Steps(m, x, y, line, k)
    requires Ready(m, line) && k < |line.at| && PcFits(ChainOf(m, line), k) && MachineEnabled(m, x, y, q)
    ensures var m1, w := MachineStep(m, x, y, q), IndexIn(line.at, q);
            && Good(m1) && OnlyLine(m, m1, line)
            && GridEnabled(GridOf(m), x, y, w) && GridOf(m1) == GridStep(GridOf(m), x, y, w)
  {
    hide Ready, BarrierEnabled, BarrierStep, Enabled, ChainBarrier.Step, ChainOf, OnlyLine, PcFits;
    GridOfTile(m, x, y);
    LineIsReady(m, line.kind, x, y);
    EnabledAlike(m, x, y, q, line, k);
    LineStep(m, line, k, q);
    var m1 := MachineStep(m, x, y, q);
    assert Good(m1) by { ReadyIsGood(m1, line); }
    GridChanges(m, m1, line.kind, x, y);
  }

  lemma ReadyIsGood(m: Machine, line: Line)
    requires Ready(m, line)
    ensures Good(m)
  {
  }

  // ---------------------------------------------------------------- runs

  function Boot(sizeX: nat, sizeY: nat, rounds: nat, atomicClose: bool, id0: nat, id1: nat): Machine {
    var idle := map p: Position | p in Positions(sizeX, sizeY) :: Tile(0, Out, false);
    Machine(sizeX, sizeY, rounds, atomicClose, id0, id1, idle, idle, map[])
  }

  function Positions(sizeX: nat, sizeY: nat): set<Position> {
    set x: nat, y: nat | x < sizeX && y < sizeY :: Position(x, y)
  }

  lemma BootIsGood(sizeX: nat, sizeY: nat, rounds: nat, atomicClose: bool, id0: nat, id1: nat)
    requires id0 != id1
    ensures var m := Boot(sizeX, sizeY, rounds, atomicClose, id0, id1);
            Good(m) && GridOf(m) == CreateGrid(sizeX, sizeY, rounds, atomicClose)
  {
    var m, g0 := Boot(sizeX, sizeY, rounds, atomicClose, id0, id1), CreateGrid(sizeX, sizeY, rounds, atomicClose);
    forall p: Position ensures m.OnGrid(p) {
      if p.IsValid(sizeX, sizeY) {
        var x: nat, y: nat := p.x, p.y;
        assert p == Position(x, y);
      }
    }
    var g := GridOf(m);
    assert forall l: LockAt :: !m.Lock(l);
    forall x: nat | x < sizeX ensures g.cols[x] == g0.cols[x] {
      assert g.cols[x] == ChainOf(m, Column(m, x));
      forall y: nat | y < sizeY ensures g.cols[x].tiles[y] == Tile(0, Out, false) {
        GridOfTile(m, x, y);
      }
      assert g.cols[x].tiles == g0.cols[x].tiles && g.cols[x].lock == g0.cols[x].lock;
    }
    forall y: nat | y < sizeY ensures g.rows[y] == g0.rows[y] {
      assert g.rows[y] == ChainOf(m, RowLine(m, y));
      forall k: nat | k < sizeX ensures g.rows[y].tiles[k] == Tile(0, Out, false) {
        GridOfTile(m, RowIndex(k, y, sizeX), y);
      }
      assert g.rows[y].tiles == g0.rows[y].tiles && g.rows[y].lock == g0.rows[y].lock;
    }
    assert g.cols == g0.cols && g.rows == g0.rows;
  }

  datatype TileMove = TileMove(x: nat, y: nat, wakes: Position)

  ghost predicate MachinePossible(m: Machine, ms: seq<TileMove>)
    decreases |ms|
  {
    ms == [] || (&& MachineEnabled(m, ms[0].x, ms[0].y, ms[0].wakes)
                 && MachinePossible(MachineStep(m, ms[0].x, ms[0].y, ms[0].wakes), ms[1..]))
  }

  ghost function MachineRun(m: Machine, ms: seq<TileMove>): Machine
    requires MachinePossible(m, ms)
    decreases |ms|
  {
    if ms == [] then m else MachineRun(MachineStep(m, ms[0].x, ms[0].y, ms[0].wakes), ms[1..])
  }

  ghost predicate MachineInv(m: Machine) {
    Good(m) && GridInv(GridOf(m), m.rounds, m.atomicClose)
  }

  /** An invariant grid has every tile where its place allows. */
  lemma InvFits(m: Machine, x: nat, y: nat, line: Line, k: nat)
    requires MachineInv(m) && x < m.sizeX && y < m.sizeY && Steps(m, x, y, line, k)
    ensures Ready(m, line) && k < |line.at| && PcFits(ChainOf(m, line), k)
  {
    hide Ready, Inv, ChainOf;
    GridOfTile(m, x, y);
    LineIsReady(m, line.kind, x, y);
    var g := GridOf(m);
    assert ChainOk(g.cols[x], m.rounds, m.atomicClose) && ChainOk(g.rows[y], m.rounds, m.atomicClose);
    ChainFits(ChainOf(m, line), k) by { ChainLength(m, line); }
  }

  lemma ChainLength(m: Machine, line: Line)
    requires Ready(m, line)
    ensures |ChainOf(m, line).tiles| == |line.at|
  {
  }

  lemma ChainFits(c: Chain, k: nat)
    requires Inv(c) && k < |c.tiles|
    ensures PcFits(c, k)
  {
    assert TileOk(c, k);
  }

  lemma MachineStepKeepsInv(m: Machine, x: nat, y: nat, q: Position)
    requires MachineInv(m) && MachineEnabled(m, x, y, q) && GridSound(m.sizeX, m.sizeY, m.rounds, m.atomicClose)
    ensures var m1 := MachineStep(m, x, y, q);
            && MachineInv(m1) && m1.sizeX == m.sizeX && m1.sizeY == m.sizeY
            && m1.rounds == m.rounds && m1.atomicClose == m.atomicClose
  {
    hide GridInv, GridStep, GridEnabled, BarrierStep, BarrierEnabled, Ready, PcFits;
    assert x < m.sizeX && y < m.sizeY by { assert m.OnGrid(Position(x, y)); }
    GridOfTile(m, x, y);
    var kind := Turn(m, Position(x, y));
    var line, k := LineOf(m, kind, x, y), PlaceOf(m, kind, x, y);
    LineIsReady(m, kind, x, y);
    InvFits(m, x, y, line, k);
    MachineStepIsGridStep(m, x, y, q, line, k);
    GridStepKeepsInv(GridOf(m), x, y, IndexIn(line.at, q), m.rounds, m.atomicClose);
  }

  lemma {:induction false} MachineRunKeepsInv(m: Machine, ms: seq<TileMove>)
    requires MachineInv(m) && MachinePossible(m, ms) && GridSound(m.sizeX, m.sizeY, m.rounds, m.atomicClose)
    ensures var m1 := MachineRun(m, ms);
            && MachineInv(m1) && m1.sizeX == m.sizeX && m1.sizeY == m.sizeY
            && m1.rounds == m.rounds && m1.atomicClose == m.atomicClose
    decreases |ms|
  {
    hide MachineInv, MachineEnabled, MachineStep;
    if ms != [] {
      MachineStepKeepsInv(m, ms[0].x, ms[0].y, ms[0].wakes);
      MachineRunKeepsInv(MachineStep(m, ms[0].x, ms[0].y, ms[0].wakes), ms[1..]);
    }
  }

  // ---------------------------------------------------------------- main results

  /** No tile has left full barrier k unless every tile of the grid has entered it. */
  ghost predicate FullBarrierSafe(m: Machine) {
    forall p, q, k: nat :: p in m.row && q in m.col && m.row[p].round > k ==> Entered(m.col[q], k)
  }

  lemma InvIsFullBarrier(m: Machine)
    requires MachineInv(m)
    ensures FullBarrierSafe(m)
  {
    hide GridInv;
    var g := GridOf(m);
    forall p, q, k: nat | p in m.row && q in m.col && m.row[p].round > k ensures Entered(m.col[q], k) {
      assert m.OnGrid(p) && m.OnGrid(q);
      GridOfTile(m, p.x, p.y);
      GridOfTile(m, q.x, q.y);
      LeftMeansAllEntered(g, m.rounds, m.atomicClose, p.x, p.y, q.x, q.y, k);
    }
  }

  /** For any grid and any two lock ids, full_barrier is a barrier for the whole grid, as long
      as the closing releases of one round cannot meet a token of the next. */
  lemma FullBarrierHolds(sizeX: nat, sizeY: nat, rounds: nat, atomicClose: bool, id0: nat, id1: nat, ms: seq<TileMove>)
    requires id0 != id1 && GridSound(sizeX, sizeY, rounds, atomicClose)
    requires MachinePossible(Boot(sizeX, sizeY, rounds, atomicClose, id0, id1), ms)
    ensures var m := MachineRun(Boot(sizeX, sizeY, rounds, atomicClose, id0, id1), ms);
            MachineInv(m) && FullBarrierSafe(m)
  {
    hide MachineInv, MachinePossible, MachineRun, Boot, FullBarrierSafe;
    var m0 := Boot(sizeX, sizeY, rounds, atomicClose, id0, id1);
    BootInv(sizeX, sizeY, rounds, atomicClose, id0, id1);
    MachineRunKeepsInv(m0, ms);
    InvIsFullBarrier(MachineRun(m0, ms));
  }

  lemma BootInv(sizeX: nat, sizeY: nat, rounds: nat, atomicClose: bool, id0: nat, id1: nat)
    requires id0 != id1
    ensures var m := Boot(sizeX, sizeY, rounds, atomicClose, id0, id1);
            && MachineInv(m) && m.sizeX == sizeX && m.sizeY == sizeY
            && m.rounds == rounds && m.atomicClose == atomicClose
  {
    BootIsGood(sizeX, sizeY, rounds, atomicClose, id0, id1);
    CreateIsGood(sizeX, rounds, atomicClose);
    CreateIsGood(sizeY, rounds, atomicClose);
    var g := CreateGrid(sizeX, sizeY, rounds, atomicClose);
    assert forall x: int, y: int :: TurnOk(g, x, y);
  }

  /** While a tile has full barriers left to pass, some tile of the grid can step. */
  lemma FullBarrierNeverSticks(m: Machine, p: Position) returns (a: nat, b: nat, q: Position)
    requires MachineInv(m) && p in m.row && m.row[p].round < m.rounds
    ensures MachineEnabled(m, a, b, q)
  {
    hide GridInv, BarrierEnabled, Ready, PcFits;
    assert m.OnGrid(p);
    GridOfTile(m, p.x, p.y);
    var w;
    a, b, w := GridNoDeadlock(GridOf(m), m.rounds, m.atomicClose, p.x, p.y);
    GridOfTile(m, a, b);
    q := SameWake(m, a, b, w);
  }

  ghost function MachineLeft(m: Machine): nat
    requires MachineInv(m)
  {
    GridLeft(GridOf(m), m.rounds, m.atomicClose)
  }

  lemma MachineStepTakes(m: Machine, x: nat, y: nat, q: Position)
    requires MachineInv(m) && MachineEnabled(m, x, y, q) && GridSound(m.sizeX, m.sizeY, m.rounds, m.atomicClose)
    ensures MachineInv(MachineStep(m, x, y, q)) && MachineLeft(MachineStep(m, x, y, q)) < MachineLeft(m)
  {
    hide GridInv, GridStep, GridEnabled, BarrierStep, BarrierEnabled, Ready, PcFits, GridLeft;
    MachineStepKeepsInv(m, x, y, q);
    assert x < m.sizeX && y < m.sizeY by { assert m.OnGrid(Position(x, y)); }
    GridOfTile(m, x, y);
    var kind := Turn(m, Position(x, y));
    var line, k := LineOf(m, kind, x, y), PlaceOf(m, kind, x, y);
    LineIsReady(m, kind, x, y);
    InvFits(m, x, y, line, k);
    MachineStepIsGridStep(m, x, y, q, line, k);
    GridStepTakes(GridOf(m), x, y, IndexIn(line.at, q), m.rounds, m.atomicClose);
  }

  lemma {:induction false} MachineRunTakes(m: Machine, ms: seq<TileMove>)
    requires MachineInv(m) && MachinePossible(m, ms) && GridSound(m.sizeX, m.sizeY, m.rounds, m.atomicClose)
    ensures MachineInv(MachineRun(m, ms)) && |ms| + MachineLeft(MachineRun(m, ms)) <= MachineLeft(m)
    decreases |ms|
  {
    hide MachineInv, MachineEnabled, MachineStep, MachineLeft;
    if ms != [] {
      MachineStepKeepsInv(m, ms[0].x, ms[0].y, ms[0].wakes);
      MachineStepTakes(m, ms[0].x, ms[0].y, ms[0].wakes);
      MachineRunTakes(MachineStep(m, ms[0].x, ms[0].y, ms[0].wakes), ms[1..]);
    }
  }

  /** Every run has a bounded number of lock operations, and one that cannot go on has led every
      tile through all its full barriers. */
  lemma FullBarriersEnd(sizeX: nat, sizeY: nat, rounds: nat, atomicClose: bool, id0: nat, id1: nat, ms: seq<TileMove>)
    requires id0 != id1 && GridSound(sizeX, sizeY, rounds, atomicClose)
    requires MachinePossible(Boot(sizeX, sizeY, rounds, atomicClose, id0, id1), ms)
    ensures |ms| <= sizeX * (sizeY * (12 * rounds)) + sizeY * (sizeX * (12 * rounds))
    ensures var m := MachineRun(Boot(sizeX, sizeY, rounds, atomicClose, id0, id1), ms);
            (forall a: nat, b: nat, q: Position :: !MachineEnabled(m, a, b, q)) ==>
              forall p :: p in m.row ==> m.row[p].round >= rounds
  {
    hide MachineInv, MachinePossible, MachineRun, Boot, MachineEnabled, MachineLeft;
    var m0 := Boot(sizeX, sizeY, rounds, atomicClose, id0, id1);
    BootInv(sizeX, sizeY, rounds, atomicClose, id0, id1);
    MachineRunTakes(m0, ms);
    MachineRunKeepsInv(m0, ms);
    LeftAtBoot(m0);
    var m := MachineRun(m0, ms);
    if forall a: nat, b: nat, q: Position :: !MachineEnabled(m, a, b, q) {
      forall p | p in m.row ensures m.row[p].round >= rounds {
        if m.row[p].round < rounds { var a, b, q := FullBarrierNeverSticks(m, p); }
      }
    }
  }

  lemma LeftAtBoot(m: Machine)
    requires MachineInv(m)
    ensures MachineLeft(m) <= m.sizeX * (m.sizeY * (12 * m.rounds)) + m.sizeY * (m.sizeX * (12 * m.rounds))
  {
    hide GridInv, GridLeft;
    GridLeftIsBounded(GridOf(m), m.rounds, m.atomicClose);
  }

  /** Every step of the grid of chains is one of the machine. */
  lemma SameWake(m: Machine, x: nat, y: nat, w: nat) returns (q: Position)
    requires Good(m) && x < m.sizeX && y < m.sizeY && GridEnabled(GridOf(m), x, y, w)
    ensures MachineEnabled(m, x, y, q)
    ensures Good(MachineStep(m, x, y, q)) && GridOf(MachineStep(m, x, y, q)) == GridStep(GridOf(m), x, y, w)
  {
    hide BarrierEnabled, BarrierStep, Ready, ChainOf;
    GridOfTile(m, x, y);
    var kind := Turn(m, Position(x, y));
    var line, k := LineOf(m, kind, x, y), PlaceOf(m, kind, x, y);
    LineIsReady(m, kind, x, y);
    ChainLength(m, line);
    assert Enabled(ChainOf(m, line), k, w);
    q := if w < |line.at| then line.at[w] else Position(-1, -1);
    var v := IndexIn(line.at, q);
    assert w < |line.at| ==> v == w by {
      if w < |line.at| { OnePlace(m, line, v, w); }
    }
    assert q == Position(-1, -1) ==> v == |line.at| by { NotOnLine(m, line, v); }
    SameSleeper(ChainOf(m, line), k, w, v);
    assert GridEnabled(GridOf(m), x, y, v) && GridStep(GridOf(m), x, y, v) == GridStep(GridOf(m), x, y, w);
    EnabledAlike(m, x, y, q, line, k);
    MachineStepIsGridStep(m, x, y, q, line, k);
  }

  lemma NotOnLine(m: Machine, line: Line, k: nat)
    requires Ready(m, line) && k <= |line.at|
    ensures k < |line.at| ==> line.at[k].x >= 0
  {
    assert PlaceOk(m, line, k);
  }

  /** Nobody beyond the end of a chain is woken. */
  lemma SameSleeper(c: Chain, i: nat, w: nat, v: nat)
    requires Enabled(c, i, w) && (w == v || (w >= |c.tiles| && v >= |c.tiles|))
    ensures Enabled(c, i, v) && ChainBarrier.Step(c, i, v) == ChainBarrier.Step(c, i, w) && PcFits(c, i)
  {
  }
}
