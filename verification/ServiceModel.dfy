/**
 Requests of the device tiles to the host: a record per tile, guarded by a barrier of two
 wrapping 32-bit counters, and the polling loop of the host. A step is one access to the
 shared memory by one tile or by the host.
 */
module ServiceModel {
  import opened Basics

  /** Increment of a uint32_t counter. */
  function Bump(c: nat): (r: nat)
    ensures r < U32
    ensures c < U32 ==> r != c
  {
    Wrap32(c + 1)
  }

  /** Service 0 is the done service. */
  datatype Request<D> = Request(index: nat, data: D, chained: bool)

  /** What a tile is doing: nothing yet for its next request; record written; arrived at the
      first barrier; past it; arrived at the second barrier; stopped after its done request. */
  datatype DevicePc = Ready | Written | Arrived1 | Passed1 | Arrived2 | Halted

  datatype Device<D, R> = Device(pc: DevicePc, dev: nat, host: nat, record: Request<D>, ret: R, got: seq<R>)

  /** Polling a tile; device seen waiting; barrier joined; record loaded; service performed and
      result stored; device seen at the second barrier; all kernels reported done. */
  datatype HostPc = Poll | Seen1 | Joined | Loaded | Stored | Seen2 | Returned

  datatype Host<D> = Host(at: nat, pc: HostPc, copy: Request<D>, chain: bool, done: nat)

  datatype Entry<D, R> = Entry(tile: nat, request: Request<D>, ret: R)

  /** What runs: `next` is the request a tile sends after getting the given results, `need` the
      number of results another tile must have before it goes on to send that request, and
      `act` is what the services do with a request, starting from `init`. */
  datatype System<!D, !R, !S> = System(
    next: (nat, seq<R>) -> Request<D>,
    need: (nat, seq<R>, nat) -> nat,
    act: (S, nat, Request<D>) -> (S, R),
    init: S)

  datatype State<D, R, S> = State(tiles: seq<Device<D, R>>, host: Host<D>, services: S, log: seq<Entry<D, R>>)

  // ---------------------------------------------------------------- device steps

  /** Between two requests a tile may wait for others, as it does in a barrier. */
  predicate MayGo<D, R, S>(sys: System<D, R, S>, s: State<D, R, S>, i: nat)
    requires i < |s.tiles|
  {
    forall j: nat :: j < |s.tiles| ==> sys.need(i, s.tiles[i].got, j) <= |s.tiles[j].got|
  }

  predicate DeviceCanStep<D, R, S>(sys: System<D, R, S>, s: State<D, R, S>, i: nat)
    requires i < |s.tiles|
  {
    var d := s.tiles[i];
    match d.pc
    case Ready => MayGo(sys, s, i)
    case Arrived1 => d.host == d.dev
    case Arrived2 => d.host == d.dev
    case Halted => false
    case _ => true
  }

  function DeviceStep<D, R, S>(sys: System<D, R, S>, i: nat, d: Device<D, R>): Device<D, R>
    requires !d.pc.Halted?
  {
    match d.pc
    case Ready => d.(pc := Written, record := sys.next(i, d.got))
    case Written => d.(pc := Arrived1, dev := Bump(d.dev))
    case Arrived1 => d.(pc := Passed1)
    case Passed1 => d.(pc := Arrived2, dev := Bump(d.dev))
    case Arrived2 => d.(pc := if d.record.index == 0 then Halted else Ready, got := d.got + [d.ret])
  }

  // ---------------------------------------------------------------- host steps

  /** The tile after the current one, or the end of the sweep over the tiles. */
  function Advance<D>(h: Host<D>, n: nat): Host<D> {
    if h.at + 1 < n then h.(at := h.at + 1, pc := Poll, chain := false)
    else if h.done < n then h.(at := 0, pc := Poll, chain := false)
    else h.(pc := Returned)
  }

  /** End of one turn of the inner loop: stay with a tile that asked to chain requests. */
  function Again<D>(h: Host<D>, n: nat): Host<D> {
    if h.chain then h.(pc := Poll) else Advance(h, n)
  }

  predicate HostCanStep<D, R, S>(s: State<D, R, S>) {
    !s.host.pc.Returned? && s.host.at < |s.tiles| &&
    (s.host.pc.Stored? ==> s.tiles[s.host.at].dev != s.tiles[s.host.at].host)
  }

  function HostStep<D, R, S>(sys: System<D, R, S>, s: State<D, R, S>): State<D, R, S>
    requires HostCanStep(s)
  {
    var h, n := s.host, |s.tiles|;
    var d := s.tiles[h.at];
    match h.pc
    case Poll => if d.dev == d.host then s.(host := Again(h, n)) else s.(host := h.(pc := Seen1))
    case Seen1 => s.(tiles := s.tiles[h.at := d.(host := Bump(d.host))], host := h.(pc := Joined))
    case Joined =>
      s.(host := h.(pc := Loaded, copy := d.record, chain := d.record.chained,
          done := h.done + if d.record.index == 0 then 1 else 0))
    case Loaded =>
      var r := sys.act(s.services, h.at, h.copy);
      s.(tiles := s.tiles[h.at := d.(ret := r.1)], services := r.0,
         log := s.log + [Entry(h.at, h.copy, r.1)], host := h.(pc := Stored))
    case Stored => s.(host := h.(pc := Seen2))
    case Seen2 => s.(tiles := s.tiles[h.at := d.(host := Bump(d.host))], host := Again(h, n))
  }

  // ---------------------------------------------------------------- runs

  datatype Actor = Tile(i: nat) | TheHost

  predicate CanStep<D, R, S>(sys: System<D, R, S>, s: State<D, R, S>, a: Actor) {
    match a
    case Tile(i) => i < |s.tiles| && DeviceCanStep(sys, s, i)
    case TheHost => HostCanStep(s)
  }

  function Step<D, R, S>(sys: System<D, R, S>, s: State<D, R, S>, a: Actor): State<D, R, S>
    requires CanStep(sys, s, a)
  {
    match a
    case Tile(i) => s.(tiles := s.tiles[i := DeviceStep(sys, i, s.tiles[i])])
    case TheHost => HostStep(sys, s)
  }

  ghost predicate Possible<D, R, S>(sys: System<D, R, S>, s: State<D, R, S>, acts: seq<Actor>)
    decreases |acts|
  {
    acts == [] || (CanStep(sys, s, acts[0]) && Possible(sys, Step(sys, s, acts[0]), acts[1..]))
  }

  ghost function Run<D, R, S>(sys: System<D, R, S>, s: State<D, R, S>, acts: seq<Actor>): State<D, R, S>
    requires Possible(sys, s, acts)
    decreases |acts|
  {
    if acts == [] then s else Run(sys, Step(sys, s, acts[0]), acts[1..])
  }

  /** Before the kernels start: counters zeroed by the host, the rest of the memory arbitrary. */
  ghost predicate Start<D, R, S>(sys: System<D, R, S>, s: State<D, R, S>) {
    && (forall i :: 0 <= i < |s.tiles| ==>
        s.tiles[i].pc.Ready? && s.tiles[i].dev == s.tiles[i].host == 0 && s.tiles[i].got == [])
    && s.services == sys.init && s.log == []
    && s.host.done == 0 && !s.host.chain
    && if |s.tiles| == 0 then s.host.pc.Returned? else s.host.at == 0 && s.host.pc.Poll?
  }
}
