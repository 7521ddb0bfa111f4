/**
 Whatever mixture of plain accesses, reservations and out-of-order commits its clients
 make, the pipe behaves as one FIFO. The reference is a history built from the calls and
 the replies only, without looking inside the pipe.
 */
module PipeFifo {
  import opened Basics
  import opened PipeModel

  datatype Span = Span(start: int, size: nat)

  /** `put` and `got` are the values put in and taken out in stream order. A reserved slot
      counts from the reservation on, with the value last stored in it; `openWrites` and
      `openReads` are the reservations not committed yet. */
  datatype History<T> = History(
    put: seq<T>, got: seq<T>, openWrites: map<nat, Span>, openReads: map<nat, Span>)

  function Observe<T>(h: History<T>, blank: T, c: Call<T>, r: Reply<T>): History<T> {
    match (c, r)
    case (Write(v), Done) => h.(put := h.put + [v])
    case (Read, Value(v)) => h.(got := h.got + [v])
    case (ReserveWrite(n), Reserved(id, _)) =>
      h.(put := h.put + seq(n, _ => blank), openWrites := h.openWrites[id := Span(|h.put|, n)])
    case (ReserveRead(n), Reserved(id, view)) =>
      h.(got := h.got + view, openReads := h.openReads[id := Span(|h.got|, n)])
    case (Store(id, k, v), Done) =>
      if id in h.openWrites && 0 <= h.openWrites[id].start + k < |h.put|
      then h.(put := h.put[h.openWrites[id].start + k := v]) else h
    case (MarkWrite(id), Done) => h.(openWrites := h.openWrites - {id})
    case (MarkRead(id), Done) => h.(openReads := h.openReads - {id})
    case _ => h
  }

  datatype World<T> = World(s: State<T>, h: History<T>)

  function Start<T>(capacity: nat, blank: T): World<T> {
    World(Create(capacity, blank), History([], [], map[], map[]))
  }

  function Next<T>(w: World<T>, c: Call<T>): World<T>
    requires Inv(w.s) && Legal(w.s, c)
  {
    var o := Step(w.s, c);
    World(o.state, Observe(w.h, w.s.blank, c, o.reply))
  }

  ghost predicate LegalRun<T>(w: World<T>, calls: seq<Call<T>>)
    requires Inv(w.s)
    decreases |calls|
  {
    calls == [] || (Legal(w.s, calls[0]) && (StepKeepsInv(w.s, calls[0]); LegalRun(Next(w, calls[0]), calls[1..])))
  }

  ghost function Run<T>(w: World<T>, calls: seq<Call<T>>): World<T>
    requires Inv(w.s) && LegalRun(w, calls)
    decreases |calls|
  {
    if calls == [] then w else
      StepKeepsInv(w.s, calls[0]);
      Run(Next(w, calls[0]), calls[1..])
  }

  // ---------------------------------------------------------------- coupling

  ghost predicate Tracks(q: seq<Reservation>, open: map<nat, Span>) {
    && (forall i :: 0 <= i < |q| && !q[i].ready ==> q[i].id in open && open[q[i].id] == Span(q[i].start, q[i].size))
    && (forall id :: id in open ==> exists i :: 0 <= i < |q| && q[i].id == id && !q[i].ready)
  }

  /** The buffer holds the stream from `popped` on; what was taken is the stream up to the
      frozen slots; the queues hold the open reservations. */
  ghost predicate Coupled<T>(w: World<T>) {
    && Inv(w.s)
    && Streams(w.s, w.h)
    && Tracks(w.s.wq, w.h.openWrites)
    && Tracks(w.s.rq, w.h.openReads)
  }

  ghost predicate Streams<T>(s: State<T>, h: History<T>) {
    && |h.put| == s.End()
    && s.cb == h.put[s.popped..]
    && |h.got| == s.popped + s.frozen
    && h.got <= h.put
  }

  lemma TakeKeepsStreams<T>(s: State<T>, h: History<T>, n: nat)
    requires Streams(s, h) && s.frozen + n <= |s.cb|
    ensures Streams(s.(frozen := s.frozen + n), h.(got := h.got + s.cb[s.frozen..s.frozen + n]))
  {
    assert s.cb[s.frozen..s.frozen + n] == h.put[|h.got|..|h.got| + n];
  }

  lemma TracksAppend(q: seq<Reservation>, open: map<nat, Span>, r: Reservation, lo: int, hi: int)
    requires Tracks(q, open) && !r.ready && Ordered(q, lo, hi, r.id)
    ensures Tracks(q + [r], open[r.id := Span(r.start, r.size)])
  {
    var q1, open1 := q + [r], open[r.id := Span(r.start, r.size)];
    forall id | id in open1 ensures exists i :: 0 <= i < |q1| && q1[i].id == id && !q1[i].ready {
      if id == r.id {
        assert q1[|q|] == r;
      } else {
        var i :| 0 <= i < |q| && q[i].id == id && !q[i].ready;
        assert q1[i] == q[i];
      }
    }
  }

  lemma TracksMark(q: seq<Reservation>, open: map<nat, Span>, id: nat, lo: int, hi: int, nextId: nat)
    requires Tracks(q, open) && Ordered(q, lo, hi, nextId)
    ensures Tracks(Mark(q, id), open - {id})
  {
    var q1 := Mark(q, id);
    forall x | x in open - {id} ensures exists i :: 0 <= i < |q1| && q1[i].id == x && !q1[i].ready {
      var i :| 0 <= i < |q| && q[i].id == x && !q[i].ready;
      assert q1[i] == q[i];
    }
  }

  lemma TracksRelease(q: seq<Reservation>, open: map<nat, Span>)
    requires Tracks(q, open) && q != [] && q[0].ready
    ensures Tracks(q[1..], open)
  {
    forall x | x in open ensures exists i :: 0 <= i < |q[1..]| && q[1..][i].id == x && !q[1..][i].ready {
      var i :| 0 <= i < |q| && q[i].id == x && !q[i].ready;
      assert q[1..][i - 1] == q[i];
    }
  }

  lemma {:induction false} MoveWritesKeepsCoupled<T>(w: World<T>)
    requires Coupled(w)
    ensures Coupled(w.(s := MoveWrites(w.s)))
    decreases |w.s.wq|
  {
    var s := w.s;
    if s.wq != [] && s.wq[0].ready {
      TracksRelease(s.wq, w.h.openWrites);
      MoveWritesKeepsCoupled(w.(s := ReleaseWrite(s)));
    }
  }

  lemma {:induction false} MoveReadsKeepsCoupled<T>(w: World<T>)
    requires Coupled(w)
    ensures Coupled(w.(s := MoveReads(w.s)))
    decreases |w.s.rq|
  {
    var s := w.s;
    if s.rq != [] && s.rq[0].ready {
      TracksRelease(s.rq, w.h.openReads);
      ReleaseReadKeepsInv(s);
      MoveReadsKeepsCoupled(w.(s := ReleaseRead(s)));
    }
  }

  lemma WriteKeepsCoupled<T>(w: World<T>, v: T)
    requires Coupled(w) && !w.s.Full()
    ensures Coupled(Next(w, Write(v)))
  {
    WriteKeepsInv(w.s, v);
  }

  lemma ReadKeepsCoupled<T>(w: World<T>)
    requires Coupled(w) && !w.s.Empty()
    ensures Coupled(Next(w, Read))
  {
    ReadKeepsInv(w.s);
    TakeKeepsStreams(w.s, w.h, 1);
    assert w.s.cb[w.s.frozen..w.s.frozen + 1] == [ReadValue(w.s)];
  }

  lemma ReserveWriteKeepsCoupled<T>(w: World<T>, n: nat)
    requires Coupled(w) && 0 < n && |w.s.cb| + n <= w.s.capacity
    ensures Coupled(Next(w, ReserveWrite(n)))
  {
    var s := w.s;
    var s1 := ReserveWriteStep(s, n);
    assert Next(w, ReserveWrite(n)) == World(s1, Observe(w.h, s.blank, ReserveWrite(n), Reserved(s.nextId, [])));
    ReserveWriteKeepsInv(s, n);
    PushBlanksAppends(s, n);
    assert Streams(s1, w.h.(put := w.h.put + seq(n, _ => s.blank)));
    TracksAppend(s.wq, w.h.openWrites, Reservation(s.nextId, s.End(), n, false), s.popped + s.frozen, s.End());
  }

  lemma ReadsAreOrdered<T>(s: State<T>)
    requires Inv(s)
    ensures Ordered(s.rq, s.popped, s.popped + s.frozen, s.nextId)
  {
  }

  lemma ReserveReadKeepsCoupled<T>(w: World<T>, n: nat)
    requires Coupled(w) && 0 < n <= w.s.Size()
    ensures Coupled(Next(w, ReserveRead(n)))
  {
    var s := w.s;
    SizeIsExact(s);
    ReserveReadKeepsInv(s, n);
    hide Wrap64, Inv, Ordered;
    assert Ordered(s.rq, s.popped, s.popped + s.frozen, s.nextId) by { ReadsAreOrdered(s); }
    TracksAppend(s.rq, w.h.openReads, Reservation(s.nextId, s.popped + s.frozen, n, false), s.popped,
        s.popped + s.frozen);
    TakeKeepsStreams(s, w.h, n);
  }

  lemma StoreKeepsCoupled<T>(w: World<T>, id: nat, k: nat, v: T)
    requires Coupled(w) && Legal(w.s, Store(id, k, v)) && Holds(w.s.wq, id)
    ensures Coupled(Next(w, Store(id, k, v)))
  {
    var s := w.s;
    var r := s.wq[Find(s.wq, id)];
    assert w.h.openWrites[id] == Span(r.start, r.size);
    assert s.popped + s.frozen <= r.start + k < s.End();
    var s1 := s.(cb := s.cb[r.start + k - s.popped := v]);
    var h1 := w.h.(put := w.h.put[r.start + k := v]);
    assert Inv(s1);
    assert Next(w, Store(id, k, v)) == World(s1, h1);
    hide Inv, Tracks, Find, Holds, Step;
    StoreKeepsStreams(s, w.h, r.start + k, v);
  }

  /** A store at or behind the next slot to read. */
  lemma StoreKeepsStreams<T>(s: State<T>, h: History<T>, at: int, v: T)
    requires Streams(s, h) && s.popped + s.frozen <= at < s.End()
    ensures Streams(s.(cb := s.cb[at - s.popped := v]), h.(put := h.put[at := v]))
  {
  }

  lemma MarkKeepsCoupled<T>(w: World<T>, id: nat)
    requires Coupled(w)
    ensures Coupled(World(w.s.(wq := Mark(w.s.wq, id)), w.h.(openWrites := w.h.openWrites - {id})))
    ensures Coupled(World(w.s.(rq := Mark(w.s.rq, id)), w.h.(openReads := w.h.openReads - {id})))
  {
    var s := w.s;
    MarkKeepsInv(s, id);
    TracksMark(s.wq, w.h.openWrites, id, s.popped + s.frozen, s.End(), s.nextId);
    TracksMark(s.rq, w.h.openReads, id, s.popped, s.popped + s.frozen, s.nextId);
  }

  lemma StepKeepsCoupled<T>(w: World<T>, c: Call<T>)
    requires Coupled(w) && Legal(w.s, c)
    ensures Coupled(Next(w, c))
  {
    if Step(w.s, c).reply == Refused || c.Load? {
      assert Next(w, c) == w;
    } else {
      match c
      case Write(v) => WriteKeepsCoupled(w, v);
      case Read => ReadKeepsCoupled(w);
      case ReserveWrite(n) => ReserveWriteKeepsCoupled(w, n);
      case ReserveRead(n) => ReserveReadKeepsCoupled(w, n);
      case Store(id, k, v) => StoreKeepsCoupled(w, id, k, v);
      case MarkWrite(id) => MarkKeepsCoupled(w, id);
      case MarkRead(id) => MarkKeepsCoupled(w, id);
      case MoveWriteForward => MoveWritesKeepsCoupled(w);
      case MoveReadForward => MoveReadsKeepsCoupled(w);
    }
  }

  lemma {:induction false} RunKeepsCoupled<T>(w: World<T>, calls: seq<Call<T>>)
    requires Coupled(w) && LegalRun(w, calls)
    ensures Coupled(Run(w, calls))
    decreases |calls|
  {
    if calls != [] {
      StepKeepsCoupled(w, calls[0]);
      RunKeepsCoupled(Next(w, calls[0]), calls[1..]);
    }
  }

  // ---------------------------------------------------------------- main results

  /** In every run from an empty pipe, what was taken out is a prefix of what was put in,
      in stream order; no value at or after an uncommitted write reservation was taken;
      and the unreleased part of the stream fits the capacity. */
  lemma PipeIsFifo<T>(capacity: nat, blank: T, calls: seq<Call<T>>)
    requires capacity < SIZE_T && LegalRun(Start(capacity, blank), calls)
    ensures var h := Run(Start(capacity, blank), calls).h;
            && h.got <= h.put
            && (forall id :: id in h.openWrites ==> |h.got| <= h.openWrites[id].start)
            && (forall id :: id in h.openReads ==> |h.put| <= h.openReads[id].start + capacity)
            && |h.put| <= |h.got| + capacity
  {
    RunKeepsCoupled(Start(capacity, blank), calls);
    RunKeepsCapacity(Start(capacity, blank), calls);
  }

  lemma {:induction false} RunKeepsCapacity<T>(w: World<T>, calls: seq<Call<T>>)
    requires Coupled(w) && LegalRun(w, calls)
    ensures Run(w, calls).s.capacity == w.s.capacity
    decreases |calls|
  {
    if calls != [] {
      var c := calls[0];
      StepKeepsCoupled(w, c);
      StepNotifies(w.s, c);
      RunKeepsCapacity(Next(w, c), calls[1..]);
    }
  }

  /** The uncommitted reservations are the open ones of the history. */
  lemma HeldIsOpen(q: seq<Reservation>, open: map<nat, Span>, lo: int, hi: int, nextId: nat, id: nat)
    requires Tracks(q, open) && Ordered(q, lo, hi, nextId)
    ensures Holds(q, id) <==> id in open
    ensures id in open ==> var r := q[Find(q, id)]; open[id] == Span(r.start, r.size)
  {
    if id in open {
      var i :| 0 <= i < |q| && q[i].id == id && !q[i].ready;
      assert Find(q, id) == i;
    }
  }

  /** A store inside an open write reservation is carried out, and a commit is accepted exactly
      for an open reservation. */
  lemma OpenReservationsWork<T>(w: World<T>, id: nat, k: nat, v: T)
    requires Coupled(w)
    ensures id in w.h.openWrites && k < w.h.openWrites[id].size ==>
              && Legal(w.s, Store(id, k, v)) && Step(w.s, Store(id, k, v)).reply == Done
              && var h1 := Next(w, Store(id, k, v)).h; var at := w.h.openWrites[id].start + k;
                 0 <= at < |h1.put| == |w.h.put| && h1 == w.h.(put := w.h.put[at := v])
    ensures Step(w.s, MarkWrite(id)).reply == if id in w.h.openWrites then Done else Refused
    ensures Step(w.s, MarkRead(id)).reply == if id in w.h.openReads then Done else Refused
    ensures id !in w.h.openWrites ==> Step(w.s, Store(id, k, v)).reply == Refused
  {
    var s := w.s;
    HeldIsOpen(s.wq, w.h.openWrites, s.popped + s.frozen, s.End(), s.nextId, id);
    HeldIsOpen(s.rq, w.h.openReads, s.popped, s.popped + s.frozen, s.nextId, id);
  }

  /** A commit closes its reservation in the history and nothing else. */
  lemma CommitKeepsCoupled<T>(w: World<T>, id: nat)
    requires Coupled(w)
    ensures Coupled(World(CommitWrite(w.s, id), w.h.(openWrites := w.h.openWrites - {id})))
    ensures Coupled(World(CommitRead(w.s, id), w.h.(openReads := w.h.openReads - {id})))
  {
    hide Coupled;
    assert Inv(w.s) by { CoupledInv(w); }
    MarkKeepsCoupled(w, id);
    MarkKeepsInv(w.s, id);
    MoveWritesKeepsCoupled(World(w.s.(wq := Mark(w.s.wq, id)), w.h.(openWrites := w.h.openWrites - {id})));
    MoveReadsKeepsCoupled(World(w.s.(rq := Mark(w.s.rq, id)), w.h.(openReads := w.h.openReads - {id})));
  }

  /** A read reservation shows its client the stream at its own place, at any time until
      it is committed, whatever the other clients do meanwhile. */
  lemma LoadSeesStream<T>(w: World<T>, id: nat, k: nat)
    requires Coupled(w) && id in w.h.openReads && k < w.h.openReads[id].size
    ensures Legal(w.s, Load(id, k))
    ensures var at := w.h.openReads[id].start + k;
            && 0 <= at < |w.h.got|
            && Step(w.s, Load(id, k)).reply == Value(w.h.got[at])
  {
    var s := w.s;
    var i :| 0 <= i < |s.rq| && s.rq[i].id == id && !s.rq[i].ready;
    assert Find(s.rq, id) == i;
    assert w.h.openReads[id] == Span(s.rq[i].start, s.rq[i].size);
  }

  /** In a settled pipe each request is granted exactly when the history allows it: a read
      when enough values were put before every uncommitted write reservation, a write when
      the slots from the first uncommitted read reservation on leave enough room. */
  lemma AdmissionIsExact<T>(w: World<T>, n: nat, v: T)
    requires Coupled(w) && Settled(w.s) && 0 < n && |w.s.cb| + n < SIZE_T
    ensures Step(w.s, ReserveRead(n)).reply != Refused <==> Readable(w.h, n)
    ensures Step(w.s, Read).reply != Refused <==> Readable(w.h, 1)
    ensures Step(w.s, ReserveWrite(n)).reply != Refused <==> Writable(w.h, w.s.capacity, n)
    ensures Step(w.s, Write(v)).reply != Refused <==> Writable(w.h, w.s.capacity, 1)
  {
    hide Wrap64, Coupled;
    var s := w.s;
    assert Inv(s) by { CoupledInv(w); }
    SizeIsExact(s);
    RoomTestIsExactIff(s, n);
    ReadableIs(w, n);
    ReadableIs(w, 1);
    WritableIs(w, n);
    WritableIs(w, 1);
  }

  lemma CoupledInv<T>(w: World<T>)
    requires Coupled(w)
    ensures Inv(w.s)
  {
  }

  ghost predicate Readable<T>(h: History<T>, n: nat) {
    && |h.got| + n <= |h.put|
    && forall id :: id in h.openWrites ==> |h.got| + n <= h.openWrites[id].start
  }

  ghost predicate Writable<T>(h: History<T>, capacity: nat, n: nat) {
    && |h.put| + n <= |h.got| + capacity
    && forall id :: id in h.openReads ==> |h.put| + n <= h.openReads[id].start + capacity
  }

  lemma ReadableIs<T>(w: World<T>, n: nat)
    requires Coupled(w) && Settled(w.s)
    ensures Readable(w.h, n) <==> n <= w.s.Size()
  {
    var s := w.s;
    SizeIsExact(s);
    if s.wq != [] {
      assert w.h.openWrites[s.wq[0].id].start == s.wq[0].start;
    }
    forall id | id in w.h.openWrites ensures s.wq != [] && s.wq[0].start <= w.h.openWrites[id].start {
      var i :| 0 <= i < |s.wq| && s.wq[i].id == id && !s.wq[i].ready;
    }
  }

  lemma WritableIs<T>(w: World<T>, n: nat)
    requires Coupled(w) && Settled(w.s)
    ensures Writable(w.h, w.s.capacity, n) <==> |w.s.cb| + n <= w.s.capacity
  {
    var s := w.s;
    if s.rq != [] {
      assert w.h.openReads[s.rq[0].id].start == s.popped;
    }
    forall id | id in w.h.openReads ensures s.popped <= w.h.openReads[id].start {
      var i :| 0 <= i < |s.rq| && s.rq[i].id == id && !s.rq[i].ready;
    }
  }

  // ---------------------------------------------------------------- the missed wake-up in a run

  lemma {:induction false} FillUp<T>(w: World<T>, v: T, k: nat) returns (calls: seq<Call<T>>)
    requires Inv(w.s) && |w.s.cb| + k <= w.s.capacity
    ensures LegalRun(w, calls)
    ensures Run(w, calls).s == w.s.(cb := w.s.cb + seq(k, _ => v), writeDone := w.s.writeDone + k)
    decreases k
  {
    if k == 0 {
      calls := [];
      assert w.s.cb + seq(0, _ => v) == w.s.cb;
    } else {
      WriteKeepsInv(w.s, v);
      var w1 := Next(w, Write(v));
      var rest := FillUp(w1, v, k - 1);
      calls := [Write(v)] + rest;
      assert calls[1..] == rest;
      assert w1.s.cb + seq(k - 1, _ => v) == w.s.cb + seq(k, _ => v);
    }
  }

  /** Where the sums of a waiting reserve_write can wrap, a run of writes leads to a state in
      which the next write makes its condition true without waking it. */
  lemma RunMissesWakeup<T>(capacity: nat, n: nat, v: T) returns (calls: seq<Call<T>>)
    requires capacity < SIZE_T && n < SIZE_T && !RoomIsSound(capacity, n)
    ensures LegalRun(Start(capacity, v), calls)
    ensures !Wakes(Run(Start(capacity, v), calls).s, Write(v), ToReserveWrite(n))
  {
    var k := SIZE_T - 1 - n;
    var s := FilledMissesWakeup(capacity, n, v);
    calls := FillUp(Start(capacity, v), v, k);
    assert Create(capacity, v).cb + seq(k, _ => v) == seq(k, _ => v);
  }
}
