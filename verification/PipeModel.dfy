/**
 The SYCL 2.2 pipe with read and write reservations, as steps on a value.

 A circular-buffer iterator is an absolute position in the stream of slots (number of
 slots pushed before it), and a deque iterator is a reservation id.
 */
module PipeModel {
  import opened Basics

  datatype Reservation = Reservation(id: nat, start: int, size: nat, ready: bool)

  /** `blank` is the default-constructed element; the two signal fields count the
      notify_all calls on the two condition variables. */
  datatype State<T> = State(
    capacity: nat,
    blank: T,
    cb: seq<T>,
    popped: nat,
    wq: seq<Reservation>,
    rq: seq<Reservation>,
    frozen: nat,
    nextId: nat,
    readDone: nat,
    writeDone: nat)
  {
    function End(): int {
      popped + |cb|
    }

    function ReservedForWriting(): int {
      if wq == [] then 0 else End() - wq[0].start
    }

    /** Two unsigned subtractions, as the source computes it. */
    function Size(): int {
      Wrap64(Wrap64(|cb| - frozen) - ReservedForWriting())
    }

    /** The number of readable values the source means by size(). */
    function Available(): int {
      |cb| - frozen - ReservedForWriting()
    }

    predicate Full() {
      |cb| == capacity
    }

    predicate Empty() {
      Size() == 0
    }

    /** The room test of reserve_write, with its unsigned addition. */
    predicate HasRoom(n: nat) {
      Wrap64(|cb| + n) <= capacity
    }
  }

  function Create<T>(capacity: nat, blank: T): State<T> {
    State(capacity, blank, [], 0, [], [], 0, 0, 0, 0)
  }

  // ---------------------------------------------------------------- operations

  /** boost::circular_buffer::push_back: a full buffer loses its oldest element. */
  function PushBack<T>(s: State<T>, v: T): State<T> {
    if |s.cb| != s.capacity then s.(cb := s.cb + [v])
    else if s.cb == [] then s
    else s.(cb := s.cb[1..] + [v], popped := s.popped + 1)
  }

  function PushBlanks<T>(s: State<T>, n: nat): State<T>
    decreases n
  {
    if n == 0 then s else PushBlanks(PushBack(s, s.blank), n - 1)
  }

  function PopFront<T>(s: State<T>, n: nat): State<T>
    requires n <= |s.cb|
  {
    s.(cb := s.cb[n..], popped := s.popped + n)
  }

  function WriteStep<T>(s: State<T>, v: T): State<T> {
    var s1 := PushBack(s, v);
    s1.(writeDone := s.writeDone + 1)
  }

  function ReadValue<T>(s: State<T>): T
    requires s.frozen < |s.cb|
  {
    s.cb[s.frozen]
  }

  function ReadStep<T>(s: State<T>): State<T>
    requires s.frozen < |s.cb|
  {
    var s1 := if s.frozen != 0 then s.(frozen := s.frozen + 1) else PopFront(s, 1);
    s1.(readDone := s.readDone + 1)
  }

  function ReserveReadStep<T>(s: State<T>, n: nat): State<T> {
    s.(rq := s.rq + [Reservation(s.nextId, s.popped + s.frozen, n, false)],
       frozen := s.frozen + n,
       nextId := s.nextId + 1)
  }

  function ReserveWriteStep<T>(s: State<T>, n: nat): State<T> {
    var s1 := PushBlanks(s, n);
    s1.(wq := s1.wq + [Reservation(s.nextId, s1.End() - n, n, false)],
        nextId := s.nextId + 1)
  }

  function Mark(q: seq<Reservation>, id: nat): seq<Reservation> {
    seq(|q|, i requires 0 <= i < |q| => if q[i].id == id then q[i].(ready := true) else q[i])
  }

  /** Slots given back with the front read reservation: up to the next reservation, or
      everything frozen when it was the last. */
  function ToPop<T>(s: State<T>): int
    requires s.rq != []
  {
    if |s.rq| == 1 then s.frozen else s.rq[1].start - s.popped
  }

  function ReleaseRead<T>(s: State<T>): State<T>
    requires s.rq != [] && 0 <= ToPop(s) <= s.frozen <= |s.cb|
  {
    var s1 := PopFront(s, ToPop(s));
    s1.(rq := s.rq[1..], frozen := s.frozen - ToPop(s), readDone := s.readDone + 1)
  }

  function MoveReads<T>(s: State<T>): State<T>
    requires Inv(s)
    decreases |s.rq|
  {
    if s.rq == [] || !s.rq[0].ready then s
    else
      ReleaseReadKeepsInv(s);
      MoveReads(ReleaseRead(s))
  }

  function ReleaseWrite<T>(s: State<T>): State<T>
    requires s.wq != []
  {
    s.(wq := s.wq[1..], writeDone := s.writeDone + 1)
  }

  function MoveWrites<T>(s: State<T>): State<T>
    decreases |s.wq|
  {
    if s.wq == [] || !s.wq[0].ready then s else MoveWrites(ReleaseWrite(s))
  }

  // ---------------------------------------------------------------- invariant

  ghost predicate Ordered(q: seq<Reservation>, lo: int, hi: int, nextId: nat) {
    && (forall i :: 0 <= i < |q| ==>
        lo <= q[i].start && q[i].size > 0 && q[i].start + q[i].size <= hi && q[i].id < nextId)
    && (forall i, j :: 0 <= i < j < |q| ==> q[i].start + q[i].size <= q[j].start && q[i].id < q[j].id)
  }

  /** Reservations are disjoint, in stream order and inside the stored slots; the first
      read reservation starts at the head; slots are frozen exactly while a read
      reservation is pending; no pending write reservation reaches below the frozen slots. */
  ghost predicate Inv<T>(s: State<T>) {
    && |s.cb| <= s.capacity < SIZE_T
    && s.frozen <= |s.cb|
    && Ordered(s.rq, s.popped, s.popped + s.frozen, s.nextId)
    && Ordered(s.wq, s.popped + s.frozen, s.End(), s.nextId)
    && (s.rq == [] <==> s.frozen == 0)
    && (s.rq != [] ==> s.rq[0].start == s.popped)
  }

  lemma ReleaseReadKeepsInv<T>(s: State<T>)
    requires Inv(s) && s.rq != []
    ensures 0 <= ToPop(s) <= s.frozen <= |s.cb|
    ensures Inv(ReleaseRead(s))
  {
    if |s.rq| > 1 {
      var next := s.rq[1];
      assert s.rq[0].start + s.rq[0].size <= next.start;
    }
  }

  // ---------------------------------------------------------------- calls and replies

  /** One atomic step of some client thread. Commit is two steps, since the ready flag is
      set outside the lock; Store and Load access one element through a reservation. */
  datatype Call<T> =
    | Write(value: T)
    | Read
    | ReserveWrite(n: nat)
    | ReserveRead(n: nat)
    | Store(id: nat, k: nat, value: T)
    | Load(id: nat, k: nat)
    | MarkWrite(id: nat)
    | MarkRead(id: nat)
    | MoveWriteForward
    | MoveReadForward

  datatype Reply<T> = Refused | Done | Value(value: T) | Reserved(id: nat, view: seq<T>)

  datatype Outcome<T> = Outcome(state: State<T>, reply: Reply<T>)

  /** Position of reservation `id` in the queue, or the queue length. */
  function Find(q: seq<Reservation>, id: nat): (i: nat)
    ensures i <= |q|
    ensures i < |q| ==> q[i].id == id
    ensures forall j :: 0 <= j < i ==> q[j].id != id
  {
    if q == [] || q[0].id == id then 0 else 1 + Find(q[1..], id)
  }

  /** The client still holds an uncommitted reservation `id`. */
  predicate Holds(q: seq<Reservation>, id: nat) {
    var i := Find(q, id);
    i < |q| && !q[i].ready
  }

  /** What the source leaves to its callers: stay inside a reservation, and do not ask for
      so many slots that the unsigned room test wraps around. */
  predicate Legal<T>(s: State<T>, c: Call<T>) {
    match c
    case ReserveWrite(n) => |s.cb| + n < SIZE_T
    case Store(id, k, _) => Holds(s.wq, id) ==> k < s.wq[Find(s.wq, id)].size
    case Load(id, k) => Holds(s.rq, id) ==> k < s.rq[Find(s.rq, id)].size
    case _ => true
  }

  function Step<T>(s: State<T>, c: Call<T>): Outcome<T>
    requires Inv(s) && Legal(s, c)
  {
    SizeIsExact(s);
    match c
    case Write(v) =>
      if s.Full() then Outcome(s, Refused) else Outcome(WriteStep(s, v), Done)
    case Read =>
      if s.Empty() then Outcome(s, Refused) else Outcome(ReadStep(s), Value(ReadValue(s)))
    case ReserveWrite(n) =>
      if n == 0 || !s.HasRoom(n) then Outcome(s, Refused)
      else Outcome(ReserveWriteStep(s, n), Reserved(s.nextId, []))
    case ReserveRead(n) =>
      if n == 0 || n > s.Size() then Outcome(s, Refused)
      else Outcome(ReserveReadStep(s, n), Reserved(s.nextId, s.cb[s.frozen..s.frozen + n]))
    case Store(id, k, v) =>
      if !Holds(s.wq, id) then Outcome(s, Refused)
      else Outcome(s.(cb := s.cb[s.wq[Find(s.wq, id)].start + k - s.popped := v]), Done)
    case Load(id, k) =>
      if !Holds(s.rq, id) then Outcome(s, Refused)
      else Outcome(s, Value(s.cb[s.rq[Find(s.rq, id)].start + k - s.popped]))
    case MarkWrite(id) =>
      if Holds(s.wq, id) then Outcome(s.(wq := Mark(s.wq, id)), Done) else Outcome(s, Refused)
    case MarkRead(id) =>
      if Holds(s.rq, id) then Outcome(s.(rq := Mark(s.rq, id)), Done) else Outcome(s, Refused)
    case MoveWriteForward => Outcome(MoveWrites(s), Done)
    case MoveReadForward => Outcome(MoveReads(s), Done)
  }

  // ---------------------------------------------------------------- the invariant is kept

  /** Neither unsigned subtraction of size() ever wraps. */
  lemma SizeIsExact<T>(s: State<T>)
    requires Inv(s)
    ensures 0 <= s.Available() == s.Size()
  {
  }

  /** The room test of reserve_write means what it says, as long as its sum does not wrap;
      when the sum wraps the test always lets the request through. */
  lemma RoomTestIsExactIff<T>(s: State<T>, n: nat)
    requires Inv(s) && n < SIZE_T
    ensures (s.HasRoom(n) <==> |s.cb| + n <= s.capacity) <==> |s.cb| + n < SIZE_T
    ensures |s.cb| + n >= SIZE_T ==> s.HasRoom(n)
  {
  }

  /** With room for all of them, n pushes append n blanks and overwrite nothing. */
  lemma {:induction false} PushBlanksAppends<T>(s: State<T>, n: nat)
    requires |s.cb| + n <= s.capacity
    ensures PushBlanks(s, n) == s.(cb := s.cb + seq(n, _ => s.blank))
    decreases n
  {
    if n == 0 {
      assert s.cb + seq(0, _ => s.blank) == s.cb;
    } else {
      PushBlanksAppends(PushBack(s, s.blank), n - 1);
      assert (s.cb + [s.blank]) + seq(n - 1, _ => s.blank) == s.cb + seq(n, _ => s.blank);
    }
  }

  lemma {:induction false} MoveWritesKeepsInv<T>(s: State<T>)
    requires Inv(s)
    ensures Inv(MoveWrites(s))
    decreases |s.wq|
  {
    if s.wq != [] && s.wq[0].ready {
      MoveWritesKeepsInv(ReleaseWrite(s));
    }
  }

  lemma {:induction false} MoveReadsKeepsInv<T>(s: State<T>)
    requires Inv(s)
    ensures Inv(MoveReads(s))
    decreases |s.rq|
  {
    if s.rq != [] && s.rq[0].ready {
      ReleaseReadKeepsInv(s);
      MoveReadsKeepsInv(ReleaseRead(s));
    }
  }

  lemma WriteKeepsInv<T>(s: State<T>, v: T)
    requires Inv(s) && !s.Full()
    ensures Inv(WriteStep(s, v))
  {
  }

  lemma MarkKeepsInv<T>(s: State<T>, id: nat)
    requires Inv(s)
    ensures Inv(s.(wq := Mark(s.wq, id))) && Inv(s.(rq := Mark(s.rq, id)))
  {
    assert Ordered(Mark(s.wq, id), s.popped + s.frozen, s.End(), s.nextId);
    assert Ordered(Mark(s.rq, id), s.popped, s.popped + s.frozen, s.nextId);
  }

  lemma ReadKeepsInv<T>(s: State<T>)
    requires Inv(s) && !s.Empty()
    ensures s.frozen < |s.cb| && Inv(ReadStep(s))
  {
    SizeIsExact(s);
  }

  lemma ReserveReadKeepsInv<T>(s: State<T>, n: nat)
    requires Inv(s) && 0 < n <= s.Size()
    ensures Inv(ReserveReadStep(s, n))
  {
    SizeIsExact(s);
    var s1 := ReserveReadStep(s, n);
    assert Ordered(s1.wq, s1.popped + s1.frozen, s1.End(), s1.nextId);
    assert Ordered(s1.rq, s1.popped, s1.popped + s1.frozen, s1.nextId);
  }

  lemma ReserveWriteKeepsInv<T>(s: State<T>, n: nat)
    requires Inv(s) && 0 < n && |s.cb| + n <= s.capacity
    ensures Inv(ReserveWriteStep(s, n))
  {
    PushBlanksAppends(s, n);
    var s1 := ReserveWriteStep(s, n);
    assert Ordered(s1.rq, s1.popped, s1.popped + s1.frozen, s1.nextId);
    assert Ordered(s1.wq, s1.popped + s1.frozen, s1.End(), s1.nextId);
  }

  lemma StepKeepsInv<T>(s: State<T>, c: Call<T>)
    requires Inv(s) && Legal(s, c)
    ensures Inv(Step(s, c).state)
  {
    match c
    case Write(v) => if !s.Full() { WriteKeepsInv(s, v); }
    case Read => if !s.Empty() { ReadKeepsInv(s); }
    case ReserveWrite(n) =>
      RoomTestIsExactIff(s, n);
      if n != 0 && s.HasRoom(n) { ReserveWriteKeepsInv(s, n); }
    case ReserveRead(n) => if 0 < n <= s.Size() { ReserveReadKeepsInv(s, n); }
    case Store(_, _, _) =>
    case Load(_, _) =>
    case MarkWrite(id) => MarkKeepsInv(s, id);
    case MarkRead(id) => MarkKeepsInv(s, id);
    case MoveWriteForward => MoveWritesKeepsInv(s);
    case MoveReadForward => MoveReadsKeepsInv(s);
  }

  /** In every state of a pipe each request is answered as the stored slots demand: room for a
      write up to the capacity, values to read up to the first pending write reservation. */
  lemma AnsweredIff<T>(s: State<T>, n: nat, v: T)
    requires Inv(s) && 0 < n && |s.cb| + n < SIZE_T
    ensures Step(s, Write(v)).reply == Done <==> |s.cb| < s.capacity
    ensures Step(s, ReserveWrite(n)).reply == Reserved(s.nextId, []) <==> |s.cb| + n <= s.capacity
    ensures var end := if s.wq == [] then s.popped + |s.cb| else s.wq[0].start;
            && (Step(s, Read).reply.Value? <==> s.popped + s.frozen < end)
            && (Step(s, ReserveRead(n)).reply.Reserved? <==> s.popped + s.frozen + n <= end)
    ensures Step(s, ReserveWrite(0)).reply == Step(s, ReserveRead(0)).reply == Refused
  {
    SizeIsExact(s);
  }

  // ---------------------------------------------------------------- the wrapping room test

  lemma {:induction false} PushBlanksOverwrites<T>(s: State<T>, n: nat)
    requires |s.cb| <= s.capacity && 0 < s.capacity
    ensures PushBlanks(s, n).End() == s.End() + n
    ensures |PushBlanks(s, n).cb| == if |s.cb| + n <= s.capacity then |s.cb| + n else s.capacity
    decreases n
  {
    if n > 0 {
      PushBlanksOverwrites(PushBack(s, s.blank), n - 1);
    }
  }

  /** A write reservation let through by the room test overwrites no stored element if and
      only if the sum in the test stays below 2^64. */
  lemma ReserveWriteKeepsElementsIff<T>(s: State<T>, n: nat)
    requires Inv(s) && 0 < n < SIZE_T && s.HasRoom(n)
    ensures ReserveWriteStep(s, n).popped == s.popped <==> |s.cb| + n < SIZE_T
  {
    PushBlanksOverwrites(s, n);
  }

  /** The smallest case: one element stored, all of size_t asked for. */
  lemma WrappedReservationLosesElement()
    ensures var s := WriteStep(Create(1, 0), 7);
            s.cb == [7] && s.HasRoom(SIZE_T - 1) && ReserveWriteStep(s, SIZE_T - 1).popped > 0
  {
    var s := WriteStep(Create(1, 0), 7);
    PushBlanksOverwrites(s, SIZE_T - 1);
  }

  // ---------------------------------------------------------------- commits

  function CommitWrite<T>(s: State<T>, id: nat): State<T> {
    MoveWrites(s.(wq := Mark(s.wq, id)))
  }

  function CommitRead<T>(s: State<T>, id: nat): State<T>
    requires Inv(s)
  {
    MarkKeepsInv(s, id);
    MoveReads(s.(rq := Mark(s.rq, id)))
  }

  /** No committed reservation is left at the front of its queue. */
  predicate Settled<T>(s: State<T>) {
    && (s.wq != [] ==> !s.wq[0].ready)
    && (s.rq != [] ==> !s.rq[0].ready)
  }

  lemma {:induction false} MoveWritesSettles<T>(s: State<T>)
    ensures var s1 := MoveWrites(s);
            && (s1.wq != [] ==> !s1.wq[0].ready)
            && s1.rq == s.rq && s1.cb == s.cb && s1.frozen == s.frozen && s1.popped == s.popped
    decreases |s.wq|
  {
    if s.wq != [] && s.wq[0].ready {
      MoveWritesSettles(ReleaseWrite(s));
    }
  }

  /** Releasing committed read reservations frees exactly the frozen slots of the stream:
      the next slot to read, the readable size and the end of the stream stay the same. */
  lemma {:induction false} MoveReadsSettles<T>(s: State<T>)
    requires Inv(s)
    ensures var s1 := MoveReads(s);
            && (s1.rq != [] ==> !s1.rq[0].ready)
            && s1.wq == s.wq && s1.End() == s.End() && s1.popped + s1.frozen == s.popped + s.frozen
            && s1.Size() == s.Size()
    decreases |s.rq|
  {
    SizeIsExact(s);
    if s.rq != [] && s.rq[0].ready {
      ReleaseReadKeepsInv(s);
      SizeIsExact(ReleaseRead(s));
      MoveReadsSettles(ReleaseRead(s));
    }
  }

  /** A client that commits with mark and move together leaves a settled pipe settled, so
      the order of the commits never leaves a released slot blocked. */
  lemma CommitSettles<T>(s: State<T>, id: nat)
    requires Inv(s) && Settled(s)
    ensures Settled(CommitWrite(s, id)) && Inv(CommitWrite(s, id))
    ensures Settled(CommitRead(s, id)) && Inv(CommitRead(s, id))
  {
    MarkKeepsInv(s, id);
    MoveWritesKeepsInv(s.(wq := Mark(s.wq, id)));
    MoveReadsKeepsInv(s.(rq := Mark(s.rq, id)));
    MoveWritesSettles(s.(wq := Mark(s.wq, id)));
    MoveReadsSettles(s.(rq := Mark(s.rq, id)));
  }

  // What a commit does to the reservations: it ends its own and no other.

  lemma {:induction false} MarkHolds(q: seq<Reservation>, id: nat, x: nat)
    ensures Find(Mark(q, id), x) == Find(q, x)
    ensures Holds(Mark(q, id), x) <==> x != id && Holds(q, x)
  {
    if q != [] {
      assert Mark(q, id)[1..] == Mark(q[1..], id);
      MarkHolds(q[1..], id, x);
    }
  }

  lemma DropHolds(q: seq<Reservation>, lo: int, hi: int, nextId: nat, x: nat)
    requires q != [] && q[0].ready && Ordered(q, lo, hi, nextId)
    ensures Holds(q[1..], x) <==> Holds(q, x)
  {
    assert forall j :: 0 < j < |q| ==> q[j].id != q[0].id;
    assert forall j :: 0 <= j < |q| - 1 ==> q[1..][j] == q[j + 1];
  }

  lemma {:induction false} MoveWritesHolds<T>(s: State<T>, x: nat)
    requires Inv(s)
    ensures Holds(MoveWrites(s).wq, x) <==> Holds(s.wq, x)
    decreases |s.wq|
  {
    if s.wq != [] && s.wq[0].ready {
      DropHolds(s.wq, s.popped + s.frozen, s.End(), s.nextId, x);
      MoveWritesHolds(ReleaseWrite(s), x);
    }
  }

  lemma {:induction false} MoveReadsHolds<T>(s: State<T>, x: nat)
    requires Inv(s)
    ensures Holds(MoveReads(s).rq, x) <==> Holds(s.rq, x)
    decreases |s.rq|
  {
    if s.rq != [] && s.rq[0].ready {
      DropHolds(s.rq, s.popped, s.popped + s.frozen, s.nextId, x);
      ReleaseReadKeepsInv(s);
      MoveReadsHolds(ReleaseRead(s), x);
    }
  }

  /** After its commit a reservation is no longer held; every other one is held as before, and
      no stored element changes. */
  lemma CommitEndsWrite<T>(s: State<T>, id: nat, x: nat)
    requires Inv(s)
    ensures var s1 := CommitWrite(s, id);
            && (Holds(s1.wq, x) <==> x != id && Holds(s.wq, x))
            && s1.rq == s.rq && s1.cb == s.cb && s1.popped == s.popped && s1.frozen == s.frozen
  {
    var m := s.(wq := Mark(s.wq, id));
    assert CommitWrite(s, id) == MoveWrites(m);
    MarkKeepsInv(s, id);
    hide Inv, Mark, Holds, MoveWrites, CommitWrite;
    MoveWritesHolds(m, x);
    MarkHolds(s.wq, id, x);
    MoveWritesSettles(m);
  }

  /** The same for reading; the readable values stay the same. */
  lemma CommitEndsRead<T>(s: State<T>, id: nat, x: nat)
    requires Inv(s)
    ensures var s1 := CommitRead(s, id);
            && (Holds(s1.rq, x) <==> x != id && Holds(s.rq, x))
            && s1.wq == s.wq && s1.End() == s.End() && s1.popped + s1.frozen == s.popped + s.frozen
  {
    var m := s.(rq := Mark(s.rq, id));
    MarkKeepsInv(s, id);
    assert CommitRead(s, id) == MoveReads(m);
    hide Inv, Mark, Holds, MoveReads, CommitRead, Wrap64;
    MoveReadsHolds(m, x);
    MarkHolds(s.rq, id, x);
    MoveReadsSettles(m);
  }

  // ---------------------------------------------------------------- wake-ups

  /** A blocking caller, by what it waits for. */
  datatype Waiter = ToWrite | ToReserveWrite(n: nat) | ToRead | ToReserveRead(n: nat)

  predicate CanProceed<T>(s: State<T>, w: Waiter) {
    match w
    case ToWrite => !s.Full()
    case ToReserveWrite(n) => s.HasRoom(n)
    case ToRead => !s.Empty()
    case ToReserveRead(n) => n <= s.Size()
  }

  /** Notifications so far on the condition variable the caller waits on. */
  function Notified<T>(s: State<T>, w: Waiter): nat {
    if w.ToWrite? || w.ToReserveWrite? then s.readDone else s.writeDone
  }

  lemma {:induction false} MoveReadsNotifies<T>(s: State<T>)
    requires Inv(s)
    ensures var s1 := MoveReads(s);
            && s1.capacity == s.capacity && |s1.cb| <= |s.cb|
            && s1.readDone >= s.readDone && (|s1.cb| < |s.cb| ==> s1.readDone > s.readDone)
    decreases |s.rq|
  {
    if s.rq != [] && s.rq[0].ready {
      ReleaseReadKeepsInv(s);
      MoveReadsNotifies(ReleaseRead(s));
    }
  }

  lemma {:induction false} MoveWritesNotifies<T>(s: State<T>)
    ensures var s1 := MoveWrites(s);
            && s1.capacity == s.capacity && |s1.cb| == |s.cb|
            && s1.writeDone >= s.writeDone && (s1.Available() != s.Available() ==> s1.writeDone > s.writeDone)
    decreases |s.wq|
  {
    if s.wq != [] && s.wq[0].ready {
      MoveWritesNotifies(ReleaseWrite(s));
    }
  }

  /** Slots only come free with a read_done notification, and values only become readable
      with a write_done notification. */
  lemma StepNotifies<T>(s: State<T>, c: Call<T>)
    requires Inv(s) && Legal(s, c)
    ensures var s1 := Step(s, c).state;
            && s1.capacity == s.capacity
            && (|s1.cb| < |s.cb| ==> s1.readDone > s.readDone)
            && (s1.Available() > s.Available() ==> s1.writeDone > s.writeDone)
  {
    match c
    case MoveWriteForward => MoveWritesNotifies(s);
    case MoveReadForward => MoveReadsNotifies(s); MoveReadsSettles(s);
    case ReserveWrite(n) => if s.HasRoom(n) { PushBlanksAppends(s, n); }
    case MarkWrite(id) => if s.wq != [] { assert Mark(s.wq, id)[0].start == s.wq[0].start; }
    case _ =>
  }

  /** Sums of stored elements and n never wrap, or nobody ever waits for room. */
  predicate RoomIsSound(capacity: nat, n: nat) {
    capacity + n < SIZE_T || capacity == SIZE_T - 1
  }

  /** Whatever step makes a blocked caller's condition true also notifies the condition
      variable that caller sleeps on. */
  lemma NoLostWakeup<T>(s: State<T>, c: Call<T>, w: Waiter)
    requires Inv(s) && Legal(s, c)
    requires w.ToReserveWrite? ==> w.n < SIZE_T && RoomIsSound(s.capacity, w.n)
    requires !CanProceed(s, w) && CanProceed(Step(s, c).state, w)
    ensures Notified(Step(s, c).state, w) > Notified(s, w)
  {
    hide Wrap64, Step;
    var s1 := Step(s, c).state;
    StepNotifies(s, c);
    StepKeepsInv(s, c);
    SizeIsExact(s);
    SizeIsExact(s1);
    if w.ToReserveWrite? {
      RoomTestIsExactIff(s, w.n);
      RoomTestIsExactIff(s1, w.n);
      RoomIsBounded(s, w.n);
    }
  }

  lemma RoomIsBounded<T>(s: State<T>, n: nat)
    ensures s.capacity == SIZE_T - 1 ==> s.HasRoom(n)
  {
  }

  /** Step c wakes w whenever it makes the condition of w true. */
  ghost predicate Wakes<T>(s: State<T>, c: Call<T>, w: Waiter) {
    Inv(s) && Legal(s, c) && !CanProceed(s, w) && CanProceed(Step(s, c).state, w) ==>
      Notified(Step(s, c).state, w) > Notified(s, w)
  }

  /** The smallest case: a write makes the sum of a waiting reserve_write wrap to 0, and only
      notifies readers. */
  lemma WrappedSumMissesWakeup()
    ensures var s: State<int> := WriteStep(Create(2, 0), 7);
            Inv(s) && !Wakes(s, Write(8), ToReserveWrite(SIZE_T - 2))
  {
    var s: State<int> := WriteStep(Create(2, 0), 7);
    assert Step(s, Write(8)).state.HasRoom(SIZE_T - 2);
  }

  /** An empty pipe after k writes of v. */
  function Filled<T>(capacity: nat, v: T, k: nat): State<T> {
    Create(capacity, v).(cb := seq(k, _ => v), writeDone := k)
  }

  /** The next write after the last sum that does not wrap. */
  lemma FilledMissesWakeup<T>(capacity: nat, n: nat, v: T) returns (s: State<T>)
    requires capacity < SIZE_T && n < SIZE_T && !RoomIsSound(capacity, n)
    ensures Inv(s) && s.capacity == capacity && !Wakes(s, Write(v), ToReserveWrite(n))
    ensures s == Filled(capacity, v, SIZE_T - 1 - n)
  {
    s := Filled(capacity, v, SIZE_T - 1 - n);
    assert Step(s, Write(v)).state == WriteStep(s, v);
    assert WriteStep(s, v).HasRoom(n);
  }

  /** A caller that waits to reserve n slots for writing is woken by every step that makes its
      condition true, in every state of a pipe, if and only if its sums cannot wrap or the
      capacity is so large that it never waits. */
  lemma ReserveWriteIsWokenIff<T>(capacity: nat, n: nat, v: T)
    requires capacity < SIZE_T && n < SIZE_T
    ensures (forall s: State<T>, c: Call<T> :: s.capacity == capacity ==> Wakes(s, c, ToReserveWrite(n)))
       <==> RoomIsSound(capacity, n)
  {
    if RoomIsSound(capacity, n) {
      forall s: State<T>, c: Call<T> | s.capacity == capacity ensures Wakes(s, c, ToReserveWrite(n)) {
        if Inv(s) && Legal(s, c) && !CanProceed(s, ToReserveWrite(n)) &&
          CanProceed(Step(s, c).state, ToReserveWrite(n)) {
          NoLostWakeup(s, c, ToReserveWrite(n));
        }
      }
    } else {
      var s := FilledMissesWakeup(capacity, n, v);
    }
  }
}
