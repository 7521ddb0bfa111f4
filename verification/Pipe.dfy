/**
 The pipe and its reservation station as the objects the source updates in place. Every
 method is one call under the lock and is proved to be the step of the same name.

 A blocking call waits on a condition variable before its body runs. Its precondition is
 the condition it waits for, so the method describes the call from the wake-up on.
 */
module Pipes {
  import opened Basics
  import opened PipeModel

  class Pipe<T> {
    const capacity: nat
    const blank: T
    var cb: seq<T>
    var popped: nat
    var wq: seq<Reservation>
    var rq: seq<Reservation>
    var frozen: nat
    var nextId: nat
    var readDone: nat
    var writeDone: nat

    function Value(): State<T>
      reads this
    {
      State(capacity, blank, cb, popped, wq, rq, frozen, nextId, readDone, writeDone)
    }

    ghost predicate Valid()
      reads this
    {
      Inv(Value())
    }

    constructor (capacity: nat, blank: T)
      requires capacity < SIZE_T
      ensures Valid() && Value() == Create(capacity, blank)
    {
      this.capacity, this.blank := capacity, blank;
      cb, popped, wq, rq, frozen, nextId, readDone, writeDone := [], 0, [], [], 0, 0, 0, 0;
    }

    method PushBack(v: T)
      modifies this
      ensures Value() == PipeModel.PushBack(old(Value()), v)
    {
      if |cb| != capacity {
        cb := cb + [v];
      } else if cb != [] {
        cb := cb[1..] + [v];
        popped := popped + 1;
      }
    }

    method PopFront()
      requires cb != []
      modifies this
      ensures Value() == PipeModel.PopFront(old(Value()), 1)
    {
      cb := cb[1..];
      popped := popped + 1;
    }

    method PopMany(n: nat)
      requires n <= |cb|
      modifies this
      ensures Value() == PipeModel.PopFront(old(Value()), n)
    {
      var toPop := n;
      while toPop != 0
        invariant 0 <= toPop <= n
        invariant Value() == PipeModel.PopFront(old(Value()), n - toPop)
        decreases toPop
      {
        PopFront();
        toPop := toPop - 1;
      }
    }

    method Write(v: T, blocking: bool) returns (ok: bool)
      requires Valid() && (blocking ==> !Value().Full())
      modifies this
      ensures Valid() && (blocking ==> ok)
      ensures Value() == Step(old(Value()), Call.Write(v)).state
      ensures ok <==> Step(old(Value()), Call.Write(v)).reply == Done
    {
      StepKeepsInv(Value(), Call.Write(v));
      if !blocking && Value().Full() {
        return false;
      }
      PushBack(v);
      writeDone := writeDone + 1;
      return true;
    }

    method Read(blocking: bool, value: T) returns (ok: bool, got: T)
      requires Valid() && (blocking ==> !Value().Empty())
      modifies this
      ensures Valid() && (blocking ==> ok)
      ensures Value() == Step(old(Value()), Call.Read).state
      ensures Step(old(Value()), Call.Read).reply == if ok then Reply.Value(got) else Refused
      ensures !ok ==> got == value
    {
      StepKeepsInv(Value(), Call.Read);
      SizeIsExact(Value());
      if !blocking && Value().Empty() {
        return false, value;
      }
      if frozen != 0 {
        got := cb[frozen];
        frozen := frozen + 1;
      } else {
        got := cb[0];
        PopFront();
      }
      readDone := readDone + 1;
      ok := true;
    }

    method ReserveRead(n: nat, blocking: bool) returns (ok: bool, rid: nat)
      requires Valid() && (blocking ==> n <= Value().Size())
      modifies this
      ensures Valid() && (blocking && n > 0 ==> ok)
      ensures Value() == Step(old(Value()), Call.ReserveRead(n)).state
      ensures ok <==> Step(old(Value()), Call.ReserveRead(n)).reply != Refused
      ensures ok ==> Step(old(Value()), Call.ReserveRead(n)).reply.id == rid
    {
      hide Wrap64, Inv, Ordered;
      StepKeepsInv(Value(), Call.ReserveRead(n));
      if n == 0 {
        return false, 0;
      }
      if !blocking && n > Value().Size() {
        return false, 0;
      }
      var first := popped + frozen;
      frozen := frozen + n;
      rid := nextId;
      rq := rq + [Reservation(rid, first, n, false)];
      nextId := nextId + 1;
      ok := true;
    }

    /** When the unsigned sum in the room test wraps, the call goes through and the pipe loses
        elements, so only the wrap-free case keeps the pipe valid. */
    method ReserveWrite(n: nat, blocking: bool) returns (ok: bool, rid: nat)
      requires Valid() && n < SIZE_T && (blocking ==> Value().HasRoom(n))
      modifies this
      ensures ok <==> n > 0 && old(Value()).HasRoom(n)
      ensures Value() == if ok then ReserveWriteStep(old(Value()), n) else old(Value())
      ensures ok ==> rid == old(nextId)
      ensures old(|cb|) + n < SIZE_T ==> Valid() && Value() == Step(old(Value()), Call.ReserveWrite(n)).state
    {
      if |cb| + n < SIZE_T { StepKeepsInv(Value(), Call.ReserveWrite(n)); }
      if n == 0 {
        return false, 0;
      }
      if !blocking && !Value().HasRoom(n) {
        return false, 0;
      }
      rid := nextId;
      var i := 0;
      while i != n
        invariant 0 <= i <= n && rid == nextId == old(nextId)
        invariant PushBlanks(Value(), n - i) == PushBlanks(old(Value()), n)
        decreases n - i
      {
        PushBack(blank);
        i := i + 1;
      }
      var first := popped + |cb| - n;
      wq := wq + [Reservation(rid, first, n, false)];
      nextId := nextId + 1;
      ok := true;
    }

    method MoveReadReservationForward()
      requires Valid()
      modifies this
      ensures Valid() && Value() == MoveReads(old(Value()))
    {
      hide Inv, Ordered;
      while rq != [] && rq[0].ready
        invariant Valid() && MoveReads(Value()) == MoveReads(old(Value()))
        decreases |rq|
      {
        ReleaseReadKeepsInv(Value());
        ghost var s := Value();
        var rest := rq[1..];
        var toPop := if rest == [] then frozen else rest[0].start - popped;
        rq := rest;
        frozen := frozen - toPop;
        PopMany(toPop);
        readDone := readDone + 1;
        assert Value() == ReleaseRead(s);
      }
    }

    method MoveWriteReservationForward()
      requires Valid()
      modifies this
      ensures Valid() && Value() == MoveWrites(old(Value()))
    {
      MoveWritesKeepsInv(Value());
      while wq != [] && wq[0].ready
        invariant MoveWrites(Value()) == MoveWrites(old(Value()))
        decreases |wq|
      {
        wq := wq[1..];
        writeDone := writeDone + 1;
      }
    }
  }

  datatype Mode = ForReading | ForWriting

  /** One client's reservation; `ok` says that it succeeded and is not committed yet. */
  class PipeReservation<T> {
    const p: Pipe<T>
    const mode: Mode
    var ok: bool
    var rid: nat

    /** A usable reservation holds an uncommitted entry of its pipe. */
    ghost predicate Valid()
      reads this, p
    {
      p.Valid() && (ok ==> Holds(if mode.ForReading? then p.rq else p.wq, rid))
    }

    /** Reserves on construction. The reservation is usable unless the sum in the room test
        of reserve_write wrapped. */
    constructor (p: Pipe<T>, mode: Mode, n: nat, blocking: bool)
      requires p.Valid() && n < SIZE_T
      requires blocking ==> if mode.ForReading? then n <= p.Value().Size() else p.Value().HasRoom(n)
      modifies p
      ensures this.p == p && this.mode == mode
      ensures ok <==> n > 0 && if mode.ForReading? then n <= old(p.Value().Size()) else old(p.Value()).HasRoom(n)
      ensures ok ==> rid == old(p.nextId)
      ensures p.Value() == if !ok then old(p.Value())
                           else if mode.ForReading? then ReserveReadStep(old(p.Value()), n)
                           else ReserveWriteStep(old(p.Value()), n)
      ensures mode.ForReading? || old(|p.cb|) + n < SIZE_T ==> Valid()
    {
      this.p, this.mode := p, mode;
      new;
      ghost var s := p.Value();
      if mode.ForWriting? {
        ok, rid := p.ReserveWrite(n, blocking);
        if ok { PushBlanksKeepsQueues(s, n); AppendedIsHeld(s.wq, p.wq[|s.wq|]); }
      } else {
        ok, rid := p.ReserveRead(n, blocking);
        if ok { AppendedIsHeld(s.rq, p.rq[|s.rq|]); }
      }
    }

    /** The moved-from reservation can no longer commit. */
    constructor Move(orig: PipeReservation<T>)
      requires orig.Valid()
      modifies orig
      ensures p == orig.p && mode == orig.mode && ok == old(orig.ok) && rid == old(orig.rid)
      ensures !orig.ok && Valid() && orig.Valid() && p.Value() == old(orig.p.Value())
    {
      p, mode, ok, rid := orig.p, orig.mode, orig.ok, orig.rid;
      new;
      orig.ok := false;
    }

    /** Only the first commit is taken into account. */
    method Commit()
      requires Valid()
      modifies this, p
      ensures Valid() && !ok && rid == old(rid)
      ensures p.Value() == if !old(ok) then old(p.Value())
                           else if mode.ForReading? then CommitRead(old(p.Value()), rid)
                           else CommitWrite(old(p.Value()), rid)
      ensures old(ok) && mode.ForReading? ==>
                p.wq == old(p.wq) && forall x: nat :: Holds(p.rq, x) <==> x != rid && Holds(old(p.rq), x)
      ensures old(ok) && mode.ForWriting? ==>
                p.rq == old(p.rq) && forall x: nat :: Holds(p.wq, x) <==> x != rid && Holds(old(p.wq), x)
    {
      hide Inv, Mark, MoveReads, MoveWrites, Holds;
      ghost var s := p.Value();
      forall x: nat
        ensures Holds(CommitWrite(s, rid).wq, x) <==> x != rid && Holds(s.wq, x)
        ensures Holds(CommitRead(s, rid).rq, x) <==> x != rid && Holds(s.rq, x)
        ensures CommitWrite(s, rid).rq == s.rq && CommitRead(s, rid).wq == s.wq
      {
        CommitEndsWrite(s, rid, x);
        CommitEndsRead(s, rid, x);
      }
      if ok {
        MarkKeepsInv(p.Value(), rid);
        if mode.ForWriting? {
          p.wq := Mark(p.wq, rid);
          p.MoveWriteReservationForward();
        } else {
          p.rq := Mark(p.rq, rid);
          p.MoveReadReservationForward();
        }
        ok := false;
      }
    }
  }

  lemma {:induction false} PushBlanksKeepsQueues<T>(s: State<T>, n: nat)
    ensures PushBlanks(s, n).wq == s.wq
    decreases n
  {
    if n > 0 { PushBlanksKeepsQueues(PipeModel.PushBack(s, s.blank), n - 1); }
  }

  lemma {:induction false} AppendedIsHeld(q: seq<Reservation>, r: Reservation)
    requires !r.ready && forall i :: 0 <= i < |q| ==> q[i].id != r.id
    ensures Holds(q + [r], r.id)
  {
    var i := Find(q + [r], r.id);
    assert (q + [r])[|q|] == r;
  }
}
