/**
 The copies of a buffer in the host and device contexts: update_buffer_state and
 sync_with_host keep them one memory, whatever the contexts and modes of the accesses.
 */
module Coherence {
  import opened Basics

  datatype Context = HostContext | DeviceContext(id: nat)

  datatype Mode = Read | Write | ReadWrite | DiscardWrite | DiscardReadWrite | Atomic

  predicate Discards(m: Mode) {
    m.DiscardWrite? || m.DiscardReadWrite?
  }

  datatype Copies<T> = Copies(host: seq<T>, upToDate: set<Context>, cache: map<Context, seq<T>>)
  {
    predicate Has(c: Context) {
      c.HostContext? || c in cache
    }

    function Copy(c: Context): seq<T>
      requires Has(c)
    {
      if c.HostContext? then host else cache[c]
    }
  }

  // ---------------------------------------------------------------- operations

  function Create<T>(data: seq<T>): Copies<T> {
    Copies(data, {HostContext}, map[])
  }

  /** Read the host copy back from `pick`, the first fresh context of the unordered set. */
  function SyncWithHost<T>(b: Copies<T>, pick: Context): Copies<T>
    requires HostContext !in b.upToDate && b.upToDate != {} ==> pick in b.cache
  {
    if HostContext !in b.upToDate && b.upToDate != {}
    then b.(host := b.cache[pick], upToDate := b.upToDate + {HostContext}) else b
  }

  /** Bring the target copy up to date from the host copy. */
  function Upload<T>(b: Copies<T>, target: Context): Copies<T> {
    if target.HostContext? then b else b.(cache := b.cache[target := b.host])
  }

  /** `garbage` is what a device buffer created without copying holds. */
  function UpdateState<T>(b: Copies<T>, target: Context, mode: Mode, pick: Context, garbage: seq<T>): Copies<T>
    requires HostContext !in b.upToDate && b.upToDate != {} ==> pick in b.cache
  {
    if mode.Read? then
      if target in b.upToDate then b
      else
        var b1 := Upload(SyncWithHost(b, pick), target);
        if target.HostContext? then b1 else b1.(upToDate := b1.upToDate + {target})
    else
      var b1 :=
        if target in b.upToDate then b
        else if !Discards(mode) then Upload(SyncWithHost(b, pick), target)
        else if !target.HostContext? && target !in b.cache then b.(cache := b.cache[target := garbage])
        else b;
      b1.(upToDate := {target})
  }

  function Store<T>(s: seq<T>, writes: map<nat, T>): seq<T> {
    seq(|s|, i requires 0 <= i < |s| => if i in writes then writes[i] else s[i])
  }

  /** The kernel or host code that got the accessor writes some elements. */
  function WriteCopy<T>(b: Copies<T>, target: Context, writes: map<nat, T>): Copies<T>
    requires b.Has(target)
  {
    if target.HostContext? then b.(host := Store(b.host, writes))
    else b.(cache := b.cache[target := Store(b.cache[target], writes)])
  }

  // ---------------------------------------------------------------- invariant

  /** Some context is fresh, fresh device contexts are cached, and all fresh copies agree. */
  ghost predicate Inv<T>(b: Copies<T>, size: nat) {
    && b.upToDate != {} && |b.host| == size
    && (forall c :: c in b.cache ==> c.DeviceContext? && |b.cache[c]| == size)
    && (forall c :: c in b.upToDate ==> b.Has(c))
    && (forall c, d :: c in b.upToDate && d in b.upToDate ==> b.Copy(c) == b.Copy(d))
  }

  /** The source chosen by sync_with_host is never the host, and is cached. */
  lemma SourceIsADevice<T>(b: Copies<T>, size: nat, pick: Context)
    requires Inv(b, size) && HostContext !in b.upToDate && pick in b.upToDate
    ensures pick.DeviceContext? && pick in b.cache
  {
  }

  lemma SyncKeepsInv<T>(b: Copies<T>, size: nat, pick: Context)
    requires Inv(b, size) && pick in b.upToDate
    ensures var b1 := SyncWithHost(b, pick);
            && Inv(b1, size) && HostContext in b1.upToDate && b.upToDate <= b1.upToDate
            && b1.host == b.Copy(pick) && b1.cache == b.cache
  {
  }

  lemma ReadUpdateSpec<T>(b: Copies<T>, size: nat, target: Context, pick: Context, garbage: seq<T>)
    requires Inv(b, size) && pick in b.upToDate
    ensures var b1 := UpdateState(b, target, Read, pick, garbage);
            && Inv(b1, size) && target in b1.upToDate && b1.Copy(target) == b.Copy(pick) && b.upToDate <= b1.upToDate
            && (target in b.upToDate ==> b1 == b)
  {
    SyncKeepsInv(b, size, pick);
  }

  lemma WriteUpdateSpec<T>(b: Copies<T>, size: nat, target: Context, mode: Mode, pick: Context, garbage: seq<T>)
    requires Inv(b, size) && pick in b.upToDate && |garbage| == size && !mode.Read?
    ensures var b1 := UpdateState(b, target, mode, pick, garbage);
            && Inv(b1, size) && b1.upToDate == {target}
            && (mode.Write? || mode.ReadWrite? || mode.Atomic? ==> b1.Copy(target) == b.Copy(pick))
            && (mode.DiscardWrite? || mode.DiscardReadWrite? ==>
                  b1.host == b.host && (b.Has(target) ==> b1.cache == b.cache))
  {
    SyncKeepsInv(b, size, pick);
  }

  /** After the update the target is fresh and usable, and in the modes that do not discard it
      shows what the fresh copies held; the modes that discard transfer nothing. */
  lemma UpdateSpec<T>(b: Copies<T>, size: nat, target: Context, mode: Mode, pick: Context, garbage: seq<T>)
    requires Inv(b, size) && pick in b.upToDate && |garbage| == size
    ensures var b1 := UpdateState(b, target, mode, pick, garbage);
            && Inv(b1, size) && target in b1.upToDate
            && (!mode.Read? ==> b1.upToDate == {target})
            && (mode.Read? || mode.Write? || mode.ReadWrite? || mode.Atomic? ==> b1.Copy(target) == b.Copy(pick))
            && (mode.DiscardWrite? || mode.DiscardReadWrite? ==>
                  b1.host == b.host && (b.Has(target) ==> b1.cache == b.cache))
            && (mode.Read? ==> b.upToDate <= b1.upToDate)
  {
    hide UpdateState;
    if mode.Read? {
      ReadUpdateSpec(b, size, target, pick, garbage);
    } else {
      WriteUpdateSpec(b, size, target, mode, pick, garbage);
    }
  }

  /** The copy of the target does not depend on which fresh context is read back. */
  lemma PickDoesNotMatter<T>(b: Copies<T>, size: nat, target: Context, mode: Mode, p: Context, q: Context,
          garbage: seq<T>)
    requires Inv(b, size) && p in b.upToDate && q in b.upToDate
    ensures UpdateState(b, target, mode, p, garbage) == UpdateState(b, target, mode, q, garbage)
  {
  }

  lemma WriteKeepsInv<T>(b: Copies<T>, size: nat, target: Context, writes: map<nat, T>)
    requires Inv(b, size) && b.upToDate == {target}
    ensures var b1 := WriteCopy(b, target, writes);
            Inv(b1, size) && b1.upToDate == {target} && b1.Copy(target) == Store(b.Copy(target), writes)
  {
  }

  // ---------------------------------------------------------------- one memory

  /** Elements of the single memory; None after their content was discarded. */
  type Reference<T> = seq<Option<T>>

  function StoreRef<T>(m: Reference<T>, writes: map<nat, T>, discard: bool): Reference<T> {
    seq(|m|, i requires 0 <= i < |m| => if i in writes then Some(writes[i]) else if discard then None else m[i])
  }

  /** An access and what it writes, or a request to update the host copy. */
  datatype Event<T> =
    | Access(target: Context, mode: Mode, writes: map<nat, T>, pick: Context, garbage: seq<T>)
    | Sync(pick: Context)

  ghost predicate Legal<T>(b: Copies<T>, size: nat, e: Event<T>) {
    e.pick in b.upToDate && (e.Access? ==> |e.garbage| == size)
  }

  ghost function Next<T>(b: Copies<T>, size: nat, e: Event<T>): Copies<T>
    requires Inv(b, size) && Legal(b, size, e)
  {
    match e
    case Sync(pick) => SyncWithHost(b, pick)
    case Access(target, mode, writes, pick, garbage) =>
      UpdateSpec(b, size, target, mode, pick, garbage);
      var b1 := UpdateState(b, target, mode, pick, garbage);
      if mode.Read? then b1 else WriteCopy(b1, target, writes)
  }

  ghost function NextRef<T>(m: Reference<T>, e: Event<T>): Reference<T> {
    if e.Sync? then m
    else match e.mode
      case Read => m
      case Write => StoreRef(m, e.writes, false)
      case ReadWrite => StoreRef(m, e.writes, false)
      case Atomic => StoreRef(m, e.writes, false)
      case DiscardWrite => StoreRef(m, e.writes, true)
      case DiscardReadWrite => StoreRef(m, e.writes, true)
  }

  /** A copy shows the reference memory wherever the memory is defined. */
  ghost predicate Shows<T>(s: seq<T>, m: Reference<T>) {
    |s| == |m| && forall i :: 0 <= i < |m| && m[i].Some? ==> s[i] == m[i].value
  }

  ghost predicate Refines<T>(b: Copies<T>, m: Reference<T>) {
    Inv(b, |m|) && forall c :: c in b.upToDate ==> Shows(b.Copy(c), m)
  }

  lemma StepRefines<T>(b: Copies<T>, m: Reference<T>, e: Event<T>)
    requires Refines(b, m) && Legal(b, |m|, e)
    ensures Refines(Next(b, |m|, e), NextRef(m, e))
  {
    match e
    case Sync(pick) => SyncKeepsInv(b, |m|, pick);
    case Access(target, mode, writes, pick, garbage) =>
      UpdateSpec(b, |m|, target, mode, pick, garbage);
      var b1 := UpdateState(b, target, mode, pick, garbage);
      if !mode.Read? {
        WriteKeepsInv(b1, |m|, target, writes);
        assert mode.Write? || mode.ReadWrite? || mode.Atomic? ==> Shows(b1.Copy(target), m);
      }
  }

  /** An access that writes without discarding changes, in the copy of its context, just the
      elements it writes. */
  lemma WriteKeepsUntouched<T>(b: Copies<T>, size: nat, e: Event<T>, i: nat)
    requires Inv(b, size) && Legal(b, size, e) && i < size
    requires e.Access? && (e.mode.Write? || e.mode.ReadWrite? || e.mode.Atomic?)
    ensures var b1 := Next(b, size, e);
            && b1.Has(e.target) && |b1.Copy(e.target)| == |b.Copy(e.pick)| == size
            && b1.Copy(e.target)[i] == if i in e.writes then e.writes[i] else b.Copy(e.pick)[i]
  {
    UpdateSpec(b, size, e.target, e.mode, e.pick, e.garbage);
    WriteKeepsInv(UpdateState(b, e.target, e.mode, e.pick, e.garbage), size, e.target, e.writes);
  }

  ghost predicate LegalRun<T>(b: Copies<T>, size: nat, es: seq<Event<T>>)
    requires Inv(b, size)
    decreases |es|
  {
    es == [] || (Legal(b, size, es[0]) && (NextKeepsInv(b, size, es[0]); LegalRun(Next(b, size, es[0]), size, es[1..])))
  }

  lemma NextKeepsInv<T>(b: Copies<T>, size: nat, e: Event<T>)
    requires Inv(b, size) && Legal(b, size, e)
    ensures Inv(Next(b, size, e), size)
  {
    match e
    case Sync(pick) => SyncKeepsInv(b, size, pick);
    case Access(target, mode, writes, pick, garbage) =>
      UpdateSpec(b, size, target, mode, pick, garbage);
      if !mode.Read? { WriteKeepsInv(UpdateState(b, target, mode, pick, garbage), size, target, writes); }
  }

  ghost function Run<T>(b: Copies<T>, size: nat, es: seq<Event<T>>): Copies<T>
    requires Inv(b, size) && LegalRun(b, size, es)
    decreases |es|
  {
    if es == [] then b else
      NextKeepsInv(b, size, es[0]);
      Run(Next(b, size, es[0]), size, es[1..])
  }

  ghost function RunRef<T>(m: Reference<T>, es: seq<Event<T>>): (r: Reference<T>)
    ensures |r| == |m|
    decreases |es|
  {
    if es == [] then m else RunRef(NextRef(m, es[0]), es[1..])
  }

  lemma {:induction false} RunRefines<T>(b: Copies<T>, m: Reference<T>, es: seq<Event<T>>)
    requires Refines(b, m) && LegalRun(b, |m|, es)
    ensures Refines(Run(b, |m|, es), RunRef(m, es))
    decreases |es|
  {
    if es != [] {
      StepRefines(b, m, es[0]);
      RunRefines(Next(b, |m|, es[0]), NextRef(m, es[0]), es[1..]);
    }
  }

  /** After any sequence of accesses, what an accessor in any context and any mode that does
      not discard sees is the single memory: every element has its last written value. */
  lemma AccessSeesLastWrites<T>(data: seq<T>, es: seq<Event<T>>, target: Context, mode: Mode, pick: Context,
          garbage: seq<T>)
    requires Inv(Create(data), |data|) && LegalRun(Create(data), |data|, es)
    requires pick in Run(Create(data), |data|, es).upToDate && |garbage| == |data|
    requires mode.Read? || mode.Write? || mode.ReadWrite? || mode.Atomic?
    ensures var b := Run(Create(data), |data|, es);
            && Inv(b, |data|)
            && UpdateState(b, target, mode, pick, garbage).Has(target)
            && Shows(UpdateState(b, target, mode, pick, garbage).Copy(target),
                     RunRef(seq(|data|, i requires 0 <= i < |data| => Some(data[i])), es))
  {
    var m := seq(|data|, i requires 0 <= i < |data| => Some(data[i]));
    RunRefines(Create(data), m, es);
    UpdateSpec(Run(Create(data), |data|, es), |data|, target, mode, pick, garbage);
  }

  // ---------------------------------------------------------------- in place

  class Buffer<T> {
    const size: nat
    var data: seq<T>
    var freshContexts: set<Context>
    var bufferCache: map<Context, seq<T>>

    function Value(): Copies<T>
      reads this
    {
      Copies(data, freshContexts, bufferCache)
    }

    ghost predicate Valid()
      reads this
    {
      Inv(Value(), size)
    }

    constructor (data: seq<T>)
      ensures Valid() && Value() == Create(data)
    {
      this.size, this.data, freshContexts, bufferCache := |data|, data, {HostContext}, map[];
    }

    /** `*fresh_ctx.begin()` may be any fresh context; the outcome is the same. */
    method SyncHost()
      requires Valid()
      modifies this
      ensures Valid() && forall pick :: pick in old(freshContexts) ==> Value() == SyncWithHost(old(Value()), pick)
    {
      ghost var b := Value();
      if HostContext !in freshContexts && freshContexts != {} {
        var c :| c in freshContexts;
        SyncKeepsInv(b, size, c);
        data := bufferCache[c];
        freshContexts := freshContexts + {HostContext};
        forall pick | pick in b.upToDate ensures Value() == SyncWithHost(b, pick) {
          assert b.Copy(pick) == b.Copy(c);
        }
      }
    }

    method CreateInCache(c: Context, content: seq<T>)
      requires c.DeviceContext?
      modifies this`bufferCache
      ensures bufferCache == old(bufferCache)[c := content]
    {
      bufferCache := bufferCache[c := content];
    }

    method UpdateBufferState(target: Context, mode: Mode, garbage: seq<T>)
      requires Valid() && |garbage| == size
      modifies this
      ensures Valid() && forall pick :: pick in old(freshContexts) ==>
                Value() == UpdateState(old(Value()), target, mode, pick, garbage)
    {
      ghost var b := Value();
      forall pick | pick in b.upToDate ensures Inv(UpdateState(b, target, mode, pick, garbage), size) {
        UpdateSpec(b, size, target, mode, pick, garbage);
      }
      if mode.Read? {
        if target in freshContexts {
          return;
        }
        SyncHost();
        if target.DeviceContext? {
          if target !in bufferCache {
            CreateInCache(target, data);
            freshContexts := freshContexts + {target};
            return;
          }
          bufferCache := bufferCache[target := data];
          freshContexts := freshContexts + {target};
        }
        return;
      }
      if target !in freshContexts {
        if mode.ReadWrite? || mode.Write? || mode.Atomic? {
          SyncHost();
          if target.DeviceContext? {
            if target !in bufferCache {
              CreateInCache(target, data);
            } else {
              bufferCache := bufferCache[target := data];
            }
          }
        }
        if mode.DiscardWrite? || mode.DiscardReadWrite? {
          if target.DeviceContext? && target !in bufferCache {
            CreateInCache(target, garbage);
          }
        }
      }
      freshContexts := {target};
    }
  }
}
