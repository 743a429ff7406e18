/**
 * The nouveau event notifier: a fixed number of index slots, each holding a
 * list of handlers and a count of active references. The enable hook of the
 * embedding object fires when a slot's count leaves zero, the disable hook
 * when it comes back to zero, and a trigger dispatches one slot's handlers,
 * unlinking those that answer Drop and giving back their references in one
 * batched decrement.
 *
 * Every operation is modelled as one atomic step: the source's locking only
 * serialises the operations. Calls of the hooks and of the handler callbacks
 * are recorded, in order, in the ghost `trace` of the event.
 */
module NouveauEvent {
  import opened HandlerList

  /** The kernel's out-of-memory error number; create returns its negation. */
  const ENOMEM: int := 12

  /** An outside call made by the notifier. */
  datatype Call =
    | EnableHook(index: nat)
    | DisableHook(index: nat)
    | Handler(handler: HandlerId, index: nat)

  /** The enable hook call made when a slot's count was `before` and is bumped. */
  function EnableCalls(before: int, hookSet: bool, index: nat): seq<Call>
  {
    if before == 0 && hookSet then [EnableHook(index)] else []
  }

  /** The disable hook call made when a slot's count has been lowered to `after`. */
  function DisableCalls(after: int, hookSet: bool, index: nat): seq<Call>
  {
    if after == 0 && hookSet then [DisableHook(index)] else []
  }

  /** One callback invocation per handler of `hs`, from the head of the list. */
  function Dispatch(hs: seq<HandlerId>, index: nat): seq<Call>
  {
    seq(|hs|, k requires 0 <= k < |hs| => Handler(hs[k], index))
  }

  /**
   * Every handler entry is linked at most once: no list holds it twice and
   * no two lists hold it.
   */
  ghost predicate WellLinked(ls: seq<seq<HandlerId>>)
  {
    && (forall i :: 0 <= i < |ls| ==> Distinct(ls[i]))
    && (forall i, j, h :: 0 <= i < |ls| && 0 <= j < |ls| && i != j && h in ls[i] ==> h !in ls[j])
  }

  /** Linking an entry that is in no list keeps every entry linked at most once. */
  lemma WellLinkedPush(ls: seq<seq<HandlerId>>, i: nat, h: HandlerId)
    requires WellLinked(ls) && i < |ls|
    requires forall j :: 0 <= j < |ls| ==> h !in ls[j]
    ensures WellLinked(ls[i := [h] + ls[i]])
  {
  }

  /** Replacing a list by a duplicate-free part of it keeps every entry linked at most once. */
  lemma WellLinkedShrink(ls: seq<seq<HandlerId>>, i: nat, s: seq<HandlerId>)
    requires WellLinked(ls) && i < |ls|
    requires Distinct(s) && forall x :: x in s ==> x in ls[i]
    ensures WellLinked(ls[i := s])
  {
  }

  /** Dispatching one more handler appends its invocation to the calls made so far. */
  lemma DispatchStep(hs: seq<HandlerId>, k: nat, index: nat)
    requires k < |hs|
    ensures Dispatch(hs[..k + 1], index) == Dispatch(hs[..k], index) + [Handler(hs[k], index)]
  {
  }

  /** Moving the handler under the cursor from the rest of the list to the kept part leaves the list as it is. */
  lemma KeepStep(kept: seq<HandlerId>, hs: seq<HandlerId>, k: nat)
    requires k < |hs|
    ensures kept + hs[k..] == (kept + [hs[k]]) + hs[k + 1..]
  {
  }

  class EventSource {
    /** Number of index slots, fixed at creation. */
    const indexNr: nat
    /** Handler list of each slot, head first. */
    const lists: array<seq<HandlerId>>
    /** Active reference count of each slot. */
    const refs: array<int>
    /** Whether the embedder has configured an enable hook. */
    var enableSet: bool
    /** Whether the embedder has configured a disable hook. */
    var disableSet: bool
    /** Every hook and handler call made so far, oldest first. */
    ghost var trace: seq<Call>

    /**
     * Both arrays have one element per slot, counts never go below zero
     * under correct use, and a handler entry is linked at most once: no
     * list holds it twice and no two lists hold it.
     */
    ghost predicate Valid()
      reads this, lists, refs
    {
      && lists.Length == indexNr
      && refs.Length == indexNr
      && (forall i :: 0 <= i < indexNr ==> refs[i] >= 0)
      && WellLinked(lists[..])
    }

    /** The handler entry `h` is in no list of this event. */
    ghost predicate Unlinked(h: HandlerId)
      reads this, lists
      requires lists.Length == indexNr
    {
      forall i :: 0 <= i < indexNr ==> h !in lists[i]
    }

    /**
     * The zeroed allocation of `nouveau_event_create`: `n` slots, each with
     * an empty list and a zero count, and no hook configured.
     */
    constructor (n: nat)
      ensures Valid()
      ensures indexNr == n && fresh(lists) && fresh(refs)
      ensures forall i :: 0 <= i < n ==> lists[i] == [] && refs[i] == 0
      ensures !enableSet && !disableSet && trace == []
    {
      indexNr := n;
      lists := new seq<HandlerId>[n];
      refs := new int[n](_ => 0);
      enableSet, disableSet := false, false;
      trace := [];
      new;
      var i := 0;
      while i < n
        modifies lists
        invariant 0 <= i <= n
        invariant forall j :: 0 <= j < i ==> lists[j] == []
      {
        lists[i] := [];
        i := i + 1;
      }
    }

    /**
     * `nouveau_event_enable_locked`: bump the slot's count; the enable hook
     * fires only when the count was zero. An index out of range changes
     * nothing.
     */
    method EnableLocked(index: nat)
      requires Valid()
      modifies this`trace, refs
      ensures Valid()
      ensures index >= indexNr ==> refs[..] == old(refs[..]) && trace == old(trace)
      ensures index < indexNr ==>
        && refs[..] == old(refs[..])[index := old(refs[index]) + 1]
        && trace == old(trace) + EnableCalls(old(refs[index]), enableSet, index)
    {
      if index >= indexNr {
        return;
      }
      var was := refs[index];
      refs[index] := was + 1;
      if was == 0 && enableSet {
        trace := trace + [EnableHook(index)];
      }
    }

    /**
     * `nouveau_event_disable_locked`: lower the slot's count by `r`; the
     * disable hook fires when the count lands exactly on zero. An index out
     * of range changes nothing.
     */
    method DisableLocked(index: nat, r: int)
      requires Valid()
      requires index < indexNr ==> r <= refs[index]
      modifies this`trace, refs
      ensures Valid()
      ensures index >= indexNr ==> refs[..] == old(refs[..]) && trace == old(trace)
      ensures index < indexNr ==>
        && refs[..] == old(refs[..])[index := old(refs[index]) - r]
        && trace == old(trace) + DisableCalls(old(refs[index]) - r, disableSet, index)
    {
      if index >= indexNr {
        return;
      }
      refs[index] := refs[index] - r;
      if refs[index] == 0 && disableSet {
        trace := trace + [DisableHook(index)];
      }
    }

    /**
     * `nouveau_event_get`: link `h` at the head of the slot's list, then
     * take a reference. When the count had tracked the list length, it
     * still does, and the enable hook fired exactly when `h` is the slot's
     * first handler.
     */
    method Get(index: nat, h: HandlerId)
      requires Valid()
      requires index < indexNr ==> Unlinked(h)
      modifies this`trace, lists, refs
      ensures Valid()
      ensures index >= indexNr ==>
        lists[..] == old(lists[..]) && refs[..] == old(refs[..]) && trace == old(trace)
      ensures index < indexNr ==>
        && lists[..] == old(lists[..])[index := [h] + old(lists[index])]
        && refs[..] == old(refs[..])[index := old(refs[index]) + 1]
        && trace == old(trace) + EnableCalls(old(refs[index]), enableSet, index)
      ensures index < indexNr && old(refs[index]) == old(|lists[index]|) ==>
        && refs[index] == |lists[index]|
        && (EnableHook(index) in trace[|old(trace)|..] <==> old(lists[index]) == [] && enableSet)
    {
      if index >= indexNr {
        return;
      }
      WellLinkedPush(lists[..], index, h);
      lists[index] := [h] + lists[index];
      EnableLocked(index);
    }

    /**
     * `nouveau_event_put`: unlink `h` from the slot's list, then give back
     * one reference. `h` is afterwards in no list, so no later trigger
     * invokes it. When the count had tracked the list length, it still does,
     * and the disable hook fired exactly when `h` was the slot's last
     * handler.
     */
    method Put(index: nat, h: HandlerId)
      requires Valid()
      requires index < indexNr ==> h in lists[index] && refs[index] >= 1
      modifies this`trace, lists, refs
      ensures Valid()
      ensures index >= indexNr ==>
        lists[..] == old(lists[..]) && refs[..] == old(refs[..]) && trace == old(trace)
      ensures index < indexNr ==>
        && lists[..] == old(lists[..])[index := Unlink(old(lists[index]), h)]
        && refs[..] == old(refs[..])[index := old(refs[index]) - 1]
        && trace == old(trace) + DisableCalls(old(refs[index]) - 1, disableSet, index)
        && Unlinked(h)
      ensures index < indexNr && old(refs[index]) == old(|lists[index]|) ==>
        && refs[index] == |lists[index]|
        && (DisableHook(index) in trace[|old(trace)|..] <==> lists[index] == [] && disableSet)
    {
      if index >= indexNr {
        return;
      }
      WellLinkedShrink(lists[..], index, Unlink(lists[index], h));
      lists[index] := Unlink(lists[index], h);
      DisableLocked(index, 1);
    }

    /**
     * `nouveau_event_trigger`: invoke the callback of every handler of the
     * slot once, from the head, unlinking each one that answers Drop; then,
     * if any was dropped, give back all their references in one call of
     * DisableLocked. The list left is the old one filtered to the handlers
     * that answered Keep, in their old order.
     */
    method Trigger(index: nat, func: (HandlerId, nat) -> Disposition)
      requires Valid()
      requires index < indexNr ==> Dropped(lists[index], index, func) <= refs[index]
      modifies this`trace, lists, refs
      ensures Valid()
      ensures index >= indexNr ==>
        lists[..] == old(lists[..]) && refs[..] == old(refs[..]) && trace == old(trace)
      ensures index < indexNr ==>
        var d := Dropped(old(lists[index]), index, func);
        && lists[..] == old(lists[..])[index := Kept(old(lists[index]), index, func)]
        && refs[..] == old(refs[..])[index := old(refs[index]) - d]
        && trace == old(trace) + Dispatch(old(lists[index]), index)
                    + (if d > 0 then DisableCalls(old(refs[index]) - d, disableSet, index) else [])
      ensures index < indexNr && old(refs[index]) == old(|lists[index]|) ==>
        && refs[index] == |lists[index]|
        && (DisableHook(index) in trace[|old(trace)|..] <==>
              old(lists[index]) != [] && lists[index] == [] && disableSet)
    {
      if index >= indexNr {
        return;
      }
      ghost var hs := lists[index];
      ghost var before := lists[..];
      var dropped := UnlinkDropped(index, func);
      KeptDroppedPartition(hs, index, func);
      KeptDistinct(hs, index, func);
      forall x | x in lists[index] ensures x in hs {
        KeptMembership(hs, index, func, x);
      }
      WellLinkedShrink(before, index, lists[index]);
      assert DisableHook(index) !in Dispatch(hs, index);
      if dropped > 0 {
        DisableLocked(index, dropped);
        assert trace[|old(trace)|..] == Dispatch(hs, index) + DisableCalls(old(refs[index]) - dropped, disableSet, index);
      } else {
        assert refs[..] == old(refs[..])[index := old(refs[index]) - dropped];
        assert trace[|old(trace)|..] == Dispatch(hs, index);
      }
    }

    /**
     * The list walk of `nouveau_event_trigger`: invoke the callback of every
     * handler of the slot once, from the head, unlinking on the spot each
     * one that answers Drop, and count the unlinked ones. Counts are not
     * touched here.
     */
    method UnlinkDropped(index: nat, func: (HandlerId, nat) -> Disposition) returns (dropped: nat)
      requires lists.Length == indexNr && index < indexNr
      modifies this`trace, lists
      ensures dropped == Dropped(old(lists[index]), index, func)
      ensures lists[..] == old(lists[..])[index := Kept(old(lists[index]), index, func)]
      ensures trace == old(trace) + Dispatch(old(lists[index]), index)
    {
      var hs := lists[index];
      ghost var before := lists[..];
      var kept: seq<HandlerId> := [];
      dropped := 0;
      var k := 0;
      assert kept + hs[k..] == hs;
      while k < |hs|
        invariant 0 <= k <= |hs|
        invariant kept == Kept(hs[..k], index, func)
        invariant dropped == Dropped(hs[..k], index, func)
        invariant lists[index] == kept + hs[k..]
        invariant forall j :: 0 <= j < indexNr && j != index ==> lists[j] == before[j]
        invariant trace == old(trace) + Dispatch(hs[..k], index)
      {
        var h := hs[k];
        KeptStep(hs, k, index, func);
        DispatchStep(hs, k, index);
        trace := trace + [Handler(h, index)];
        if func(h, index) == Drop {
          lists[index] := kept + hs[k + 1..];
          dropped := dropped + 1;
        } else {
          KeepStep(kept, hs, k);
          kept := kept + [h];
        }
        k := k + 1;
      }
      assert hs[..k] == hs && kept + hs[k..] == kept;
      assert forall j :: 0 <= j < indexNr ==> lists[..][j] == before[index := kept][j];
    }
  }

  /** Stands for `struct nouveau_event **pevent`: where create stores the event and destroy clears it. */
  class EventHandle {
    var event: EventSource?

    constructor ()
      ensures event == null
    {
      event := null;
    }
  }

  /**
   * `nouveau_event_create`: on success store a fresh event with `indexNr`
   * empty slots and answer 0; when the allocation fails (`allocOk` is
   * false) store null and answer -ENOMEM.
   */
  method Create(indexNr: nat, allocOk: bool, pevent: EventHandle) returns (err: int)
    modifies pevent
    ensures allocOk ==>
      && err == 0
      && pevent.event != null && fresh(pevent.event)
      && pevent.event.Valid() && fresh(pevent.event.lists) && fresh(pevent.event.refs)
      && pevent.event.indexNr == indexNr
      && (forall i :: 0 <= i < indexNr ==> pevent.event.lists[i] == [] && pevent.event.refs[i] == 0)
      && !pevent.event.enableSet && !pevent.event.disableSet && pevent.event.trace == []
    ensures !allocOk ==> err == -ENOMEM && pevent.event == null
  {
    if !allocOk {
      pevent.event := null;
      return -ENOMEM;
    }
    pevent.event := new EventSource(indexNr);
    return 0;
  }

  /** `nouveau_event_destroy`: release the event, if there is one, and clear the handle. */
  method Destroy(pevent: EventHandle)
    modifies pevent
    ensures pevent.event == null
  {
    if pevent.event != null {
      pevent.event := null;
    }
  }
}
