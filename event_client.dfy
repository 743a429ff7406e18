/**
 * Clients of the notifier: what a caller can conclude from the contracts
 * alone.
 */
module EventClient {
  import opened HandlerList
  import opened NouveauEvent

  /**
   * Two handlers registered on one slot: only the first registration
   * enables, and the most recent is at the head of the list.
   */
  method TwoHandlersRegister()
  {
    var ev := new EventSource(1);
    ev.enableSet, ev.disableSet := true, true;
    ev.Get(0, 10);
    ev.Get(0, 20);
    assert ev.lists[0] == [20, 10] && ev.refs[0] == 2;
    assert ev.trace == [EnableHook(0)];
    TwoHandlersDropTogether(ev);
  }

  /**
   * Both handlers drop themselves on the first trigger: the most recent
   * runs first, both are unlinked, and the disable hook fires once.
   */
  method TwoHandlersDropTogether(ev: EventSource)
    requires ev.Valid() && ev.indexNr == 1 && ev.disableSet
    requires ev.lists[0] == [20, 10] && ev.refs[0] == 2
    modifies ev, ev.lists, ev.refs
  {
    ghost var before := ev.trace;
    var dropAll := (h: HandlerId, i: nat) => Drop;
    assert Dropped([20, 10], 0, dropAll) == 2 && Kept([20, 10], 0, dropAll) == [];
    assert Dispatch([20, 10], 0) == [Handler(20, 0), Handler(10, 0)];
    ev.Trigger(0, dropAll);
    assert ev.lists[0] == [] && ev.refs[0] == 0;
    assert ev.trace == before + [Handler(20, 0), Handler(10, 0), DisableHook(0)];
  }

  /** An event with no slots ignores every index. */
  method NoSlots(index: nat, h: HandlerId, func: (HandlerId, nat) -> Disposition)
  {
    var pevent := new EventHandle();
    var err := Create(0, true, pevent);
    var ev := pevent.event;
    ev.enableSet, ev.disableSet := true, true;
    ev.Get(index, h);
    ev.Trigger(index, func);
    ev.Put(index, h);
    assert ev.trace == [];
  }
}
