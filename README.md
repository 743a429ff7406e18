# nouveau event notifier, modelled in Dafny

This project models `nouveau_event`, the reference-counted, per-index event
notifier of the nouveau DRM driver. An event has a fixed number of index
slots (`index_nr`). Each slot holds a list of caller-owned handler entries and
an active reference count `refs`.

- `get` links a handler at the head of a slot's list and takes a reference.
- `put` unlinks a handler and gives one reference back.
- `trigger` invokes every handler of a slot from the head. It unlinks the
  handlers that answer DROP and then gives back all their references in a
  single batched `disable_locked` call.
- The embedder's enable hook fires when a slot's count goes from 0 to 1.
  The disable hook fires when a decrement lands exactly on 0.
- Every operation ignores an index at or beyond `index_nr`.

Files:

- `handler_list.dfy`, module `HandlerList`: a slot's list as a sequence of
  handler identities, head first. It defines removal by identity (`Unlink`,
  for `list_del`) and the filter a trigger applies (`Kept`, `Dropped`). Their
  properties are proved as lemmas.
- `event.dfy`, module `NouveauEvent`: the class `EventSource`. It has an
  array of lists, an array of counts, two flags for whether the enable and
  disable hooks are configured, and a ghost `trace`. The trace records every
  hook call and every handler invocation, in order. Each C function is one
  method whose `ensures` gives the whole new state as a function of the old
  one. `Valid()` says that counts are never negative and that a handler entry
  is linked at most once. `Create` and `Destroy` work on an `EventHandle`,
  which stands for the `struct nouveau_event **pevent` argument.
- `event_client.dfy`, module `EventClient`: client methods. They show what
  follows from the contracts alone: the handler registered last runs first,
  one batched disable happens when two handlers drop together, and an event
  with no slots ignores everything.

Where the C code leaves things to its callers, the model states them as
preconditions:

- `put` needs the handler to be linked in that slot.
- `get` needs the handler to be unlinked.
- `put`, `disable_locked` and `trigger` must not drive a count below zero.

A further property is proved as an implication. If a slot's count equals its
list length before a `get`, `put` or `trigger`, it still does afterwards. In
that case the enable hook fires exactly when the first handler arrives, and
the disable hook fires exactly when the last handler leaves.

## Model

| member | source | states |
|---|---|---|
| `NouveauEvent.EventSource.constructor` | kernel/drivers/gpu/drm/nouveau/core/core/event.c:130-138 | the zeroed allocation: `index_nr` slots, every list empty (the init loop), every count zero, no hook configured, nothing called |
| `NouveauEvent.Create` | kernel/drivers/gpu/drm/nouveau/core/core/event.c:124-140 | on a successful allocation: stores a fresh valid event with `indexNr` empty slots and returns 0; on failure: stores null and returns -ENOMEM |
| `NouveauEvent.Destroy` | kernel/drivers/gpu/drm/nouveau/core/core/event.c:114-122 | afterwards the handle is null, whether or not it held an event |
| `NouveauEvent.EventSource.EnableLocked` | kernel/drivers/gpu/drm/nouveau/core/core/event.c:47-55 | out of range: nothing changes; otherwise the slot's count rises by exactly one, the other slots are untouched, and the enable hook is called once exactly when the old count was 0 and the hook is configured |
| `NouveauEvent.EventSource.DisableLocked` | kernel/drivers/gpu/drm/nouveau/core/core/event.c:57-66 | out of range: nothing changes; otherwise the slot's count drops by `r`, the other slots are untouched, and the disable hook is called once exactly when the new count is 0 and the hook is configured |
| `NouveauEvent.EventSource.Get` | kernel/drivers/gpu/drm/nouveau/core/core/event.c:68-85 | out of range: nothing changes; otherwise the slot's list becomes `[h] + old list`, followed by the effect of EnableLocked, and the other slots are untouched; a count that equalled the list length still does, and then the enable hook fired exactly when the list was empty |
| `NouveauEvent.EventSource.Put` | kernel/drivers/gpu/drm/nouveau/core/core/event.c:26-45 | out of range: nothing changes; otherwise `h` is unlinked from the slot's list and from every list, followed by the effect of DisableLocked with 1, and the other slots are untouched; a count that equalled the list length still does, and then the disable hook fired exactly when the list became empty |
| `NouveauEvent.EventSource.Trigger` | kernel/drivers/gpu/drm/nouveau/core/core/event.c:87-112 | out of range: nothing changes; otherwise every handler present at entry is invoked once, head first; the list becomes the old one filtered to the handlers that answered Keep; when `d > 0` handlers dropped, exactly one DisableLocked with `d` follows; when `d == 0` counts and hooks are untouched; a count that equalled the list length still does, and then the disable hook fired exactly when a non-empty list became empty |
| `NouveauEvent.EventSource.UnlinkDropped` | kernel/drivers/gpu/drm/nouveau/core/core/event.c:98-103 | the walk of the list while unlinking on the spot: it invokes each handler once in list order, leaves the Keep handlers in their order, counts the Drop handlers, and touches no count |
| `HandlerList.Unlink` | kernel/drivers/gpu/drm/nouveau/core/core/event.c:36 | removing a linked entry shortens the list by one; removing an unlinked one changes nothing; on a duplicate-free list the entry is gone afterwards and every other entry stays |
| `HandlerList.UnlinkSplices` | kernel/drivers/gpu/drm/nouveau/core/core/event.c:36 | unlinking an entry joins its neighbours, so the order of the others is unchanged |
| `HandlerList.Kept` | kernel/drivers/gpu/drm/nouveau/core/core/event.c:98-103 | what a trigger pass leaves is never longer than the list it started from |
| `HandlerList.Dropped` | kernel/drivers/gpu/drm/nouveau/core/core/event.c:101 | the batched decrement never exceeds the number of handlers walked |
| `HandlerList.KeptAppend` | kernel/drivers/gpu/drm/nouveau/core/core/event.c:98-103 | a pass over `a + b` is a pass over `a` followed by a pass over `b`, both for the list left and for the drop count |
| `HandlerList.KeptStep` | kernel/drivers/gpu/drm/nouveau/core/core/event.c:99-102 | one iteration of the walk either keeps the current handler at the end of the kept part or adds one to the drop count |
| `HandlerList.KeptDroppedPartition` | kernel/drivers/gpu/drm/nouveau/core/core/event.c:98-104 | every walked handler is either kept or counted as dropped; a pass that drops nothing leaves the list exactly as it was; the list becomes empty exactly when every handler dropped |
| `HandlerList.KeptMembership` | kernel/drivers/gpu/drm/nouveau/core/core/event.c:99-100 | a handler is still linked after a pass exactly when it was linked before and answered Keep, so a dropped handler is never invoked again |
| `HandlerList.KeptDistinct` | kernel/drivers/gpu/drm/nouveau/core/core/event.c:98-103 | a pass over a list without duplicates leaves a list without duplicates |

## Left out

- Locking: the event spinlock with interrupt masking and the optional `toggle_lock` are left out. Each operation is modelled as one atomic step. The lock ordering is not modelled.
- Memory: `kzalloc` and `kfree` are not modelled as memory operations. An allocation failure is an input flag of `Create`. `Destroy` only clears the handle. Use after free is not modelled.
- Hooks and handler callbacks: the enable and disable hooks are external, so the model only records their calls in the ghost trace. The handler callbacks are one function from (handler, index) to Keep or Drop. That function is passed to each trigger, so a different answer on a later trigger is covered. Callbacks with other side effects are not modelled.
- Integer width: indices are `nat`. The source does not guard a negative `int` index, so the model does not accept one. A negative `index_nr` is not modelled either. The counts are unbounded integers, so the 32-bit overflow of `refs++` after 2^31 gets is not modelled.
- The intrusive `list_head` pointers are modelled as a sequence of handler identities. A handler that is linked twice, or unlinked when it was never linked, corrupts the list in C. The model forbids both by precondition.
