/**
 * The per-index handler list of a nouveau event, as a sequence of handler
 * identities with the head of the list first.
 *
 * The driver threads caller-owned entries into an intrusive doubly linked
 * list; here each entry is represented by its identity, `list_add` becomes
 * insertion at the head, `list_del` becomes removal by identity (Unlink), and
 * the removal pass of a trigger becomes a filter (Kept) together with the
 * count of entries it removed (Dropped).
 */
module HandlerList {

  /** Identity of a caller-owned handler entry. */
  type HandlerId = nat

  /** What a handler callback answers when it is invoked by a trigger. */
  datatype Disposition = Keep | Drop

  /** A list never links the same entry twice. */
  predicate Distinct(hs: seq<HandlerId>)
  {
    forall i, j :: 0 <= i < j < |hs| ==> hs[i] != hs[j]
  }

  /** The tail of a duplicate-free list is duplicate-free and does not hold its head. */
  lemma DistinctTail(hs: seq<HandlerId>)
    requires hs != []
    ensures Distinct(hs) ==> Distinct(hs[1..]) && hs[0] !in hs[1..]
  {
  }

  /** Putting a new entry in front of a duplicate-free list keeps it duplicate-free. */
  lemma DistinctCons(x: HandlerId, s: seq<HandlerId>)
    ensures Distinct(s) && x !in s ==> Distinct([x] + s)
  {
  }

  /**
   * `list_del`: the list without the entry `h`. When `h` is linked, exactly
   * one element goes and the length drops by one; otherwise the list is
   * left as it is.
   */
  function Unlink(hs: seq<HandlerId>, h: HandlerId): (r: seq<HandlerId>)
    ensures h in hs ==> |r| == |hs| - 1
    ensures h !in hs ==> r == hs
    ensures forall x :: x in r ==> x in hs
    ensures Distinct(hs) ==> Distinct(r) && h !in r
    ensures Distinct(hs) ==> forall x :: x in hs && x != h ==> x in r
  {
    if hs == [] then []
    else if hs[0] == h then hs[1..]
    else
      var rest := Unlink(hs[1..], h);
      assert forall x :: x in rest ==> x in hs[1..];
      DistinctTail(hs);
      DistinctCons(hs[0], rest);
      [hs[0]] + rest
  }

  /** Unlinking an entry splices its neighbours together: the order of the others is kept. */
  lemma {:induction false} UnlinkSplices(a: seq<HandlerId>, h: HandlerId, b: seq<HandlerId>)
    requires h !in a
    ensures Unlink(a + [h] + b, h) == a + b
  {
    if a == [] {
      assert a + [h] + b == [h] + b;
    } else {
      assert (a + [h] + b)[1..] == a[1..] + [h] + b;
      UnlinkSplices(a[1..], h, b);
      assert a + b == [a[0]] + (a[1..] + b);
    }
  }

  /**
   * The handlers of `hs` that answer Keep when invoked for `index`, in the
   * order of `hs`: what is left of a list after a trigger has unlinked every
   * handler that answered Drop.
   */
  function Kept(hs: seq<HandlerId>, index: nat, func: (HandlerId, nat) -> Disposition): (r: seq<HandlerId>)
    ensures |r| <= |hs|
  {
    if hs == [] then []
    else
      var rest := Kept(hs[1..], index, func);
      (if func(hs[0], index) == Keep then [hs[0]] else []) + rest
  }

  /** The number of handlers of `hs` that answer Drop when invoked for `index`. */
  function Dropped(hs: seq<HandlerId>, index: nat, func: (HandlerId, nat) -> Disposition): (d: nat)
    ensures d <= |hs|
  {
    if hs == [] then 0
    else (if func(hs[0], index) == Drop then 1 else 0) + Dropped(hs[1..], index, func)
  }

  /** A pass over `a + b` is a pass over `a` followed by a pass over `b`. */
  lemma {:induction false} KeptAppend(a: seq<HandlerId>, b: seq<HandlerId>, index: nat,
                                      func: (HandlerId, nat) -> Disposition)
    ensures Kept(a + b, index, func) == Kept(a, index, func) + Kept(b, index, func)
    ensures Dropped(a + b, index, func) == Dropped(a, index, func) + Dropped(b, index, func)
  {
    if a == [] {
      assert a + b == b;
    } else {
      assert (a + b)[1..] == a[1..] + b;
      KeptAppend(a[1..], b, index, func);
    }
  }

  /** One more step of a pass: the next handler is kept or counted as dropped. */
  lemma KeptStep(hs: seq<HandlerId>, k: nat, index: nat, func: (HandlerId, nat) -> Disposition)
    requires k < |hs|
    ensures Kept(hs[..k + 1], index, func)
            == Kept(hs[..k], index, func) + (if func(hs[k], index) == Keep then [hs[k]] else [])
    ensures Dropped(hs[..k + 1], index, func)
            == Dropped(hs[..k], index, func) + (if func(hs[k], index) == Drop then 1 else 0)
  {
    assert hs[..k + 1] == hs[..k] + [hs[k]];
    assert [hs[k]][1..] == [];
    KeptAppend(hs[..k], [hs[k]], index, func);
  }

  /**
   * Every handler is either kept or dropped, and a pass that drops nothing
   * leaves the list exactly as it was.
   */
  lemma {:induction false} KeptDroppedPartition(hs: seq<HandlerId>, index: nat,
                                                func: (HandlerId, nat) -> Disposition)
    ensures |Kept(hs, index, func)| + Dropped(hs, index, func) == |hs|
    ensures Dropped(hs, index, func) == 0 <==> Kept(hs, index, func) == hs
    ensures Kept(hs, index, func) == [] <==> Dropped(hs, index, func) == |hs|
  {
    if hs != [] {
      KeptDroppedPartition(hs[1..], index, func);
      if func(hs[0], index) == Keep {
        assert Kept(hs, index, func) == [hs[0]] + Kept(hs[1..], index, func);
        assert hs == [hs[0]] + hs[1..];
      }
    }
  }

  /** A handler survives a pass exactly when it was linked and answered Keep. */
  lemma {:induction false} KeptMembership(hs: seq<HandlerId>, index: nat,
                                          func: (HandlerId, nat) -> Disposition, x: HandlerId)
    ensures x in Kept(hs, index, func) <==> x in hs && func(x, index) == Keep
  {
    if hs != [] {
      KeptMembership(hs[1..], index, func, x);
      assert x in hs <==> x == hs[0] || x in hs[1..];
    }
  }

  /** The kept handlers of a list without duplicates have no duplicates either. */
  lemma {:induction false} KeptDistinct(hs: seq<HandlerId>, index: nat,
                                        func: (HandlerId, nat) -> Disposition)
    requires Distinct(hs)
    ensures Distinct(Kept(hs, index, func))
  {
    if hs != [] {
      DistinctTail(hs);
      KeptDistinct(hs[1..], index, func);
      if func(hs[0], index) == Keep {
        KeptMembership(hs[1..], index, func, hs[0]);
        DistinctCons(hs[0], Kept(hs[1..], index, func));
      }
    }
  }
}
