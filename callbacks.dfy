/**
 * What a per-source callback list means, as values: the sequence of
 * registered callbacks from head to tail, the calls that invoking it makes,
 * and the list that results from removing one registration.
 */
module Callbacks {
  import opened Hardware

  /** A registered function pointer: NULL, or the identity of a function. */
  datatype Callback = NoCallback | Handler(fn: nat)

  /** The calls made by walking a list from its head: every non-NULL entry is
      called, NULL entries are skipped. */
  function Invocations(cbs: seq<Callback>): (r: seq<Event>)
    ensures |r| <= |cbs|
    decreases cbs
  {
    if cbs == [] then []
    else (if cbs[0].Handler? then [Call(cbs[0].fn)] else []) + Invocations(cbs[1..])
  }

  /** Walking a list only calls registered functions, and calls every one of
      them. */
  lemma {:induction false} InvocationsMembers(cbs: seq<Callback>)
    ensures forall e :: e in Invocations(cbs) ==> e.Call? && Handler(e.fn) in cbs
    ensures forall f :: Handler(f) in cbs ==> Call(f) in Invocations(cbs)
    decreases cbs
  {
    if cbs != [] {
      InvocationsMembers(cbs[1..]);
      assert cbs == [cbs[0]] + cbs[1..];
    }
  }

  /** Invoking a list is invoking its front part and then its back part:
      calls happen in list order. */
  lemma {:induction false} InvocationsAppend(a: seq<Callback>, b: seq<Callback>)
    ensures Invocations(a + b) == Invocations(a) + Invocations(b)
    decreases a
  {
    if a == [] {
      assert a + b == b;
    } else {
      assert (a + b)[0] == a[0];
      assert (a + b)[1..] == a[1..] + b;
      InvocationsAppend(a[1..], b);
    }
  }

  /** Each registration of a function leads to exactly one call of it. */
  lemma {:induction false} InvocationsCount(cbs: seq<Callback>, f: nat)
    ensures multiset(Invocations(cbs))[Call(f)] == multiset(cbs)[Handler(f)]
    decreases cbs
  {
    if cbs != [] {
      InvocationsCount(cbs[1..], f);
      assert cbs == [cbs[0]] + cbs[1..];
    }
  }

  /** On a list without NULL entries the calls are the list itself, in order. */
  lemma {:induction false} InvocationsInOrder(cbs: seq<Callback>)
    requires NoCallback !in cbs
    ensures |Invocations(cbs)| == |cbs|
    ensures forall i :: 0 <= i < |cbs| ==> Invocations(cbs)[i] == Call(cbs[i].fn)
    decreases cbs
  {
    if cbs != [] {
      assert cbs[0] in cbs;
      assert forall c :: c in cbs[1..] ==> c in cbs;
      InvocationsInOrder(cbs[1..]);
    }
  }

  /** The list after removing the first entry equal to `cb` (and nothing if
      there is none). Exactly one registration of `cb` disappears, so a
      duplicate registration survives. */
  function RemoveFirst(cbs: seq<Callback>, cb: Callback): (r: seq<Callback>)
    ensures |r| == if cb in cbs then |cbs| - 1 else |cbs|
    decreases cbs
  {
    if cbs == [] then []
    else if cbs[0] == cb then cbs[1..]
    else [cbs[0]] + RemoveFirst(cbs[1..], cb)
  }

  /** Removal takes away exactly one registration of `cb`, when there is
      one, and keeps every other registration, duplicates included. */
  lemma {:induction false} RemoveFirstCounts(cbs: seq<Callback>, cb: Callback)
    ensures multiset(RemoveFirst(cbs, cb)) == multiset(cbs) - multiset{cb}
    decreases cbs
  {
    if cbs != [] {
      assert cbs == [cbs[0]] + cbs[1..];
      if cbs[0] != cb {
        RemoveFirstCounts(cbs[1..], cb);
      }
    }
  }

  /** Removing an entry that is not there changes nothing. */
  lemma {:induction false} RemoveFirstAbsent(cbs: seq<Callback>, cb: Callback)
    requires cb !in cbs
    ensures RemoveFirst(cbs, cb) == cbs
    decreases cbs
  {
    if cbs != [] {
      assert forall c :: c in cbs[1..] ==> c in cbs;
      RemoveFirstAbsent(cbs[1..], cb);
    }
  }

  /** When the first match is at position k, removal splices out position k
      and keeps every other entry in its relative order. */
  lemma {:induction false} RemoveFirstAt(cbs: seq<Callback>, cb: Callback, k: nat)
    requires k < |cbs| && cbs[k] == cb
    requires forall j :: 0 <= j < k ==> cbs[j] != cb
    ensures RemoveFirst(cbs, cb) == cbs[..k] + cbs[k + 1..]
    decreases k
  {
    if k > 0 {
      var tail := cbs[1..];
      assert cbs[0] != cb;
      assert tail[k - 1] == cb;
      RemoveFirstAt(tail, cb, k - 1);
      assert tail[..k - 1] == cbs[1..k];
      assert tail[k..] == cbs[k + 1..];
      assert [cbs[0]] + cbs[1..k] == cbs[..k];
    }
  }

  /** Unregistering right after registering gives back the previous list. */
  lemma RegisterThenUnregister(cbs: seq<Callback>, cb: Callback)
    ensures RemoveFirst([cb] + cbs, cb) == cbs
  {
  }

  /** Register A, register B: B runs before A; unregister A: only B runs. */
  lemma MostRecentRunsFirst(a: nat, b: nat)
    ensures Invocations([Handler(b)] + ([Handler(a)] + [])) == [Call(b), Call(a)]
    ensures Invocations(RemoveFirst([Handler(b), Handler(a)], Handler(a))) == [Call(b)]
  {
  }
}
