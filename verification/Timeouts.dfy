/** Timeouts of `PollIOLoop` (tornado/ioloop.py): a heap from which cancelled entries are removed lazily. */
module Timeouts {
  import opened Bytes

  type Callback = nat

  class Timeout {
    const deadline: real
    /** Breaks ties, as the object's identity does. */
    const id: nat
    var callback: Option<Callback>

    constructor (deadline: real, id: nat, callback: Callback)
      ensures this.deadline == deadline && this.id == id && this.callback == Some(callback)
    {
      this.deadline, this.id, this.callback := deadline, id, Some(callback);
    }
  }

  // ----- heaps (the contracts of the `heapq` functions) -----

  predicate Leq(a: Timeout, b: Timeout) {
    a.deadline < b.deadline || (a.deadline == b.deadline && a.id <= b.id)
  }

  predicate IsHeap(h: seq<Timeout>) {
    forall i, j :: 0 <= i < j < |h| && (j == 2 * i + 1 || j == 2 * i + 2) ==> Leq(h[i], h[j])
  }

  lemma {:induction false} RootIsLeast(h: seq<Timeout>, i: nat)
    requires IsHeap(h) && i < |h|
    ensures Leq(h[0], h[i])
    ensures h[0].deadline < h[i].deadline || (h[0].deadline == h[i].deadline && h[0].id <= h[i].id)
  {
    if i > 0 {
      RootIsLeast(h, (i - 1) / 2);
    }
  }

  predicate IsSorted(h: seq<Timeout>) {
    forall i, j :: 0 <= i < j < |h| ==> Leq(h[i], h[j])
  }

  ghost function Entries(h: seq<Timeout>): set<Timeout> {
    set t | t in h
  }

  ghost predicate Distinct(h: seq<Timeout>) {
    forall i, j :: 0 <= i < j < |h| ==> h[i] != h[j]
  }

  lemma InEntries(h: seq<Timeout>, t: Timeout)
    ensures t in h <==> t in Entries(h)
  {
  }

  lemma Appended(h: seq<Timeout>, t: Timeout)
    requires Distinct(h) && t !in Entries(h)
    ensures Distinct(h + [t]) && Entries(h + [t]) == Entries(h) + {t}
  {
    InEntries(h, t);
  }

  method HeapPush(h: seq<Timeout>, t: Timeout) returns (r: seq<Timeout>)
    requires IsHeap(h) && Distinct(h) && t !in h
    ensures IsHeap(r) && Distinct(r) && Entries(r) == Entries(h) + {t}
  {
    r := Heapify([t] + h);
    assert Entries([t] + h) == Entries(h) + {t};
  }

  method HeapPop(h: seq<Timeout>) returns (t: Timeout, r: seq<Timeout>)
    requires IsHeap(h) && Distinct(h) && h != []
    ensures t == h[0] && t !in r && IsHeap(r) && Distinct(r) && Entries(h) == Entries(r) + {t}
    ensures |r| == |h| - 1
  {
    t := h[0];
    r := Heapify(h[1..]);
    assert h == [t] + h[1..];
    assert Entries(h) == Entries(h[1..]) + {t};
    assert t in r ==> t in Entries(r);
  }

  method Heapify(h: seq<Timeout>) returns (r: seq<Timeout>)
    requires Distinct(h)
    ensures IsHeap(r) && Distinct(r) && Entries(r) == Entries(h) && |r| == |h|
  {
    r := [];
    for n := 0 to |h|
      invariant IsSorted(r) && Distinct(r) && Entries(r) == Entries(h[..n]) && |r| == n
    {
      var t := h[n];
      assert h[..n + 1] == h[..n] + [t];
      assert t !in r by {
        assert t in r ==> t in Entries(r);
      }
      var at := 0;
      while at < |r| && Leq(r[at], t)
        invariant at <= |r| && forall i :: 0 <= i < at ==> Leq(r[i], t)
      {
        at := at + 1;
      }
      ghost var before := r;
      r := r[..at] + [t] + r[at..];
      Inserted(before, at, t);
    }
    assert h[..|h|] == h;
  }

  lemma Inserted(h: seq<Timeout>, at: nat, t: Timeout)
    requires at <= |h| && IsSorted(h) && Distinct(h) && t !in h
    requires forall i :: 0 <= i < at ==> Leq(h[i], t)
    requires at < |h| ==> !Leq(h[at], t)
    ensures var r := h[..at] + [t] + h[at..];
            IsSorted(r) && Distinct(r) && Entries(r) == Entries(h) + {t}
  {
    var r := h[..at] + [t] + h[at..];
    forall x | x in h
      ensures x in r
    {
      var i :| 0 <= i < |h| && h[i] == x;
      assert r[if i < at then i else i + 1] == x;
    }
    assert r[at] == t;
  }

  // ----- the loop's timeouts -----

  const MAX_TIMEOUT: real := 3600.0

  /** The poll timeout is the time to the first deadline still to come, at most an hour; nothing is due. */
  ghost predicate Bounds(live: set<Timeout>, pollTimeout: real, now: real) {
    && 0.0 < pollTimeout <= MAX_TIMEOUT
    && (forall t :: t in live ==> pollTimeout <= t.deadline - now)
    && (pollTimeout == MAX_TIMEOUT || exists t :: t in live && pollTimeout == t.deadline - now)
  }

  /** Each timeout is queued, has fired, or has left the heap because it was withdrawn; none of those withdrawn
      has fired. */
  ghost predicate Partition(created: set<Timeout>, queued: set<Timeout>, dropped: set<Timeout>, fired: set<Timeout>,
                            withdrawn: set<Timeout>)
  {
    && created == queued + dropped + fired
    && queued * dropped == {} && (queued + dropped) * fired == {}
    && dropped <= withdrawn <= created && withdrawn * fired == {}
  }

  /** What holds of the heap and of the histories; `_cancellations` counts every withdrawn entry of the heap, and
      possibly more. */
  ghost predicate Ok(h: seq<Timeout>, created: set<Timeout>, dropped: set<Timeout>, fired: seq<Timeout>,
                     withdrawn: set<Timeout>, cancellations: nat)
  {
    && IsHeap(h) && Distinct(h) && Distinct(fired)
    && Partition(created, Entries(h), dropped, Entries(fired), withdrawn)
    && cancellations >= |Entries(h) * withdrawn|
  }

  lemma QueuedNotFired(h: seq<Timeout>, created: set<Timeout>, dropped: set<Timeout>, fired: seq<Timeout>,
                       withdrawn: set<Timeout>, cancellations: nat)
    requires Ok(h, created, dropped, fired, withdrawn, cancellations)
    ensures forall t :: t in h ==> t in created && t !in Entries(fired)
  {
    forall t | t in h
      ensures t in created && t !in Entries(fired)
    {
      assert t in Entries(h);
      assert t in Entries(fired) ==> t in (Entries(h) + dropped) * Entries(fired);
    }
  }

  lemma Unknown(h: seq<Timeout>, created: set<Timeout>, dropped: set<Timeout>, fired: seq<Timeout>,
                withdrawn: set<Timeout>, cancellations: nat, t: Timeout)
    requires Ok(h, created, dropped, fired, withdrawn, cancellations) && t !in created
    ensures t !in h && t !in Entries(fired) && t !in withdrawn
  {
    assert t in h ==> t in Entries(h);
  }

  lemma Added(h: seq<Timeout>, created: set<Timeout>, dropped: set<Timeout>, fired: seq<Timeout>,
              withdrawn: set<Timeout>, cancellations: nat, t: Timeout, r: seq<Timeout>)
    requires Ok(h, created, dropped, fired, withdrawn, cancellations) && t !in created
    requires IsHeap(r) && Distinct(r) && Entries(r) == Entries(h) + {t}
    ensures Ok(r, created + {t}, dropped, fired, withdrawn, cancellations)
    ensures Entries(r) - withdrawn == (Entries(h) - withdrawn) + {t}
  {
    hide IsHeap, Distinct;
    assert Entries(r) * withdrawn == Entries(h) * withdrawn;
  }

  lemma Withdrawn(h: seq<Timeout>, created: set<Timeout>, dropped: set<Timeout>, fired: seq<Timeout>,
                  withdrawn: set<Timeout>, cancellations: nat, t: Timeout)
    requires Ok(h, created, dropped, fired, withdrawn, cancellations) && t in created
    ensures var withdrawn' := if t in fired then withdrawn else withdrawn + {t};
            Ok(h, created, dropped, fired, withdrawn', cancellations + 1)
            && Entries(h) - withdrawn' == (Entries(h) - withdrawn) - {t}
    ensures t in fired <==> t in Entries(fired)
  {
    hide IsHeap, Distinct;
    var q := Entries(h);
    if t in fired {
      assert t in q ==> t in (q + dropped) * Entries(fired);
    } else {
      assert q * (withdrawn + {t}) <= q * withdrawn + {t};
      SubsetSize(q * (withdrawn + {t}), q * withdrawn + {t});
    }
  }

  lemma Dropped(h: seq<Timeout>, created: set<Timeout>, dropped: set<Timeout>, fired: seq<Timeout>,
                withdrawn: set<Timeout>, cancellations: nat, t: Timeout, r: seq<Timeout>)
    requires Ok(h, created, dropped, fired, withdrawn, cancellations) && t in withdrawn
    requires IsHeap(r) && Distinct(r) && t !in r && Entries(h) == Entries(r) + {t}
    ensures cancellations > 0 && Ok(r, created, dropped + {t}, fired, withdrawn, cancellations - 1)
    ensures t !in dropped
    ensures Entries(r) - withdrawn == Entries(h) - withdrawn
  {
    hide IsHeap, Distinct;
    assert t !in Entries(r) && t !in Entries(h) * dropped;
    assert Entries(h) * withdrawn == Entries(r) * withdrawn + {t};
  }

  lemma Fired(h: seq<Timeout>, created: set<Timeout>, dropped: set<Timeout>, fired: seq<Timeout>,
              withdrawn: set<Timeout>, cancellations: nat, t: Timeout, r: seq<Timeout>)
    requires Ok(h, created, dropped, fired, withdrawn, cancellations) && t !in withdrawn
    requires IsHeap(r) && Distinct(r) && t !in r && Entries(h) == Entries(r) + {t}
    ensures Ok(r, created, dropped, fired + [t], withdrawn, cancellations)
    ensures Entries(fired + [t]) == Entries(fired) + {t}
  {
    hide IsHeap, Distinct;
    assert t !in Entries(r) && t in Entries(h);
    assert t in Entries(fired) ==> t in (Entries(h) + dropped) * Entries(fired);
    Appended(fired, t);
    assert Entries(r) * withdrawn == Entries(h) * withdrawn;
  }

  lemma Compacted(h: seq<Timeout>, created: set<Timeout>, dropped: set<Timeout>, fired: seq<Timeout>,
                  withdrawn: set<Timeout>, cancellations: nat, r: seq<Timeout>)
    requires Ok(h, created, dropped, fired, withdrawn, cancellations)
    requires IsHeap(r) && Distinct(r) && Entries(r) == Entries(h) - withdrawn
    ensures Ok(r, created, dropped + Entries(h) * withdrawn, fired, withdrawn, 0)
    ensures Entries(r) - withdrawn == Entries(h) - withdrawn
  {
    hide IsHeap, Distinct;
    assert Entries(r) * withdrawn == {};
  }

  class TimeoutQueue {
    var timeouts: seq<Timeout>
    var cancellations: nat
    var nextId: nat
    var created: set<Timeout>           // every handle that add_timeout returned: what callers hold

    ghost var withdrawn: set<Timeout>   // handles passed to remove_timeout before they had fired
    ghost var dropped: set<Timeout>     // withdrawn entries that have left the heap
    ghost var fired: seq<Timeout>       // timeouts whose callbacks were run

    ghost function Queued(): set<Timeout>
      reads `timeouts
    {
      Entries(timeouts)
    }

    /** The timeouts that are still to fire. */
    ghost function Live(): set<Timeout>
      reads `timeouts, `withdrawn
    {
      Queued() - withdrawn
    }

    ghost predicate Callbacks()
      reads `created, `withdrawn, `fired, created
    {
      forall t :: t in created && t !in Entries(fired) ==> (t.callback.None? <==> t in withdrawn)
    }

    ghost predicate Valid()
      reads this, created
    {
      Ok(timeouts, created, dropped, fired, withdrawn, cancellations) && Callbacks()
    }

    constructor ()
      ensures Valid() && timeouts == [] && created == {} && fired == []
    {
      timeouts, cancellations, nextId := [], 0, 0;
      created, withdrawn, dropped, fired := {}, {}, {}, [];
    }

    /** `add_timeout` */
    method AddTimeout(deadline: real, callback: Callback) returns (t: Timeout)
      requires Valid()
      modifies `timeouts, `nextId, `created
      ensures Valid() && fresh(t) && t.deadline == deadline && t.callback == Some(callback)
      ensures created == old(created) + {t} && Queued() == old(Queued()) + {t} && t !in old(created)
      ensures Live() == old(Live()) + {t}
    {
      hide Ok, Callbacks, Live, Queued;
      t := new Timeout(deadline, nextId, callback);
      nextId := nextId + 1;
      assert t !in created;
      Insert(t);
    }

    method Insert(t: Timeout)
      requires Valid() && t !in created && t.callback.Some?
      modifies `timeouts, `created
      ensures Valid() && created == old(created) + {t} && Queued() == old(Queued()) + {t}
      ensures Live() == old(Live()) + {t}
    {
      hide Ok, IsHeap, Distinct, Entries;
      HeapOk();
      Unknown(timeouts, created, dropped, fired, withdrawn, cancellations, t);
      ghost var h := timeouts;
      timeouts := HeapPush(timeouts, t);
      Added(h, created, dropped, fired, withdrawn, cancellations, t, timeouts);
      created := created + {t};
    }

    lemma HeapOk()
      requires Valid()
      ensures IsHeap(timeouts) && Distinct(timeouts)
    {
    }

    /** `remove_timeout`: any handle, even of a timeout that has fired or was cancelled before. */
    method RemoveTimeout(t: Timeout)
      requires Valid() && t in created
      modifies t`callback, `cancellations, `withdrawn
      ensures Valid() && t.callback.None?
      ensures Live() == old(Live()) - {t}
      ensures withdrawn == old(withdrawn) + if t in fired then {} else {t}
      ensures cancellations == old(cancellations) + 1
    {
      hide Ok, Entries;
      Withdrawn(timeouts, created, dropped, fired, withdrawn, cancellations, t);
      t.callback := None;
      cancellations := cancellations + 1;
      if t !in fired {
        withdrawn := withdrawn + {t};
      }
    }

    /** What the callbacks do to the timeouts: any number of additions and removals. */
    method UserCode()
      requires Valid()
      modifies this, created
      ensures Valid() && old(created) <= created && fresh(created - old(created))
      ensures fired == old(fired) && dropped == old(dropped) && old(withdrawn) <= withdrawn
    {
      hide Ok, Callbacks;
      var calls := Any();
      for i := 0 to calls
        invariant Valid() && old(created) <= created && fresh(created - old(created))
        invariant fired == old(fired) && dropped == old(dropped) && old(withdrawn) <= withdrawn
      {
        var add: bool := *;
        if add {
          var deadline: real := *;
          var callback: nat := *;
          var _ := AddTimeout(deadline, callback);
        } else {
          if created != {} {
            var handle :| handle in created;
            RemoveTimeout(handle);
          }
        }
      }
    }

    /** Takes the least entry off the heap, which is cancelled. */
    method DropRoot()
      requires Valid() && timeouts != [] && timeouts[0].callback.None?
      modifies `timeouts, `cancellations, `dropped
      ensures Valid() && Live() == old(Live()) && |timeouts| < old(|timeouts|)
      ensures |dropped| == |old(dropped)| + 1 && fired == old(fired)
    {
      hide Ok, IsHeap, Distinct, Entries;
      HeapOk();
      QueuedCallbacks();
      ghost var h := timeouts;
      var t;
      t, timeouts := HeapPop(timeouts);
      Dropped(h, created, dropped, fired, withdrawn, cancellations, t, timeouts);
      cancellations := cancellations - 1;
      dropped := dropped + {t};
    }

    /** Takes the least entry off the heap, which is due, and runs its callback. No earlier timeout was queued. */
    method FireRoot(ghost now: real)
      requires Valid() && timeouts != [] && timeouts[0].callback.Some? && timeouts[0].deadline <= now
      modifies this, created
      ensures Valid() && old(created) <= created && fresh(created - old(created))
      ensures fired == old(fired) + [old(timeouts)[0]]
      ensures old(timeouts)[0] in old(Live()) && old(timeouts)[0].deadline <= now
      ensures forall t :: t in old(Queued()) ==> Leq(old(timeouts)[0], t)
      ensures dropped == old(dropped) && old(withdrawn) <= withdrawn
    {
      hide Ok, Callbacks, IsHeap;
      HeapOk();
      RootIsLeastEntry(timeouts);
      PopRoot();
      UserCode();
    }

    method PopRoot()
      requires Valid() && timeouts != [] && timeouts[0].callback.Some?
      modifies `timeouts, `fired
      ensures Valid() && fired == old(fired) + [old(timeouts)[0]] && old(timeouts)[0] in old(Live())
    {
      hide Ok, IsHeap, Distinct, Entries;
      HeapOk();
      QueuedCallbacks();
      ghost var h := timeouts;
      var t;
      t, timeouts := HeapPop(timeouts);
      Fired(h, created, dropped, fired, withdrawn, cancellations, t, timeouts);
      fired := fired + [t];
    }

    /** Rebuilds the heap without its cancelled entries, once those are many. */
    method Compact()
      requires Valid()
      modifies `timeouts, `cancellations, `dropped
      ensures Valid() && Live() == old(Live())
      ensures cancellations <= 512 || cancellations <= |timeouts| / 2
      ensures timeouts == old(timeouts) || Queued() == old(Live())
    {
      hide Ok, IsHeap, Distinct, Entries;
      if cancellations > 512 && cancellations > |timeouts| / 2 {
        ghost var h := timeouts;
        var kept := WithCallback();
        timeouts := Heapify(kept);
        Compacted(h, created, dropped, fired, withdrawn, cancellations, timeouts);
        cancellations := 0;
        dropped := dropped + Entries(h) * withdrawn;
      }
    }

    method WithCallback() returns (kept: seq<Timeout>)
      requires Valid()
      ensures Distinct(kept) && Entries(kept) == Live()
    {
      hide IsHeap, Ok, Callbacks;
      HeapOk();
      kept := [];
      for n := 0 to |timeouts|
        invariant Distinct(kept) && forall t :: t in kept <==> t in timeouts[..n] && t.callback.Some?
      {
        assert timeouts[..n + 1] == timeouts[..n] + [timeouts[n]];
        assert timeouts[n] !in timeouts[..n];
        if timeouts[n].callback.Some? {
          kept := kept + [timeouts[n]];
        }
      }
      assert timeouts[..|timeouts|] == timeouts;
      QueuedCallbacks();
    }

    /** Among the queued timeouts, those without a callback are the withdrawn ones. */
    lemma QueuedCallbacks()
      requires Valid()
      ensures forall t :: t in timeouts ==> t in Queued() && (t.callback.None? <==> t in withdrawn)
    {
      QueuedNotFired(timeouts, created, dropped, fired, withdrawn, cancellations);
    }

    /** The timeout phase of one iteration. Callbacks may go on adding timeouts that are due; `finished` is false
        when the given number of rounds was used up, with the loop still in this phase, having taken that many
        entries off the heap. */
    method RunTimeouts(now: real, rounds: nat) returns (pollTimeout: real, finished: bool)
      requires Valid()
      modifies this, created
      ensures Valid() && old(created) <= created && fresh(created - old(created))
      ensures old(fired) <= fired && forall i :: |old(fired)| <= i < |fired| ==> fired[i].deadline <= now
      ensures old(withdrawn) <= withdrawn
      ensures finished ==> Bounds(Live(), pollTimeout, now)
      ensures !finished ==> |fired| + |dropped| == |old(fired)| + |old(dropped)| + rounds
    {
      hide Ok, Callbacks, Bounds;
      pollTimeout := MAX_TIMEOUT;
      if timeouts == [] {
        assert Live() == {};
        NothingBounds(now);
        return pollTimeout, true;
      }
      var left := rounds;
      var searching := true;
      while searching && timeouts != []
        invariant Valid() && old(created) <= created && fresh(created - old(created))
        invariant old(fired) <= fired && forall i :: |old(fired)| <= i < |fired| ==> fired[i].deadline <= now
        invariant old(withdrawn) <= withdrawn
        invariant searching ==> pollTimeout == MAX_TIMEOUT
        invariant searching ==> 0 <= left && |fired| + |dropped| + left == |old(fired)| + |old(dropped)| + rounds
        invariant !searching ==> Bounds(Live(), pollTimeout, now)
        decreases left, searching
      {
        if left == 0 {
          return pollTimeout, false;
        }
        left := left - 1;
        if timeouts[0].callback.None? {
          DropRoot();
        } else if timeouts[0].deadline <= now {
          FireRoot(now);
        } else {
          var seconds := timeouts[0].deadline - now;
          pollTimeout := if seconds < pollTimeout then seconds else pollTimeout;
          RootBounds(now);
          searching := false;
        }
      }
      if searching {
        assert Live() == {};
        NothingBounds(now);
      }
      Compact();
      finished := true;
    }

    lemma RootBounds(now: real)
      requires Valid() && timeouts != [] && timeouts[0].callback.Some? && timeouts[0].deadline > now
      ensures Bounds(Live(), if timeouts[0].deadline - now < MAX_TIMEOUT then timeouts[0].deadline - now
                             else MAX_TIMEOUT, now)
    {
      RootIsLeastEntry(timeouts);
      QueuedCallbacks();
      assert timeouts[0] in Live();
    }
  }

  /** Cancelling holds for good: a live timeout that is removed never fires, however often the loop runs its
      timeouts afterwards, whatever else is added and removed in between. */
  method RemovedNeverFires(q: TimeoutQueue, t: Timeout, times: seq<real>, rounds: nat)
    requires q.Valid() && t in q.Live() && t in q.created
    modifies q, q.created
    ensures q.Valid() && t !in q.fired && old(q.fired) <= q.fired
  {
    hide Ok, Partition, TimeoutQueue.Callbacks;
    LiveNotFired(q, t);
    q.RemoveTimeout(t);
    for n := 0 to |times|
      invariant q.Valid() && t in q.withdrawn && old(q.fired) <= q.fired
      invariant old(q.created) <= q.created && fresh(q.created - old(q.created))
    {
      q.UserCode();
      var _, _ := q.RunTimeouts(times[n], rounds);
    }
    WithdrawnNotFired(q, t);
  }

  lemma LiveNotFired(q: TimeoutQueue, t: Timeout)
    requires q.Valid() && t in q.Live()
    ensures t !in q.fired
  {
    assert t !in (q.Queued() + q.dropped) * Entries(q.fired);
    assert t !in Entries(q.fired);
  }

  lemma WithdrawnNotFired(q: TimeoutQueue, t: Timeout)
    requires q.Valid() && t in q.withdrawn
    ensures t !in q.fired
  {
    assert t !in q.withdrawn * Entries(q.fired);
    assert t !in Entries(q.fired);
  }

  lemma NothingBounds(now: real)
    ensures Bounds({}, MAX_TIMEOUT, now)
  {
  }

  lemma RootIsLeastEntry(h: seq<Timeout>)
    requires IsHeap(h) && h != []
    ensures forall u :: u in Entries(h) ==> Leq(h[0], u)
  {
    forall u | u in Entries(h)
      ensures Leq(h[0], u)
    {
      var i :| 0 <= i < |h| && h[i] == u;
      RootIsLeast(h, i);
    }
  }

  lemma SubsetSize<T>(a: set<T>, b: set<T>)
    requires a <= b
    ensures |a| <= |b|
  {
    if a != {} {
      var x :| x in a;
      SubsetSize(a - {x}, b - {x});
    }
  }
}
