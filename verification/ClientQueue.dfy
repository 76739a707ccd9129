/** Scheduling in `SimpleAsyncHTTPClient` (tornado/simple_httpclient.py): a bounded number of requests at a time,
    and one owner for each final callback. */
module ClientQueue {
  import opened Bytes

  /** A request with the final callback of this number, and the redirects it may still follow. */
  datatype Job = Job(id: nat, redirects: nat)

  /** `_HTTPConnection`, as far as its two callbacks go. */
  class HTTPConnection {
    const request: Job
    /** The key of the slot that the release callback gives back. */
    var releaseCallback: Option<nat>
    /** The number of the final callback. */
    var finalCallback: Option<nat>

    constructor (request: Job, key: nat)
      ensures this.request == request && releaseCallback == Some(key) && finalCallback == Some(request.id)
    {
      this.request, releaseCallback, finalCallback := request, Some(key), Some(request.id);
    }
  }

  type Holders = map<HTTPConnection, Option<nat>>

  // ----- bookkeeping, as values -----

  /** No two connections hold the same thing. */
  ghost predicate Unique(h: Holders) {
    forall c, d :: c in h && d in h && c != d && h[c].Some? ==> h[c] != h[d]
  }

  ghost predicate Held(h: Holders, x: nat) {
    exists c :: c in h && h[c] == Some(x)
  }

  ghost predicate Queued(queue: seq<Job>, x: nat) {
    exists i :: 0 <= i < |queue| && queue[i].id == x
  }

  /** Each final callback is in the queue, with a connection, on the way from one to the other, or handed off, and in
      one of these places only. */
  ghost predicate OneOwner(count: nat, queue: seq<Job>, finals: Holders, moving: set<nat>, handed: seq<nat>) {
    && (forall i, j :: 0 <= i < j < |queue| ==> queue[i].id != queue[j].id)
    && Unique(finals)
    && (forall i, j :: 0 <= i < j < |handed| ==> handed[i] != handed[j])
    && (forall x: nat :: Queued(queue, x) ==> x < count && !Held(finals, x) && x !in moving && x !in handed)
    && (forall x: nat :: Held(finals, x) ==> x < count && x !in moving && x !in handed)
    && (forall x: nat :: x in moving ==> x < count && x !in handed)
    && (forall x: nat :: x in handed ==> x < count)
    && (forall x: nat :: x < count ==> Queued(queue, x) || Held(finals, x) || x in moving || x in handed)
  }

  /** The slots in use are those that some connection will give back. */
  ghost predicate Slots(active: set<nat>, releases: Holders, nextKey: nat) {
    && Unique(releases)
    && (forall k :: k in active <==> Held(releases, k))
    && (forall k :: k in active ==> k < nextKey)
  }

  lemma QueuedSnoc(queue: seq<Job>, job: Job)
    ensures forall x: nat :: Queued(queue + [job], x) <==> Queued(queue, x) || x == job.id
  {
    var q := queue + [job];
    assert q[|queue|] == job;
    forall x: nat | Queued(queue, x) ensures Queued(q, x) {
      var i :| 0 <= i < |queue| && queue[i].id == x;
      assert q[i].id == x;
    }
  }

  /** There is a new final callback. */
  lemma Created(count: nat, queue: seq<Job>, finals: Holders, moving: set<nat>, handed: seq<nat>)
    requires OneOwner(count, queue, finals, moving, handed)
    ensures OneOwner(count + 1, queue, finals, moving + {count}, handed)
  {
  }

  /** A connection gives its callback away. */
  lemma Taken(count: nat, queue: seq<Job>, finals: Holders, c: HTTPConnection, moving: set<nat>, handed: seq<nat>)
    requires OneOwner(count, queue, finals, moving, handed) && c in finals && finals[c].Some?
    ensures OneOwner(count, queue, finals[c := None], moving + {finals[c].value}, handed)
  {
    HeldWithout(finals, c);
    assert Held(finals, finals[c].value);
  }

  /** A callback goes into the queue with its request. */
  lemma Submitted(count: nat, queue: seq<Job>, finals: Holders, moving: set<nat>, handed: seq<nat>, job: Job)
    requires OneOwner(count, queue, finals, moving, handed) && job.id in moving
    ensures OneOwner(count, queue + [job], finals, moving - {job.id}, handed)
  {
    QueuedSnoc(queue, job);
    forall i | 0 <= i < |queue| ensures queue[i].id != job.id {
      assert Queued(queue, queue[i].id);
    }
  }

  lemma HandedOff(count: nat, queue: seq<Job>, finals: Holders, moving: set<nat>, handed: seq<nat>, id: nat)
    requires OneOwner(count, queue, finals, moving, handed) && id in moving
    ensures OneOwner(count, queue, finals, moving - {id}, handed + [id])
  {
  }

  lemma HeldWithout(h: Holders, c: HTTPConnection)
    requires Unique(h) && c in h
    ensures Unique(h[c := None])
    ensures forall x: nat :: Held(h[c := None], x) <==> Held(h, x) && h[c] != Some(x)
  {
    forall x: nat | Held(h, x) && h[c] != Some(x)
      ensures Held(h[c := None], x)
    {
      var d: HTTPConnection :| d in h && h[d] == Some(x);
      assert h[c := None][d] == Some(x);
    }
    forall x: nat | Held(h[c := None], x)
      ensures Held(h, x) && h[c] != Some(x)
    {
      var d: HTTPConnection :| d in h[c := None] && h[c := None][d] == Some(x);
      assert h[d] == Some(x);
    }
  }

  lemma HeldWith(h: Holders, c: HTTPConnection, y: nat)
    requires Unique(h) && c !in h && !Held(h, y)
    ensures Unique(h[c := Some(y)])
    ensures forall x: nat :: Held(h[c := Some(y)], x) <==> Held(h, x) || x == y
  {
    var g := h[c := Some(y)];
    assert g[c] == Some(y);
    forall x: nat | Held(h, x)
      ensures Held(g, x)
    {
      var d: HTTPConnection :| d in h && h[d] == Some(x);
      assert g[d] == Some(x);
    }
  }

  lemma Started(count: nat, queue: seq<Job>, finals: Holders, c: HTTPConnection, moving: set<nat>, handed: seq<nat>)
    requires OneOwner(count, queue, finals, moving, handed) && queue != [] && c !in finals
    ensures OneOwner(count, queue[1..], finals[c := Some(queue[0].id)], moving, handed)
  {
    var id, rest := queue[0].id, queue[1..];
    assert Queued(queue, id);
    assert id < count && id !in moving && id !in handed;
    HeldWith(finals, c, id);
    forall i, j | 0 <= i < j < |rest|
      ensures rest[i].id != rest[j].id
    {
      assert rest[i] == queue[i + 1] && rest[j] == queue[j + 1];
    }
    QueuedRest(queue);
    var f := finals[c := Some(queue[0].id)];
    assert Unique(f);
    forall x: nat | Queued(rest, x)
      ensures x < count && !Held(f, x) && x !in moving && x !in handed
    {
      assert Queued(queue, x) && x != id;
    }
    forall x: nat | Held(f, x)
      ensures x < count && x !in moving && x !in handed
    {
      assert Held(finals, x) || x == id;
    }
    forall x: nat | x < count
      ensures Queued(rest, x) || Held(f, x) || x in moving || x in handed
    {
      assert Queued(queue, x) || Held(finals, x) || x in moving || x in handed;
    }
  }

  lemma QueuedRest(queue: seq<Job>)
    requires queue != [] && forall i, j :: 0 <= i < j < |queue| ==> queue[i].id != queue[j].id
    ensures forall x: nat :: Queued(queue[1..], x) <==> Queued(queue, x) && x != queue[0].id
  {
    forall x: nat | Queued(queue, x) && x != queue[0].id
      ensures Queued(queue[1..], x)
    {
      var i :| 0 <= i < |queue| && queue[i].id == x;
      assert queue[1..][i - 1].id == x;
    }
    forall x: nat | Queued(queue[1..], x)
      ensures Queued(queue, x) && x != queue[0].id
    {
      var i :| 0 <= i < |queue[1..]| && queue[1..][i].id == x;
      assert queue[i + 1].id == x;
    }
  }

  lemma SlotTaken(active: set<nat>, releases: Holders, key: nat, c: HTTPConnection)
    requires Slots(active, releases, key) && c !in releases
    ensures key !in active && Slots(active + {key}, releases[c := Some(key)], key + 1)
  {
    HeldWith(releases, c, key);
  }

  lemma SlotGiven(active: set<nat>, releases: Holders, nextKey: nat, c: HTTPConnection)
    requires Slots(active, releases, nextKey) && c in releases && releases[c].Some?
    ensures releases[c].value in active && Slots(active - {releases[c].value}, releases[c := None], nextKey)
  {
    assert Held(releases, releases[c].value);
    HeldWithout(releases, c);
  }

  /** A callback has been through as many redirects as its request has fewer left than at first. */
  ghost predicate Counted(count: nat, queue: seq<Job>, finals: Holders, hops: map<nat, nat>, limit: map<nat, nat>) {
    && (forall x: nat :: x < count ==> x in hops && x in limit && hops[x] <= limit[x])
    && (forall i :: 0 <= i < |queue| ==> Spent(queue[i], hops, limit))
    && (forall c :: c in finals && finals[c].Some? ==> finals[c].value == c.request.id && Spent(c.request, hops, limit))
  }

  ghost predicate Spent(job: Job, hops: map<nat, nat>, limit: map<nat, nat>) {
    job.id in hops && job.id in limit && hops[job.id] + job.redirects == limit[job.id]
  }

  lemma CreatedCounted(count: nat, queue: seq<Job>, finals: Holders, hops: map<nat, nat>, limit: map<nat, nat>,
                       redirects: nat)
    requires Counted(count, queue, finals, hops, limit)
    requires forall i :: 0 <= i < |queue| ==> queue[i].id < count
    requires forall c :: c in finals && finals[c].Some? ==> finals[c].value < count
    ensures Counted(count + 1, queue, finals, hops[count := 0], limit[count := redirects])
  {
  }

  lemma StartedCounted(count: nat, queue: seq<Job>, finals: Holders, c: HTTPConnection, hops: map<nat, nat>,
                       limit: map<nat, nat>)
    requires Counted(count, queue, finals, hops, limit) && queue != [] && c.request == queue[0]
    ensures Counted(count, queue[1..], finals[c := Some(queue[0].id)], hops, limit)
  {
    hide Spent;
  }

  class SimpleAsyncHTTPClient {
    const maxClients: nat
    var queue: seq<Job>
    /** The keys of the slots in use. */
    var active: set<nat>
    var nextKey: nat
    var connections: set<HTTPConnection>
    /** The number of final callbacks so far. */
    var count: nat

    ghost var moving: set<nat>         // callbacks on the way from a connection to the queue
    ghost var handed: seq<nat>         // those handed to the event loop
    ghost var submitted: seq<Job>      // requests in the order in which they were queued
    ghost var started: seq<Job>        // and in the order in which they were started
    ghost var hops: map<nat, nat>      // redirects that each callback's request has been through
    ghost var limit: map<nat, nat>     // and how many it was allowed

    ghost function Finals(): Holders
      reads `connections, connections`finalCallback
    {
      map c | c in connections :: c.finalCallback
    }

    ghost function Releases(): Holders
      reads `connections, connections`releaseCallback
    {
      map c | c in connections :: c.releaseCallback
    }

    ghost predicate Valid()
      reads this, connections
    {
      && |active| <= maxClients
      && Slots(active, Releases(), nextKey)
      && OneOwner(count, queue, Finals(), moving, handed)
      && submitted == started + queue
      && Counted(count, queue, Finals(), hops, limit)
    }

    /** A request waits only when all slots are in use. */
    ghost predicate Busy()
      reads `queue, `active
    {
      queue != [] ==> |active| == maxClients
    }

    constructor (maxClients: nat)
      ensures Valid() && Busy() && this.maxClients == maxClients && queue == [] && active == {}
    {
      this.maxClients := maxClients;
      queue, active, nextKey, connections := [], {}, 0, {};
      count, moving, handed, submitted, started, hops, limit := 0, {}, [], [], [], map[], map[];
    }

    /** `fetch` with a new final callback. */
    method Fetch(redirects: nat)
      requires Valid() && Busy() && moving == {}
      modifies this
      ensures Valid() && Busy() && moving == {} && count == old(count) + 1
      ensures submitted == old(submitted) + [Job(old(count), redirects)] && old(handed) <= handed
      ensures fresh(connections - old(connections)) && old(connections) <= connections
    {
      hide OneOwner, Slots, Counted;
      var id := NewCallback(redirects);
      FetchImpl(Job(id, redirects));
    }

    method NewCallback(redirects: nat) returns (id: nat)
      requires Valid()
      modifies `count, `moving, `hops, `limit
      ensures Valid() && id == old(count) && count == old(count) + 1 && moving == old(moving) + {id}
      ensures hops == old(hops)[id := 0] && limit == old(limit)[id := redirects]
    {
      hide OneOwner, Slots, Counted;
      Created(count, queue, Finals(), moving, handed);
      BelowCount();
      CreatedCounted(count, queue, Finals(), hops, limit, redirects);
      id := count;
      moving, hops, limit := moving + {id}, hops[id := 0], limit[id := redirects];
      count := count + 1;
    }

    lemma BelowCount()
      requires Valid()
      ensures forall i :: 0 <= i < |queue| ==> queue[i].id < count
      ensures forall c :: c in connections && c.finalCallback.Some? ==> c.finalCallback.value < count
    {
      forall i | 0 <= i < |queue| ensures queue[i].id < count {
        assert Queued(queue, queue[i].id);
      }
      forall c | c in connections && c.finalCallback.Some? ensures c.finalCallback.value < count {
        assert Finals()[c] == Some(c.finalCallback.value);
        assert Held(Finals(), c.finalCallback.value);
      }
    }

    /** `fetch_impl` */
    method FetchImpl(job: Job)
      requires Valid() && job.id in moving && Spent(job, hops, limit)
      modifies this
      ensures Valid() && Busy() && moving == old(moving) - {job.id} && count == old(count)
      ensures submitted == old(submitted) + [job] && old(handed) <= handed && old(started) <= started
      ensures hops == old(hops) && limit == old(limit)
      ensures fresh(connections - old(connections)) && old(connections) <= connections
    {
      hide OneOwner, Slots;
      Submitted(count, queue, Finals(), moving, handed, job);
      queue := queue + [job];
      submitted, moving := submitted + [job], moving - {job.id};
      ProcessQueue();
    }

    /** `_process_queue`: requests start in the order in which they were queued, while there are slots. A connection
        may give its slot back at once, and that processes the queue as well. */
    method ProcessQueue()
      requires Valid()
      modifies this
      ensures Valid() && Busy() && Steady(old(queue), old(submitted), old(count), old(moving), old(hops), old(limit))
      ensures old(handed) <= handed && old(started) <= started
      ensures fresh(connections - old(connections)) && old(connections) <= connections
      decreases |queue|, 1
    {
      hide OneOwner, Slots, Counted;
      while queue != [] && |active| < maxClients
        invariant Valid() && Steady(old(queue), old(submitted), old(count), old(moving), old(hops), old(limit))
        invariant old(handed) <= handed && old(started) <= started
        invariant fresh(connections - old(connections)) && old(connections) <= connections
        decreases |queue|
      {
        StartNext();
      }
    }

    /** What processing the queue leaves as it is. */
    ghost predicate Steady(q: seq<Job>, s: seq<Job>, n: nat, m: set<nat>, h: map<nat, nat>, l: map<nat, nat>)
      reads `queue, `submitted, `count, `moving, `hops, `limit
    {
      |queue| <= |q| && submitted == s && count == n && moving == m && hops == h && limit == l
    }

    /** `_handle_request` for the first request that waits; its connection may fail at once. */
    method StartNext()
      requires Valid() && queue != [] && |active| < maxClients
      modifies this
      ensures Valid() && |queue| < old(|queue|)
      ensures Steady(old(queue), old(submitted), old(count), old(moving), old(hops), old(limit))
      ensures old(handed) <= handed && old(started) + [old(queue)[0]] <= started
      ensures fresh(connections - old(connections)) && old(connections) <= connections
      decreases |queue|, 0
    {
      hide OneOwner, Slots, Counted;
      var c := Connect();
      var fails: bool := *;
      if fails {
        var _ := HandleException(c);
      }
    }

    method Connect() returns (c: HTTPConnection)
      requires Valid() && queue != [] && |active| < maxClients
      modifies `queue, `active, `nextKey, `connections, `started
      ensures Valid() && fresh(c) && connections == old(connections) + {c}
      ensures queue == old(queue)[1..] && started == old(started) + [old(queue)[0]]
      ensures c.request == old(queue)[0] && c.releaseCallback.Some? && c.finalCallback == Some(c.request.id)
    {
      hide OneOwner, Slots, Counted, Finals, Releases;
      c := new HTTPConnection(queue[0], nextKey);
      assert c !in connections;
      Begin(c);
    }

    method Begin(c: HTTPConnection)
      requires Valid() && queue != [] && |active| < maxClients && c !in connections
      requires c.request == queue[0] && c.releaseCallback == Some(nextKey) && c.finalCallback == Some(queue[0].id)
      modifies `queue, `active, `nextKey, `connections, `started
      ensures Valid() && connections == old(connections) + {c}
      ensures queue == old(queue)[1..] && started == old(started) + [old(queue)[0]]
    {
      hide OneOwner, Slots, Counted;
      ghost var finals, releases := Finals(), Releases();
      Started(count, queue, finals, c, moving, handed);
      StartedCounted(count, queue, finals, c, hops, limit);
      SlotTaken(active, releases, nextKey, c);
      var job, key := queue[0], nextKey;
      queue, started := queue[1..], started + [job];
      active, nextKey, connections := active + {key}, key + 1, connections + {c};
      assert Finals() == finals[c := Some(job.id)];
      assert Releases() == releases[c := Some(key)];
    }

    /** `_release` and `_release_fetch`: the first time, the slot is given back and the queue is processed. */
    method Release(c: HTTPConnection)
      requires Valid() && c in connections
      modifies this, c`releaseCallback
      ensures Valid() && c.releaseCallback.None? && (old(Busy()) || old(c.releaseCallback).Some? ==> Busy())
      ensures Steady(old(queue), old(submitted), old(count), old(moving), old(hops), old(limit))
      ensures old(handed) <= handed && old(started) <= started
      ensures fresh(connections - old(connections)) && old(connections) <= connections
      decreases |queue|, 2
    {
      hide OneOwner, Slots, Counted;
      if c.releaseCallback.Some? {
        ghost var releases := Releases();
        SlotGiven(active, releases, nextKey, c);
        var key := c.releaseCallback.value;
        c.releaseCallback := None;
        active := active - {key};
        assert Releases() == releases[c := None];
        ProcessQueue();
      }
    }

    /** `_run_callback`: the slot is given back, and the final callback is handed to the event loop, once. */
    method RunCallback(c: HTTPConnection)
      requires Valid() && c in connections
      modifies this, c
      ensures Valid() && c.finalCallback.None? && c.releaseCallback.None?
      ensures old(Busy()) || old(c.releaseCallback).Some? ==> Busy()
      ensures Steady(old(queue), old(submitted), old(count), old(moving), old(hops), old(limit))
      ensures old(handed) <= handed && old(started) <= started
      ensures old(c.finalCallback).Some? ==> old(c.finalCallback).value in handed
      ensures fresh(connections - old(connections)) && old(connections) <= connections
      decreases |queue|, 3
    {
      hide OneOwner, Slots, Counted;
      Release(c);
      if c.finalCallback.Some? {
        var id := TakeFinal(c);
        HandedOff(count, queue, Finals(), moving, handed, id);
        assert moving - {id} == old(moving);
        handed, moving := handed + [id], moving - {id};
      }
    }

    /** `self.final_callback = None`, with the callback in a local variable. */
    method TakeFinal(c: HTTPConnection) returns (id: nat)
      requires Valid() && c in connections && c.finalCallback.Some?
      modifies `moving, c`finalCallback
      ensures Valid() && c.finalCallback.None? && id == old(c.finalCallback).value
      ensures moving == old(moving) + {id} && id !in old(moving) && id == c.request.id && Spent(c.request, hops, limit)
    {
      hide Slots;
      ghost var finals := Finals();
      assert finals[c] == Some(c.finalCallback.value);
      assert Held(finals, c.finalCallback.value);
      Taken(count, queue, finals, c, moving, handed);
      id := c.finalCallback.value;
      c.finalCallback := None;
      moving := moving + {id};
      assert Finals() == finals[c := None];
    }

    /** `_handle_exception`: the error goes to the final callback, unless that has been handed off. */
    method HandleException(c: HTTPConnection) returns (handled: bool)
      requires Valid() && c in connections
      modifies this, c
      ensures Valid() && handled == old(c.finalCallback).Some? && c.finalCallback.None?
      ensures old(Busy()) ==> Busy()
      ensures Steady(old(queue), old(submitted), old(count), old(moving), old(hops), old(limit))
      ensures old(handed) <= handed && old(started) <= started
      ensures handled ==> old(c.finalCallback).value in handed
      ensures fresh(connections - old(connections)) && old(connections) <= connections
      decreases |queue|, 4
    {
      hide OneOwner, Slots, Counted;
      if c.finalCallback.None? {
        return false;
      }
      RunCallback(c);
      return true;
    }

    /** `_on_body`: a redirect is followed if the request has one left, by a new request with one fewer for the same
        final callback; any other response is handed to the callback. */
    method OnBody(c: HTTPConnection, redirect: bool)
      requires Valid() && Busy() && moving == {} && c in connections
      modifies this, c
      ensures Valid() && Busy() && moving == {} && c.finalCallback.None? && c.releaseCallback.None?
      ensures old(handed) <= handed && old(started) <= started
      ensures var follows := redirect && c.request.redirects > 0;
              var final := old(c.finalCallback);
              && (!follows && final.Some? ==> final.value in handed && submitted == old(submitted))
              && (follows && final.Some? ==>
                    submitted == old(submitted) + [Job(final.value, c.request.redirects - 1)] && count == old(count))
      ensures fresh(connections - old(connections)) && old(connections) <= connections
    {
      hide OneOwner, Slots, Counted;
      if redirect && c.request.redirects > 0 {
        var id;
        if c.finalCallback.Some? {
          id := TakeFinal(c);
          Hop(c);
        } else {
          id := NewCallback(c.request.redirects - 1);
        }
        Release(c);
        FetchImpl(Job(id, c.request.redirects - 1));
        assert moving == {};
      } else {
        RunCallback(c);
      }
    }

    /** One more redirect for the callback that is on its way. */
    ghost method Hop(c: HTTPConnection)
      requires Valid() && moving == {c.request.id} && Spent(c.request, hops, limit) && c.request.redirects > 0
      modifies `hops
      ensures Valid() && hops == old(hops)[c.request.id := old(hops)[c.request.id] + 1]
      ensures Spent(Job(c.request.id, c.request.redirects - 1), hops, limit)
    {
      hide Slots;
      var id := c.request.id;
      forall i | 0 <= i < |queue| ensures queue[i].id != id {
        assert Queued(queue, queue[i].id);
      }
      forall d | d in connections && d.finalCallback.Some? ensures d.finalCallback.value != id {
        assert Finals()[d] == Some(d.finalCallback.value);
        assert Held(Finals(), d.finalCallback.value);
      }
      hops := hops[id := hops[id] + 1];
    }
  }
}
