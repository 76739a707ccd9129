/** What a generator is sent for each kind of yield, said without the functions that the runner and its ideal run
    share: for each yield point its own answers, and for a list those of its children. */
module RunnerResults {
  import opened Bytes
  import opened Runners

  /** What is sent for a yield, once everything that it waits for has been answered, and the keys left then. */
  ghost function SentFor(answer: nat -> Answer, r: Registry, y: Yield): (map<Key, nat>, Input) {
    var (started, waiting, error) := StartYield(r, y);
    if error.Some? then (started.pending, Throw(error.value)) else Collect(answer, started.pending, waiting)
  }

  /** After a yield, that is what the generator is resumed with next. */
  lemma NextIsSent<G>(resume: (G, Input) -> Resumed<G>, answer: nat -> Answer, s: Ideal<G>, input: Input)
    requires s.outcome.Running? && resume(s.gen, input).Yielded?
    ensures var step := resume(s.gen, input);
            var sent := SentFor(answer, s.registry, step.what);
            var s1 := After(resume, s, input);
            && s1.outcome.Running? && s1.gen == step.gen && s1.log == s.log + [input]
            && Next(resume, answer, s1).log == s1.log + [sent.1]
            && (resume(s1.gen, sent.1).Returned? || resume(s1.gen, sent.1).Raised? ==>
                  Next(resume, answer, s1).registry.pending == sent.0)
  {
    hide Collect, StartYield;
  }

  /** A `Callback` registers its key, which must not be pending, and gives the callback. */
  lemma CallbackIsGiven(answer: nat -> Answer, r: Registry, name: string)
    ensures var key := Named(name);
            SentFor(answer, r, One(Callback(name))) ==
              if key in r.pending then (r.pending, Throw(KeyReuse))
              else (r.pending[key := r.count], Send(CallbackFor(key)))
  {
    var key := Named(name);
    if key !in r.pending {
      assert PointsOf(JustOne(Now(CallbackFor(key)))) == [Now(CallbackFor(key))];
    }
  }

  /** A `Wait` is sent the answer of the registration of its key, which is forgotten; an unknown key is an error. */
  lemma WaitGetsItsAnswer(answer: nat -> Answer, r: Registry, name: string)
    ensures var key := Named(name);
            SentFor(answer, r, One(Wait(name))) ==
              if key in r.pending then (r.pending - {key}, Send(Single(answer(r.pending[key]))))
              else (r.pending, Throw(UnknownKey))
  {
    var key := Named(name);
    var p := For(key, false);
    assert PointsOf(JustOne(p)) == [p] && KeysOf(p) == [key];
    assert p in PointsOf(JustOne(p)) && key in KeysOf(p);
  }

  /** A `Task` is sent the answer of the callback that it was started with, unless starting it raises. */
  lemma TaskGetsItsAnswer(answer: nat -> Answer, r: Registry, raises: Option<Exception>)
    requires Fresh(r.count) !in r.pending
    ensures SentFor(answer, r, One(Task(raises))) ==
              if raises.Some? then (r.pending[Fresh(r.count) := r.count], Throw(raises.value))
              else (r.pending, Send(Single(answer(r.count))))
  {
    var key := Fresh(r.count);
    FreshKey(r);
    if raises.None? {
      var p := For(key, false);
      assert PointsOf(JustOne(p)) == [p] && KeysOf(p) == [key];
    }
  }

  lemma FreshKey(r: Registry)
    requires Fresh(r.count) !in r.pending
    ensures r.pending[Fresh(r.count) := r.count] - {Fresh(r.count)} == r.pending
  {
  }

  /** A `Future` is sent its result, or its exception is thrown. */
  lemma FutureGetsItsAnswer(answer: nat -> Answer, r: Registry)
    requires Fresh(r.count) !in r.pending
    ensures SentFor(answer, r, One(Future)) ==
              (r.pending, match answer(r.count)
                          case Value(id) => Send(Single(Value(id)))
                          case Failure(error) => Throw(error))
  {
    var key := Fresh(r.count);
    var p := For(key, true);
    FreshKey(r);
    assert PointsOf(JustOne(p)) == [p] && KeysOf(p) == [key];
  }

  // ----- WaitAll -----

  ghost predicate Distinct(names: seq<string>) {
    forall i, j :: 0 <= i < j < |names| ==> names[i] != names[j]
  }

  function Waits(names: seq<string>): (r: seq<Item>)
    ensures |r| == |names| && forall i :: 0 <= i < |r| ==> r[i] == Wait(names[i])
  {
    seq(|names|, i requires 0 <= i < |names| => Wait(names[i]))
  }

  ghost predicate AllPending(r: Registry, names: seq<string>) {
    forall i :: 0 <= i < |names| ==> Named(names[i]) in r.pending
  }

  /** Popping keys gives the answer of each, in order, if all are there and none twice. */
  lemma {:induction false} PopInOrder(answer: nat -> Answer, pending: map<Key, nat>, keys: seq<Key>)
    ensures Pop(answer, pending, keys).1.Some? <==>
            (forall i :: 0 <= i < |keys| ==> keys[i] in pending)
            && (forall i, j :: 0 <= i < j < |keys| ==> keys[i] != keys[j])
    ensures Pop(answer, pending, keys).1.Some? ==>
              var values := Pop(answer, pending, keys).1.value;
              |values| == |keys| && forall i :: 0 <= i < |keys| ==> values[i] == Single(answer(pending[keys[i]]))
    decreases |keys|
  {
    if keys != [] && keys[0] in pending {
      var less, rest := pending - {keys[0]}, keys[1..];
      PopInOrder(answer, less, rest);
      if Pop(answer, less, rest).1.Some? {
        forall i, j | 0 <= i < j < |keys|
          ensures keys[i] != keys[j] && keys[j] in pending
        {
          assert keys[j] == rest[j - 1] && rest[j - 1] in less;
          if i > 0 {
            assert keys[i] == rest[i - 1];
          }
        }
      } else {
        assert !((forall i :: 0 <= i < |rest| ==> rest[i] in less)
                 && (forall i, j :: 0 <= i < j < |rest| ==> rest[i] != rest[j]));
        assert forall i :: 0 <= i < |rest| ==> rest[i] == keys[i + 1];
      }
    }
  }

  /** `WaitAll` is sent the answers of its keys in the order of the keys. */
  lemma WaitAllInOrder(answer: nat -> Answer, r: Registry, names: seq<string>)
    ensures var sent := SentFor(answer, r, One(WaitAll(names))).1;
            && (!AllPending(r, names) ==> sent == Throw(UnknownKey))
            && (AllPending(r, names) && !Distinct(names) ==> sent == Throw(KeyMissing))
            && (AllPending(r, names) && Distinct(names) ==>
                  && sent.Send? && sent.value.List? && |sent.value.items| == |names|
                  && forall i :: 0 <= i < |names| ==>
                       sent.value.items[i] == Single(answer(r.pending[Named(names[i])])))
  {
    hide Pop;
    var keys := NamedKeys(names);
    var p := All(keys);
    assert PointsOf(JustOne(p)) == [p] && KeysOf(p) == keys;
    PopInOrder(answer, r.pending, keys);
    assert forall i :: 0 <= i < |names| ==> keys[i] == Named(names[i]);
    assert Known(r.pending, [p]) <==> AllPending(r, names) by {
      if Known(r.pending, [p]) {
        forall i | 0 <= i < |names|
          ensures Named(names[i]) in r.pending
        {
          assert p in [p] && keys[i] in KeysOf(p);
        }
      }
    }
  }

  /** It is sent what the list of the `Wait`s for these keys is sent, whatever is pending. */
  lemma WaitAllIsListOfWaits(answer: nat -> Answer, r: Registry, names: seq<string>)
    ensures SentFor(answer, r, One(WaitAll(names))) == SentFor(answer, r, Many(Waits(names)))
  {
    var points := PointsFor(names);
    StartWaits(r, Waits(names), names);
    var keys := NamedKeys(names);
    var p := All(keys);
    assert Known(r.pending, [p]) <==> Known(r.pending, points) by {
      KnownAlike(r.pending, names);
    }
    PopIsGetAll(answer, r.pending, names);
  }

  function PointsFor(names: seq<string>): (r: seq<Point>)
    ensures |r| == |names| && forall i :: 0 <= i < |r| ==> r[i] == For(Named(names[i]), false)
  {
    seq(|names|, i requires 0 <= i < |names| => For(Named(names[i]), false))
  }

  lemma {:induction false} StartWaits(r: Registry, items: seq<Item>, names: seq<string>)
    requires |items| == |names| && forall i :: 0 <= i < |items| ==> items[i] == Wait(names[i])
    ensures StartAll(r, items) == (r, PointsFor(names), None)
    decreases |items|
  {
    if items != [] {
      StartWaits(r, items[1..], names[1..]);
      assert PointsFor(names) == [For(Named(names[0]), false)] + PointsFor(names[1..]);
    }
  }

  lemma KnownAlike(pending: map<Key, nat>, names: seq<string>)
    ensures Known(pending, [All(NamedKeys(names))]) <==> Known(pending, PointsFor(names))
  {
    var keys, points := NamedKeys(names), PointsFor(names);
    if Known(pending, [All(keys)]) {
      forall q, k | q in points && k in KeysOf(q)
        ensures k in pending
      {
        var i :| 0 <= i < |points| && points[i] == q;
        assert All(keys) in [All(keys)] && keys[i] in KeysOf(All(keys)) && k == keys[i];
      }
    }
    if Known(pending, points) {
      forall k | k in keys
        ensures k in pending
      {
        var i :| 0 <= i < |keys| && keys[i] == k;
        assert points[i] in points && k in KeysOf(points[i]);
      }
    }
  }

  lemma {:induction false} PopIsGetAll(answer: nat -> Answer, pending: map<Key, nat>, names: seq<string>)
    ensures var (rest, values) := Pop(answer, pending, NamedKeys(names));
            var (rest', error, values') := GetAll(answer, pending, PointsFor(names));
            rest == rest' && (values.None? <==> error.Some?) && (error.Some? ==> error == Some(KeyMissing))
            && (values.Some? ==> values.value == values')
    decreases |names|
  {
    if names != [] && Named(names[0]) in pending {
      assert NamedKeys(names)[1..] == NamedKeys(names[1..]) && PointsFor(names)[1..] == PointsFor(names[1..]);
      PopIsGetAll(answer, pending - {Named(names[0])}, names[1..]);
    }
  }

  // ----- lists, errors and the end -----

  /** A list of tasks is sent their answers in the order of the list. */
  lemma TasksInOrder(answer: nat -> Answer, r: Registry, n: nat)
    requires forall k: nat :: k >= r.count ==> Fresh(k) !in r.pending
    ensures var sent := SentFor(answer, r, Many(Copies(n, Task(None)))).1;
            && sent.Send? && sent.value.List? && |sent.value.items| == n
            && forall i :: 0 <= i < n ==> sent.value.items[i] == Single(answer(r.count + i))
  {
    hide StartAll, GetAll;
    StartCopies(r, n, Task(None));
    FreshAreKnown(r, n, Task(None));
    GetTasks(answer, StartAll(r, Copies(n, Task(None))).0.pending, r.count, n);
  }

  /** A list of futures is sent their results in order, or the exception of the first that failed is thrown. */
  lemma FuturesInOrder(answer: nat -> Answer, r: Registry, n: nat)
    requires forall k: nat :: k >= r.count ==> Fresh(k) !in r.pending
    ensures var sent := SentFor(answer, r, Many(Copies(n, Future))).1;
            && (AllSucceed(answer, r.count, r.count + n) ==>
                  && sent.Send? && sent.value.List? && |sent.value.items| == n
                  && forall i :: 0 <= i < n ==> sent.value.items[i] == Single(answer(r.count + i)))
            && forall k: nat ::
                 r.count <= k < r.count + n && AllSucceed(answer, r.count, k) && answer(k).Failure? ==>
                   sent == Throw(answer(k).error)
  {
    hide StartAll, GetAll;
    StartCopies(r, n, Future);
    FreshAreKnown(r, n, Future);
    var pending := StartAll(r, Copies(n, Future)).0.pending;
    if AllSucceed(answer, r.count, r.count + n) {
      GetFutures(answer, pending, r.count, n);
    }
    forall k: nat | r.count <= k < r.count + n && AllSucceed(answer, r.count, k) && answer(k).Failure?
      ensures SentFor(answer, r, Many(Copies(n, Future))).1 == Throw(answer(k).error)
    {
      GetFailed(answer, pending, r.count, n, k);
    }
  }

  /** If starting a child raises, that is thrown into the generator and the children after it are not started. */
  lemma ListStopsAtError(answer: nat -> Answer, r: Registry, n: nat, error: Exception, rest: seq<Item>)
    requires forall k: nat :: k >= r.count ==> Fresh(k) !in r.pending
    ensures var (pending, sent) := SentFor(answer, r, Many(Copies(n, Task(None)) + [Task(Some(error))] + rest));
            && sent == Throw(error)
            && pending.Keys == r.pending.Keys + set k: nat | r.count <= k <= r.count + n :: Fresh(k)
  {
    hide StartAll;
    StartUpToError(r, n, error, rest);
  }

  function Copies(n: nat, item: Item): seq<Item> {
    seq(n, i => item)
  }

  function FreshPoints(from: nat, n: nat, future: bool): (r: seq<Point>)
    ensures |r| == n && forall i :: 0 <= i < n ==> r[i] == For(Fresh(from + i), future)
  {
    seq(n, i requires 0 <= i => For(Fresh(from + i), future))
  }

  lemma {:induction false} StartCopies(r: Registry, n: nat, item: Item)
    requires item == Task(None) || item == Future
    requires forall k: nat :: k >= r.count ==> Fresh(k) !in r.pending
    ensures var (started, points, error) := StartAll(r, Copies(n, item));
            && points == FreshPoints(r.count, n, item.Future?) && error.None?
            && (forall k: nat :: r.count <= k < r.count + n ==>
                  Fresh(k) in started.pending && started.pending[Fresh(k)] == k)
            && (forall k :: k in r.pending ==> k in started.pending && started.pending[k] == r.pending[k])
    decreases n
  {
    if n > 0 {
      var r1 := Registry(r.pending[Fresh(r.count) := r.count], r.count + 1);
      assert Copies(n, item)[0] == item && Copies(n, item)[1..] == Copies(n - 1, item);
      assert Start(r, item) == (r1, None);
      StartCopies(r1, n - 1, item);
      assert Fresh(r.count) in r1.pending;
      assert FreshPoints(r.count, n, item.Future?) ==
             [For(Fresh(r.count), item.Future?)] + FreshPoints(r.count + 1, n - 1, item.Future?);
    }
  }

  lemma FreshAreKnown(r: Registry, n: nat, item: Item)
    requires var (started, points, _) := StartAll(r, Copies(n, item));
             && points == FreshPoints(r.count, n, item.Future?)
             && forall k: nat :: r.count <= k < r.count + n ==> Fresh(k) in started.pending
    ensures var (started, points, _) := StartAll(r, Copies(n, item)); Known(started.pending, points)
  {
    hide StartAll;
    var (started, points, _) := StartAll(r, Copies(n, item));
    forall p, k | p in points && k in KeysOf(p)
      ensures k in started.pending
    {
      var i :| 0 <= i < |points| && points[i] == p;
      assert k == Fresh(r.count + i);
    }
  }

  lemma {:induction false} StartUpToError(r: Registry, n: nat, error: Exception, rest: seq<Item>)
    requires forall k: nat :: k >= r.count ==> Fresh(k) !in r.pending
    ensures var (started, _, e) := StartAll(r, Copies(n, Task(None)) + [Task(Some(error))] + rest);
            && e == Some(error)
            && started.pending.Keys == r.pending.Keys + set k: nat | r.count <= k <= r.count + n :: Fresh(k)
    decreases n
  {
    var items := Copies(n, Task(None)) + [Task(Some(error))] + rest;
    if n == 0 {
      assert items[0] == Task(Some(error));
    } else {
      var r1 := Registry(r.pending[Fresh(r.count) := r.count], r.count + 1);
      assert items[0] == Task(None) && items[1..] == Copies(n - 1, Task(None)) + [Task(Some(error))] + rest;
      assert Start(r, items[0]) == (r1, None);
      StartUpToError(r1, n - 1, error, rest);
    }
  }

  lemma {:induction false} GetTasks(answer: nat -> Answer, pending: map<Key, nat>, from: nat, n: nat)
    requires forall k: nat :: from <= k < from + n ==> Fresh(k) in pending && pending[Fresh(k)] == k
    ensures var (rest, error, values) := GetAll(answer, pending, FreshPoints(from, n, false));
            error.None? && |values| == n && forall i :: 0 <= i < n ==> values[i] == Single(answer(from + i))
    decreases n
  {
    if n > 0 {
      var points := FreshPoints(from, n, false);
      assert points[1..] == FreshPoints(from + 1, n - 1, false);
      assert Fresh(from) in pending && KeysOf(points[0]) == [Fresh(from)];
      GetTasks(answer, pending - {Fresh(from)}, from + 1, n - 1);
    }
  }

  ghost predicate AllSucceed(answer: nat -> Answer, from: nat, to: nat) {
    forall k: nat :: from <= k < to ==> answer(k).Value?
  }

  lemma {:induction false} GetFutures(answer: nat -> Answer, pending: map<Key, nat>, from: nat, n: nat)
    requires forall k: nat :: from <= k < from + n ==> Fresh(k) in pending && pending[Fresh(k)] == k
    requires AllSucceed(answer, from, from + n)
    ensures var (rest, error, values) := GetAll(answer, pending, FreshPoints(from, n, true));
            error.None? && |values| == n && forall i :: 0 <= i < n ==> values[i] == Single(answer(from + i))
    decreases n
  {
    if n > 0 {
      var points := FreshPoints(from, n, true);
      assert points[1..] == FreshPoints(from + 1, n - 1, true);
      assert Fresh(from) in pending && KeysOf(points[0]) == [Fresh(from)];
      GetFutures(answer, pending - {Fresh(from)}, from + 1, n - 1);
    }
  }

  lemma {:induction false} GetFailed(answer: nat -> Answer, pending: map<Key, nat>, from: nat, n: nat, k: nat)
    requires forall i: nat :: from <= i < from + n ==> Fresh(i) in pending && pending[Fresh(i)] == i
    requires from <= k < from + n && AllSucceed(answer, from, k) && answer(k).Failure?
    ensures GetAll(answer, pending, FreshPoints(from, n, true)).1 == Some(answer(k).error)
    decreases n
  {
    var points := FreshPoints(from, n, true);
    assert points[1..] == FreshPoints(from + 1, n - 1, true);
    assert Fresh(from) in pending && KeysOf(points[0]) == [Fresh(from)];
    if k > from {
      GetFailed(answer, pending - {Fresh(from)}, from + 1, n - 1, k);
    }
  }

  /** Anything else that is yielded is an error that the generator is told of. */
  lemma OtherIsAnError(answer: nat -> Answer, r: Registry)
    ensures SentFor(answer, r, Other) == (r.pending, Throw(BadYield))
  {
  }

  /** The end: a generator that returns is done, unless callbacks are left over and nothing was ever thrown into it;
      one that raises has failed with that. */
  lemma {:induction false} HowItEnds<G>(resume: (G, Input) -> Resumed<G>, answer: nat -> Answer, gen: G, n: nat)
    ensures var s, s1 := Iterate(resume, answer, gen, n), Iterate(resume, answer, gen, n + 1);
            s.outcome.Running? ==>
              && |s1.log| == n + 1 && s.log <= s1.log
              && match resume(s.gen, s1.log[n])
                 case Yielded(_, _) => s1.outcome.Running?
                 case Raised(error) => s1.outcome == Failed(error)
                 case Returned(value) =>
                   s1.outcome == if s1.registry.pending == map[] || exists i :: 0 <= i <= n && s1.log[i].Throw?
                                 then Done(value) else Failed(LeakedCallback)
  {
    hide Collect, StartYield;
    ThrownBefore(resume, answer, gen, n);
    ThrownBefore(resume, answer, gen, n + 1);
  }

  lemma {:induction false} ThrownBefore<G>(resume: (G, Input) -> Resumed<G>, answer: nat -> Answer, gen: G, n: nat)
    ensures var s := Iterate(resume, answer, gen, n);
            && (s.outcome.Running? ==> |s.log| == n)
            && (s.hadException <==> exists i :: 0 <= i < |s.log| && s.log[i].Throw?)
  {
    hide Collect, StartYield;
    if n > 0 {
      ThrownBefore(resume, answer, gen, n - 1);
      var s, s1 := Iterate(resume, answer, gen, n - 1), Iterate(resume, answer, gen, n);
      if s.outcome.Running? {
        var last := s1.log[|s.log|];
        assert s1.log == s.log + [last] && s1.hadException == (s.hadException || last.Throw?);
        if s.hadException {
          var i :| 0 <= i < |s.log| && s.log[i].Throw?;
          assert s1.log[i].Throw?;
        }
      }
    }
  }
}
