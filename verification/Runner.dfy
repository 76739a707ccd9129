/** `gen.Runner` and its yield points (tornado/gen.py): a generator driven by callbacks that may arrive in any
    order, or while it is running. */
module Runners {
  import opened Bytes

  /** User keys, and the fresh objects that tasks and futures use as keys. */
  datatype Key = Named(name: string) | Fresh(number: nat)

  datatype Exception = User(id: nat) | UnknownKey | KeyReuse | KeyMissing | BadYield | LeakedCallback

  /** What a callback is called with; the future that a `YieldFuture` waits for may hold an exception. */
  datatype Answer = Value(id: nat) | Failure(error: Exception)

  /** The value of a yield expression. */
  datatype Sent = Null | CallbackFor(key: Key) | Single(answer: Answer) | List(items: seq<Sent>)

  datatype Input = Send(value: Sent) | Throw(error: Exception)

  /** What a generator may yield: a yield point, a list of them, or something else. A task's function may raise
      when it is started. */
  datatype Item = Callback(name: string) | Wait(name: string) | WaitAll(names: seq<string>) |
                  Task(raises: Option<Exception>) | Future
  datatype Yield = One(item: Item) | Many(items: seq<Item>) | Other

  /** The generator up to its next yield. */
  datatype Resumed<G> = Yielded(gen: G, what: Yield) | Returned(value: nat) | Raised(error: Exception)

  /** A started yield point. */
  datatype Point = Now(value: Sent) | For(key: Key, future: bool) | All(keys: seq<Key>)

  datatype Outcome = Running | Done(value: nat) | Failed(error: Exception)

  /** Keys registered and not popped, each with the number of its registration, and the number of the next one. */
  datatype Registry = Registry(pending: map<Key, nat>, count: nat)

  // ----- starting -----

  function Register(r: Registry, key: Key): (Registry, Option<Exception>) {
    if key in r.pending then (r, Some(KeyReuse))
    else (Registry(r.pending[key := r.count], r.count + 1), None)
  }

  function NamedKeys(names: seq<string>): seq<Key> {
    seq(|names|, i requires 0 <= i < |names| => Named(names[i]))
  }

  function PointOf(item: Item, count: nat): Point {
    match item
    case Callback(name) => Now(CallbackFor(Named(name)))
    case Wait(name) => For(Named(name), false)
    case WaitAll(names) => All(NamedKeys(names))
    case Task(_) => For(Fresh(count), false)
    case Future => For(Fresh(count), true)
  }

  function Start(r: Registry, item: Item): (Registry, Option<Exception>) {
    match item
    case Callback(name) => Register(r, Named(name))
    case Task(raises) => (Register(r, Fresh(r.count)).0, raises)
    case Future => Register(r, Fresh(r.count))
    case _ => (r, None)
  }

  /** Starts the children of a list in order; the first exception stops. */
  function StartAll(r: Registry, items: seq<Item>): (Registry, seq<Point>, Option<Exception>)
    decreases items
  {
    if items == [] then (r, [], None)
    else
      var (r1, error) := Start(r, items[0]);
      if error.Some? then (r1, [], error)
      else
        var (r2, points, error2) := StartAll(r1, items[1..]);
        (r2, [PointOf(items[0], r.count)] + points, error2)
  }

  // ----- results -----

  function KeysOf(p: Point): seq<Key> {
    match p
    case Now(_) => []
    case For(key, _) => [key]
    case All(keys) => keys
  }

  /** Popping keys one after the other; a key listed twice is missing the second time. */
  function Pop(answer: nat -> Answer, pending: map<Key, nat>, keys: seq<Key>): (map<Key, nat>, Option<seq<Sent>>) {
    if keys == [] then (pending, Some([]))
    else if keys[0] !in pending then (pending, None)
    else
      var (rest, values) := Pop(answer, pending - {keys[0]}, keys[1..]);
      (rest, if values.None? then None else Some([Single(answer(pending[keys[0]]))] + values.value))
  }

  /** The result of one yield point whose keys all have answers. */
  function Get(answer: nat -> Answer, pending: map<Key, nat>, p: Point): (map<Key, nat>, Input) {
    match p
    case Now(value) => (pending, Send(value))
    case For(key, future) =>
      if key !in pending then (pending, Throw(KeyMissing))
      else
        var a := answer(pending[key]);
        (pending - {key}, if future && a.Failure? then Throw(a.error) else Send(Single(a)))
    case All(keys) =>
      var (rest, values) := Pop(answer, pending, keys);
      (rest, if values.None? then Throw(KeyMissing) else Send(List(values.value)))
  }

  function GetAll(answer: nat -> Answer, pending: map<Key, nat>, points: seq<Point>):
    (map<Key, nat>, Option<Exception>, seq<Sent>)
    decreases points
  {
    if points == [] then (pending, None, [])
    else
      var (p1, input) := Get(answer, pending, points[0]);
      if input.Throw? then (p1, Some(input.error), [])
      else
        var (p2, error, values) := GetAll(answer, p1, points[1..]);
        (p2, error, [input.value] + values)
  }

  /** The yield point that the runner waits for: one point, or a list. */
  datatype Waiting = JustOne(point: Point) | Each(points: seq<Point>)

  function PointsOf(w: Waiting): seq<Point> {
    if w.JustOne? then [w.point] else w.points
  }

  ghost predicate Known(pending: map<Key, nat>, points: seq<Point>) {
    forall p, k :: p in points && k in KeysOf(p) ==> k in pending
  }

  /** What the generator is sent once every key waited for has its answer. */
  ghost function Collect(answer: nat -> Answer, pending: map<Key, nat>, w: Waiting): (map<Key, nat>, Input) {
    if !Known(pending, PointsOf(w)) then (pending, Throw(UnknownKey))
    else GetWaiting(answer, pending, w)
  }

  function GetWaiting(answer: nat -> Answer, pending: map<Key, nat>, w: Waiting): (map<Key, nat>, Input) {
    match w
    case JustOne(p) => Get(answer, pending, p)
    case Each(points) =>
      var (rest, error, values) := GetAll(answer, pending, points);
      (rest, if error.Some? then Throw(error.value) else Send(List(values)))
  }

  // ----- the run in which every answer is there as soon as it is needed -----

  datatype Ideal<G> = Ideal(gen: G, waiting: Waiting, registry: Registry, exc: Option<Exception>,
                            hadException: bool, outcome: Outcome, log: seq<Input>)

  const NULL_POINT: Waiting := JustOne(Now(Null))

  function IdealStart<G>(gen: G): Ideal<G> {
    Ideal(gen, NULL_POINT, Registry(map[], 0), None, false, Running, [])
  }

  function StartYield(r: Registry, y: Yield): (Registry, Waiting, Option<Exception>) {
    match y
    case One(item) =>
      var (r1, error) := Start(r, item);
      (r1, if error.Some? then NULL_POINT else JustOne(PointOf(item, r.count)), error)
    case Many(items) =>
      var (r1, points, error) := StartAll(r, items);
      (r1, if error.Some? then NULL_POINT else Each(points), error)
    case Other => (r, NULL_POINT, Some(BadYield))
  }

  ghost function Next<G>(resume: (G, Input) -> Resumed<G>, answer: nat -> Answer, s: Ideal<G>): Ideal<G> {
    if !s.outcome.Running? then s
    else
      var (pending, input) :=
        if s.exc.Some? then (s.registry.pending, Throw(s.exc.value))
        else Collect(answer, s.registry.pending, s.waiting);
      After(resume, s.(registry := s.registry.(pending := pending)), input)
  }

  function After<G>(resume: (G, Input) -> Resumed<G>, s: Ideal<G>, input: Input): Ideal<G> {
    Absorb(s.(waiting := NULL_POINT, exc := None, hadException := s.hadException || input.Throw?,
              log := s.log + [input]),
           resume(s.gen, input))
  }

  /** What the generator did last. */
  function Absorb<G>(s: Ideal<G>, step: Resumed<G>): (r: Ideal<G>)
    ensures r.log == s.log
  {
    match step
    case Returned(value) =>
      s.(outcome := if s.registry.pending != map[] && !s.hadException then Failed(LeakedCallback) else Done(value))
    case Raised(error) => s.(outcome := Failed(error))
    case Yielded(gen, what) =>
      var (registry, waiting, error) := StartYield(s.registry, what);
      s.(gen := gen, registry := registry, waiting := waiting, exc := error)
  }

  ghost function Iterate<G>(resume: (G, Input) -> Resumed<G>, answer: nat -> Answer, gen: G, n: nat): Ideal<G> {
    if n == 0 then IdealStart(gen) else Next(resume, answer, Iterate(resume, answer, gen, n - 1))
  }

  lemma {:induction false} LogGrows<G>(resume: (G, Input) -> Resumed<G>, answer: nat -> Answer, gen: G, m: nat, n: nat)
    requires m <= n
    ensures Iterate(resume, answer, gen, m).log <= Iterate(resume, answer, gen, n).log
    ensures !Iterate(resume, answer, gen, m).outcome.Running?
            ==> Iterate(resume, answer, gen, m) == Iterate(resume, answer, gen, n)
    decreases n
  {
    hide Collect, Absorb;
    if m < n {
      LogGrows(resume, answer, gen, m, n - 1);
    }
  }

  /** The log has one entry for each pass. */
  lemma {:induction false} LogLength<G>(resume: (G, Input) -> Resumed<G>, answer: nat -> Answer, gen: G, n: nat)
    ensures var s := Iterate(resume, answer, gen, n);
            |s.log| <= n && (|s.log| < n ==> !s.outcome.Running?)
            && (|s.log| <= n ==> Iterate(resume, answer, gen, |s.log|) == s)
  {
    hide Collect, Absorb;
    if n > 0 {
      LogLength(resume, answer, gen, n - 1);
    }
  }

  /** The items of a list are the results of its points, in their order, each as if it were alone. */
  lemma {:induction false} ListOrder(answer: nat -> Answer, pending: map<Key, nat>, points: seq<Point>)
    ensures var (rest, error, values) := GetAll(answer, pending, points);
            error.None? ==>
              |values| == |points|
              && forall i :: 0 <= i < |points| ==> Get(answer, pending, points[i]).1 == Send(values[i])
    decreases points
  {
    if points != [] {
      var (p1, input) := Get(answer, pending, points[0]);
      GetRemoves(answer, pending, points[0]);
      if input.Send? {
        ListOrder(answer, p1, points[1..]);
        var (rest, error, values) := GetAll(answer, p1, points[1..]);
        if error.None? {
          forall i | 0 <= i < |points|
            ensures Get(answer, pending, points[i]).1 == Send(([input.value] + values)[i])
          {
            if i > 0 {
              assert Get(answer, p1, points[1..][i - 1]).1 == Send(values[i - 1]);
              GetFromLarger(answer, p1, pending, points[i]);
            }
          }
        }
      }
    }
  }

  /** Getting only removes keys. */
  lemma GetRemoves(answer: nat -> Answer, pending: map<Key, nat>, p: Point)
    ensures Submap(Get(answer, pending, p).0, pending)
  {
    if p.All? {
      PopRemoves(answer, pending, p.keys);
    }
  }

  ghost predicate Submap(a: map<Key, nat>, b: map<Key, nat>) {
    forall k :: k in a ==> k in b && a[k] == b[k]
  }

  lemma {:induction false} PopRemoves(answer: nat -> Answer, pending: map<Key, nat>, keys: seq<Key>)
    ensures Submap(Pop(answer, pending, keys).0, pending)
  {
    if keys != [] && keys[0] in pending {
      PopRemoves(answer, pending - {keys[0]}, keys[1..]);
    }
  }

  lemma GetFromLarger(answer: nat -> Answer, small: map<Key, nat>, large: map<Key, nat>, p: Point)
    requires Submap(small, large)
    requires Get(answer, small, p).1.Send? || (p.For? && p.key in small)
    ensures Get(answer, large, p).1 == Get(answer, small, p).1
  {
    if p.All? {
      PopFromLarger(answer, small, large, p.keys);
    }
  }

  lemma {:induction false} PopFromLarger(answer: nat -> Answer, small: map<Key, nat>, large: map<Key, nat>,
                                         keys: seq<Key>)
    requires Submap(small, large) && Pop(answer, small, keys).1.Some?
    ensures Pop(answer, large, keys).1 == Pop(answer, small, keys).1
  {
    if keys != [] {
      PopFromLarger(answer, small - {keys[0]}, large - {keys[0]}, keys[1..]);
    }
  }

  function Indices(n: nat): (r: set<nat>)
    ensures forall i :: i in r <==> 0 <= i < n
  {
    if n == 0 then {} else Indices(n - 1) + {n - 1}
  }

  datatype Readiness = Ready | NotReady | Unknown

  class Runner<G> {
    const resume: (G, Input) -> Resumed<G>
    /** The argument of the callback of each registration. */
    const answer: nat -> Answer
    var gen: G
    var yieldPoint: Waiting
    /** The children of a list that have not been found ready yet. */
    var unfinishedChildren: set<nat>
    var pendingCallbacks: map<Key, nat>
    var count: nat
    var results: map<Key, Answer>
    var running: bool
    var finished: bool
    var excInfo: Option<Exception>
    var hadException: bool
    var outcome: Outcome

    ghost const initial: G
    ghost var log: seq<Input>   // what the generator was sent
    ghost var steps: nat
    ghost var started: bool
    ghost var clean: bool       // no exception came from outside

    ghost predicate Keys()
      reads `pendingCallbacks, `count, `results
    {
      && (forall k :: k in results ==> k in pendingCallbacks && results[k] == answer(pendingCallbacks[k]))
      && (forall n: nat :: Fresh(n) in pendingCallbacks ==> n < count)
    }

    ghost predicate Answered(p: Point)
      reads `pendingCallbacks, `results
    {
      forall k :: k in KeysOf(p) ==> k in pendingCallbacks && k in results
    }

    ghost predicate Children()
      reads `yieldPoint, `unfinishedChildren, `pendingCallbacks, `results
    {
      yieldPoint.Each? ==>
        forall i :: 0 <= i < |yieldPoint.points| && i !in unfinishedChildren ==> Answered(yieldPoint.points[i])
    }

    /** Some callback that the current yield point needs has not been called. */
    ghost predicate Stalled()
      reads `yieldPoint, `pendingCallbacks, `results
    {
      exists p, k :: p in PointsOf(yieldPoint) && k in KeysOf(p) && k in pendingCallbacks && k !in results
    }

    /** The state, without the answers that have arrived. */
    ghost function Abs(): Ideal<G>
      reads `gen, `yieldPoint, `pendingCallbacks, `count, `excInfo, `hadException, `outcome, `log
    {
      Ideal(gen, yieldPoint, Registry(pendingCallbacks, count), excInfo, hadException, outcome, log)
    }

    /** The state is a state of the ideal run, except that some answers have not arrived. */
    ghost predicate Consistent()
      reads this
    {
      && Keys() && Children()
      && (finished <==> !outcome.Running?)
      && (clean ==> Abs() == Iterate(resume, answer, initial, steps))
    }

    /** When `run` has returned with the generator unfinished, a callback that it waits for is outstanding. */
    ghost predicate Valid()
      reads this
    {
      Consistent() && (started && !running && !finished ==> excInfo.None? && Stalled())
    }

    constructor (gen: G, resume: (G, Input) -> Resumed<G>, answer: nat -> Answer)
      ensures Valid() && !started && !running && !finished && clean
      ensures initial == gen && this.resume == resume && this.answer == answer && log == []
    {
      this.resume, this.answer, this.gen, initial := resume, answer, gen, gen;
      yieldPoint, unfinishedChildren := NULL_POINT, {};
      pendingCallbacks, count, results := map[], 0, map[];
      running, finished, excInfo, hadException, outcome := false, false, None, false, Running;
      log, steps, started, clean := [], 0, false, true;
    }

    /** `register_callback` */
    method RegisterCallback(key: Key) returns (error: Option<Exception>)
      requires Keys()
      requires key.Fresh? ==> key.number == count
      modifies `pendingCallbacks, `count
      ensures Keys()
      ensures (Registry(pendingCallbacks, count), error) == Register(old(Registry(pendingCallbacks, count)), key)
    {
      if key in pendingCallbacks {
        return Some(KeyReuse);
      }
      pendingCallbacks, count := pendingCallbacks[key := count], count + 1;
      return None;
    }

    /** User code that the generator or a task runs: it may call any callbacks it holds, each of them once. With
        `running` set that only stores the results. */
    method UserCode()
      requires Keys()
      modifies `results
      ensures Keys() && old(results.Keys) <= results.Keys
    {
      var called: set<Key> := *;
      called := (called * pendingCallbacks.Keys) - results.Keys;
      results := results + map k | k in called :: answer(pendingCallbacks[k]);
    }

    /** `is_ready` of one yield point: its keys are looked at in order. */
    method IsReady(p: Point) returns (r: Readiness)
      ensures r.Ready? ==> Answered(p)
      ensures r.NotReady? ==> exists k :: k in KeysOf(p) && k in pendingCallbacks && k !in results
      ensures r.Unknown? ==> exists k :: k in KeysOf(p) && k !in pendingCallbacks
    {
      var keys := KeysOf(p);
      for i := 0 to |keys|
        invariant forall j :: 0 <= j < i ==> keys[j] in pendingCallbacks && keys[j] in results
      {
        if keys[i] !in pendingCallbacks {
          return Unknown;
        }
        if keys[i] !in results {
          return NotReady;
        }
      }
      return Ready;
    }

    /** `is_ready` of the current yield point. The children of a list are kept in a set, so they are looked at in
        any order, up to the first that is not ready. */
    method PointIsReady() returns (r: Readiness)
      requires Children()
      modifies `unfinishedChildren
      ensures Children()
      ensures r.Ready? ==> forall p :: p in PointsOf(yieldPoint) ==> Answered(p)
      ensures r.NotReady? ==> Stalled()
      ensures r.Unknown? ==> !Known(pendingCallbacks, PointsOf(yieldPoint))
    {
      if yieldPoint.JustOne? {
        r := IsReady(yieldPoint.point);
        assert yieldPoint.point in PointsOf(yieldPoint);
        return;
      }
      var points := yieldPoint.points;
      var left := unfinishedChildren * Indices(|points|);
      while left != {}
        invariant forall i :: 0 <= i < |points| && i !in left ==> Answered(points[i])
        invariant left <= Indices(|points|) && Children()
        decreases left
      {
        var i :| i in left;
        r := IsReady(points[i]);
        assert points[i] in PointsOf(yieldPoint);
        if r.Unknown? {
          return;
        }
        if r.NotReady? {
          unfinishedChildren := left;
          return;
        }
        left := left - {i};
      }
      unfinishedChildren := {};
      return Ready;
    }

    /** `pop_result` */
    method PopResult(key: Key) returns (r: Option<Answer>)
      requires Keys() && (key in pendingCallbacks ==> key in results)
      modifies `pendingCallbacks, `results
      ensures Keys()
      ensures r.None? <==> key !in old(pendingCallbacks)
      ensures r.Some? ==> r.value == answer(old(pendingCallbacks)[key])
      ensures pendingCallbacks == old(pendingCallbacks) - {key}
      ensures results == old(results) - {key}
    {
      if key !in pendingCallbacks {
        assert key !in results;
        return None;
      }
      r := Some(results[key]);
      pendingCallbacks := pendingCallbacks - {key};
      results := results - {key};
    }

    /** Every pending key among these has its answer. */
    ghost predicate Has(keys: seq<Key>)
      reads `pendingCallbacks, `results
    {
      forall k :: k in keys && k in pendingCallbacks ==> k in results
    }

    method PopAll(keys: seq<Key>) returns (values: Option<seq<Sent>>)
      requires Keys() && Has(keys)
      modifies `pendingCallbacks, `results
      ensures Keys()
      ensures (pendingCallbacks, values) == Pop(answer, old(pendingCallbacks), keys)
      ensures forall k :: k in pendingCallbacks ==> (k in results <==> k in old(results))
      ensures Submap(pendingCallbacks, old(pendingCallbacks))
      decreases |keys|
    {
      if keys == [] {
        return Some([]);
      }
      var first := PopResult(keys[0]);
      if first.None? {
        assert pendingCallbacks == old(pendingCallbacks);
        return None;
      }
      var rest := PopAll(keys[1..]);
      return if rest.None? then None else Some([Single(first.value)] + rest.value);
    }

    /** `get_result` of one yield point. */
    method GetResult(p: Point) returns (input: Input)
      requires Keys() && Has(KeysOf(p))
      modifies `pendingCallbacks, `results
      ensures Keys()
      ensures (pendingCallbacks, input) == Get(answer, old(pendingCallbacks), p)
      ensures forall k :: k in pendingCallbacks ==> (k in results <==> k in old(results))
      ensures Submap(pendingCallbacks, old(pendingCallbacks))
    {
      match p
      case Now(value) =>
        return Send(value);
      case For(key, future) =>
        var a := PopResult(key);
        if a.None? {
          assert pendingCallbacks == old(pendingCallbacks);
          return Throw(KeyMissing);
        }
        return if future && a.value.Failure? then Throw(a.value.error) else Send(Single(a.value));
      case All(keys) =>
        var values := PopAll(keys);
        return if values.None? then Throw(KeyMissing) else Send(List(values.value));
    }

    method GetResults(points: seq<Point>) returns (error: Option<Exception>, values: seq<Sent>)
      requires Keys() && forall p :: p in points ==> Has(KeysOf(p))
      modifies `pendingCallbacks, `results
      ensures Keys()
      ensures (pendingCallbacks, error, values) == GetAll(answer, old(pendingCallbacks), points)
      decreases |points|
    {
      if points == [] {
        return None, [];
      }
      var first := GetResult(points[0]);
      if first.Throw? {
        return Some(first.error), [];
      }
      error, values := GetResults(points[1..]);
      values := [first.value] + values;
    }

    /** `get_result` of the current yield point. */
    method PointResult() returns (input: Input)
      requires Keys() && forall p :: p in PointsOf(yieldPoint) ==> Answered(p)
      modifies `pendingCallbacks, `results
      ensures Keys()
      ensures (pendingCallbacks, input) == Collect(answer, old(pendingCallbacks), yieldPoint)
    {
      hide Get, GetAll;
      assert Known(pendingCallbacks, PointsOf(yieldPoint));
      match yieldPoint
      case JustOne(p) =>
        assert p in PointsOf(yieldPoint);
        input := GetResult(p);
      case Each(points) =>
        var error, values := GetResults(points);
        input := if error.Some? then Throw(error.value) else Send(List(values));
    }

    /** `start` of one yield point. */
    method StartItem(item: Item) returns (p: Point, error: Option<Exception>)
      requires Keys()
      modifies `pendingCallbacks, `count, `results
      ensures Keys()
      ensures (Registry(pendingCallbacks, count), error) == Start(old(Registry(pendingCallbacks, count)), item)
      ensures p == PointOf(item, old(count))
    {
      p, error := PointOf(item, count), None;
      match item
      case Callback(name) =>
        error := RegisterCallback(Named(name));
      case Task(raises) =>
        var _ := RegisterCallback(Fresh(count));
        UserCode();
        error := raises;
      case Future =>
        error := RegisterCallback(Fresh(count));
      case _ =>
    }

    method StartItems(items: seq<Item>) returns (points: seq<Point>, error: Option<Exception>)
      requires Keys()
      modifies `pendingCallbacks, `count, `results
      ensures Keys()
      ensures (Registry(pendingCallbacks, count), points, error)
              == StartAll(old(Registry(pendingCallbacks, count)), items)
      decreases |items|
    {
      hide Start, PointOf;
      if items == [] {
        return [], None;
      }
      var p;
      p, error := StartItem(items[0]);
      if error.Some? {
        return [], error;
      }
      points, error := StartItems(items[1..]);
      points := [p] + points;
    }

    method StartYielded(y: Yield)
      requires Keys()
      modifies `pendingCallbacks, `count, `results, `yieldPoint, `unfinishedChildren, `excInfo
      ensures Keys() && Children()
      ensures (Registry(pendingCallbacks, count), yieldPoint, excInfo)
              == StartYield(old(Registry(pendingCallbacks, count)), y)
    {
      hide Start, PointOf, StartAll;
      yieldPoint := NULL_POINT;
      match y
      case One(item) =>
        var p;
        p, excInfo := StartItem(item);
        if excInfo.None? {
          yieldPoint := JustOne(p);
        }
      case Many(items) =>
        var points;
        points, excInfo := StartItems(items);
        if excInfo.None? {
          yieldPoint, unfinishedChildren := Each(points), Indices(|points|);
        }
      case Other =>
        excInfo := Some(BadYield);
    }

    /** Sends the generator a value or an exception, and starts what it yields. */
    method Resume(input: Input)
      requires Keys() && outcome.Running? && excInfo.None? && !finished
      modifies this
      ensures Keys() && Children() && (finished <==> !outcome.Running?)
      ensures Abs() == After(resume, old(Abs()), input)
      ensures unchanged(`running, `steps, `started, `clean)
    {
      hide Absorb, Keys;
      hadException := hadException || input.Throw?;
      log := log + [input];
      var step := resume(gen, input);
      UserCode();
      yieldPoint := NULL_POINT;
      HandleStep(step);
    }

    method HandleStep(step: Resumed<G>)
      requires Keys() && outcome.Running? && excInfo.None? && !finished && yieldPoint == NULL_POINT
      modifies this
      ensures Keys() && Children() && (finished <==> !outcome.Running?)
      ensures Abs() == Absorb(old(Abs()), step)
      ensures unchanged(`running, `steps, `started, `clean)
    {
      hide StartYield, Keys;
      match step
      case Returned(value) =>
        finished := true;
        outcome := if pendingCallbacks != map[] && !hadException then Failed(LeakedCallback) else Done(value);
      case Raised(error) =>
        finished := true;
        outcome := Failed(error);
      case Yielded(g, what) =>
        gen := g;
        StartYielded(what);
    }

    /** One pass of the loop of `run`; `again` is false when `run` returns. */
    method Turn() returns (again: bool)
      requires Consistent() && running && !finished
      modifies this
      ensures Consistent() && running && unchanged(`started, `clean)
      ensures old(log) <= log
      ensures !again && !finished ==> excInfo.None? && Stalled()
      ensures again <==> !finished && |log| > |old(log)|
      ensures again ==> |log| == |old(log)| + 1
      ensures old(excInfo).Some? ==> |log| > |old(log)| && log[|old(log)|] == Throw(old(excInfo).value)
    {
      hide Collect, After, Iterate;
      ghost var before := Abs();
      var input;
      if excInfo.Some? {
        input := Throw(excInfo.value);
        excInfo := None;
      } else {
        var r := PointIsReady();
        if r.NotReady? {
          return false;
        }
        if r.Unknown? {
          input := Throw(UnknownKey);
          UnknownCollects(answer, pendingCallbacks, yieldPoint);
        } else {
          input := PointResult();
        }
      }
      AfterForgets(resume, Abs(), before, input);
      Resume(input);
      assert Abs() == Next(resume, answer, before);
      IterateStep(resume, answer, initial, steps);
      steps := steps + 1;
      again := !finished;
    }

    /** `run`. The generator may go on forever without waiting; `running` is still set when the given number of
        rounds is used up, and the runner is then inside `run`, having resumed the generator that often. An
        exception that is pending is thrown into it first. */
    method Run(rounds: nat)
      requires Consistent()
      modifies this
      ensures Consistent() && clean == old(clean) && old(log) <= log
      ensures started
      ensures !running && !finished ==> excInfo.None? && Stalled()
      ensures old(running || finished) ==> Abs() == old(Abs()) && running == old(running) && results == old(results)
      ensures !old(running || finished) && running ==> !finished && |log| == |old(log)| + rounds
      ensures !old(running || finished) && old(excInfo).Some? && rounds > 0 ==>
                |log| > |old(log)| && log[|old(log)|] == Throw(old(excInfo).value)
    {
      started := true;
      if running || finished {
        return;
      }
      running := true;
      var left := rounds;
      while left > 0
        invariant Consistent() && running && started && !finished && clean == old(clean)
        invariant 0 <= left && old(log) <= log && left + |log| == rounds + |old(log)|
        invariant left == rounds ==> excInfo == old(excInfo)
        invariant left < rounds && old(excInfo).Some? ==>
                    |log| > |old(log)| && log[|old(log)|] == Throw(old(excInfo).value)
      {
        var again := Turn();
        if !again {
          running := false;
          return;
        }
        left := left - 1;
      }
    }

    /** `set_result`, called by the callback of a registration: once for each, with the answer of that
        registration. */
    method SetResult(key: Key, rounds: nat)
      requires Valid() && started
      requires key in pendingCallbacks && key !in results
      modifies this
      ensures Valid() && started && clean == old(clean) && old(log) <= log
      ensures !running && !finished ==> excInfo.None? && Stalled()
      ensures old(running || finished) ==>
                Abs() == old(Abs()) && running == old(running)
                && results == old(results)[key := answer(old(pendingCallbacks)[key])]
      ensures !old(running || finished) && running ==> !finished && |log| == |old(log)| + rounds
    {
      results := results[key := answer(pendingCallbacks[key])];
      Run(rounds);
    }

    /** `handle_exception`: an exception from the asynchronous operations is thrown into the generator, unless it
        is running or done. */
    method HandleException(error: Exception, rounds: nat) returns (handled: bool)
      requires Valid() && started
      modifies this
      ensures Valid() && started && old(log) <= log
      ensures handled == !old(running || finished)
      ensures !handled ==> Abs() == old(Abs()) && running == old(running) && clean == old(clean)
      ensures !running && !finished ==> excInfo.None? && Stalled()
      ensures handled && rounds > 0 ==> |log| > |old(log)| && log[|old(log)|] == Throw(error)
      ensures handled && running ==> !finished && |log| == |old(log)| + rounds
    {
      if running || finished {
        return false;
      }
      excInfo, clean := Some(error), false;
      Run(rounds);
      return true;
    }
  }

  /** The pass does not depend on the exception that is being thrown nor on the yield point just left. */
  lemma AfterForgets<G>(resume: (G, Input) -> Resumed<G>, now: Ideal<G>, before: Ideal<G>, input: Input)
    requires now.gen == before.gen && now.registry.count == before.registry.count
    requires now.hadException == before.hadException && now.outcome == before.outcome && now.log == before.log
    ensures After(resume, now, input)
            == After(resume, before.(registry := before.registry.(pending := now.registry.pending)), input)
    ensures After(resume, now, input).log == now.log + [input]
  {
    hide Absorb;
  }

  lemma UnknownCollects(answer: nat -> Answer, pending: map<Key, nat>, w: Waiting)
    requires !Known(pending, PointsOf(w))
    ensures Collect(answer, pending, w) == (pending, Throw(UnknownKey))
  {
  }

  lemma IterateStep<G>(resume: (G, Input) -> Resumed<G>, answer: nat -> Answer, gen: G, n: nat)
    ensures Iterate(resume, answer, gen, n + 1) == Next(resume, answer, Iterate(resume, answer, gen, n))
  {
    hide Next;
  }

  /** Two runs of one generator with the same answers, whenever those arrive: what the generator was sent in one
      of them starts what it was sent in the other, and if both are finished they agree. */
  lemma Confluence<G>(a: Runner<G>, b: Runner<G>)
    requires a.Consistent() && b.Consistent() && a.clean && b.clean
    requires a.resume == b.resume && a.answer == b.answer && a.initial == b.initial
    ensures a.log <= b.log || b.log <= a.log
    ensures a.finished && b.finished ==> a.log == b.log && a.outcome == b.outcome
    ensures |a.log| == |b.log| ==> a.Abs() == b.Abs()
  {
    hide Iterate;
    LogLength(a.resume, a.answer, a.initial, a.steps);
    LogLength(a.resume, a.answer, a.initial, b.steps);
    if a.steps <= b.steps {
      LogGrows(a.resume, a.answer, a.initial, a.steps, b.steps);
    } else {
      LogGrows(a.resume, a.answer, a.initial, b.steps, a.steps);
    }
  }
}
