/** What Python's compound statements do, given what their conditions, iterators and bodies do. Everything a
    template's embedded Python may compute is an oracle. */
module ControlFlow {
  import opened Bytes
  import opened TemplateAst
  import opened PythonCode

  /** A Python value, as far as templates tell values apart. */
  datatype Value = Str(text: string) | Object(id: nat)
  datatype Result<+T> = Ok(value: T) | Exc(error: string)
  datatype Item<+It> = Next(rest: It) | Exhausted | Failed(error: string)

  /** The oracles: each reads and updates the variables `St` that the embedded Python shares. */
  datatype Oracles<!St, !It> = Oracles(
    eval: (string, St) -> (Result<Value>, St),           // an expression
    exec: (string, St) -> (Result<()>, St),              // a simple statement
    show: (nat, St) -> (Result<string>, St),             // str(x) of an object
    lookup: (string, St) -> (Result<nat>, St),           // the function that a filter names
    call: (nat, string, St) -> (Result<string>, St),     // f(text), as text
    test: (string, St) -> (Result<bool>, St),            // the condition in "if c", "elif c", "while c"
    iter: (string, St) -> (Result<It>, St),              // the iterable in "for x in xs"
    next: (string, It, St) -> (Item<It>, St),            // its next element, bound to x
    catches: (string, string, St) -> (bool, St),         // whether an except clause takes an error
    enter: St -> St,                                     // a nested function's scope, on entry
    leave: (St, St) -> St)                               // the outer scope again, given the inner one

  /** Template variables, and where the output goes. */
  datatype Machine<+St, +O> = Machine(user: St, out: O)

  datatype Signal = Normal | Break | Continue | Raise(error: string) | Return(text: string)

  /** `Timeout` cuts off loops longer than the given number of rounds and calls nested too deeply. */
  datatype Outcome<+St, +O> = Done(signal: Signal, m: Machine<St, O>) | Timeout

  type Body<!St, !O> = Machine<St, O> -> Outcome<St, O>

  function RunControl<St, It, O>(o: Oracles<St, It>, heads: seq<string>, bodies: seq<Body<St, O>>,
                                 m: Machine<St, O>, rounds: nat): Outcome<St, O>
    requires |heads| == |bodies| && LegalClauses(heads)
  {
    match FirstWord(heads[0])
    case "if" => RunIf(o, heads, bodies, 0, m)
    case "while" => RunWhile(o, heads, bodies, m, rounds)
    case "for" =>
      (match o.iter(heads[0], m.user)
       case (Exc(e), user) => Done(Raise(e), m.(user := user))
       case (Ok(it), user) => RunFor(o, heads, bodies, it, m.(user := user), rounds))
    case _ => RunTry(o, heads, bodies, m)
  }

  function RunIf<St, It, O>(o: Oracles<St, It>, heads: seq<string>, bodies: seq<Body<St, O>>, i: nat,
                            m: Machine<St, O>): Outcome<St, O>
    requires i <= |heads| == |bodies|
    decreases |heads| - i
  {
    if i == |heads| then Done(Normal, m)
    else if FirstWord(heads[i]) == "else" then bodies[i](m)
    else
      match o.test(heads[i], m.user)
      case (Exc(e), user) => Done(Raise(e), m.(user := user))
      case (Ok(true), user) => bodies[i](m.(user := user))
      case (Ok(false), user) => RunIf(o, heads, bodies, i + 1, m.(user := user))
  }

  /** The else clause of a loop that was not broken out of. */
  function LoopElse<St, O>(bodies: seq<Body<St, O>>, m: Machine<St, O>): Outcome<St, O> {
    if |bodies| > 1 then bodies[1](m) else Done(Normal, m)
  }

  function RunWhile<St, It, O>(o: Oracles<St, It>, heads: seq<string>, bodies: seq<Body<St, O>>,
                               m: Machine<St, O>, rounds: nat): Outcome<St, O>
    requires |heads| == |bodies| > 0
    decreases rounds
  {
    if rounds == 0 then Timeout else
    match o.test(heads[0], m.user)
    case (Exc(e), user) => Done(Raise(e), m.(user := user))
    case (Ok(false), user) => LoopElse(bodies, m.(user := user))
    case (Ok(true), user) =>
      match bodies[0](m.(user := user))
      case Timeout => Timeout
      case Done(Break, m') => Done(Normal, m')
      case Done(Normal, m') => RunWhile(o, heads, bodies, m', rounds - 1)
      case Done(Continue, m') => RunWhile(o, heads, bodies, m', rounds - 1)
      case Done(signal, m') => Done(signal, m')
  }

  function RunFor<St, It, O>(o: Oracles<St, It>, heads: seq<string>, bodies: seq<Body<St, O>>, it: It,
                             m: Machine<St, O>, rounds: nat): Outcome<St, O>
    requires |heads| == |bodies| > 0
    decreases rounds
  {
    if rounds == 0 then Timeout else
    match o.next(heads[0], it, m.user)
    case (Failed(e), user) => Done(Raise(e), m.(user := user))
    case (Exhausted, user) => LoopElse(bodies, m.(user := user))
    case (Next(it'), user) =>
      match bodies[0](m.(user := user))
      case Timeout => Timeout
      case Done(Break, m') => Done(Normal, m')
      case Done(Normal, m') => RunFor(o, heads, bodies, it', m', rounds - 1)
      case Done(Continue, m') => RunFor(o, heads, bodies, it', m', rounds - 1)
      case Done(signal, m') => Done(signal, m')
  }

  /** try: the body; on an error the first except clause that takes it, otherwise the else clause; and the
      finally clause in any case, whose own signal, if it has one, prevails. */
  function RunTry<St, It, O>(o: Oracles<St, It>, heads: seq<string>, bodies: seq<Body<St, O>>,
                             m: Machine<St, O>): Outcome<St, O>
    requires |heads| == |bodies| > 0
  {
    match bodies[0](m)
    case Timeout => Timeout
    case Done(Normal, m') => Finally(heads, bodies, RunClause(heads, bodies, "else", 1, m'))
    case Done(Raise(e), m') => Finally(heads, bodies, RunExcept(o, heads, bodies, e, 1, m'))
    case Done(signal, m') => Finally(heads, bodies, Done(signal, m'))
  }

  function RunExcept<St, It, O>(o: Oracles<St, It>, heads: seq<string>, bodies: seq<Body<St, O>>, error: string, i: nat,
                                m: Machine<St, O>): Outcome<St, O>
    requires i <= |heads| == |bodies|
    decreases |heads| - i
  {
    if i == |heads| then Done(Raise(error), m)
    else if FirstWord(heads[i]) == "except" then
      match o.catches(heads[i], error, m.user)
      case (true, user) => bodies[i](m.(user := user))
      case (false, user) => RunExcept(o, heads, bodies, error, i + 1, m.(user := user))
    else RunExcept(o, heads, bodies, error, i + 1, m)
  }

  /** The first clause with the given keyword, if there is one. */
  function RunClause<St, O>(heads: seq<string>, bodies: seq<Body<St, O>>, word: string, i: nat,
                            m: Machine<St, O>): Outcome<St, O>
    requires i <= |heads| == |bodies|
    decreases |heads| - i
  {
    if i == |heads| then Done(Normal, m)
    else if FirstWord(heads[i]) == word then bodies[i](m)
    else RunClause(heads, bodies, word, i + 1, m)
  }

  function Finally<St, O>(heads: seq<string>, bodies: seq<Body<St, O>>, r: Outcome<St, O>): Outcome<St, O>
    requires |heads| == |bodies| > 0
  {
    match r
    case Timeout => Timeout
    case Done(signal, m) =>
      match RunClause(heads, bodies, "finally", 1, m)
      case Done(Normal, m') => Done(signal, m')
      case other => other
  }

  // A control statement cannot tell two ways of keeping the output apart.

  /** The buffer of the Python code holds, joined, the text rendered so far. */
  datatype Local = Local(buffer: Option<seq<string>>, bound: bool, tmp: Option<Value>, functions: map<Name, seq<Stmt>>)

  ghost predicate Same<St>(p: Machine<St, Local>, r: Machine<St, string>) {
    p.user == r.user && p.out.bound && p.out.buffer.Some? && Flatten(p.out.buffer.value) == r.out
  }

  ghost predicate SameOutcome<St>(p: Outcome<St, Local>, r: Outcome<St, string>) {
    (p.Timeout? && r.Timeout?) || (p.Done? && r.Done? && p.signal == r.signal && !p.signal.Return? && Same(p.m, r.m))
  }

  ghost predicate SameBody<St(!new)>(p: Body<St, Local>, r: Body<St, string>) {
    forall mp, mr :: Same(mp, mr) ==> SameOutcome(p(mp), r(mr))
  }

  ghost predicate SameBodies<St(!new)>(ps: seq<Body<St, Local>>, rs: seq<Body<St, string>>) {
    |ps| == |rs| && forall i :: 0 <= i < |ps| ==> SameBody(ps[i], rs[i])
  }

  lemma {:induction false} SameIf<St(!new), It>(o: Oracles<St, It>, heads: seq<string>, ps: seq<Body<St, Local>>,
      rs: seq<Body<St, string>>, i: nat, mp: Machine<St, Local>, mr: Machine<St, string>)
    requires i <= |heads| == |ps| && SameBodies(ps, rs) && Same(mp, mr)
    ensures SameOutcome(RunIf(o, heads, ps, i, mp), RunIf(o, heads, rs, i, mr))
    decreases |heads| - i
  {
    if i < |heads| {
      assert SameBody(ps[i], rs[i]);
      var (r, user) := o.test(heads[i], mp.user);
      if FirstWord(heads[i]) != "else" && r == Ok(false) {
        SameIf(o, heads, ps, rs, i + 1, mp.(user := user), mr.(user := user));
      }
    }
  }

  lemma SameLoopElse<St(!new)>(ps: seq<Body<St, Local>>, rs: seq<Body<St, string>>, mp: Machine<St, Local>,
      mr: Machine<St, string>)
    requires SameBodies(ps, rs) && Same(mp, mr)
    ensures SameOutcome(LoopElse(ps, mp), LoopElse(rs, mr))
  {
    if |ps| > 1 {
      assert SameBody(ps[1], rs[1]);
    }
  }

  lemma {:induction false} SameWhile<St(!new), It>(o: Oracles<St, It>, heads: seq<string>, ps: seq<Body<St, Local>>,
      rs: seq<Body<St, string>>, mp: Machine<St, Local>, mr: Machine<St, string>, rounds: nat)
    requires |heads| == |ps| > 0 && SameBodies(ps, rs) && Same(mp, mr)
    ensures SameOutcome(RunWhile(o, heads, ps, mp, rounds), RunWhile(o, heads, rs, mr, rounds))
    decreases rounds
  {
    if rounds > 0 {
      var (r, user) := o.test(heads[0], mp.user);
      var np, nr := mp.(user := user), mr.(user := user);
      SameLoopElse(ps, rs, np, nr);
      assert SameBody(ps[0], rs[0]);
      var p', r' := ps[0](np), rs[0](nr);
      assert SameOutcome(p', r');
      if p'.Done? && (p'.signal == Normal || p'.signal == Continue) {
        SameWhile(o, heads, ps, rs, p'.m, r'.m, rounds - 1);
      }
    }
  }

  lemma {:induction false} SameFor<St(!new), It>(o: Oracles<St, It>, heads: seq<string>, ps: seq<Body<St, Local>>,
      rs: seq<Body<St, string>>, it: It, mp: Machine<St, Local>, mr: Machine<St, string>, rounds: nat)
    requires |heads| == |ps| > 0 && SameBodies(ps, rs) && Same(mp, mr)
    ensures SameOutcome(RunFor(o, heads, ps, it, mp, rounds), RunFor(o, heads, rs, it, mr, rounds))
    decreases rounds
  {
    if rounds > 0 {
      var (r, user) := o.next(heads[0], it, mp.user);
      var np, nr := mp.(user := user), mr.(user := user);
      SameLoopElse(ps, rs, np, nr);
      assert SameBody(ps[0], rs[0]);
      var p', r' := ps[0](np), rs[0](nr);
      assert SameOutcome(p', r');
      if r.Next? && p'.Done? && (p'.signal == Normal || p'.signal == Continue) {
        SameFor(o, heads, ps, rs, r.rest, p'.m, r'.m, rounds - 1);
      }
    }
  }

  lemma {:induction false} SameClause<St(!new)>(heads: seq<string>, ps: seq<Body<St, Local>>, rs: seq<Body<St, string>>,
      word: string, i: nat, mp: Machine<St, Local>, mr: Machine<St, string>)
    requires i <= |heads| == |ps| && SameBodies(ps, rs) && Same(mp, mr)
    ensures SameOutcome(RunClause(heads, ps, word, i, mp), RunClause(heads, rs, word, i, mr))
    decreases |heads| - i
  {
    if i < |heads| {
      assert SameBody(ps[i], rs[i]);
      SameClause(heads, ps, rs, word, i + 1, mp, mr);
    }
  }

  lemma {:induction false} SameExcept<St(!new), It>(o: Oracles<St, It>, heads: seq<string>, ps: seq<Body<St, Local>>,
      rs: seq<Body<St, string>>, error: string, i: nat, mp: Machine<St, Local>, mr: Machine<St, string>)
    requires i <= |heads| == |ps| && SameBodies(ps, rs) && Same(mp, mr)
    ensures SameOutcome(RunExcept(o, heads, ps, error, i, mp), RunExcept(o, heads, rs, error, i, mr))
    decreases |heads| - i
  {
    if i < |heads| {
      assert SameBody(ps[i], rs[i]);
      var (r, user) := o.catches(heads[i], error, mp.user);
      SameExcept(o, heads, ps, rs, error, i + 1, mp, mr);
      SameExcept(o, heads, ps, rs, error, i + 1, mp.(user := user), mr.(user := user));
    }
  }

  lemma SameFinally<St(!new)>(heads: seq<string>, ps: seq<Body<St, Local>>, rs: seq<Body<St, string>>,
      p: Outcome<St, Local>, r: Outcome<St, string>)
    requires |heads| == |ps| > 0 && SameBodies(ps, rs) && SameOutcome(p, r)
    ensures SameOutcome(Finally(heads, ps, p), Finally(heads, rs, r))
  {
    if p.Done? {
      SameClause(heads, ps, rs, "finally", 1, p.m, r.m);
    }
  }

  lemma SameTry<St(!new), It>(o: Oracles<St, It>, heads: seq<string>, ps: seq<Body<St, Local>>,
                              rs: seq<Body<St, string>>,
      mp: Machine<St, Local>, mr: Machine<St, string>)
    requires |heads| == |ps| > 0 && SameBodies(ps, rs) && Same(mp, mr)
    ensures SameOutcome(RunTry(o, heads, ps, mp), RunTry(o, heads, rs, mr))
  {
    assert SameBody(ps[0], rs[0]);
    var p, r := ps[0](mp), rs[0](mr);
    assert SameOutcome(p, r);
    if p.Done? {
      SameFinally(heads, ps, rs, p, r);
      SameClause(heads, ps, rs, "else", 1, p.m, r.m);
      SameFinally(heads, ps, rs, RunClause(heads, ps, "else", 1, p.m), RunClause(heads, rs, "else", 1, r.m));
      if p.signal.Raise? {
        var e := p.signal.error;
        SameExcept(o, heads, ps, rs, e, 1, p.m, r.m);
        SameFinally(heads, ps, rs, RunExcept(o, heads, ps, e, 1, p.m), RunExcept(o, heads, rs, e, 1, r.m));
      }
    }
  }

  /** Bodies that agree make compound statements that agree, whatever the statement. */
  lemma SameControl<St(!new), It>(o: Oracles<St, It>, heads: seq<string>, ps: seq<Body<St, Local>>,
                                  rs: seq<Body<St, string>>,
      mp: Machine<St, Local>, mr: Machine<St, string>, rounds: nat)
    requires |heads| == |ps| && LegalClauses(heads) && SameBodies(ps, rs) && Same(mp, mr)
    ensures SameOutcome(RunControl(o, heads, ps, mp, rounds), RunControl(o, heads, rs, mr, rounds))
  {
    var (it, user) := o.iter(heads[0], mp.user);
    match FirstWord(heads[0])
    case "if" => SameIf(o, heads, ps, rs, 0, mp, mr);
    case "while" => SameWhile(o, heads, ps, rs, mp, mr, rounds);
    case "for" =>
      if it.Ok? {
        SameFor(o, heads, ps, rs, it.value, mp.(user := user), mr.(user := user), rounds);
      }
    case _ => SameTry(o, heads, ps, rs, mp, mr);
  }
}
