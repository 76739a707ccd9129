/** Python's compound statements said by what happens in them: which clause runs, and how a loop ends. And the orders
    of clauses that Python accepts, said position by position. */
module ControlTraces {
  import opened Bytes
  import opened TemplateAst
  import opened PythonCode
  import opened ControlFlow

  // ----- which clauses may follow each other -----

  /** if: elif clauses, and at most one else, last. */
  lemma IfClauses(statements: seq<string>)
    requires statements != [] && FirstWord(statements[0]) == "if"
    ensures LegalClauses(statements) <==>
            forall i :: 1 <= i < |statements| ==>
              FirstWord(statements[i]) == "elif" || (FirstWord(statements[i]) == "else" && i == |statements| - 1)
  {
    ElifClauses(statements[1..]);
    var rest := statements[1..];
    assert forall i :: 0 <= i < |rest| ==> rest[i] == statements[i + 1];
    assert forall i :: 1 <= i < |statements| ==> statements[i] == rest[i - 1];
  }

  lemma {:induction false} ElifClauses(rest: seq<string>)
    ensures ElifTail(rest) <==>
            forall i :: 0 <= i < |rest| ==>
              FirstWord(rest[i]) == "elif" || (FirstWord(rest[i]) == "else" && i == |rest| - 1)
  {
    if rest != [] {
      var tail := rest[1..];
      ElifClauses(tail);
      assert forall i :: 0 <= i < |tail| ==> tail[i] == rest[i + 1];
      assert forall i :: 1 <= i < |rest| ==> rest[i] == tail[i - 1];
    }
  }

  /** for and while: at most an else. */
  lemma LoopClauses(statements: seq<string>)
    requires statements != [] && OpensLoop(statements[0])
    ensures LegalClauses(statements) <==>
            |statements| == 1 || (|statements| == 2 && FirstWord(statements[1]) == "else")
  {
  }

  /** try: except clauses; after at least one of them, else; then finally; and something at all. */
  lemma TryClauses(statements: seq<string>)
    requires statements != [] && FirstWord(statements[0]) == "try"
    ensures LegalClauses(statements) <==>
            exists n :: 1 <= n <= |statements| && TryShape(statements, n)
  {
    var rest := statements[1..];
    assert forall i :: 0 <= i < |rest| ==> rest[i] == statements[i + 1];
    if TryTail(rest, false) {
      var n := TryLegal(rest, false);
      TryShifts(statements, n);
      assert TryShape(statements, n + 1);
      forall i | 1 <= i < |statements|
        ensures StartsClause(statements[i])
      {
      }
    }
    if exists n :: 1 <= n <= |statements| && TryShape(statements, n) {
      var n :| 1 <= n <= |statements| && TryShape(statements, n);
      TryShifts(statements, n - 1);
      TryShaped(rest, false, n - 1);
    }
  }

  /** The clauses before n are except clauses, apart from the first; those from n on are else and finally. */
  predicate TryShape(statements: seq<string>, n: nat)
    requires 1 <= n <= |statements|
  {
    && (forall i :: 1 <= i < n ==> FirstWord(statements[i]) == "except")
    && TryEnd(statements[n..], n > 1)
  }

  predicate TryEnd(rest: seq<string>, caught: bool) {
    if caught then
      || rest == []
      || (|rest| == 1 && FirstWord(rest[0]) in {"else", "finally"})
      || (|rest| == 2 && FirstWord(rest[0]) == "else" && FirstWord(rest[1]) == "finally")
    else |rest| == 1 && FirstWord(rest[0]) == "finally"
  }

  predicate TailShape(rest: seq<string>, caught: bool, n: nat)
    requires n <= |rest|
  {
    (forall i :: 0 <= i < n ==> FirstWord(rest[i]) == "except") && TryEnd(rest[n..], caught || n > 0)
  }

  lemma TryShifts(statements: seq<string>, n: nat)
    requires n < |statements|
    ensures TryShape(statements, n + 1) <==> TailShape(statements[1..], false, n)
  {
    var rest := statements[1..];
    assert rest[n..] == statements[n + 1..];
    assert forall i :: 0 <= i < |rest| ==> rest[i] == statements[i + 1];
    if TailShape(rest, false, n) {
      forall i | 1 <= i < n + 1
        ensures FirstWord(statements[i]) == "except"
      {
        assert statements[i] == rest[i - 1];
      }
    }
  }

  lemma {:induction false} TryLegal(rest: seq<string>, caught: bool) returns (n: nat)
    requires TryTail(rest, caught)
    ensures n <= |rest| && TailShape(rest, caught, n)
  {
    if rest != [] && FirstWord(rest[0]) == "except" {
      var m := TryLegal(rest[1..], true);
      n := m + 1;
      assert rest[n..] == rest[1..][m..];
      forall i | 0 <= i < n
        ensures FirstWord(rest[i]) == "except"
      {
        assert i > 0 ==> rest[i] == rest[1..][i - 1];
      }
    } else {
      n := 0;
      assert rest[0..] == rest;
    }
  }

  lemma {:induction false} TryShaped(rest: seq<string>, caught: bool, n: nat)
    requires n <= |rest| && TailShape(rest, caught, n)
    ensures TryTail(rest, caught)
    ensures forall i :: 0 <= i < |rest| ==> StartsClause(rest[i])
    decreases |rest|
  {
    hide FirstWord;
    if n == 0 {
      assert rest[0..] == rest;
      EndLegal(rest, caught);
    } else {
      var tail := rest[1..];
      assert FirstWord(rest[0]) == "except" && rest[n..] == tail[n - 1..];
      assert TailShape(tail, true, n - 1) by {
        assert forall i :: 0 <= i < n - 1 ==> tail[i] == rest[i + 1];
      }
      hide TailShape, TryEnd;
      TryShaped(tail, true, n - 1);
      assert forall i :: 1 <= i < |rest| ==> rest[i] == tail[i - 1];
    }
  }

  lemma EndLegal(rest: seq<string>, caught: bool)
    requires TryEnd(rest, caught)
    ensures TryTail(rest, caught)
    ensures forall i :: 0 <= i < |rest| ==> StartsClause(rest[i])
  {
    hide FirstWord;
    if rest != [] {
      assert TryTail([], true);
      assert |rest| == 1 ==> rest[1..] == [];
    }
  }

  // ----- which clause runs -----

  /** The clause of an if that runs, `n`: the conditions before it are tested in order and are false. */
  lemma IfRuns<St, It, O>(o: Oracles<St, It>, heads: seq<string>, bodies: seq<Body<St, O>>, m: Machine<St, O>,
                          rounds: nat, n: nat, users: seq<St>)
    requires |heads| == |bodies| && LegalClauses(heads) && FirstWord(heads[0]) == "if"
    requires n <= |heads| && FalseSoFar(o, heads, m.user, n, users)
    ensures var r := RunControl(o, heads, bodies, m, rounds);
            var now := m.(user := users[n]);
            if n == |heads| then r == Done(Normal, now)
            else if FirstWord(heads[n]) == "else" then r == bodies[n](now)
            else match o.test(heads[n], users[n])
                 case (Exc(e), user) => r == Done(Raise(e), m.(user := user))
                 case (Ok(true), user) => r == bodies[n](m.(user := user))
                 case (Ok(false), _) => true
  {
    IfRunsFrom(o, heads, bodies, m, n, 0, users);
  }

  ghost predicate FalseSoFar<St, It>(o: Oracles<St, It>, heads: seq<string>, user: St, n: nat, users: seq<St>)
    requires n <= |heads|
  {
    && |users| == n + 1 && users[0] == user
    && forall i :: 0 <= i < n ==>
         FirstWord(heads[i]) != "else" && o.test(heads[i], users[i]) == (Ok(false), users[i + 1])
  }

  lemma {:induction false} IfRunsFrom<St, It, O>(o: Oracles<St, It>, heads: seq<string>, bodies: seq<Body<St, O>>,
                                                 m: Machine<St, O>, n: nat, i: nat, users: seq<St>)
    requires i <= n <= |heads| == |bodies| && FalseSoFar(o, heads, m.user, n, users)
    ensures RunIf(o, heads, bodies, i, m.(user := users[i])) == RunIf(o, heads, bodies, n, m.(user := users[n]))
    decreases n - i
  {
    if i < n {
      IfRunsFrom(o, heads, bodies, m, n, i + 1, users);
    }
  }

  // ----- how loops end -----

  /** n rounds of a for loop: an element each, and the body ends normally or by continue. */
  ghost predicate ForRounds<St(!new), It(!new), O(!new)>(o: Oracles<St, It>, head: string, body: Body<St, O>, n: nat,
                                                         its: seq<It>, ms: seq<Machine<St, O>>) {
    && |its| == |ms| == n + 1
    && forall i :: 0 <= i < n ==>
         var (item, user) := o.next(head, its[i], ms[i].user);
         item == Next(its[i + 1]) && Goes(body(ms[i].(user := user)), ms[i + 1])
  }

  predicate Goes<St(==), O(==)>(r: Outcome<St, O>, m: Machine<St, O>) {
    r == Done(Normal, m) || r == Done(Continue, m)
  }

  /** After them the loop ends: without an element by its else clause, by break without it, by an error or a
      return with that. */
  lemma ForRuns<St(!new), It(!new), O(!new)>(o: Oracles<St, It>, heads: seq<string>, bodies: seq<Body<St, O>>,
                                             m: Machine<St, O>, rounds: nat, n: nat, its: seq<It>,
                                             ms: seq<Machine<St, O>>)
    requires |heads| == |bodies| && LegalClauses(heads) && FirstWord(heads[0]) == "for" && n < rounds
    requires ForRounds(o, heads[0], bodies[0], n, its, ms)
    requires o.iter(heads[0], m.user) == (Ok(its[0]), ms[0].user) && ms[0] == m.(user := ms[0].user)
    ensures var r := RunControl(o, heads, bodies, m, rounds);
            match o.next(heads[0], its[n], ms[n].user)
            case (Failed(e), user) => r == Done(Raise(e), ms[n].(user := user))
            case (Exhausted, user) => LoopsOut(heads, bodies, ms[n].(user := user), r)
            case (Next(_), user) => BreaksOut(bodies[0](ms[n].(user := user)), r)
  {
    ForRunsFrom(o, heads, bodies, rounds, n, 0, its, ms);
  }

  ghost predicate LoopsOut<St(!new), O(!new)>(heads: seq<string>, bodies: seq<Body<St, O>>, m: Machine<St, O>,
                                              r: Outcome<St, O>)
    requires |heads| == |bodies|
  {
    if |heads| == 2 then r == bodies[1](m) else r == Done(Normal, m)
  }

  ghost predicate BreaksOut<St(!new), O(!new)>(last: Outcome<St, O>, r: Outcome<St, O>) {
    match last
    case Timeout => r == Timeout
    case Done(Break, m) => r == Done(Normal, m)
    case Done(Raise(_), _) => r == last
    case Done(Return(_), _) => r == last
    case _ => true
  }

  lemma {:induction false} ForRunsFrom<St(!new), It(!new), O(!new)>(o: Oracles<St, It>, heads: seq<string>,
                                                                    bodies: seq<Body<St, O>>, rounds: nat, n: nat,
                                                                    i: nat, its: seq<It>, ms: seq<Machine<St, O>>)
    requires |heads| == |bodies| > 0 && i <= n <= rounds && ForRounds(o, heads[0], bodies[0], n, its, ms)
    ensures RunFor(o, heads, bodies, its[i], ms[i], rounds - i) == RunFor(o, heads, bodies, its[n], ms[n], rounds - n)
    decreases n - i
  {
    if i < n {
      ForRunsFrom(o, heads, bodies, rounds, n, i + 1, its, ms);
    }
  }

  /** n rounds of a while loop. */
  ghost predicate WhileRounds<St(!new), It(!new), O(!new)>(o: Oracles<St, It>, head: string, body: Body<St, O>,
                                                           n: nat, ms: seq<Machine<St, O>>) {
    && |ms| == n + 1
    && forall i :: 0 <= i < n ==>
         var (more, user) := o.test(head, ms[i].user);
         more == Ok(true) && Goes(body(ms[i].(user := user)), ms[i + 1])
  }

  lemma WhileRuns<St(!new), It(!new), O(!new)>(o: Oracles<St, It>, heads: seq<string>, bodies: seq<Body<St, O>>,
                                               rounds: nat, n: nat, ms: seq<Machine<St, O>>)
    requires |heads| == |bodies| && LegalClauses(heads) && FirstWord(heads[0]) == "while" && n < rounds
    requires WhileRounds(o, heads[0], bodies[0], n, ms)
    ensures var r := RunControl(o, heads, bodies, ms[0], rounds);
            match o.test(heads[0], ms[n].user)
            case (Exc(e), user) => r == Done(Raise(e), ms[n].(user := user))
            case (Ok(false), user) => LoopsOut(heads, bodies, ms[n].(user := user), r)
            case (Ok(true), user) => BreaksOut(bodies[0](ms[n].(user := user)), r)
  {
    WhileRunsFrom(o, heads, bodies, rounds, n, 0, ms);
  }

  lemma {:induction false} WhileRunsFrom<St(!new), It(!new), O(!new)>(o: Oracles<St, It>, heads: seq<string>,
                                                                      bodies: seq<Body<St, O>>, rounds: nat, n: nat,
                                                                      i: nat, ms: seq<Machine<St, O>>)
    requires |heads| == |bodies| > 0 && i <= n <= rounds && WhileRounds(o, heads[0], bodies[0], n, ms)
    ensures RunWhile(o, heads, bodies, ms[i], rounds - i) == RunWhile(o, heads, bodies, ms[n], rounds - n)
    decreases n - i
  {
    if i < n {
      WhileRunsFrom(o, heads, bodies, rounds, n, i + 1, ms);
    }
  }

  // ----- try -----

  /** A try with a last clause finally: first the same without it, then that clause in any case. Its own signal
      prevails if it has one. */
  lemma FinallyRuns<St, It, O>(o: Oracles<St, It>, heads: seq<string>, bodies: seq<Body<St, O>>, m: Machine<St, O>,
                               rounds: nat)
    requires |heads| == |bodies| > 1 && LegalClauses(heads) && FirstWord(heads[0]) == "try"
    requires FirstWord(heads[|heads| - 1]) == "finally"
    ensures var last := |heads| - 1;
            (last > 1 ==> LegalClauses(heads[..last])) &&
            var before := if last == 1 then bodies[0](m) else RunControl(o, heads[..last], bodies[..last], m, rounds);
            RunControl(o, heads, bodies, m, rounds) ==
              match before
              case Timeout => Timeout
              case Done(signal, m') =>
                match bodies[last](m')
                case Timeout => Timeout
                case Done(Normal, m'') => Done(signal, m'')
                case Done(own, m'') => Done(own, m'')
  {
    hide LegalClauses, RunClause, RunExcept, Finally, FirstWord;
    var last := |heads| - 1;
    FinallyWords(heads);
    var hs, bs := heads[..last], bodies[..last];
    TryIs(o, heads, bodies, m, rounds);
    if last > 1 {
      TryIs(o, hs, bs, m, rounds);
    }
    var inner := bodies[0](m);
    if inner.Done? {
      FinallyIs(heads, bodies, Done(inner.signal, inner.m));
      ClauseAlike(heads, bodies, "else", 1, inner.m);
      FinallyIs(heads, bodies, RunClause(hs, bs, "else", 1, inner.m));
      FinallyIsNot(hs, bs, Done(inner.signal, inner.m));
      FinallyIsNot(hs, bs, RunClause(hs, bs, "else", 1, inner.m));
      if inner.signal.Raise? {
        var caught := RunExcept(o, hs, bs, inner.signal.error, 1, inner.m);
        ExceptAlike(o, heads, bodies, inner.signal.error, 1, inner.m);
        FinallyIs(heads, bodies, caught);
        FinallyIsNot(hs, bs, caught);
        NothingElse(o, hs, bs, inner.signal.error, inner.m);
      }
      NothingElse(o, hs, bs, "", inner.m);
    }
  }

  /** Past the last clause. */
  lemma NothingElse<St, It, O>(o: Oracles<St, It>, heads: seq<string>, bodies: seq<Body<St, O>>, error: string,
                               m: Machine<St, O>)
    requires |heads| == |bodies|
    ensures |heads| == 1 ==> RunClause(heads, bodies, "else", 1, m) == Done(Normal, m)
    ensures |heads| == 1 ==> RunExcept(o, heads, bodies, error, 1, m) == Done(Raise(error), m)
  {
  }

  lemma TryIs<St, It, O>(o: Oracles<St, It>, heads: seq<string>, bodies: seq<Body<St, O>>, m: Machine<St, O>,
                         rounds: nat)
    requires |heads| == |bodies| && LegalClauses(heads) && FirstWord(heads[0]) == "try"
    ensures RunControl(o, heads, bodies, m, rounds) == RunTry(o, heads, bodies, m)
  {
  }

  lemma FinallyWords(heads: seq<string>)
    requires LegalClauses(heads) && FirstWord(heads[0]) == "try" && FirstWord(heads[|heads| - 1]) == "finally"
    ensures OneFinally(heads)
    ensures var last := |heads| - 1; last > 1 ==> LegalClauses(heads[..last])
  {
    var last := |heads| - 1;
    TryClauses(heads);
    var n :| 1 <= n <= |heads| && TryShape(heads, n);
    assert n <= last && heads[n..][|heads[n..]| - 1] == heads[last];
    assert forall i :: n <= i < |heads| ==> heads[n..][i - n] == heads[i];
    if last > 1 {
      var hs := heads[..last];
      assert forall i :: 0 <= i < last ==> hs[i] == heads[i];
      assert hs[n..] == heads[n..][..last - n];
      TryClauses(hs);
      assert TryShape(hs, n);
    }
  }

  ghost predicate OneFinally(heads: seq<string>) {
    |heads| > 1 && forall i :: 0 <= i < |heads| ==> (FirstWord(heads[i]) == "finally" <==> i == |heads| - 1)
  }

  lemma FinallyIs<St, O>(heads: seq<string>, bodies: seq<Body<St, O>>, r: Outcome<St, O>)
    requires |heads| == |bodies| && OneFinally(heads)
    ensures Finally(heads, bodies, r) ==
              match r
              case Timeout => Timeout
              case Done(signal, m) =>
                match bodies[|heads| - 1](m)
                case Done(Normal, m') => Done(signal, m')
                case other => other
  {
    if r.Done? {
      SoleClause(heads, bodies, "finally", 1, |heads| - 1, r.m);
    }
  }

  lemma FinallyIsNot<St, O>(heads: seq<string>, bodies: seq<Body<St, O>>, r: Outcome<St, O>)
    requires |heads| == |bodies| > 0 && forall i :: 0 <= i < |heads| ==> FirstWord(heads[i]) != "finally"
    ensures Finally(heads, bodies, r) == r
  {
    if r.Done? {
      NoClause(heads, bodies, "finally", 1, r.m);
    }
  }

  lemma {:induction false} ClauseAlike<St, O>(heads: seq<string>, bodies: seq<Body<St, O>>, word: string, i: nat,
                                              m: Machine<St, O>)
    requires |heads| == |bodies| > i && FirstWord(heads[|heads| - 1]) != word
    ensures var last := |heads| - 1;
            RunClause(heads, bodies, word, i, m) == RunClause(heads[..last], bodies[..last], word, i, m)
    decreases |heads| - i
  {
    if i < |heads| - 1 {
      ClauseAlike(heads, bodies, word, i + 1, m);
    }
  }

  lemma {:induction false} ExceptAlike<St, It, O>(o: Oracles<St, It>, heads: seq<string>, bodies: seq<Body<St, O>>,
                                                  error: string, i: nat, m: Machine<St, O>)
    requires |heads| == |bodies| > i && FirstWord(heads[|heads| - 1]) != "except"
    ensures var last := |heads| - 1;
            RunExcept(o, heads, bodies, error, i, m) == RunExcept(o, heads[..last], bodies[..last], error, i, m)
    decreases |heads| - i
  {
    if i < |heads| - 1 {
      ExceptAlike(o, heads, bodies, error, i + 1, m);
      ExceptAlike(o, heads, bodies, error, i + 1, m.(user := o.catches(heads[i], error, m.user).1));
    }
  }

  lemma {:induction false} SoleClause<St, O>(heads: seq<string>, bodies: seq<Body<St, O>>, word: string, i: nat,
                                             at: nat, m: Machine<St, O>)
    requires i <= at < |heads| == |bodies| && FirstWord(heads[at]) == word
    requires forall j :: i <= j < at ==> FirstWord(heads[j]) != word
    ensures RunClause(heads, bodies, word, i, m) == bodies[at](m)
    decreases at - i
  {
    if i < at {
      SoleClause(heads, bodies, word, i + 1, at, m);
    }
  }

  lemma {:induction false} NoClause<St, O>(heads: seq<string>, bodies: seq<Body<St, O>>, word: string, i: nat,
                                           m: Machine<St, O>)
    requires i <= |heads| == |bodies|
    requires forall j :: i <= j < |heads| ==> FirstWord(heads[j]) != word
    ensures RunClause(heads, bodies, word, i, m) == Done(Normal, m)
    decreases |heads| - i
  {
    if i < |heads| {
      NoClause(heads, bodies, word, i + 1, m);
    }
  }

  /** A try without a clause finally whose body ends normally: its else clause, if it has one. */
  lemma TryElse<St, It, O>(o: Oracles<St, It>, heads: seq<string>, bodies: seq<Body<St, O>>, m: Machine<St, O>,
                           rounds: nat)
    requires |heads| == |bodies| && LegalClauses(heads) && FirstWord(heads[0]) == "try"
    requires FirstWord(heads[|heads| - 1]) != "finally" && bodies[0](m).Done?
    ensures var last := |heads| - 1;
            match bodies[0](m)
            case Done(Normal, m') =>
              RunControl(o, heads, bodies, m, rounds) ==
                if FirstWord(heads[last]) == "else" then bodies[last](m') else Done(Normal, m')
            case Done(Raise(_), _) => true
            case other => RunControl(o, heads, bodies, m, rounds) == other
  {
    var last, inner := |heads| - 1, bodies[0](m);
    TryWords(heads);
    if FirstWord(heads[last]) == "else" {
      SoleClause(heads, bodies, "else", 1, last, inner.m);
    } else {
      NoClause(heads, bodies, "else", 1, inner.m);
    }
    FinallyIsNot(heads, bodies, RunClause(heads, bodies, "else", 1, inner.m));
    FinallyIsNot(heads, bodies, inner);
  }

  /** Without finally, all clauses but the first and the last are except clauses. */
  lemma TryWords(heads: seq<string>)
    requires LegalClauses(heads) && FirstWord(heads[0]) == "try" && FirstWord(heads[|heads| - 1]) != "finally"
    ensures forall i :: 0 <= i < |heads| ==> FirstWord(heads[i]) != "finally"
    ensures forall i :: 1 <= i < |heads| - 1 ==> FirstWord(heads[i]) == "except"
    ensures FirstWord(heads[|heads| - 1]) == "except" || FirstWord(heads[|heads| - 1]) == "else"
  {
    TryClauses(heads);
    var n :| 1 <= n <= |heads| && TryShape(heads, n);
    assert forall i :: n <= i < |heads| ==> heads[n..][i - n] == heads[i];
  }

  /** If its body raises: the first except clause that takes the error runs, and otherwise the error goes on. */
  lemma TryExcept<St, It, O>(o: Oracles<St, It>, heads: seq<string>, bodies: seq<Body<St, O>>, m: Machine<St, O>,
                             rounds: nat, error: string, raised: Machine<St, O>, n: nat, users: seq<St>)
    requires |heads| == |bodies| && LegalClauses(heads) && FirstWord(heads[0]) == "try"
    requires FirstWord(heads[|heads| - 1]) != "finally" && bodies[0](m) == Done(Raise(error), raised)
    requires 1 <= n <= |heads| && |users| == n && users[0] == raised.user
    requires forall i :: 1 <= i < n ==>
               FirstWord(heads[i]) == "except" && o.catches(heads[i], error, users[i - 1]) == (false, users[i])
    ensures var r := RunControl(o, heads, bodies, m, rounds);
            if n == |heads| || FirstWord(heads[n]) == "else"
            then r == Done(Raise(error), raised.(user := users[n - 1]))
            else var (taken, user) := o.catches(heads[n], error, users[n - 1]);
                 taken ==> r == bodies[n](raised.(user := user))
  {
    TryWords(heads);
    ExceptsFrom(o, heads, bodies, error, raised, n, 1, users);
    FinallyIsNot(heads, bodies, RunExcept(o, heads, bodies, error, 1, raised));
  }

  lemma {:induction false} ExceptsFrom<St, It, O>(o: Oracles<St, It>, heads: seq<string>, bodies: seq<Body<St, O>>,
                                                  error: string, raised: Machine<St, O>, n: nat, i: nat,
                                                  users: seq<St>)
    requires 1 <= i <= n <= |heads| == |bodies| && |users| == n
    requires forall j :: 1 <= j < n ==>
               FirstWord(heads[j]) == "except" && o.catches(heads[j], error, users[j - 1]) == (false, users[j])
    ensures RunExcept(o, heads, bodies, error, i, raised.(user := users[i - 1])) ==
            RunExcept(o, heads, bodies, error, n, raised.(user := users[n - 1]))
    decreases n - i
  {
    if i < n {
      ExceptsFrom(o, heads, bodies, error, raised, n, i + 1, users);
    }
  }
}
