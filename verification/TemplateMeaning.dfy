/** Running the generated Python renders the template: the compiler keeps the meaning of every construct. */
module TemplateMeaning {
  import opened Bytes
  import opened TemplateAst
  import opened PythonCode
  import opened ControlFlow
  import opened TemplateCompiler
  import opened TemplateInheritance
  import opened TemplateLoops

  /** A value as text: strings as they are, anything else by `str`, which may raise. */
  function Shown<St, It>(o: Oracles<St, It>, v: Value, user: St): (Result<string>, St) {
    match v
    case Str(text) => (Ok(text), user)
    case Object(id) => o.show(id, user)
  }

  /** `f(text)`: the function is looked up first. */
  function CallFilter<St, It>(o: Oracles<St, It>, filter: string, text: string, user: St): (Result<string>, St) {
    match o.lookup(filter, user)
    case (Exc(e), user') => (Exc(e), user')
    case (Ok(f), user') => o.call(f, text, user')
  }

  // Running Python.

  function ExecSuite<St(!new), It>(o: Oracles<St, It>, suite: seq<Stmt>, m: Machine<St, Local>, rounds: nat,
                                   calls: nat): Outcome<St, Local>
    decreases calls, suite
  {
    if suite == [] then Done(Normal, m) else
    match ExecStmt(o, suite[0], m, rounds, calls)
    case Done(Normal, m') => ExecSuite(o, suite[1..], m', rounds, calls)
    case other => other
  }

  function ExecStmt<St(!new), It>(o: Oracles<St, It>, s: Stmt, m: Machine<St, Local>, rounds: nat,
                                  calls: nat): Outcome<St, Local>
    decreases calls, s
  {
    match s
    case Simple(AppendCall(filter, name)) =>
      // The filter is looked up before the inner call, and then applied to its result.
      (match o.lookup(filter, m.user)
       case (Exc(e), user) => Done(Raise(e), m.(user := user))
       case (Ok(f), user) =>
         if name !in m.out.functions then Done(Raise("NameError"), m.(user := user))
         else if calls == 0 then Timeout
         else
           var frame := Machine(o.enter(user), Local(None, false, None, m.out.functions));
           match ExecSuite(o, m.out.functions[name], frame, rounds, calls - 1)
           case Timeout => Timeout
           case Done(Return(text), inner) => AppendFiltered(o, f, text, m.(user := o.leave(user, inner.user)))
           case Done(Normal, inner) => Done(Raise("TypeError"), m.(user := o.leave(user, inner.user)))
           case Done(signal, inner) => Done(signal, m.(user := o.leave(user, inner.user))))
    case Simple(code) => ExecSimple(o, code, m)
    case Coerce =>
      if m.out.tmp.None? then Done(Raise("NameError"), m)
      else
        (match Shown(o, m.out.tmp.value, m.user)
         case (Exc(e), user) => Done(Raise(e), m.(user := user))
         case (Ok(text), user) => Done(Normal, Machine(user, m.out.(tmp := Some(Str(text))))))
    case Function(name, body) => Done(Normal, m.(out := m.out.(functions := m.out.functions[name := body])))
    case Compound(clauses) =>
      if !LegalClauses(Heads(clauses)) then Done(Raise("SyntaxError"), m) else
      RunControl(o, Heads(clauses), ExecBodies(o, s, rounds, calls), m, rounds)
  }

  function ExecBodies<St(!new), It>(o: Oracles<St, It>, s: Stmt, rounds: nat,
                                    calls: nat): (bodies: seq<Body<St, Local>>)
    requires s.Compound?
    ensures |bodies| == |s.clauses|
    ensures forall i, m :: 0 <= i < |bodies| ==> bodies[i](m) == ExecSuite(o, s.clauses[i].body, m, rounds, calls)
    decreases calls, s, 0
  {
    seq(|s.clauses|, i requires 0 <= i < |s.clauses| =>
      (m: Machine<St, Local>) => ExecSuite(o, s.clauses[i].body, m, rounds, calls))
  }

  /** Appending needs the local name `_tt_append`. */
  function AppendTo<St>(text: string, m: Machine<St, Local>): Outcome<St, Local> {
    if !m.out.bound || m.out.buffer.None? then Done(Raise("NameError"), m)
    else Done(Normal, m.(out := m.out.(buffer := Some(m.out.buffer.value + [text]))))
  }

  function AppendFiltered<St, It>(o: Oracles<St, It>, f: nat, text: string,
                                  m: Machine<St, Local>): Outcome<St, Local> {
    match o.call(f, text, m.user)
    case (Exc(e), user) => Done(Raise(e), m.(user := user))
    case (Ok(result), user) => AppendTo(result, m.(user := user))
  }

  function ExecSimple<St, It>(o: Oracles<St, It>, code: Code, m: Machine<St, Local>): Outcome<St, Local> {
    match code
    case Pass => Done(Normal, m)
    case AppendText(text) => AppendTo(text, m)
    case Assign(expression) =>
      (match o.eval(expression, m.user)
       case (Exc(e), user) => Done(Raise(e), m.(user := user))
       case (Ok(v), user) => Done(Normal, Machine(user, m.out.(tmp := Some(v)))))
    case Escape(f) =>
      if m.out.tmp.None? then Done(Raise("NameError"), m)
      else if !m.out.tmp.value.Str? then Done(Raise("TypeError"), m)
      else
      (match CallFilter(o, f, m.out.tmp.value.text, m.user)
       case (Exc(e), user) => Done(Raise(e), m.(user := user))
       case (Ok(text), user) => Done(Normal, Machine(user, m.out.(tmp := Some(Str(text))))))
    case AppendTmp =>
      if m.out.tmp.None? then Done(Raise("NameError"), m)
      else if !m.out.tmp.value.Str? then Done(Raise("TypeError"), m)
      else AppendTo(m.out.tmp.value.text, m)
    case Exec(statement) => RunStatement(o, statement, m)
    case NewBuffer => Done(Normal, m.(out := m.out.(buffer := Some([]))))
    case BindAppend =>
      if m.out.buffer.None? then Done(Raise("NameError"), m) else Done(Normal, m.(out := m.out.(bound := true)))
    case ReturnJoin =>
      if m.out.buffer.None? then Done(Raise("NameError"), m) else Done(Return(Flatten(m.out.buffer.value)), m)
    case _ => Done(Raise("SyntaxError"), m)
  }

  /** A simple statement of the template's own. */
  function RunStatement<St, It, O>(o: Oracles<St, It>, statement: string, m: Machine<St, O>): Outcome<St, O> {
    // The only jumps, see `IsJump`.
    if statement == "break" then Done(Break, m)
    else if statement == "continue" then Done(Continue, m)
    else
      match o.exec(statement, m.user)
      case (Exc(e), user) => Done(Raise(e), m.(user := user))
      case (Ok(_), user) => Done(Normal, m.(user := user))
  }

  /** What rendering comes to. */
  datatype Rendered<+St> = Output(text: string, user: St) | Error(signal: Signal, user: St) | NoResult

  /** `generate`: compile the lines by their indentation, which fails on a jump outside of any loop; run the
      module; call `_tt_execute()`. */
  function RunLines<St(!new), It>(o: Oracles<St, It>, lines: seq<Line>, user: St, rounds: nat,
                                  calls: nat): Rendered<St> {
    match ParseSuite(lines, 0)
    case None => Error(Raise("SyntaxError"), user)
    case Some((suite, rest)) =>
      if rest != [] || !LoopsLegal(suite, false) then Error(Raise("SyntaxError"), user) else
      match ExecSuite(o, suite, Machine(user, Local(None, false, None, map[])), rounds, calls)
      case Timeout => NoResult
      case Done(Normal, m) =>
        if Execute !in m.out.functions then Error(Raise("NameError"), m.user) else
        (match ExecSuite(o, m.out.functions[Execute], Machine(m.user, Local(None, false, None, m.out.functions)),
                         rounds, calls)
         case Timeout => NoResult
         case Done(Return(text), m') => Output(text, m'.user)
         case Done(signal, m') => Error(signal, m'.user))
      case Done(signal, m) => Error(signal, m.user)
  }

  // Rendering the tree directly.

  function Render<St(!new), It>(o: Oracles<St, It>, env: Env, nodes: seq<Node>, template: string,
                                m: Machine<St, string>,
                          rounds: nat, calls: nat, depth: nat): Outcome<St, string>
    decreases depth, Size(nodes), 3
  {
    if nodes == [] then Done(Normal, m) else
    match RenderNode(o, env, nodes[0], template, m, rounds, calls, depth)
    case Done(Normal, m') => Render(o, env, nodes[1..], template, m', rounds, calls, depth)
    case other => other
  }

  function RenderNode<St(!new), It>(o: Oracles<St, It>, env: Env, n: Node, template: string, m: Machine<St, string>,
                              rounds: nat, calls: nat, depth: nat): Outcome<St, string>
    decreases depth, NodeSize(n), 2
  {
    match n
    case Text(value) => Done(Normal, m.(out := m.out + value))
    case Expression(expression, raw) =>
      (match o.eval(expression, m.user)
       case (Exc(e), user) => Done(Raise(e), m.(user := user))
       case (Ok(v), user) =>
         match Shown(o, v, user)
         case (Exc(e), user) => Done(Raise(e), m.(user := user))
         case (Ok(text), user) =>
           var escape := Autoescape(env, template);
           if raw || escape.None? then Done(Normal, Machine(user, m.out + text))
           else AddOutput(CallFilter(o, escape.value, text, user), m))
    case Statement(statement) => RunStatement(o, statement, m)
    case Control(statement, body) =>
      var parts := Split(statement, body);
      if !LegalClauses(Statements(parts)) then Done(Raise("SyntaxError"), m) else
      RunControl(o, Statements(parts), RenderBodies(o, env, parts, template, rounds, calls, depth, Size(body)), m,
                 rounds)
    case Apply(filter, body) =>
      (match o.lookup(filter, m.user)
       case (Exc(e), user) => Done(Raise(e), m.(user := user))
       case (Ok(f), user) =>
         if calls == 0 then Timeout else
         match Render(o, env, body, template, Machine(o.enter(user), ""), rounds, calls - 1, depth)
         case Timeout => Timeout
         case Done(Normal, inner) => AddOutput(o.call(f, inner.out, o.leave(user, inner.user)), m)
         case Done(signal, inner) => Done(signal, m.(user := o.leave(user, inner.user))))
    case NamedBlock(name, _) =>
      if depth == 0 || name !in env.blocks then Timeout
      else Render(o, env, env.blocks[name].body, env.blocks[name].template, m, rounds, calls, depth - 1)
    case Include(name) =>
      if depth == 0 || name !in env.world then Timeout
      else Render(o, env, env.world[name].body, name, m, rounds, calls, depth - 1)
    case _ => Done(Raise("SyntaxError"), m)
  }

  function RenderBodies<St(!new), It>(o: Oracles<St, It>, env: Env, parts: seq<Part>, template: string, rounds: nat,
                                      calls: nat,
                                depth: nat, ghost size: nat): (bodies: seq<Body<St, string>>)
    requires forall i :: 0 <= i < |parts| ==> Size(parts[i].nodes) <= size
    ensures |bodies| == |parts|
    ensures forall i, m :: 0 <= i < |bodies| ==>
              bodies[i](m) == Render(o, env, parts[i].nodes, template, m, rounds, calls, depth)
    decreases depth, size, 4
  {
    seq(|parts|, i requires 0 <= i < |parts| =>
      (m: Machine<St, string>) => Render(o, env, parts[i].nodes, template, m, rounds, calls, depth))
  }

  function AddOutput<St>(filtered: (Result<string>, St), m: Machine<St, string>): Outcome<St, string> {
    match filtered
    case (Exc(e), user) => Done(Raise(e), m.(user := user))
    case (Ok(result), user) => Done(Normal, Machine(user, m.out + result))
  }

  /** A template's output: its frame, with every named block replaced by its nearest definition. */
  function RenderTemplate<St(!new), It>(o: Oracles<St, It>, env: Env, root: string, user: St, rounds: nat, calls: nat,
                                        depth: nat): Rendered<St> {
    if root !in env.world then NoResult else
    match Render(o, env, env.world[root].body, root, Machine(user, ""), rounds, calls, depth)
    case Timeout => NoResult
    case Done(Normal, m) => Output(m.out, m.user)
    case Done(signal, m) => Error(signal, m.user)
  }

  // They agree.

  lemma {:induction false} ExecConcat<St(!new), It>(o: Oracles<St, It>, a: seq<Stmt>, b: seq<Stmt>,
                                                    m: Machine<St, Local>,
                                                    rounds: nat, calls: nat)
    ensures ExecSuite(o, a + b, m, rounds, calls) ==
            match ExecSuite(o, a, m, rounds, calls)
            case Done(Normal, m') => ExecSuite(o, b, m', rounds, calls)
            case other => other
    decreases a
  {
    hide ExecStmt;
    if a == [] {
      assert a + b == b;
    } else {
      assert (a + b)[1..] == a[1..] + b;
      var first := ExecStmt(o, a[0], m, rounds, calls);
      if first.Done? {
        ExecConcat(o, a[1..], b, first.m, rounds, calls);
      }
    }
  }

  lemma ExecOne<St(!new), It>(o: Oracles<St, It>, s: Stmt, m: Machine<St, Local>, rounds: nat, calls: nat)
    ensures ExecSuite(o, [s], m, rounds, calls) == ExecStmt(o, s, m, rounds, calls)
  {
    hide ExecStmt;
    assert [s][1..] == [];
    var r := ExecStmt(o, s, m, rounds, calls);
    if r.Done? && r.signal.Normal? {
      assert ExecSuite(o, [], r.m, rounds, calls) == Done(Normal, r.m);
    }
  }

  /** A trailing pass does nothing. */
  lemma ExecPass<St(!new), It>(o: Oracles<St, It>, a: seq<Stmt>, m: Machine<St, Local>, rounds: nat, calls: nat)
    ensures ExecSuite(o, a + [Simple(Pass)], m, rounds, calls) == ExecSuite(o, a, m, rounds, calls)
  {
    ExecConcat(o, a, [Simple(Pass)], m, rounds, calls);
    var r := ExecSuite(o, a, m, rounds, calls);
    if r.Done? {
      ExecOne(o, Simple(Pass), r.m, rounds, calls);
    }
  }

  lemma AppendSame<St>(text: string, mp: Machine<St, Local>, mr: Machine<St, string>)
    requires Same(mp, mr)
    ensures SameOutcome(AppendTo(text, mp), Done(Normal, mr.(out := mr.out + text)))
  {
    FlattenSnoc(mp.out.buffer.value, text);
  }

  lemma ExpressionSame<St(!new), It>(o: Oracles<St, It>, env: Env, expression: string, raw: bool, template: string,
                                     k: nat,
      mp: Machine<St, Local>, mr: Machine<St, string>, rounds: nat, calls: nat, depth: nat)
    requires Same(mp, mr)
    ensures SameOutcome(ExecSuite(o, TransNode(env, Expression(expression, raw), template, k, depth).value.0, mp,
                                  rounds, calls),
                        RenderNode(o, env, Expression(expression, raw), template, mr, rounds, calls, depth))
  {
    hide ExecSuite;
    var escape := Autoescape(env, template);
    var extra := if raw || escape.None? then [] else [Simple(Code.Escape(escape.value))];
    var assign, tmp := Simple(Assign(expression)), Simple(AppendTmp);
    var (v, user) := o.eval(expression, mp.user);
    assert [assign, Coerce] == [assign] + [Coerce];
    ExecConcat(o, [assign, Coerce] + extra, [tmp], mp, rounds, calls);
    ExecConcat(o, [assign, Coerce], extra, mp, rounds, calls);
    ExecConcat(o, [assign], [Coerce], mp, rounds, calls);
    ExecOne(o, assign, mp, rounds, calls);
    if v.Ok? {
      var m1 := Machine(user, mp.out.(tmp := Some(v.value)));
      ExecOne(o, Coerce, m1, rounds, calls);
      var (shown, user1) := Shown(o, v.value, user);
      if shown.Ok? {
        var m2 := Machine(user1, m1.out.(tmp := Some(Str(shown.value))));
        if extra == [] {
          EmptySuite(o, m2, rounds, calls);
          ExecOne(o, tmp, m2, rounds, calls);
          AppendSame(shown.value, m2, mr.(user := user1));
        } else {
          ExecOne(o, extra[0], m2, rounds, calls);
          var (text, user2) := CallFilter(o, escape.value, shown.value, user1);
          if text.Ok? {
            var m3 := Machine(user2, m2.out.(tmp := Some(Str(text.value))));
            ExecOne(o, tmp, m3, rounds, calls);
            AppendSame(text.value, m3, mr.(user := user2));
          }
        }
      }
    }
  }

  lemma EmptySuite<St(!new), It>(o: Oracles<St, It>, m: Machine<St, Local>, rounds: nat, calls: nat)
    ensures ExecSuite(o, [], m, rounds, calls) == Done(Normal, m)
  {
  }

  /** A generated function: a fresh buffer, the body, and the joined buffer as its result. */
  lemma ExecFunctionBody<St(!new), It>(o: Oracles<St, It>, inner: seq<Stmt>, user: St, functions: map<Name, seq<Stmt>>,
                                       mr: Machine<St, string>, r: Outcome<St, string>, rounds: nat, calls: nat)
    requires mr == Machine(user, "")
    requires SameOutcome(ExecSuite(o, inner, Machine(user, Local(Some([]), true, None, functions)), rounds, calls), r)
    ensures var p := ExecSuite(o, [Simple(NewBuffer), Simple(BindAppend)] + inner + [Simple(ReturnJoin)],
                               Machine(user, Local(None, false, None, functions)), rounds, calls);
            match r
            case Timeout => p.Timeout?
            case Done(Normal, m) => p.Done? && p.signal == Return(m.out) && p.m.user == m.user
            case Done(signal, m) => p.Done? && p.signal == signal && p.m.user == m.user && !signal.Return?
  {
    hide ExecSuite;
    var m0 := Machine(user, Local(None, false, None, functions));
    var m1 := Machine(user, Local(Some([]), false, None, functions));
    var m2 := Machine(user, Local(Some([]), true, None, functions));
    ExecConcat(o, [Simple(NewBuffer), Simple(BindAppend)] + inner, [Simple(ReturnJoin)], m0, rounds, calls);
    ExecConcat(o, [Simple(NewBuffer), Simple(BindAppend)], inner, m0, rounds, calls);
    assert [Simple(NewBuffer), Simple(BindAppend)] == [Simple(NewBuffer)] + [Simple(BindAppend)];
    ExecConcat(o, [Simple(NewBuffer)], [Simple(BindAppend)], m0, rounds, calls);
    ExecOne(o, Simple(NewBuffer), m0, rounds, calls);
    ExecOne(o, Simple(BindAppend), m1, rounds, calls);
    var p := ExecSuite(o, inner, m2, rounds, calls);
    if p.Done? {
      ExecOne(o, Simple(ReturnJoin), p.m, rounds, calls);
    }
  }

  lemma {:induction false} SuiteSame<St(!new), It>(o: Oracles<St, It>, env: Env, nodes: seq<Node>, template: string,
                                                   k: nat,
      mp: Machine<St, Local>, mr: Machine<St, string>, rounds: nat, calls: nat, depth: nat)
    requires WellFormedEnv(env) && forall n :: n in nodes ==> !n.Intermediate? && WellFormedNode(n)
    requires Trans(env, nodes, template, k, depth).Some? && Same(mp, mr)
    ensures SameOutcome(ExecSuite(o, Trans(env, nodes, template, k, depth).value.0, mp, rounds, calls),
                        Render(o, env, nodes, template, mr, rounds, calls, depth))
    decreases depth, Size(nodes), 1
  {
    hide TransNode, RenderNode, ExecStmt;
    if nodes != [] {
      var n := nodes[0];
      assert n in nodes;
      var (first, k1) := TransNode(env, n, template, k, depth).value;
      var (rest, k2) := Trans(env, nodes[1..], template, k1, depth).value;
      NodeSame(o, env, n, template, k, mp, mr, rounds, calls, depth);
      ExecConcat(o, first, rest, mp, rounds, calls);
      var p, r := ExecSuite(o, first, mp, rounds, calls), RenderNode(o, env, n, template, mr, rounds, calls, depth);
      if p.Done? && p.signal.Normal? {
        SuiteSame(o, env, nodes[1..], template, k1, p.m, r.m, rounds, calls, depth);
      }
    }
  }

  lemma {:induction false} NodeSame<St(!new), It>(o: Oracles<St, It>, env: Env, n: Node, template: string, k: nat,
      mp: Machine<St, Local>, mr: Machine<St, string>, rounds: nat, calls: nat, depth: nat)
    requires WellFormedEnv(env) && !n.Intermediate? && WellFormedNode(n)
    requires TransNode(env, n, template, k, depth).Some? && Same(mp, mr)
    ensures SameOutcome(ExecSuite(o, TransNode(env, n, template, k, depth).value.0, mp, rounds, calls),
                        RenderNode(o, env, n, template, mr, rounds, calls, depth))
    decreases depth, NodeSize(n), 0
  {
    match n
    case Text(value) =>
      TextSame(o, env, value, template, k, mp, mr, rounds, calls, depth);
    case Expression(expression, raw) =>
      ExpressionSame(o, env, expression, raw, template, k, mp, mr, rounds, calls, depth);
    case Statement(statement) =>
      ExecOne(o, Simple(Exec(statement)), mp, rounds, calls);
    case Control(statement, body) =>
      ControlSame(o, env, statement, body, template, k, mp, mr, rounds, calls, depth);
    case Apply(filter, body) =>
      ApplySame(o, env, filter, body, template, k, mp, mr, rounds, calls, depth);
    case NamedBlock(name, _) =>
      SuiteSame(o, env, env.blocks[name].body, env.blocks[name].template, k, mp, mr, rounds, calls, depth - 1);
    case Include(name) =>
      SuiteSame(o, env, env.world[name].body, name, k, mp, mr, rounds, calls, depth - 1);
    case Extends(_) =>
  }

  lemma TextSame<St(!new), It>(o: Oracles<St, It>, env: Env, value: string, template: string, k: nat,
      mp: Machine<St, Local>, mr: Machine<St, string>, rounds: nat, calls: nat, depth: nat)
    requires Same(mp, mr)
    ensures SameOutcome(ExecSuite(o, TransNode(env, Text(value), template, k, depth).value.0, mp, rounds, calls),
                        RenderNode(o, env, Text(value), template, mr, rounds, calls, depth))
  {
    if value == "" {
      assert mr.out + "" == mr.out;
      EmptySuite(o, mp, rounds, calls);
    } else {
      ExecOne(o, Simple(AppendText(value)), mp, rounds, calls);
      AppendSame(value, mp, mr);
    }
  }

  lemma {:induction false} ApplySame<St(!new), It>(o: Oracles<St, It>, env: Env, filter: string, body: seq<Node>,
                                                   template: string,
      k: nat, mp: Machine<St, Local>, mr: Machine<St, string>, rounds: nat, calls: nat, depth: nat)
    requires WellFormedEnv(env) && WellFormed(body) && Same(mp, mr)
    requires Trans(env, body, template, k + 1, depth).Some?
    ensures SameOutcome(ExecSuite(o, TransNode(env, Apply(filter, body), template, k, depth).value.0, mp,
                                  rounds, calls),
                        RenderNode(o, env, Apply(filter, body), template, mr, rounds, calls, depth))
    decreases depth, Size(body), 2
  {
    hide ExecSuite, Render, Trans;
    var (inner, _) := Trans(env, body, template, k + 1, depth).value;
    var f := [Simple(NewBuffer), Simple(BindAppend)] + inner + [Simple(ReturnJoin)];
    var define, call := Function(ApplyNumber(k), f), Simple(AppendCall(filter, ApplyNumber(k)));
    assert [define, call] == [define] + [call];
    ExecConcat(o, [define], [call], mp, rounds, calls);
    ExecOne(o, define, mp, rounds, calls);
    var functions := mp.out.functions[ApplyNumber(k) := f];
    var m1 := mp.(out := mp.out.(functions := functions));
    ExecOne(o, call, m1, rounds, calls);
    var (f', looked) := o.lookup(filter, mp.user);
    if f'.Ok? && calls > 0 {
      var user := o.enter(looked);
      var fp, fr := Machine(user, Local(Some([]), true, None, functions)), Machine(user, "");
      SuiteSame(o, env, body, template, k + 1, fp, fr, rounds, calls - 1, depth);
      var r := Render(o, env, body, template, fr, rounds, calls - 1, depth);
      ExecFunctionBody(o, inner, user, functions, fr, r, rounds, calls - 1);
      if r.Done? && r.signal.Normal? {
        var left := o.leave(looked, r.m.user);
        var (result, user') := o.call(f'.value, r.m.out, left);
        if result.Ok? {
          AppendSame(result.value, m1.(user := user'), mr.(user := user'));
        }
      }
    }
  }

  lemma {:induction false} ControlSame<St(!new), It>(o: Oracles<St, It>, env: Env, statement: string, body: seq<Node>,
                                                     template: string,
      k: nat, mp: Machine<St, Local>, mr: Machine<St, string>, rounds: nat, calls: nat, depth: nat)
    requires WellFormedEnv(env) && WellFormedNode(Control(statement, body)) && Same(mp, mr)
    requires TransParts(env, Split(statement, body), template, k, depth, Size(body)).Some?
    ensures SameOutcome(ExecSuite(o, TransNode(env, Control(statement, body), template, k, depth).value.0, mp,
                                  rounds, calls),
                        RenderNode(o, env, Control(statement, body), template, mr, rounds, calls, depth))
    decreases depth, Size(body), 3
  {
    hide ExecSuite, Render, LegalClauses, RunControl;
    var parts := Split(statement, body);
    var (clauses, _) := TransParts(env, parts, template, k, depth, Size(body)).value;
    ExecOne(o, Compound(clauses), mp, rounds, calls);
    ClauseHeads(env, parts, template, k, depth, Size(body));
    assert Heads(clauses) == Statements(parts);
    var ps := ExecBodies(o, Compound(clauses), rounds, calls);
    var rs := RenderBodies(o, env, parts, template, rounds, calls, depth, Size(body));
    forall i | 0 <= i < |ps|
      ensures SameBody(ps[i], rs[i])
    {
      forall np, nr | Same(np, nr)
        ensures SameOutcome(ps[i](np), rs[i](nr))
      {
        PartSame(o, env, parts, template, k, i, np, nr, rounds, calls, depth, Size(body));
      }
    }
    SameControl(o, Heads(clauses), ps, rs, mp, mr, rounds);
  }

  lemma {:induction false} ClauseHeads(env: Env, parts: seq<Part>, template: string, k: nat, depth: nat, size: nat)
    requires forall i :: 0 <= i < |parts| ==> Size(parts[i].nodes) <= size
    requires TransParts(env, parts, template, k, depth, size).Some?
    ensures var clauses := TransParts(env, parts, template, k, depth, size).value.0;
            |clauses| == |parts| && forall i :: 0 <= i < |parts| ==> clauses[i].statement == parts[i].statement
    decreases |parts|
  {
    hide Trans;
    if parts != [] {
      ClauseHeads(env, parts[1..], template, Trans(env, parts[0].nodes, template, k, depth).value.1, depth, size);
    }
  }

  /** Each clause's suite does what rendering its part does. */
  lemma {:induction false} PartSame<St(!new), It>(o: Oracles<St, It>, env: Env, parts: seq<Part>, template: string,
                                                  k: nat, i: nat,
      mp: Machine<St, Local>, mr: Machine<St, string>, rounds: nat, calls: nat, depth: nat, size: nat)
    requires WellFormedEnv(env) && Same(mp, mr)
    requires forall i :: 0 <= i < |parts| ==> Size(parts[i].nodes) <= size
    requires forall i, n :: 0 <= i < |parts| && n in parts[i].nodes ==> !n.Intermediate? && WellFormedNode(n)
    requires TransParts(env, parts, template, k, depth, size).Some? && i < |parts|
    ensures var clauses := TransParts(env, parts, template, k, depth, size).value.0;
            i < |clauses| && SameOutcome(ExecSuite(o, clauses[i].body, mp, rounds, calls),
                                         Render(o, env, parts[i].nodes, template, mr, rounds, calls, depth))
    decreases depth, size, 2, |parts|
  {
    hide ExecSuite, Render, Trans;
    var (body, k1) := Trans(env, parts[0].nodes, template, k, depth).value;
    if i == 0 {
      SuiteSame(o, env, parts[0].nodes, template, k, mp, mr, rounds, calls, depth);
      ExecPass(o, body, mp, rounds, calls);
    } else {
      PartSame(o, env, parts[1..], template, k1, i - 1, mp, mr, rounds, calls, depth, size);
    }
  }

  // What is compiled is legal Python.

  lemma LegalConcat(a: seq<Stmt>, b: seq<Stmt>)
    requires Legal(a) && Legal(b)
    ensures Legal(a + b)
  {
  }

  lemma {:induction false} TransLegal(env: Env, nodes: seq<Node>, template: string, k: nat, depth: nat)
    requires WellFormedEnv(env) && forall n :: n in nodes ==> !n.Intermediate? && WellFormedNode(n)
    requires Trans(env, nodes, template, k, depth).Some?
    ensures Legal(Trans(env, nodes, template, k, depth).value.0)
    decreases depth, Size(nodes), 1
  {
    hide TransNode, LegalStmt;
    if nodes != [] {
      assert nodes[0] in nodes;
      var (first, k1) := TransNode(env, nodes[0], template, k, depth).value;
      NodeLegal(env, nodes[0], template, k, depth);
      TransLegal(env, nodes[1..], template, k1, depth);
    }
  }

  lemma {:induction false} NodeLegal(env: Env, n: Node, template: string, k: nat, depth: nat)
    requires WellFormedEnv(env) && !n.Intermediate? && WellFormedNode(n)
    requires TransNode(env, n, template, k, depth).Some?
    ensures Legal(TransNode(env, n, template, k, depth).value.0)
    decreases depth, NodeSize(n), 0
  {
    match n
    case Control(statement, body) =>
      var parts := Split(statement, body);
      var (clauses, _) := TransParts(env, parts, template, k, depth, Size(body)).value;
      ClauseHeads(env, parts, template, k, depth, Size(body));
      assert Heads(clauses) == Statements(parts);
      PartsLegal(env, parts, template, k, depth, Size(body));
    case Apply(filter, body) =>
      TransLegal(env, body, template, k + 1, depth);
      var inner := Trans(env, body, template, k + 1, depth).value.0;
      LegalConcat([Simple(NewBuffer), Simple(BindAppend)], inner);
      LegalConcat([Simple(NewBuffer), Simple(BindAppend)] + inner, [Simple(ReturnJoin)]);
    case NamedBlock(name, _) =>
      TransLegal(env, env.blocks[name].body, env.blocks[name].template, k, depth - 1);
    case Include(name) =>
      TransLegal(env, env.world[name].body, name, k, depth - 1);
    case _ =>
  }

  lemma {:induction false} PartsLegal(env: Env, parts: seq<Part>, template: string, k: nat, depth: nat, size: nat)
    requires WellFormedEnv(env) && forall i :: 0 <= i < |parts| ==> Size(parts[i].nodes) <= size
    requires forall i, n :: 0 <= i < |parts| && n in parts[i].nodes ==> !n.Intermediate? && WellFormedNode(n)
    requires TransParts(env, parts, template, k, depth, size).Some?
    ensures var clauses := TransParts(env, parts, template, k, depth, size).value.0;
            forall c :: c in clauses ==> c.body != [] && Legal(c.body)
    decreases depth, size, 2, |parts|
  {
    hide Trans, Legal;
    if parts != [] {
      var (body, k1) := Trans(env, parts[0].nodes, template, k, depth).value;
      TransLegal(env, parts[0].nodes, template, k, depth);
      PassLegal(body);
      PartsLegal(env, parts[1..], template, k1, depth, size);
    }
  }

  lemma PassLegal(body: seq<Stmt>)
    requires Legal(body)
    ensures Legal(body + [Simple(Pass)])
  {
    LegalConcat(body, [Simple(Pass)]);
  }

  /** The generated lines are indented legally, and their indentation alone gives back the intended module: no
      suite is empty, and every clause belongs to its own header. What else Python asks of them, that jumps stand
      in loops, holds exactly if it holds of the template with its blocks resolved. */
  lemma CompiledParses(world: World, name: string, depth: nat)
    requires WellFormedWorld(world) && Compiled(world, name, depth).Some?
    ensures var module_ := Compiled(world, name, depth).value;
            var (env, root) := CompileEnv(world, name, depth).value;
            && Legal(module_) && ParseSuite(Layout(module_, 0), 0) == Some((module_, []))
            && (LoopsLegal(module_, false) <==> JumpsPlaced(env, world[root].body, false, depth))
  {
    hide ParseSuite, LoopsLegal, JumpsPlaced;
    CompiledLoops(world, name, depth);
    var chain := Ancestors(world, name, depth).value;
    BlocksWellFormed(world, chain, depth);
    var (env, root) := CompileEnv(world, name, depth).value;
    TransLegal(env, world[root].body, root, 0, depth);
    var suite := Trans(env, world[root].body, root, 0, depth).value.0;
    LegalConcat([Simple(NewBuffer), Simple(BindAppend)], suite);
    LegalConcat([Simple(NewBuffer), Simple(BindAppend)] + suite, [Simple(ReturnJoin)]);
    var module_ := Compiled(world, name, depth).value;
    ParseLayout(module_, 0, []);
    assert Layout(module_, 0) + [] == Layout(module_, 0);
  }

  /** Compiler correctness: running the generated lines, nested by their indentation alone, gives exactly what
      rendering the tree gives, for every template, every behaviour of the embedded Python, and all bounds; except
      that Python refuses the lines if resolving the blocks has put a jump outside of any loop. */
  lemma CompilerCorrect<St(!new), It>(o: Oracles<St, It>, world: World, name: string, user: St, rounds: nat,
                                      calls: nat, depth: nat)
    requires WellFormedWorld(world) && Compiled(world, name, depth).Some?
    ensures var (env, root) := CompileEnv(world, name, depth).value;
            RunLines(o, Layout(Compiled(world, name, depth).value, 0), user, rounds, calls) ==
            if JumpsPlaced(env, world[root].body, false, depth)
            then RenderTemplate(o, env, root, user, rounds, calls, depth)
            else Error(Raise("SyntaxError"), user)
  {
    hide ExecSuite, Render, Trans, ParseSuite, Layout, LoopsLegal, JumpsPlaced;
    CompiledParses(world, name, depth);
    BlocksWellFormed(world, Ancestors(world, name, depth).value, depth);
    var (env, root) := CompileEnv(world, name, depth).value;
    var suite := Trans(env, world[root].body, root, 0, depth).value.0;
    var f := [Simple(NewBuffer), Simple(BindAppend)] + suite + [Simple(ReturnJoin)];
    var functions := map[Execute := f];
    ExecOne(o, Function(Execute, f), Machine(user, Local(None, false, None, map[])), rounds, calls);
    assert map[][Execute := f] == functions;
    var mr := Machine(user, "");
    SuiteSame(o, env, world[root].body, root, 0, Machine(user, Local(Some([]), true, None, functions)), mr,
              rounds, calls, depth);
    var r := Render(o, env, world[root].body, root, mr, rounds, calls, depth);
    ExecFunctionBody(o, suite, user, functions, mr, r, rounds, calls);
  }
}
