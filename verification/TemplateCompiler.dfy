/** From syntax trees to Python (the `generate` methods and `_CodeWriter` of tornado/template.py). */
module TemplateCompiler {
  import opened Bytes
  import opened TemplateAst
  import opened PythonCode

  /** A named block, and the template whose text it stands in. */
  datatype Block = Block(body: seq<Node>, template: string)

  datatype Env = Env(world: World, blocks: map<string, Block>)

  function Autoescape(env: Env, template: string): Option<string> {
    if template in env.world then env.world[template].autoescape else None
  }

  /** The statements that a template's chunks mean, numbering the functions of apply blocks from `k`. None
      when a template or block is missing, or when blocks and includes nest deeper than `depth`. */
  function Trans(env: Env, nodes: seq<Node>, template: string, k: nat, depth: nat): Option<(seq<Stmt>, nat)>
    decreases depth, Size(nodes), 1
  {
    if nodes == [] then Some(([], k)) else
    match TransNode(env, nodes[0], template, k, depth)
    case None => None
    case Some((first, k1)) =>
      match Trans(env, nodes[1..], template, k1, depth)
      case None => None
      case Some((rest, k2)) => Some((first + rest, k2))
  }

  function TransNode(env: Env, n: Node, template: string, k: nat, depth: nat): Option<(seq<Stmt>, nat)>
    decreases depth, NodeSize(n), 0
  {
    match n
    case Text(value) => Some((if value == "" then [] else [Simple(AppendText(value))], k))
    case Expression(expression, raw) =>
      var escape := Autoescape(env, template);
      Some(([Simple(Assign(expression)), Coerce]
        + (if raw || escape.None? then [] else [Simple(Code.Escape(escape.value))])
        + [Simple(AppendTmp)], k))
    case Statement(statement) => Some(([Simple(Exec(statement))], k))
    case Control(statement, body) =>
      (match TransParts(env, Split(statement, body), template, k, depth, Size(body))
       case None => None
       case Some((clauses, k')) => Some(([Compound(clauses)], k')))
    case Apply(filter, body) =>
      (match Trans(env, body, template, k + 1, depth)
       case None => None
       case Some((inner, k')) =>
         Some(([Function(ApplyNumber(k), [Simple(NewBuffer), Simple(BindAppend)] + inner + [Simple(ReturnJoin)]),
                Simple(AppendCall(filter, ApplyNumber(k)))], k')))
    case NamedBlock(name, _) =>
      if depth == 0 || name !in env.blocks then None
      else Trans(env, env.blocks[name].body, env.blocks[name].template, k, depth - 1)
    case Include(name) =>
      if depth == 0 || name !in env.world then None
      else Trans(env, env.world[name].body, name, k, depth - 1)
    case _ => None
  }

  /** One clause per part, each ended by a pass statement. */
  function TransParts(env: Env, parts: seq<Part>, template: string, k: nat, depth: nat,
                      ghost size: nat): Option<(seq<Clause>, nat)>
    requires forall i :: 0 <= i < |parts| ==> Size(parts[i].nodes) <= size
    decreases depth, size, 2, |parts|
  {
    if parts == [] then Some(([], k)) else
    match Trans(env, parts[0].nodes, template, k, depth)
    case None => None
    case Some((body, k1)) =>
      match TransParts(env, parts[1..], template, k1, depth, size)
      case None => None
      case Some((rest, k2)) => Some(([Clause(parts[0].statement, body + [Simple(Pass)])] + rest, k2))
  }

  /** The lines written for one chunk: an intermediate statement ends the suite it stands in and is written one
      level back; anything else is laid out. */
  function NodeLines(env: Env, n: Node, template: string, k: nat, depth: nat, indent: nat): Option<(seq<Line>, nat)> {
    if n.Intermediate? then
      if indent == 0 then None else Some(([Line(indent, Pass), Line(indent - 1, Head(n.statement))], k))
    else
      match TransNode(env, n, template, k, depth)
      case None => None
      case Some((first, k1)) => Some((Layout(first, indent), k1))
  }

  function Lines(env: Env, nodes: seq<Node>, template: string, k: nat, depth: nat,
                 indent: nat): Option<(seq<Line>, nat)> {
    if nodes == [] then Some(([], k)) else
    match NodeLines(env, nodes[0], template, k, depth, indent)
    case None => None
    case Some((first, k1)) =>
      match Lines(env, nodes[1..], template, k1, depth, indent)
      case None => None
      case Some((rest, k2)) => Some((first + rest, k2))
  }

  /** Without intermediate statements, the lines are the layout of the statements. */
  lemma {:induction false} LinesOfSuite(env: Env, nodes: seq<Node>, template: string, k: nat, depth: nat, indent: nat)
    requires forall n :: n in nodes ==> !n.Intermediate?
    ensures Lines(env, nodes, template, k, depth, indent) ==
            match Trans(env, nodes, template, k, depth)
            case None => None
            case Some((suite, k')) => Some((Layout(suite, indent), k'))
  {
    hide TransNode, Layout;
    if nodes == [] {
      EmptyLayout(indent);
    } else {
      var first := TransNode(env, nodes[0], template, k, depth);
      if first.Some? {
        LinesOfSuite(env, nodes[1..], template, first.value.1, depth, indent);
        var rest := Trans(env, nodes[1..], template, first.value.1, depth);
        if rest.Some? {
          LayoutConcat(first.value.0, rest.value.0, indent);
        }
      }
    }
  }

  /** The lines of an apply block around a laid out body. */
  function ApplyLines(filter: string, inner: seq<Stmt>, k: nat, indent: nat): (r: seq<Line>)
    ensures r == Layout([Function(ApplyNumber(k),
                                  [Simple(NewBuffer), Simple(BindAppend)] + inner + [Simple(ReturnJoin)]),
                         Simple(AppendCall(filter, ApplyNumber(k)))], indent)
  {
    ApplyLayout(filter, inner, k, indent);
    [Line(indent, Def(ApplyNumber(k))), Line(indent + 1, NewBuffer), Line(indent + 1, BindAppend)]
    + Layout(inner, indent + 1)
    + [Line(indent + 1, ReturnJoin), Line(indent, AppendCall(filter, ApplyNumber(k)))]
  }

  lemma ApplyLayout(filter: string, inner: seq<Stmt>, k: nat, indent: nat)
    ensures Layout([Function(ApplyNumber(k), [Simple(NewBuffer), Simple(BindAppend)] + inner + [Simple(ReturnJoin)]),
                    Simple(AppendCall(filter, ApplyNumber(k)))], indent)
         == [Line(indent, Def(ApplyNumber(k))), Line(indent + 1, NewBuffer), Line(indent + 1, BindAppend)]
            + Layout(inner, indent + 1)
            + [Line(indent + 1, ReturnJoin), Line(indent, AppendCall(filter, ApplyNumber(k)))]
  {
    FunctionLayout(inner, indent + 1);
    var body := [Simple(NewBuffer), Simple(BindAppend)] + inner + [Simple(ReturnJoin)];
    var f, c := Function(ApplyNumber(k), body), Simple(AppendCall(filter, ApplyNumber(k)));
    LayoutOne(f, indent);
    LayoutOne(c, indent);
    LayoutConcat([f], [c], indent);
    assert [f] + [c] == [f, c];
  }

  /** The body of a generated function. */
  lemma FunctionLayout(inner: seq<Stmt>, indent: nat)
    ensures Layout([Simple(NewBuffer), Simple(BindAppend)] + inner + [Simple(ReturnJoin)], indent)
         == [Line(indent, NewBuffer), Line(indent, BindAppend)] + Layout(inner, indent) + [Line(indent, ReturnJoin)]
  {
    var a, b := Simple(NewBuffer), Simple(BindAppend);
    LayoutOne(a, indent);
    LayoutOne(b, indent);
    LayoutConcat([a], [b], indent);
    assert [a] + [b] == [a, b];
    LayoutConcat([a, b], inner, indent);
    LayoutOne(Simple(ReturnJoin), indent);
    LayoutConcat([a, b] + inner, [Simple(ReturnJoin)], indent);
  }

  lemma LayoutOne(s: Stmt, indent: nat)
    ensures Layout([s], indent) == LayoutStmt(s, indent)
  {
    assert [s][1..] == [];
  }

  lemma EmptyLayout(indent: nat)
    ensures Layout([], indent) == []
  {
  }

  /** The lines of a control block: its header, its chunks one level deeper with each intermediate statement one
      level back, and a final pass, are the layout of its clauses. */
  ghost predicate ControlLines(env: Env, statement: string, body: seq<Node>, template: string, k: nat, depth: nat,
                               indent: nat, size: nat)
    requires Size(body) <= size
  {
    var lines := Lines(env, body, template, k, depth, indent + 1);
    var clauses := TransParts(env, Split(statement, body), template, k, depth, size);
    if lines.None? then clauses.None? else
      && clauses.Some? && lines.value.1 == clauses.value.1
      && [Line(indent, Head(statement))] + lines.value.0 + [Line(indent + 1, Pass)]
         == LayoutClauses(clauses.value.0, indent)
  }

  lemma {:induction false} LinesOfControl(env: Env, statement: string, body: seq<Node>, template: string, k: nat,
                                          depth: nat, indent: nat, size: nat)
    requires Size(body) <= size
    ensures ControlLines(env, statement, body, template, k, depth, indent, size)
    decreases body
  {
    hide TransNode, ControlLines;
    if body == [] {
      ControlEnd(env, statement, template, k, depth, indent, size);
    } else if body[0].Intermediate? {
      LinesOfControl(env, body[0].statement, body[1..], template, k, depth, indent, size);
      ControlAtIntermediate(env, statement, body, template, k, depth, indent, size);
    } else {
      var first := TransNode(env, body[0], template, k, depth);
      if first.Some? {
        LinesOfControl(env, statement, body[1..], template, first.value.1, depth, indent, size);
      }
      ControlAtNode(env, statement, body, template, k, depth, indent, size);
    }
  }

  lemma ControlEnd(env: Env, statement: string, template: string, k: nat, depth: nat, indent: nat, size: nat)
    ensures ControlLines(env, statement, [], template, k, depth, indent, size)
  {
    PassClause(statement, indent);
    var parts := Split(statement, []);
    assert parts == [Part(statement, [])] && parts[1..] == [];
    assert Trans(env, parts[0].nodes, template, k, depth) == Some(([], k));
    assert [] + [Simple(Pass)] == [Simple(Pass)];
    assert [Clause(statement, [Simple(Pass)])] + [] == [Clause(statement, [Simple(Pass)])];
    var head, pass := Line(indent, Head(statement)), Line(indent + 1, Pass);
    assert [head] + [] + [pass] == [head, pass];
  }

  lemma ControlAtIntermediate(env: Env, statement: string, body: seq<Node>, template: string, k: nat, depth: nat,
                              indent: nat, size: nat)
    requires body != [] && body[0].Intermediate? && Size(body) <= size
    requires ControlLines(env, body[0].statement, body[1..], template, k, depth, indent, size)
    ensures ControlLines(env, statement, body, template, k, depth, indent, size)
  {
    hide TransNode, Layout, LayoutClauses;
    PassClause(statement, indent);
    var rest := Split(body[0].statement, body[1..]);
    var parts := [Part(statement, [])] + rest;
    assert Split(statement, body) == parts && parts[1..] == rest;
    assert Trans(env, parts[0].nodes, template, k, depth) == Some(([], k));
    assert [] + [Simple(Pass)] == [Simple(Pass)];
    var later := TransParts(env, rest, template, k, depth, size);
    if later.Some? {
      ClauseFirst(Clause(statement, [Simple(Pass)]), later.value.0, indent);
      var lines := Lines(env, body[1..], template, k, depth, indent + 1).value.0;
      RegroupIntermediate(Line(indent, Head(statement)), Line(indent + 1, Pass),
                          Line(indent, Head(body[0].statement)), lines);
    }
  }

  lemma ControlAtNode(env: Env, statement: string, body: seq<Node>, template: string, k: nat, depth: nat,
                      indent: nat, size: nat)
    requires body != [] && !body[0].Intermediate? && Size(body) <= size
    requires var first := TransNode(env, body[0], template, k, depth);
             first.Some? ==> ControlLines(env, statement, body[1..], template, first.value.1, depth, indent, size)
    ensures ControlLines(env, statement, body, template, k, depth, indent, size)
  {
    hide TransNode, Layout, LayoutClauses;
    var first := TransNode(env, body[0], template, k, depth);
    var tail := Split(statement, body[1..]);
    var nodes := [body[0]] + tail[0].nodes;
    assert Split(statement, body) == [Part(statement, nodes)] + tail[1..];
    assert Split(statement, body)[1..] == tail[1..];
    assert nodes[1..] == tail[0].nodes;
    if first.None? {
      assert Trans(env, nodes, template, k, depth).None?;
      return;
    }
    var k1 := first.value.1;
    var b := Trans(env, tail[0].nodes, template, k1, depth);
    if b.None? {
      assert Trans(env, nodes, template, k, depth).None?;
      return;
    }
    assert Trans(env, nodes, template, k, depth) == Some((first.value.0 + b.value.0, b.value.1));
    var rest := TransParts(env, tail[1..], template, b.value.1, depth, size);
    if rest.Some? {
      var lines := Lines(env, body[1..], template, k1, depth, indent + 1).value.0;
      WiderClause(statement, first.value.0, b.value.0, rest.value.0, lines, indent);
      assert TransParts(env, Split(statement, body), template, k, depth, size) ==
             Some(([Clause(statement, (first.value.0 + b.value.0) + [Simple(Pass)])] + rest.value.0, rest.value.1));
    }
  }

  /** Statements put in front of the first clause's suite come out in front of its lines. */
  lemma WiderClause(statement: string, first: seq<Stmt>, body: seq<Stmt>, later: seq<Clause>, lines: seq<Line>,
                    indent: nat)
    requires [Line(indent, Head(statement))] + lines + [Line(indent + 1, Pass)]
          == LayoutClauses([Clause(statement, body + [Simple(Pass)])] + later, indent)
    ensures [Line(indent, Head(statement))] + (Layout(first, indent + 1) + lines) + [Line(indent + 1, Pass)]
          == LayoutClauses([Clause(statement, (first + body) + [Simple(Pass)])] + later, indent)
  {
    hide Layout, LayoutClauses;
    ClauseFirst(Clause(statement, body + [Simple(Pass)]), later, indent);
    ClauseFirst(Clause(statement, (first + body) + [Simple(Pass)]), later, indent);
    assert (first + body) + [Simple(Pass)] == first + (body + [Simple(Pass)]);
    LayoutConcat(first, body + [Simple(Pass)], indent + 1);
    Regroup(Line(indent, Head(statement)), Layout(first, indent + 1), lines, Line(indent + 1, Pass),
            Layout(body + [Simple(Pass)], indent + 1), LayoutClauses(later, indent));
  }

  lemma Regroup<T>(head: T, a: seq<T>, lines: seq<T>, end: T, b: seq<T>, c: seq<T>)
    requires [head] + lines + [end] == [head] + b + c
    ensures [head] + (a + lines) + [end] == [head] + (a + b) + c
  {
    assert ([head] + lines + [end])[1..] == lines + [end];
    assert ([head] + b + c)[1..] == b + c;
    assert [head] + (a + lines) + [end] == [head] + a + (lines + [end]);
    assert [head] + (a + b) + c == [head] + a + (b + c);
  }

  lemma RegroupIntermediate<T>(head: T, pass: T, next: T, lines: seq<T>)
    ensures [head] + ([pass, next] + lines) + [pass] == [head] + [pass] + ([next] + lines + [pass])
  {
  }

  lemma ClauseFirst(clause: Clause, later: seq<Clause>, indent: nat)
    ensures LayoutClauses([clause] + later, indent) ==
            [Line(indent, Head(clause.statement))] + Layout(clause.body, indent + 1) + LayoutClauses(later, indent)
  {
    assert ([clause] + later)[1..] == later;
  }

  lemma PassClause(statement: string, indent: nat)
    ensures Layout([Simple(Pass)], indent + 1) == [Line(indent + 1, Pass)]
    ensures LayoutClauses([Clause(statement, [Simple(Pass)])], indent)
            == [Line(indent, Head(statement)), Line(indent + 1, Pass)]
  {
  }

  ghost predicate WellFormedEnv(env: Env) {
    (forall t :: t in env.world ==> WellFormed(env.world[t].body)) && WellFormedBlocks(env.blocks)
  }

  ghost predicate WellFormedBlocks(blocks: map<string, Block>) {
    forall b :: b in blocks ==> WellFormed(blocks[b].body)
  }

  /** `_CodeWriter`. Its named blocks and its loader do not change while it writes. */
  class CodeWriter {
    const env: Env
    var file: seq<Line>
    var indent: nat
    var applyCounter: nat
    var includeStack: seq<string>
    var currentTemplate: string

    constructor (env: Env, currentTemplate: string)
      ensures this.env == env && this.currentTemplate == currentTemplate
      ensures file == [] && indent == 0 && applyCounter == 0 && includeStack == []
    {
      this.env, this.currentTemplate := env, currentTemplate;
      file, indent, applyCounter, includeStack := [], 0, 0, [];
    }

    /** `write_line` */
    method WriteLine(code: Code, at: nat)
      modifies `file
      ensures file == old(file) + [Line(at, code)]
    {
      file := file + [Line(at, code)];
    }

    twostate predicate Kept()
      reads `indent, `includeStack, `currentTemplate
    {
      indent == old(indent) && includeStack == old(includeStack) && currentTemplate == old(currentTemplate)
    }

    /** `_ChunkList.generate`. Exceptions (a missing template, unbounded inclusion) come back as false. */
    method GenerateAll(nodes: seq<Node>, depth: nat) returns (ok: bool)
      requires WellFormedEnv(env) && forall n :: n in nodes ==> WellFormedNode(n)
      modifies this
      ensures Kept()
      ensures var r := Lines(env, nodes, currentTemplate, old(applyCounter), depth, indent);
              ok == r.Some? && (ok ==> file == old(file) + r.value.0 && applyCounter == r.value.1)
      decreases depth, Size(nodes), 1
    {
      hide NodeLines, TransNode;
      ghost var whole := Lines(env, nodes, currentTemplate, applyCounter, depth, indent);
      var i := 0;
      while i < |nodes|
        invariant 0 <= i <= |nodes| && Kept()
        invariant Size(nodes[i..]) <= Size(nodes)
        invariant var rest := Lines(env, nodes[i..], currentTemplate, applyCounter, depth, indent);
                  whole.Some? == rest.Some? &&
                  (rest.Some? ==> old(file) + whole.value.0 == file + rest.value.0 && whole.value.1 == rest.value.1)
      {
        assert nodes[i..][1..] == nodes[i + 1..];
        ok := GenerateNode(nodes[i], depth);
        if !ok {
          return;
        }
        i := i + 1;
      }
      assert nodes[i..] == [];
      return true;
    }

    /** The `generate` methods of the other nodes. */
    method GenerateNode(n: Node, depth: nat) returns (ok: bool)
      requires WellFormedEnv(env) && WellFormedNode(n)
      modifies this
      ensures Kept()
      ensures var r := NodeLines(env, n, currentTemplate, old(applyCounter), depth, indent);
              ok == r.Some? && (ok ==> file == old(file) + r.value.0 && applyCounter == r.value.1)
      decreases depth, NodeSize(n), 0
    {
      hide Layout, LayoutClauses, TransParts, Trans;
      match n
      case Text(value) =>
        LayoutOne(Simple(AppendText(value)), indent);
        EmptyLayout(indent);
        if value != "" {
          WriteLine(AppendText(value), indent);
        }
        return true;
      case Statement(statement) =>
        LayoutOne(Simple(Exec(statement)), indent);
        WriteLine(Exec(statement), indent);
        return true;
      case Expression(expression, raw) =>
        GenerateExpression(expression, raw);
        return true;
      case Intermediate(statement) =>
        if indent == 0 {
          return false;
        }
        WriteLine(Pass, indent);
        WriteLine(Head(statement), indent - 1);
        return true;
      case Control(statement, body) =>
        ok := GenerateControl(statement, body, depth);
      case Apply(filter, body) =>
        ok := GenerateApply(filter, body, depth);
      case NamedBlock(name, _) =>
        if depth == 0 || name !in env.blocks {
          return false;
        }
        ok := GenerateIncluded(env.blocks[name].body, env.blocks[name].template, depth);
      case Include(name) =>
        if depth == 0 || name !in env.world {
          return false;
        }
        ok := GenerateIncluded(env.world[name].body, name, depth);
      case Extends(_) =>
        return false;
    }

    /** `_ControlBlock.generate` */
    method GenerateControl(statement: string, body: seq<Node>, depth: nat) returns (ok: bool)
      requires WellFormedEnv(env) && forall c :: c in body ==> WellFormedNode(c)
      modifies this
      ensures Kept()
      ensures var r := TransNode(env, Control(statement, body), currentTemplate, old(applyCounter), depth);
              ok == r.Some? && (ok ==> file == old(file) + Layout(r.value.0, indent) && applyCounter == r.value.1)
      decreases depth, Size(body), 2
    {
      hide Layout, LayoutClauses, Lines, TransParts;
      ghost var clauses := TransParts(env, Split(statement, body), currentTemplate, applyCounter, depth, Size(body));
      if clauses.Some? {
        LayoutOne(Compound(clauses.value.0), indent);
      }
      LinesOfControl(env, statement, body, currentTemplate, applyCounter, depth, indent, Size(body));
      WriteLine(Head(statement), indent);
      indent := indent + 1;
      ok := GenerateAll(body, depth);
      WriteLine(Pass, indent);
      indent := indent - 1;
    }

    /** `_Expression.generate` */
    method GenerateExpression(expression: string, raw: bool)
      modifies `file
      ensures var r := NodeLines(env, Expression(expression, raw), currentTemplate, applyCounter, 0, indent);
              r.Some? && file == old(file) + r.value.0 && applyCounter == r.value.1
    {
      WriteLine(Assign(expression), indent);
      WriteLine(CoerceIf, indent);
      WriteLine(CoerceElse, indent);
      var escape := Autoescape(env, currentTemplate);
      if !raw && escape.Some? {
        WriteLine(Escape(escape.value), indent);
      }
      WriteLine(AppendTmp, indent);
      var extra := if raw || escape.None? then [] else [Simple(Code.Escape(escape.value))];
      LayoutOne(Simple(Assign(expression)), indent);
      LayoutOne(Coerce, indent);
      LayoutConcat([Simple(Assign(expression))], [Coerce], indent);
      LayoutOne(Simple(AppendTmp), indent);
      LayoutConcat([Simple(Assign(expression)), Coerce], extra, indent);
      LayoutConcat([Simple(Assign(expression)), Coerce] + extra, [Simple(AppendTmp)], indent);
      if extra != [] {
        LayoutOne(extra[0], indent);
      }
    }

    /** `with writer.include(template, line)`, around a body. */
    method GenerateIncluded(body: seq<Node>, template: string, depth: nat) returns (ok: bool)
      requires WellFormedEnv(env) && WellFormed(body) && depth > 0
      modifies this
      ensures Kept()
      ensures var r := Trans(env, body, template, old(applyCounter), depth - 1);
              ok == r.Some? && (ok ==> file == old(file) + Layout(r.value.0, indent) && applyCounter == r.value.1)
      decreases depth, 0, 0
    {
      LinesOfSuite(env, body, template, applyCounter, depth - 1, indent);
      includeStack := includeStack + [currentTemplate];
      currentTemplate := template;
      ok := GenerateAll(body, depth - 1);
      currentTemplate := includeStack[|includeStack| - 1];
      includeStack := includeStack[..|includeStack| - 1];
    }

    /** `_ApplyBlock.generate` */
    method GenerateApply(filter: string, body: seq<Node>, depth: nat) returns (ok: bool)
      requires WellFormedEnv(env) && WellFormed(body)
      modifies this
      ensures Kept()
      ensures var r := Trans(env, body, currentTemplate, old(applyCounter) + 1, depth);
              ok == r.Some? &&
              (ok ==> file == old(file) + ApplyLines(filter, r.value.0, old(applyCounter), indent)
                      && applyCounter == r.value.1)
      decreases depth, Size(body), 2
    {
      LinesOfSuite(env, body, currentTemplate, applyCounter + 1, depth, indent + 1);
      var name := ApplyNumber(applyCounter);
      applyCounter := applyCounter + 1;
      WriteLine(Def(name), indent);
      indent := indent + 1;
      WriteLine(NewBuffer, indent);
      WriteLine(BindAppend, indent);
      ok := GenerateAll(body, depth);
      WriteLine(ReturnJoin, indent);
      indent := indent - 1;
      WriteLine(AppendCall(filter, name), indent);
    }
  }
}
