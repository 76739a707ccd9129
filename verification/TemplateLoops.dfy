/** Where `break` and `continue` end up. The parser accepts them inside a loop of the template's text; Python
    accepts them inside a loop of the generated code, which is another matter once blocks are resolved. */
module TemplateLoops {
  import opened Bytes
  import opened TemplateAst
  import opened PythonCode
  import opened TemplateCompiler
  import opened TemplateInheritance

  /** Every jump stands in the body of a loop, once each named block is replaced by its nearest definition and each
      include by the template it names. The else clause of a loop is not in that loop, and a filter's text is a
      function of its own. */
  predicate JumpsPlaced(env: Env, nodes: seq<Node>, inLoop: bool, depth: nat)
    decreases depth, Size(nodes), 1
  {
    nodes == [] || (NodePlaced(env, nodes[0], inLoop, depth) && JumpsPlaced(env, nodes[1..], inLoop, depth))
  }

  predicate NodePlaced(env: Env, n: Node, inLoop: bool, depth: nat)
    decreases depth, NodeSize(n), 0
  {
    match n
    case Statement(statement) => inLoop || !IsJump(statement)
    case Control(statement, body) =>
      PartsPlaced(env, Split(statement, body), inLoop || OpensLoop(statement), inLoop, depth, Size(body))
    case Apply(_, body) => JumpsPlaced(env, body, false, depth)
    case NamedBlock(name, _) =>
      depth > 0 && name in env.blocks ==> JumpsPlaced(env, env.blocks[name].body, inLoop, depth - 1)
    case Include(name) =>
      depth > 0 && name in env.world ==> JumpsPlaced(env, env.world[name].body, inLoop, depth - 1)
    case _ => true
  }

  predicate PartsPlaced(env: Env, parts: seq<Part>, first: bool, others: bool, depth: nat, ghost size: nat)
    requires forall i :: 0 <= i < |parts| ==> Size(parts[i].nodes) <= size
    decreases depth, size, 2, |parts|
  {
    parts == [] ||
    (JumpsPlaced(env, parts[0].nodes, first, depth) && PartsPlaced(env, parts[1..], others, others, depth, size))
  }

  lemma {:induction false} LoopsConcat(a: seq<Stmt>, b: seq<Stmt>, inLoop: bool)
    ensures LoopsLegal(a + b, inLoop) <==> LoopsLegal(a, inLoop) && LoopsLegal(b, inLoop)
    decreases |a|
  {
    hide LoopLegal;
    if a == [] {
      assert a + b == b;
    } else {
      assert (a + b)[1..] == a[1..] + b;
      LoopsConcat(a[1..], b, inLoop);
    }
  }

  lemma LoopsOne(s: Stmt, inLoop: bool)
    ensures LoopsLegal([s], inLoop) <==> LoopLegal(s, inLoop)
  {
    assert [s][1..] == [];
  }

  /** The statements compiled have their jumps inside loops exactly if the chunks have. */
  lemma {:induction false} TransLoops(env: Env, nodes: seq<Node>, template: string, k: nat, depth: nat, inLoop: bool)
    requires Trans(env, nodes, template, k, depth).Some?
    ensures LoopsLegal(Trans(env, nodes, template, k, depth).value.0, inLoop) <==>
            JumpsPlaced(env, nodes, inLoop, depth)
    decreases depth, Size(nodes), 1
  {
    hide TransNode, NodePlaced;
    if nodes != [] {
      var (first, k1) := TransNode(env, nodes[0], template, k, depth).value;
      NodeLoops(env, nodes[0], template, k, depth, inLoop);
      TransLoops(env, nodes[1..], template, k1, depth, inLoop);
      LoopsConcat(first, Trans(env, nodes[1..], template, k1, depth).value.0, inLoop);
    }
  }

  lemma {:induction false} NodeLoops(env: Env, n: Node, template: string, k: nat, depth: nat, inLoop: bool)
    requires TransNode(env, n, template, k, depth).Some?
    ensures LoopsLegal(TransNode(env, n, template, k, depth).value.0, inLoop) <==> NodePlaced(env, n, inLoop, depth)
    decreases depth, NodeSize(n), 0
  {
    hide Trans, JumpsPlaced, LoopsLegal;
    match n
    case Text(value) =>
      StraightLoops(TransNode(env, n, template, k, depth).value.0, inLoop);
    case Expression(_, _) =>
      StraightLoops(TransNode(env, n, template, k, depth).value.0, inLoop);
    case Statement(statement) =>
      LoopsOne(Simple(Exec(statement)), inLoop);
    case Control(statement, body) =>
      var parts := Split(statement, body);
      var (clauses, _) := TransParts(env, parts, template, k, depth, Size(body)).value;
      PartsLoops(env, parts, template, k, depth, Size(body), inLoop || OpensLoop(statement), inLoop);
      LoopsOne(Compound(clauses), inLoop);
    case Apply(filter, body) =>
      var (inner, _) := Trans(env, body, template, k + 1, depth).value;
      TransLoops(env, body, template, k + 1, depth, false);
      FunctionLoops(inner);
      var f := [Simple(NewBuffer), Simple(BindAppend)] + inner + [Simple(ReturnJoin)];
      var define, call := Function(ApplyNumber(k), f), Simple(AppendCall(filter, ApplyNumber(k)));
      assert [define, call] == [define] + [call];
      LoopsConcat([define], [call], inLoop);
      LoopsOne(define, inLoop);
      LoopsOne(call, inLoop);
    case NamedBlock(name, _) =>
      TransLoops(env, env.blocks[name].body, env.blocks[name].template, k, depth - 1, inLoop);
    case Include(name) =>
      TransLoops(env, env.world[name].body, name, k, depth - 1, inLoop);
    case _ =>
  }

  lemma {:induction false} PartsLoops(env: Env, parts: seq<Part>, template: string, k: nat, depth: nat, size: nat,
                                      first: bool, others: bool)
    requires forall i :: 0 <= i < |parts| ==> Size(parts[i].nodes) <= size
    requires TransParts(env, parts, template, k, depth, size).Some?
    ensures var clauses := TransParts(env, parts, template, k, depth, size).value.0;
            && (LoopsLegalIn(clauses, first, others) <==> PartsPlaced(env, parts, first, others, depth, size))
            && (parts != [] ==> clauses != [] && clauses[0].statement == parts[0].statement)
    decreases depth, size, 2, |parts|
  {
    hide Trans, JumpsPlaced, LoopsLegal;
    if parts != [] {
      var (body, k1) := Trans(env, parts[0].nodes, template, k, depth).value;
      TransLoops(env, parts[0].nodes, template, k, depth, first);
      LoopsConcat(body, [Simple(Pass)], first);
      LoopsOne(Simple(Pass), first);
      PartsLoops(env, parts[1..], template, k1, depth, size, others, others);
    }
  }

  /** Without jumps and compound statements there is nothing to check. */
  lemma {:induction false} StraightLoops(suite: seq<Stmt>, inLoop: bool)
    requires forall s :: s in suite ==> s.Coerce? || (s.Simple? && !s.code.Exec?)
    ensures LoopsLegal(suite, inLoop)
  {
    if suite != [] {
      StraightLoops(suite[1..], inLoop);
    }
  }

  lemma FunctionLoops(inner: seq<Stmt>)
    ensures LoopsLegal([Simple(NewBuffer), Simple(BindAppend)] + inner + [Simple(ReturnJoin)], false) <==>
            LoopsLegal(inner, false)
  {
    var start, end := [Simple(NewBuffer), Simple(BindAppend)], [Simple(ReturnJoin)];
    StraightLoops(start, false);
    StraightLoops(end, false);
    LoopsConcat(start + inner, end, false);
    LoopsConcat(start, inner, false);
  }

  /** Python accepts the jumps of the module exactly if those of the resolved frame are placed in loops. */
  lemma CompiledLoops(world: World, name: string, depth: nat)
    requires Compiled(world, name, depth).Some?
    ensures var (env, root) := CompileEnv(world, name, depth).value;
            LoopsLegal(Compiled(world, name, depth).value, false) <==>
            JumpsPlaced(env, world[root].body, false, depth)
  {
    hide Trans, JumpsPlaced, LoopsLegal;
    var (env, root) := CompileEnv(world, name, depth).value;
    var suite := Trans(env, world[root].body, root, 0, depth).value.0;
    TransLoops(env, world[root].body, root, 0, depth, false);
    FunctionLoops(suite);
    LoopsOne(Compiled(world, name, depth).value[0], false);
  }

  /** What the parser lets pass and Python does not: a jump in the else clause of a loop (`BreakInElseParses`). */
  lemma JumpInElse()
    ensures !JumpsPlaced(Env(map[], map[]), [Control("for x in y", [Intermediate("else"), Statement("break")])],
                         false, 0)
  {
    var env, jump := Env(map[], map[]), Statement("break");
    var body := [Intermediate("else"), jump];
    var otherwise := Part("else", [jump]);
    assert body[1..] == [jump];
    SplitOne("else", jump);
    assert Split("for x in y", body) == [Part("for x in y", []), otherwise];
    assert [Part("for x in y", []), otherwise][1..] == [otherwise];
    assert !NodePlaced(env, jump, false, 0);
    assert !PartsPlaced(env, [otherwise], false, false, 0, Size(body));
  }

  // Another case: a jump in a block that stands in a loop of its template (`BreakInBlockParses`), but not in the
  // frame it is put into.

  const FRAME := [NamedBlock("b", [])]
  const JUMP := [Statement("break")]
  const LOOP := Control("for x in y", [NamedBlock("b", JUMP)])
  const CHILD := [Extends("base"), LOOP]
  const TWO_TEMPLATES: World := map["base" := Template(FRAME, None), "child" := Template(CHILD, None)]

  /** The child's block goes into the frame of the base. */
  lemma ChildResolves()
    ensures CompileEnv(TWO_TEMPLATES, "child", 1)
            == Some((Env(TWO_TEMPLATES, map["b" := Block(JUMP, "child")]), "base"))
  {
    hide Ancestors, ChainDefinitions, Define;
    ChildExtendsBase();
    BlocksOfBoth();
    var base, child := ("b", Block([], "base")), ("b", Block(JUMP, "child"));
    assert Define(map[], [base, child]) == map["b" := child.1] by {
      DefineLater(base, child);
    }
  }

  lemma DefineLater(first: Definition, second: Definition)
    requires first.0 == second.0
    ensures Define(map[], [first, second]) == map[second.0 := second.1]
  {
    assert [first, second][1..] == [second] && [second][1..] == [];
    assert Define(map[first.0 := first.1], [second]) == map[first.0 := first.1][second.0 := second.1];
  }

  lemma ChildExtendsBase()
    ensures Ancestors(TWO_TEMPLATES, "child", 1) == Some(["child", "base"])
  {
    var world := TWO_TEMPLATES;
    assert CHILD[1..] == [LOOP] && [LOOP][1..] == [] && FRAME[1..] == [];
    assert Ancestors(world, "base", 0) == Some(["base"]) by {
      assert ParentsIn(world, [], 0) == Some([]);
      assert ParentsIn(world, FRAME, 0) == Some([]);
      assert ["base"] + [] == ["base"];
    }
    assert ParentsIn(world, CHILD, 1) == Some(["base"]) by {
      assert ParentsIn(world, [], 1) == Some([]);
      assert ParentsIn(world, [LOOP], 1) == Some([]);
      assert ["base"] + [] == ["base"];
    }
    assert ["child"] + ["base"] == ["child", "base"];
  }

  lemma BlocksOfBoth()
    ensures ChainDefinitions(TWO_TEMPLATES, ["child", "base"], 1)
            == Some([("b", Block([], "base")), ("b", Block(JUMP, "child"))])
  {
    hide Definitions;
    var world, chain := TWO_TEMPLATES, ["child", "base"];
    var base, child := ("b", Block([], "base")), ("b", Block(JUMP, "child"));
    NothingDefined(world, "base");
    DefinitionsOfBlock(world, "b", [], "base");
    BlocksOfChild();
    assert chain[1..] == ["base"] && ["base"][1..] == [];
    assert ChainDefinitions(world, ["base"], 1) == Some([base]) by {
      assert ChainDefinitions(world, [], 1) == Some([]);
      assert [] + [base] == [base];
    }
    assert [base] + [child] == [base, child];
  }

  lemma BlocksOfChild()
    ensures Definitions(TWO_TEMPLATES, CHILD, "child", 1) == Some([("b", Block(JUMP, "child"))])
  {
    var world, child := TWO_TEMPLATES, ("b", Block(JUMP, "child"));
    NothingDefined(world, "child");
    assert CHILD[1..] == [LOOP] && [LOOP][1..] == [] && JUMP[1..] == [];
    assert Definitions(world, JUMP, "child", 1) == Some([]) by {
      assert NodeDefinitions(world, JUMP[0], "child", 1) == Some([]);
      var none: seq<Definition> := [];
      assert none + none == none;
    }
    DefinitionsOfBlock(world, "b", JUMP, "child");
    assert NodeDefinitions(world, LOOP, "child", 1) == Some([child]);
    assert [child] + [] == [child] && [] + [child] == [child];
    assert Definitions(world, [LOOP], "child", 1) == Some([child]);
    assert NodeDefinitions(world, CHILD[0], "child", 1) == Some([]);
  }

  lemma NothingDefined(world: World, template: string)
    ensures Definitions(world, [], template, 1) == Some([])
  {
  }

  lemma DefinitionsOfBlock(world: World, name: string, body: seq<Node>, template: string)
    requires Definitions(world, body, template, 1) == Some([])
    ensures Definitions(world, [NamedBlock(name, body)], template, 1) == Some([(name, Block(body, template))])
  {
    var n, d := NamedBlock(name, body), (name, Block(body, template));
    assert [n][1..] == [] && Definitions(world, [], template, 1) == Some([]);
    assert [d] + [] == [d];
    assert NodeDefinitions(world, n, template, 1) == Some([d]);
  }

  /** The parser accepts both templates; the code that the child compiles to is not legal. */
  lemma JumpInBlock()
    ensures Compiled(TWO_TEMPLATES, "child", 1).Some?
    ensures !LoopsLegal(Compiled(TWO_TEMPLATES, "child", 1).value, false)
  {
    var env := Env(TWO_TEMPLATES, map["b" := Block(JUMP, "child")]);
    ChildResolves();
    assert Trans(env, JUMP, "child", 0, 0).Some? by {
      assert JUMP[1..] == [] && Trans(env, [], "child", 0, 0).Some?;
      assert TransNode(env, JUMP[0], "child", 0, 0) == Some(([Simple(Exec("break"))], 0));
    }
    assert Trans(env, FRAME, "base", 0, 1).Some? by {
      var k := Trans(env, JUMP, "child", 0, 0).value.1;
      assert FRAME[1..] == [] && Trans(env, [], "base", k, 1).Some?;
      assert TransNode(env, FRAME[0], "base", 0, 1) == Trans(env, JUMP, "child", 0, 0);
    }
    JumpsOne(env, JUMP[0], false, 0);
    JumpsOne(env, FRAME[0], false, 1);
    assert !JumpsPlaced(env, FRAME, false, 1);
    hide *;
    CompiledLoops(TWO_TEMPLATES, "child", 1);
  }

  lemma JumpsOne(env: Env, n: Node, inLoop: bool, depth: nat)
    ensures JumpsPlaced(env, [n], inLoop, depth) <==> NodePlaced(env, n, inLoop, depth)
  {
    hide NodePlaced;
    assert [n][1..] == [] && JumpsPlaced(env, [], inLoop, depth);
  }

  lemma SplitOne(statement: string, n: Node)
    requires !n.Intermediate?
    ensures Split(statement, [n]) == [Part(statement, [n])]
  {
    assert [n][1..] == [] && Split(statement, []) == [Part(statement, [])];
    assert [n] + [] == [n];
    assert [Part(statement, [])][1..] == [];
  }
}
