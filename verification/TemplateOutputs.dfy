/** What the generated code of small templates puts out, said with the embedded Python's oracles alone: each
    construct on its own, around templates of any kind. */
module TemplateOutputs {
  import opened Bytes
  import opened TemplateAst
  import opened PythonCode
  import opened ControlFlow
  import opened ControlTraces
  import opened TemplateCompiler
  import opened TemplateInheritance
  import opened TemplateLoops
  import opened TemplateMeaning

  /** Running the lines that a template compiles to. */
  function Runs<St(!new), It>(o: Oracles<St, It>, world: World, name: string, user: St, rounds: nat, calls: nat,
                              depth: nat): Rendered<St>
    requires Compiled(world, name, depth).Some?
  {
    RunLines(o, Layout(Compiled(world, name, depth).value, 0), user, rounds, calls)
  }

  /** The value of an expression as text, through the filter if there is one. */
  function Shows<St, It>(o: Oracles<St, It>, expression: string, filter: Option<string>, user: St): Rendered<St> {
    match o.eval(expression, user)
    case (Exc(e), u) => Error(Raise(e), u)
    case (Ok(v), u) =>
      match (if v.Str? then (Ok(v.text), u) else o.show(v.id, u))
      case (Exc(e), u1) => Error(Raise(e), u1)
      case (Ok(text), u1) => if filter.None? then Output(text, u1) else Filters(o, filter.value, text, u1)
  }

  function Filters<St, It>(o: Oracles<St, It>, filter: string, text: string, user: St): Rendered<St> {
    match o.lookup(filter, user)
    case (Exc(e), u) => Error(Raise(e), u)
    case (Ok(f), u) => Calls(o, f, text, u)
  }

  function Calls<St, It>(o: Oracles<St, It>, f: nat, text: string, user: St): Rendered<St> {
    match o.call(f, text, user)
    case (Exc(e), u) => Error(Raise(e), u)
    case (Ok(result), u) => Output(result, u)
  }

  predicate Extending(nodes: seq<Node>) {
    exists i :: 0 <= i < |nodes| && nodes[i].Extends?
  }

  // ----- finding the template -----

  lemma {:induction false} NoParents(world: World, body: seq<Node>, depth: nat)
    requires !Extending(body)
    ensures ParentsIn(world, body, depth) == Some([])
    decreases |body|
  {
    if body != [] {
      assert !Extending(body[1..]) by {
        assert forall i :: 0 <= i < |body| - 1 ==> body[1..][i] == body[i + 1];
      }
      NoParents(world, body[1..], depth);
    }
  }

  /** A template that extends nothing is its own frame, and its own blocks are the table. */
  lemma OwnFrame(world: World, name: string, depth: nat)
    requires name in world && !Extending(world[name].body)
    ensures CompileEnv(world, name, depth) ==
            match Definitions(world, world[name].body, name, depth)
            case None => None
            case Some(own) => Some((Env(world, Define(map[], own)), name))
  {
    hide Definitions, Define;
    NoParents(world, world[name].body, depth);
    var chain := [name];
    assert [name] + [] == chain && chain[1..] == [];
    assert ChainDefinitions(world, chain[1..], depth) == Some([]);
    var own := Definitions(world, world[name].body, name, depth);
    if own.Some? {
      assert [] + own.value == own.value;
    }
  }

  /** The statements of a chunk list of one chunk are those of the chunk. */
  lemma OneChunk(env: Env, n: Node, template: string, k: nat, depth: nat)
    ensures Trans(env, [n], template, k, depth) == TransNode(env, n, template, k, depth)
  {
    hide TransNode;
    assert [n][1..] == [];
    var r := TransNode(env, n, template, k, depth);
    if r.Some? {
      assert Trans(env, [], template, r.value.1, depth) == Some(([], r.value.1));
      assert r.value.0 + [] == r.value.0;
    }
  }

  lemma OneRendered<St(!new), It>(o: Oracles<St, It>, env: Env, n: Node, template: string, m: Machine<St, string>,
                                  rounds: nat, calls: nat, depth: nat)
    ensures Render(o, env, [n], template, m, rounds, calls, depth) ==
            RenderNode(o, env, n, template, m, rounds, calls, depth)
  {
    hide RenderNode;
    assert [n][1..] == [];
    var r := RenderNode(o, env, n, template, m, rounds, calls, depth);
    if r.Done? {
      assert Render(o, env, [], template, r.m, rounds, calls, depth) == Done(Normal, r.m);
    }
  }

  lemma OneDefinition(world: World, n: Node, template: string, depth: nat)
    ensures Definitions(world, [n], template, depth) == NodeDefinitions(world, n, template, depth)
  {
    hide NodeDefinitions;
    assert [n][1..] == [];
    assert Definitions(world, [], template, depth) == Some([]);
    var r := NodeDefinitions(world, n, template, depth);
    if r.Some? {
      assert r.value + [] == r.value;
    }
  }

  // ----- escaping -----

  /** A template that is one expression: it is shown, and passed through the template's filter unless it is raw. */
  lemma OneExpression<St(!new), It>(o: Oracles<St, It>, world: World, name: string, expression: string, raw: bool,
                                    user: St, rounds: nat, calls: nat, depth: nat)
    requires WellFormedWorld(world) && name in world && world[name].body == [Expression(expression, raw)]
    ensures Compiled(world, name, depth).Some?
    ensures Runs(o, world, name, user, rounds, calls, depth) ==
            Shows(o, expression, if raw then None else world[name].autoescape, user)
  {
    var n := Expression(expression, raw);
    OwnFrame(world, name, depth);
    OneDefinition(world, n, name, depth);
    var env := CompileEnv(world, name, depth).value.0;
    OneChunk(env, n, name, 0, depth);
    CompilerCorrect(o, world, name, user, rounds, calls, depth);
    assert [n][1..] == [] && JumpsPlaced(env, [n], false, depth);
    OneRendered(o, env, n, name, Machine(user, ""), rounds, calls, depth);
  }

  /** Including a template is running it: with its own filter, whatever the filter of the text around. */
  lemma IncludeRunsIt(world: World, name: string, other: string, depth: nat)
    requires name in world && world[name].body == [Include(other)] && depth > 0
    requires other in world && !Extending(world[other].body)
    ensures Compiled(world, name, depth) == Compiled(world, other, depth - 1)
  {
    hide Definitions, Trans;
    var n := Include(other);
    OwnFrame(world, name, depth);
    OwnFrame(world, other, depth - 1);
    OneDefinition(world, n, name, depth);
    var frame := CompileEnv(world, name, depth);
    if frame.Some? {
      OneChunk(frame.value.0, n, name, 0, depth);
    }
  }

  lemma IncludedExpression<St(!new), It>(o: Oracles<St, It>, world: World, name: string, other: string,
                                         expression: string, user: St, rounds: nat, calls: nat, depth: nat)
    requires WellFormedWorld(world) && name in world && world[name].body == [Include(other)] && depth > 0
    requires other in world && world[other].body == [Expression(expression, false)]
    ensures Compiled(world, name, depth).Some?
    ensures Runs(o, world, name, user, rounds, calls, depth) == Shows(o, expression, world[other].autoescape, user)
  {
    IncludeRunsIt(world, name, other, depth);
    OneExpression(o, world, other, expression, false, user, rounds, calls, depth - 1);
  }

  /** A template that only extends another is that other one. */
  lemma ExtendsIsTheBase(world: World, name: string, base: string, depth: nat)
    requires name in world && world[name].body == [Extends(base)] && depth > 0
    requires base in world && !Extending(world[base].body)
    ensures Compiled(world, name, depth) == Compiled(world, base, depth)
  {
    hide Definitions, Trans;
    OwnFrame(world, base, depth);
    OneDefinition(world, Extends(base), name, depth);
    ChildAndBase(world, name, base, depth);
    var own := Definitions(world, world[base].body, base, depth);
    if own.Some? {
      assert own.value + [] == own.value;
    }
  }

  /** The chain of a template that extends a base; the child's definitions come after the base's. */
  lemma ChildAndBase(world: World, name: string, base: string, depth: nat)
    requires name in world && world[name].body != [] && world[name].body[0] == Extends(base) && depth > 0
    requires !Extending(world[name].body[1..]) && base in world && !Extending(world[base].body)
    ensures CompileEnv(world, name, depth) ==
            match (Definitions(world, world[base].body, base, depth),
                   Definitions(world, world[name].body, name, depth))
            case (Some(old_), Some(own)) => Some((Env(world, Define(map[], old_ + own)), base))
            case _ => None
  {
    hide Definitions, Define;
    NoParents(world, world[base].body, depth - 1);
    NoParents(world, world[name].body[1..], depth);
    assert Ancestors(world, base, depth - 1) == Some([base]) by {
      assert [base] + [] == [base];
    }
    assert [base] + [] == [base] && [name] + [base] == [name, base];
    var chain := [name, base];
    assert Ancestors(world, name, depth) == Some(chain);
    assert chain[1..] == [base] && [base][1..] == [];
    assert ChainDefinitions(world, [], depth) == Some([]);
    var old_ := Definitions(world, world[base].body, base, depth);
    if old_.Some? {
      assert [] + old_.value == old_.value;
    }
    assert ChainDefinitions(world, [base], depth) == old_;
  }

  /** An expression in a block that a child puts into the frame of its base: the child's filter. */
  lemma OverridingExpression<St(!new), It>(o: Oracles<St, It>, world: World, name: string, base: string,
                                           block: string, default_: seq<Node>, expression: string, user: St,
                                           rounds: nat, calls: nat, depth: nat)
    requires WellFormedWorld(world) && name in world && base in world && depth > 0
    requires world[name].body == [Extends(base), NamedBlock(block, [Expression(expression, false)])]
    requires world[base].body == [NamedBlock(block, default_)] && Definitions(world, default_, base, depth).Some?
    ensures Compiled(world, name, depth).Some?
    ensures Runs(o, world, name, user, rounds, calls, depth) == Shows(o, expression, world[name].autoescape, user)
  {
    var n := Expression(expression, false);
    var own := (block, Block([n], name));
    ChildDefines(world, name, base, block, n, depth);
    var old_ := Definitions(world, world[base].body, base, depth).value;
    DefineLooksUpLast(map[], old_ + [own], block);
    BlockRuns(o, world, name, base, block, expression, name, user, rounds, calls, depth);
  }

  /** An expression in a block of the frame that nothing overrides: the base's filter, also if a child extends it. */
  lemma InheritedExpression<St(!new), It>(o: Oracles<St, It>, world: World, name: string, base: string,
                                          block: string, expression: string, user: St, rounds: nat, calls: nat,
                                          depth: nat)
    requires WellFormedWorld(world) && name in world && base in world && depth > 0
    requires world[name].body == [Extends(base)]
    requires world[base].body == [NamedBlock(block, [Expression(expression, false)])]
    ensures Compiled(world, base, depth).Some? && Compiled(world, name, depth).Some?
    ensures Runs(o, world, base, user, rounds, calls, depth) == Shows(o, expression, world[base].autoescape, user)
    ensures Runs(o, world, name, user, rounds, calls, depth) == Shows(o, expression, world[base].autoescape, user)
  {
    var n := Expression(expression, false);
    ExtendsIsTheBase(world, name, base, depth);
    OwnFrame(world, base, depth);
    OneDefinition(world, world[base].body[0], base, depth);
    OneDefinition(world, n, base, depth);
    var own := [(block, Block([n], base))];
    assert own + [] == own && own[1..] == [];
    assert CompileEnv(world, base, depth) == Some((Env(world, map[block := Block([n], base)]), base)) by {
      assert map[][block := Block([n], base)] == map[block := Block([n], base)];
    }
    BlockRuns(o, world, base, base, block, expression, base, user, rounds, calls, depth);
  }

  /** A frame that is one block, resolved to an expression in the text of `owner`. */
  lemma BlockRuns<St(!new), It>(o: Oracles<St, It>, world: World, name: string, base: string, block: string,
                                expression: string, owner: string, user: St, rounds: nat, calls: nat, depth: nat)
    requires WellFormedWorld(world) && base in world && owner in world && depth > 0
    requires world[base].body != [] && world[base].body[0].NamedBlock? && world[base].body[1..] == []
    requires world[base].body[0].name == block && CompileEnv(world, name, depth).Some?
    requires var (env, root) := CompileEnv(world, name, depth).value;
             && root == base && env.world == world && block in env.blocks
             && env.blocks[block] == Block([Expression(expression, false)], owner)
    ensures Compiled(world, name, depth).Some?
    ensures Runs(o, world, name, user, rounds, calls, depth) == Shows(o, expression, world[owner].autoescape, user)
  {
    var n, frame := Expression(expression, false), world[base].body[0];
    var env := CompileEnv(world, name, depth).value.0;
    hide CompileEnv, RunLines, Layout, Trans, Render, JumpsPlaced;
    assert world[base].body == [frame];
    OneChunk(env, frame, base, 0, depth);
    OneChunk(env, n, owner, 0, depth - 1);
    CompilerCorrect(o, world, name, user, rounds, calls, depth);
    JumpsOne(env, n, false, depth - 1);
    JumpsOne(env, frame, false, depth);
    OneRendered(o, env, frame, base, Machine(user, ""), rounds, calls, depth);
    OneRendered(o, env, n, owner, Machine(user, ""), rounds, calls, depth - 1);
  }

  lemma ChildDefines(world: World, name: string, base: string, block: string, n: Node, depth: nat)
    requires name in world && base in world && depth > 0 && n.Expression?
    requires world[name].body == [Extends(base), NamedBlock(block, [n])]
    requires world[base].body != [] && !Extending(world[base].body)
    requires Definitions(world, world[base].body, base, depth).Some?
    ensures CompileEnv(world, name, depth) ==
            Some((Env(world, Define(map[], Definitions(world, world[base].body, base, depth).value
                                           + [(block, Block([n], name))])), base))
  {
    hide Define;
    ChildAndBase(world, name, base, depth);
    var body := world[name].body;
    var own := [(block, Block([n], name))];
    OneDefinition(world, n, name, depth);
    OneDefinition(world, body[1], name, depth);
    assert body[1..] == [body[1]];
    assert own + [] == own && [] + own == own;
    assert Definitions(world, body, name, depth) == Some(own);
  }

  // ----- the other constructs -----

  /** What running the lines comes to, once the table of blocks is known. */
  lemma RunsRender<St(!new), It>(o: Oracles<St, It>, world: World, name: string, user: St, rounds: nat, calls: nat,
                                 depth: nat)
    requires WellFormedWorld(world) && name in world && !Extending(world[name].body)
    requires Definitions(world, world[name].body, name, depth) == Some([])
    requires Trans(Env(world, map[]), world[name].body, name, 0, depth).Some?
    requires JumpsPlaced(Env(world, map[]), world[name].body, false, depth)
    ensures Compiled(world, name, depth).Some?
    ensures Runs(o, world, name, user, rounds, calls, depth) ==
              match Render(o, Env(world, map[]), world[name].body, name, Machine(user, ""), rounds, calls, depth)
              case Timeout => NoResult
              case Done(Normal, m) => Output(m.out, m.user)
              case Done(signal, m) => Error(signal, m.user)
  {
    OwnFrame(world, name, depth);
    hide Definitions, Trans, JumpsPlaced, Render, RunLines, Layout, WellFormedWorld;
    CompilerCorrect(o, world, name, user, rounds, calls, depth);
  }

  predicate Plain(n: Node) {
    n.Text? || n.Expression? || (n.Statement? && !IsJump(n.statement))
  }

  /** Text, expressions and simple statements define no block, can be written, and hold no jump. */
  lemma {:induction false} PlainNodes(env: Env, nodes: seq<Node>, template: string, k: nat, depth: nat)
    requires forall n :: n in nodes ==> Plain(n)
    ensures !Extending(nodes) && Definitions(env.world, nodes, template, depth) == Some([])
    ensures Trans(env, nodes, template, k, depth).Some? && JumpsPlaced(env, nodes, false, depth)
  {
    if nodes != [] {
      assert Plain(nodes[0]);
      PlainNodes(env, nodes[1..], template, k, depth);
      var none: seq<Definition> := [];
      assert none + none == none;
    }
  }

  /** Text and an expression in between come out in the order in which they stand. */
  lemma InOrder<St(!new), It>(o: Oracles<St, It>, world: World, name: string, before: string, expression: string,
                              raw: bool, after: string, user: St, rounds: nat, calls: nat, depth: nat)
    requires WellFormedWorld(world) && name in world
    requires world[name].body == [Text(before), Expression(expression, raw), Text(after)]
    ensures Compiled(world, name, depth).Some?
    ensures Runs(o, world, name, user, rounds, calls, depth) ==
              match Shows(o, expression, if raw then None else world[name].autoescape, user)
              case Output(text, u) => Output(before + text + after, u)
              case other => other
  {
    var env := Env(world, map[]);
    var a, n, b := Text(before), Expression(expression, raw), Text(after);
    PlainNodes(env, [a, n, b], name, 0, depth);
    hide Compiled, RunLines, Layout, CompileEnv, Definitions, Trans, JumpsPlaced;
    RunsRender(o, world, name, user, rounds, calls, depth);
    assert [a, n, b][1..] == [n, b] && [n, b][1..] == [b];
    assert "" + before == before;
    var m := Machine(user, before);
    var r := RenderNode(o, env, n, name, m, rounds, calls, depth);
    if r.Done? && r.signal.Normal? {
      OneRendered(o, env, b, name, r.m, rounds, calls, depth);
    }
  }

  /** A simple statement puts nothing out; `break` and `continue` outside of a loop are refused. */
  lemma OneStatement<St(!new), It>(o: Oracles<St, It>, world: World, name: string, statement: string, user: St,
                                   rounds: nat, calls: nat, depth: nat)
    requires WellFormedWorld(world) && name in world && world[name].body == [Statement(statement)]
    ensures Compiled(world, name, depth).Some?
    ensures Runs(o, world, name, user, rounds, calls, depth) ==
              if statement in {"break", "continue"} then Error(Raise("SyntaxError"), user)
              else match o.exec(statement, user)
                   case (Exc(e), u) => Error(Raise(e), u)
                   case (Ok(_), u) => Output("", u)
  {
    var n, env := Statement(statement), Env(world, map[]);
    OwnFrame(world, name, depth);
    OneDefinition(world, n, name, depth);
    OneChunk(env, n, name, 0, depth);
    CompilerCorrect(o, world, name, user, rounds, calls, depth);
    JumpsOne(env, n, false, depth);
    OneRendered(o, env, n, name, Machine(user, ""), rounds, calls, depth);
  }

  /** An apply block: the filter is looked up, then its text is what running the block's content puts out, in a
      scope of its own; what the filter makes of it is the output. The content may be any template. */
  lemma ApplyFilters<St(!new), It>(o: Oracles<St, It>, world: World, name: string, filter: string, content: string,
                                   user: St, rounds: nat, calls: nat, depth: nat)
    requires WellFormedWorld(world) && name in world && content in world && depth > 0
    requires world[name].body == [Apply(filter, [Include(content)])] && !Extending(world[content].body)
    requires Compiled(world, name, depth).Some? && Compiled(world, content, depth - 1).Some?
    requires LoopsLegal(Compiled(world, content, depth - 1).value, false)
    ensures Runs(o, world, name, user, rounds, calls, depth) ==
              match o.lookup(filter, user)
              case (Exc(e), u) => Error(Raise(e), u)
              case (Ok(f), u) =>
                if calls == 0 then NoResult else
                match Runs(o, world, content, o.enter(u), rounds, calls - 1, depth - 1)
                case NoResult => NoResult
                case Error(signal, inner) => Error(signal, o.leave(u, inner))
                case Output(text, inner) => Calls(o, f, text, o.leave(u, inner))
  {
    var n := Apply(filter, [Include(content)]);
    var env := ApplyEnv(world, name, filter, content, depth);
    hide CompileEnv, Trans, JumpsPlaced, Render, RunLines, Layout, LoopsLegal, Define, Definitions;
    CompilerCorrect(o, world, name, user, rounds, calls, depth);
    var (f, u) := o.lookup(filter, user);
    OneRendered(o, env, n, name, Machine(user, ""), rounds, calls, depth);
    if f.Ok? && calls > 0 {
      CompilerCorrect(o, world, content, o.enter(u), rounds, calls - 1, depth - 1);
      OneRendered(o, env, Include(content), name, Machine(o.enter(u), ""), rounds, calls - 1, depth);
    }
  }

  /** The block and the template in it have the same table of blocks, and their jumps are in loops. */
  lemma ApplyEnv(world: World, name: string, filter: string, content: string, depth: nat) returns (env: Env)
    requires name in world && content in world && depth > 0 && !Extending(world[content].body)
    requires world[name].body == [Apply(filter, [Include(content)])]
    requires Compiled(world, name, depth).Some? && Compiled(world, content, depth - 1).Some?
    requires LoopsLegal(Compiled(world, content, depth - 1).value, false)
    ensures env.world == world && CompileEnv(world, name, depth) == Some((env, name))
    ensures CompileEnv(world, content, depth - 1) == Some((env, content))
    ensures JumpsPlaced(env, world[name].body, false, depth)
    ensures JumpsPlaced(env, world[content].body, false, depth - 1)
  {
    hide LoopsLegal, Define, Trans, Layout;
    var inner := Include(content);
    var n := Apply(filter, [inner]);
    OwnFrame(world, name, depth);
    OwnFrame(world, content, depth - 1);
    OneDefinition(world, n, name, depth);
    OneDefinition(world, inner, name, depth);
    env := CompileEnv(world, name, depth).value.0;
    JumpsOne(env, n, false, depth);
    JumpsOne(env, inner, false, depth);
    CompiledLoops(world, content, depth - 1);
  }

  // ----- control blocks -----

  predicate PlainOrClause(n: Node) {
    Plain(n) || n.Intermediate?
  }

  lemma {:induction false} PlainDefinitions(world: World, nodes: seq<Node>, template: string, depth: nat)
    requires forall n :: n in nodes ==> PlainOrClause(n)
    ensures Definitions(world, nodes, template, depth) == Some([])
  {
    if nodes != [] {
      assert PlainOrClause(nodes[0]);
      PlainDefinitions(world, nodes[1..], template, depth);
      var none: seq<Definition> := [];
      assert none + none == none;
    }
  }

  lemma {:induction false} PlainParts(env: Env, parts: seq<Part>, template: string, k: nat, depth: nat, size: nat,
                                      first: bool)
    requires forall i :: 0 <= i < |parts| ==> Size(parts[i].nodes) <= size
    requires forall i, n :: 0 <= i < |parts| && n in parts[i].nodes ==> Plain(n)
    ensures TransParts(env, parts, template, k, depth, size).Some?
    ensures PartsPlaced(env, parts, first, false, depth, size)
    decreases |parts|
  {
    hide Trans, JumpsPlaced;
    if parts != [] {
      PlainNodes(env, parts[0].nodes, template, k, depth);
      PlainInLoop(env, parts[0].nodes, first, depth);
      PlainParts(env, parts[1..], template, Trans(env, parts[0].nodes, template, k, depth).value.1, depth, size, false);
    }
  }

  lemma {:induction false} PlainInLoop(env: Env, nodes: seq<Node>, inLoop: bool, depth: nat)
    requires forall n :: n in nodes ==> Plain(n)
    ensures JumpsPlaced(env, nodes, inLoop, depth)
  {
    if nodes != [] {
      assert Plain(nodes[0]);
      PlainInLoop(env, nodes[1..], inLoop, depth);
    }
  }

  /** A template that is one control block of text, expressions and statements runs as the compound statement whose
      bodies are its parts. */
  lemma ControlRuns<St(!new), It>(o: Oracles<St, It>, world: World, name: string, statement: string, body: seq<Node>,
                                  user: St, rounds: nat, calls: nat, depth: nat)
    requires WellFormedWorld(world) && name in world && world[name].body == [Control(statement, body)]
    requires forall n :: n in body ==> PlainOrClause(n)
    ensures Compiled(world, name, depth).Some?
    ensures var parts := Split(statement, body);
            LegalClauses(Statements(parts)) &&
            var bodies := RenderBodies(o, Env(world, map[]), parts, name, rounds, calls, depth, Size(body));
            Runs(o, world, name, user, rounds, calls, depth) ==
              match RunControl(o, Statements(parts), bodies, Machine(user, ""), rounds)
              case Timeout => NoResult
              case Done(Normal, m) => Output(m.out, m.user)
              case Done(signal, m) => Error(signal, m.user)
  {
    hide RunControl, LegalClauses, RunLines, Layout, RenderBodies;
    var n, env := Control(statement, body), Env(world, map[]);
    var parts := Split(statement, body);
    assert WellFormedNode(world[name].body[0]);
    OneDefinition(world, n, name, depth);
    PlainDefinitions(world, body, name, depth);
    forall i, c | 0 <= i < |parts| && c in parts[i].nodes
      ensures Plain(c)
    {
      assert c in body && PlainOrClause(c);
    }
    PlainParts(env, parts, name, 0, depth, Size(body), OpensLoop(statement));
    OneChunk(env, n, name, 0, depth);
    JumpsOne(env, n, false, depth);
    RunsRender(o, world, name, user, rounds, calls, depth);
    OneRendered(o, env, n, name, Machine(user, ""), rounds, calls, depth);
  }

  /** if, elif and else, with an expression in each: the conditions are tested in order up to the first that holds,
      and the expression under it is shown. */
  lemma IfElifElse<St(!new), It>(o: Oracles<St, It>, world: World, name: string, heads: seq<string>,
                                 shown: seq<string>, user: St, rounds: nat, calls: nat, depth: nat)
    requires WellFormedWorld(world) && name in world && |heads| == |shown| == 3
    requires FirstWord(heads[0]) == "if" && FirstWord(heads[1]) == "elif" && FirstWord(heads[2]) == "else"
    requires world[name].body ==
               [Control(heads[0], [Expression(shown[0], false), Intermediate(heads[1]), Expression(shown[1], false),
                                   Intermediate(heads[2]), Expression(shown[2], false)])]
    ensures Compiled(world, name, depth).Some?
    ensures var filter := world[name].autoescape;
            Runs(o, world, name, user, rounds, calls, depth) ==
              match o.test(heads[0], user)
              case (Exc(e), u) => Error(Raise(e), u)
              case (Ok(true), u) => Shows(o, shown[0], filter, u)
              case (Ok(false), u) =>
                match o.test(heads[1], u)
                case (Exc(e), u1) => Error(Raise(e), u1)
                case (Ok(true), u1) => Shows(o, shown[1], filter, u1)
                case (Ok(false), u1) => Shows(o, shown[2], filter, u1)
  {
    hide RunControl, LegalClauses, Split, Render, RunLines, Compiled, Layout;
    var body := world[name].body[0].body;
    var n0, n1, n2 := body[0], body[2], body[4];
    ControlRuns(o, world, name, heads[0], body, user, rounds, calls, depth);
    var parts := [Part(heads[0], [n0]), Part(heads[1], [n1]), Part(heads[2], [n2])];
    SplitThree(heads, body);
    var (c0, u0) := o.test(heads[0], user);
    var users := if c0 == Ok(false) then [user, u0] else [user];
    var (c1, u1) := o.test(heads[1], u0);
    var users' := if c0 == Ok(false) && c1 == Ok(false) then [user, u0, u1] else users;
    var bodies := RenderBodies(o, Env(world, map[]), parts, name, rounds, calls, depth, Size(body));
    assert Statements(parts) == heads;
    IfRuns(o, heads, bodies, Machine(user, ""), rounds, |users'| - 1, users');
    ShownBy(o, world, name, n0, u0, rounds, calls, depth);
    ShownBy(o, world, name, n1, u1, rounds, calls, depth);
    ShownBy(o, world, name, n2, u1, rounds, calls, depth);
  }

  lemma SplitThree(heads: seq<string>, body: seq<Node>)
    requires |heads| == 3 && |body| == 5 && body[1] == Intermediate(heads[1]) && body[3] == Intermediate(heads[2])
    requires body[0].Expression? && body[2].Expression? && body[4].Expression?
    ensures Split(heads[0], body) == [Part(heads[0], [body[0]]), Part(heads[1], [body[2]]), Part(heads[2], [body[4]])]
  {
    hide Split;
    SplitOne(heads[2], body[4]);
    SplitPart(heads[1], body[2], heads[2], [body[4]]);
    assert body[2..] == [body[2], body[3]] + [body[4]];
    SplitPart(heads[0], body[0], heads[1], body[2..]);
    assert body == [body[0], body[1]] + body[2..];
  }

  lemma SplitPart(statement: string, n: Node, next: string, rest: seq<Node>)
    requires !n.Intermediate?
    ensures Split(statement, [n, Intermediate(next)] + rest) == [Part(statement, [n])] + Split(next, rest)
  {
    var later := [Intermediate(next)] + rest;
    assert ([n, Intermediate(next)] + rest)[1..] == later && later[1..] == rest;
    assert Split(statement, later) == [Part(statement, [])] + Split(next, rest);
    assert ([Part(statement, [])] + Split(next, rest))[1..] == Split(next, rest);
    assert [n] + [] == [n];
  }

  lemma ShownBy<St(!new), It>(o: Oracles<St, It>, world: World, name: string, n: Node, user: St, rounds: nat,
                              calls: nat, depth: nat)
    requires name in world && n.Expression? && !n.raw
    ensures Shows(o, n.expression, world[name].autoescape, user) ==
              match Render(o, Env(world, map[]), [n], name, Machine(user, ""), rounds, calls, depth)
              case Timeout => NoResult
              case Done(Normal, m) => Output(m.out, m.user)
              case Done(signal, m) => Error(signal, m.user)
  {
    OneRendered(o, Env(world, map[]), n, name, Machine(user, ""), rounds, calls, depth);
  }

  function Repeat(text: string, n: nat): string {
    if n == 0 then "" else Repeat(text, n - 1) + text
  }

  /** A for loop over text: the text once for each element. */
  lemma ForRepeats<St(!new), It(!new)>(o: Oracles<St, It>, world: World, name: string, head: string, text: string,
                                       user: St, rounds: nat, calls: nat, depth: nat, its: seq<It>, users: seq<St>)
    requires WellFormedWorld(world) && name in world && world[name].body == [Control(head, [Text(text)])]
    requires FirstWord(head) == "for" && 0 < |its| == |users| <= rounds
    requires o.iter(head, user) == (Ok(its[0]), users[0])
    requires forall i :: 0 <= i < |its| - 1 ==> o.next(head, its[i], users[i]) == (Next(its[i + 1]), users[i + 1])
    ensures Compiled(world, name, depth).Some?
    ensures var n := |its| - 1;
            match o.next(head, its[n], users[n])
            case (Failed(e), u) => Runs(o, world, name, user, rounds, calls, depth) == Error(Raise(e), u)
            case (Exhausted, u) => Runs(o, world, name, user, rounds, calls, depth) == Output(Repeat(text, n), u)
            case (Next(_), _) => true
  {
    hide RunControl, Split, Render, RunLines, Compiled, Layout, OpensLoop;
    var chunk, env := Text(text), Env(world, map[]);
    ControlRuns(o, world, name, head, [chunk], user, rounds, calls, depth);
    SplitOne(head, chunk);
    var parts := [Part(head, [chunk])];
    var bodies := RenderBodies(o, env, parts, name, rounds, calls, depth, Size([chunk]));
    assert Statements(parts) == [head];
    var ms := seq(|its|, i requires 0 <= i < |its| => Machine(users[i], Repeat(text, i)));
    forall i | 0 <= i < |its| - 1
      ensures Goes(bodies[0](ms[i].(user := users[i + 1])), ms[i + 1])
    {
      OneRendered(o, env, chunk, name, ms[i].(user := users[i + 1]), rounds, calls, depth);
    }
    ForRuns(o, [head], bodies, Machine(user, ""), rounds, |its| - 1, its, ms);
  }
}
