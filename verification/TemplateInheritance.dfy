/** Template inheritance and the compilation of a whole template (`Template` in tornado/template.py). */
module TemplateInheritance {
  import opened Bytes
  import opened TemplateAst
  import opened PythonCode
  import opened TemplateCompiler

  type Definition = (string, Block)

  /** The named blocks of a chunk list and of everything it includes, in the order they are visited: a block
      before the blocks inside it. None when an included template is missing or includes nest too deeply. */
  function Definitions(world: World, nodes: seq<Node>, template: string, depth: nat): Option<seq<Definition>>
    decreases depth, Size(nodes), 1
  {
    if nodes == [] then Some([]) else
    match NodeDefinitions(world, nodes[0], template, depth)
    case None => None
    case Some(first) =>
      match Definitions(world, nodes[1..], template, depth)
      case None => None
      case Some(rest) => Some(first + rest)
  }

  function NodeDefinitions(world: World, n: Node, template: string, depth: nat): Option<seq<Definition>>
    decreases depth, NodeSize(n), 0
  {
    match n
    case NamedBlock(name, body) =>
      (match Definitions(world, body, template, depth)
       case None => None
       case Some(inner) => Some([(name, Block(body, template))] + inner))
    case Control(_, body) => Definitions(world, body, template, depth)
    case Apply(_, body) => Definitions(world, body, template, depth)
    case Include(name) =>
      if depth == 0 || name !in world then None else Definitions(world, world[name].body, name, depth - 1)
    case _ => Some([])
  }

  /** A definition replaces any earlier one of the same name. */
  function Define(blocks: map<string, Block>, definitions: seq<Definition>): map<string, Block>
    decreases |definitions|
  {
    if definitions == [] then blocks else Define(blocks[definitions[0].0 := definitions[0].1], definitions[1..])
  }

  lemma {:induction false} DefineConcat(blocks: map<string, Block>, a: seq<Definition>, b: seq<Definition>)
    ensures Define(blocks, a + b) == Define(Define(blocks, a), b)
    decreases |a|
  {
    if a == [] {
      assert a + b == b;
    } else {
      assert (a + b)[1..] == a[1..] + b;
      DefineConcat(blocks[a[0].0 := a[0].1], a[1..], b);
    }
  }

  /** The last definition of a name in a list. */
  function LastNamed(definitions: seq<Definition>, name: string): Option<Block> {
    if definitions == [] then None
    else if definitions[|definitions| - 1].0 == name then Some(definitions[|definitions| - 1].1)
    else LastNamed(definitions[..|definitions| - 1], name)
  }

  lemma {:induction false} DefineLooksUpLast(blocks: map<string, Block>, definitions: seq<Definition>, name: string)
    ensures var m := Define(blocks, definitions);
            match LastNamed(definitions, name)
            case Some(block) => name in m && m[name] == block
            case None => (name in m <==> name in blocks) && (name in m ==> m[name] == blocks[name])
    decreases |definitions|
  {
    if definitions != [] {
      var last := |definitions| - 1;
      var front := definitions[..last];
      assert definitions == front + [definitions[last]];
      DefineConcat(blocks, front, [definitions[last]]);
      assert [definitions[last]][1..] == [];
      DefineLooksUpLast(blocks, front, name);
    }
  }

  /** The dict that `find_named_blocks` fills in. */
  class NamedBlocks {
    var blocks: map<string, Block>

    constructor ()
      ensures blocks == map[]
    {
      blocks := map[];
    }

    method FindAll(world: World, nodes: seq<Node>, template: string, depth: nat) returns (ok: bool)
      modifies this
      ensures var r := Definitions(world, nodes, template, depth);
              ok == r.Some? && (ok ==> blocks == Define(old(blocks), r.value))
      decreases depth, Size(nodes), 1
    {
      hide NodeDefinitions;
      ghost var whole := Definitions(world, nodes, template, depth);
      var i := 0;
      while i < |nodes|
        invariant 0 <= i <= |nodes| && Size(nodes[i..]) <= Size(nodes)
        invariant var rest := Definitions(world, nodes[i..], template, depth);
                  whole.Some? == rest.Some? &&
                  (rest.Some? ==> Define(old(blocks), whole.value) == Define(blocks, rest.value))
      {
        assert nodes[i..][1..] == nodes[i + 1..];
        ghost var first := NodeDefinitions(world, nodes[i], template, depth);
        ghost var rest := Definitions(world, nodes[i + 1..], template, depth);
        if first.Some? && rest.Some? {
          DefineConcat(blocks, first.value, rest.value);
        }
        ok := FindIn(world, nodes[i], template, depth);
        if !ok {
          return;
        }
        i := i + 1;
      }
      assert nodes[i..] == [];
      return true;
    }

    method FindIn(world: World, n: Node, template: string, depth: nat) returns (ok: bool)
      modifies this
      ensures var r := NodeDefinitions(world, n, template, depth);
              ok == r.Some? && (ok ==> blocks == Define(old(blocks), r.value))
      decreases depth, NodeSize(n), 0
    {
      match n
      case NamedBlock(name, body) =>
        ghost var inner := Definitions(world, body, template, depth);
        if inner.Some? {
          assert ([(name, Block(body, template))] + inner.value)[1..] == inner.value;
        }
        blocks := blocks[name := Block(body, template)];
        ok := FindAll(world, body, template, depth);
      case Control(_, body) =>
        ok := FindAll(world, body, template, depth);
      case Apply(_, body) =>
        ok := FindAll(world, body, template, depth);
      case Include(name) =>
        if depth == 0 || name !in world {
          return false;
        }
        ok := FindAll(world, world[name].body, name, depth - 1);
      case _ =>
        return true;
    }
  }

  /** A template, then everything it extends, nearest first. */
  function Ancestors(world: World, name: string, depth: nat): Option<seq<string>>
    decreases depth, 0, 1
  {
    if name !in world then None else
    match ParentsIn(world, world[name].body, depth)
    case None => None
    case Some(rest) => Some([name] + rest)
  }

  function ParentsIn(world: World, body: seq<Node>, depth: nat): Option<seq<string>>
    decreases depth, 0, 0, |body|
  {
    if body == [] then Some([])
    else if !body[0].Extends? then ParentsIn(world, body[1..], depth)
    else if depth == 0 then None
    else
      match Ancestors(world, body[0].name, depth - 1)
      case None => None
      case Some(first) =>
        match ParentsIn(world, body[1..], depth)
        case None => None
        case Some(rest) => Some(first + rest)
  }

  /** `_get_ancestors` */
  method GetAncestors(world: World, name: string, depth: nat) returns (r: Option<seq<string>>)
    ensures r == Ancestors(world, name, depth)
    decreases depth
  {
    if name !in world {
      return None;
    }
    var body := world[name].body;
    var ancestors := [name];
    assert body[0..] == body;
    var i := 0;
    while i < |body|
      invariant 0 <= i <= |body|
      invariant match ParentsIn(world, body[i..], depth)
                case None => Ancestors(world, name, depth) == None
                case Some(rest) => Ancestors(world, name, depth) == Some(ancestors + rest)
    {
      assert body[i..][1..] == body[i + 1..];
      if body[i].Extends? {
        if depth == 0 {
          return None;
        }
        var more := GetAncestors(world, body[i].name, depth - 1);
        if more.None? {
          return None;
        }
        assert forall rest :: ancestors + (more.value + rest) == (ancestors + more.value) + rest;
        ancestors := ancestors + more.value;
      }
      i := i + 1;
    }
    assert body[i..] == [];
    assert ancestors + [] == ancestors;
    return Some(ancestors);
  }

  /** The definitions of a chain of templates, given nearest first, in the order they are made: the farthest
      ancestor's first. */
  function ChainDefinitions(world: World, chain: seq<string>, depth: nat): Option<seq<Definition>> {
    if chain == [] then Some([]) else
    match ChainDefinitions(world, chain[1..], depth)
    case None => None
    case Some(earlier) =>
      if chain[0] !in world then None else
      match Definitions(world, world[chain[0]].body, chain[0], depth)
      case None => None
      case Some(own) => Some(earlier + own)
  }

  /** What inheritance promises: a block comes from the nearest template that defines it. */
  function Nearest(world: World, chain: seq<string>, depth: nat, name: string): Option<Block> {
    if chain == [] || chain[0] !in world then None else
    match Definitions(world, world[chain[0]].body, chain[0], depth)
    case None => None
    case Some(own) =>
      if LastNamed(own, name).Some? then LastNamed(own, name) else Nearest(world, chain[1..], depth, name)
  }

  lemma {:induction false} LastNamedConcat(a: seq<Definition>, b: seq<Definition>, name: string)
    ensures LastNamed(a + b, name) == if LastNamed(b, name).Some? then LastNamed(b, name) else LastNamed(a, name)
    decreases |b|
  {
    if b == [] {
      assert a + b == a;
    } else {
      assert (a + b)[..|a + b| - 1] == a + b[..|b| - 1];
      LastNamedConcat(a, b[..|b| - 1], name);
    }
  }

  /** Filling the table from the farthest ancestor to the template itself makes every name resolve to its
      nearest definition, and leaves no other name in it. */
  lemma {:induction false} BlocksResolveToNearest(world: World, chain: seq<string>, depth: nat, name: string)
    requires ChainDefinitions(world, chain, depth).Some?
    ensures var blocks := Define(map[], ChainDefinitions(world, chain, depth).value);
            match Nearest(world, chain, depth, name)
            case Some(block) => name in blocks && blocks[name] == block
            case None => name !in blocks
  {
    NearestIsLast(world, chain, depth, name);
    DefineLooksUpLast(map[], ChainDefinitions(world, chain, depth).value, name);
  }

  lemma {:induction false} NearestIsLast(world: World, chain: seq<string>, depth: nat, name: string)
    requires ChainDefinitions(world, chain, depth).Some?
    ensures LastNamed(ChainDefinitions(world, chain, depth).value, name) == Nearest(world, chain, depth, name)
  {
    if chain != [] {
      NearestIsLast(world, chain[1..], depth, name);
      LastNamedConcat(ChainDefinitions(world, chain[1..], depth).value,
                      Definitions(world, world[chain[0]].body, chain[0], depth).value, name);
    }
  }

  /** The table for a chain of templates, and the farthest of them, whose body is the frame of the output. */
  function CompileEnv(world: World, name: string, depth: nat): Option<(Env, string)> {
    match Ancestors(world, name, depth)
    case None => None
    case Some(chain) =>
      match ChainDefinitions(world, chain, depth)
      case None => None
      case Some(definitions) => Some((Env(world, Define(map[], definitions)), chain[|chain| - 1]))
  }

  /** The module that a template compiles to: `_tt_execute` around the frame's statements. */
  function Compiled(world: World, name: string, depth: nat): Option<seq<Stmt>> {
    match CompileEnv(world, name, depth)
    case None => None
    case Some((env, root)) =>
      if root !in world then None else
      match Trans(env, world[root].body, root, 0, depth)
      case None => None
      case Some((suite, _)) =>
        Some([Function(Execute, [Simple(NewBuffer), Simple(BindAppend)] + suite + [Simple(ReturnJoin)])])
  }

  ghost predicate WellFormedWorld(world: World) {
    forall t :: t in world ==> WellFormed(world[t].body)
  }

  /** `Template._generate_python`: the lines written are the layout of the module, indented from column 0. */
  method GeneratePython(world: World, name: string, depth: nat) returns (r: Option<seq<Line>>)
    requires WellFormedWorld(world)
    ensures match Compiled(world, name, depth)
            case None => r == None
            case Some(suite) => r == Some(Layout(suite, 0))
  {
    var chain := GetAncestors(world, name, depth);
    if chain.None? {
      return None;
    }
    var ancestors := chain.value;
    var table := new NamedBlocks();
    var i := |ancestors|;
    while i > 0
      invariant 0 <= i <= |ancestors|
      invariant ChainDefinitions(world, ancestors[i..], depth).Some?
      invariant table.blocks == Define(map[], ChainDefinitions(world, ancestors[i..], depth).value)
    {
      i := i - 1;
      assert ancestors[i..][1..] == ancestors[i + 1..];
      if ancestors[i] !in world {
        SuffixFails(world, ancestors, depth, i);
        return None;
      }
      ghost var earlier := ChainDefinitions(world, ancestors[i + 1..], depth).value;
      ghost var own := Definitions(world, world[ancestors[i]].body, ancestors[i], depth);
      var ok := table.FindAll(world, world[ancestors[i]].body, ancestors[i], depth);
      if !ok {
        SuffixFails(world, ancestors, depth, i);
        return None;
      }
      DefineConcat(map[], earlier, own.value);
    }
    assert ancestors[0..] == ancestors;
    BlocksWellFormed(world, ancestors, depth);
    var root := ancestors[|ancestors| - 1];
    if root !in world {
      return None;
    }
    var writer := new CodeWriter(Env(world, table.blocks), root);
    r := GenerateFile(writer, world[root].body, root, depth);
  }

  /** `_File.generate` */
  method GenerateFile(writer: CodeWriter, body: seq<Node>, root: string, depth: nat) returns (r: Option<seq<Line>>)
    requires WellFormedEnv(writer.env) && WellFormed(body)
    requires writer.file == [] && writer.indent == 0 && writer.applyCounter == 0 && writer.currentTemplate == root
    modifies writer
    ensures match Trans(writer.env, body, root, 0, depth)
            case None => r == None
            case Some((suite, _)) =>
              r == Some(Layout([Function(Execute,
                                         [Simple(NewBuffer), Simple(BindAppend)] + suite + [Simple(ReturnJoin)])], 0))
  {
    LinesOfSuite(writer.env, body, root, 0, depth, 1);
    writer.WriteLine(Def(Execute), 0);
    writer.indent := writer.indent + 1;
    writer.WriteLine(NewBuffer, 1);
    writer.WriteLine(BindAppend, 1);
    var ok := writer.GenerateAll(body, depth);
    writer.WriteLine(ReturnJoin, 1);
    writer.indent := writer.indent - 1;
    if !ok {
      return None;
    }
    ghost var suite := Trans(writer.env, body, root, 0, depth).value.0;
    FunctionLayout(suite, 1);
    ghost var body' := [Simple(NewBuffer), Simple(BindAppend)] + suite + [Simple(ReturnJoin)];
    LayoutOne(Function(Execute, body'), 0);
    assert writer.file == [Line(0, Def(Execute))] + Layout(body', 1);
    return Some(writer.file);
  }

  lemma {:induction false} SuffixFails(world: World, chain: seq<string>, depth: nat, i: nat)
    requires i <= |chain| && ChainDefinitions(world, chain[i..], depth).None?
    ensures ChainDefinitions(world, chain, depth).None?
  {
    if i == 0 {
      assert chain[0..] == chain;
    } else {
      assert chain[1..][i - 1..] == chain[i..];
      SuffixFails(world, chain[1..], depth, i - 1);
    }
  }

  // Every block in the table is well formed, because every template is.

  ghost predicate AllWellFormed(definitions: seq<Definition>) {
    forall d :: d in definitions ==> WellFormed(d.1.body)
  }

  lemma {:induction false} DefinitionsWellFormed(world: World, nodes: seq<Node>, template: string, depth: nat)
    requires WellFormedWorld(world) && Definitions(world, nodes, template, depth).Some?
    requires forall n :: n in nodes ==> WellFormedNode(n)
    ensures AllWellFormed(Definitions(world, nodes, template, depth).value)
    decreases depth, Size(nodes)
  {
    if nodes != [] {
      var n := nodes[0];
      assert n in nodes && WellFormedNode(n) && Size(nodes) == NodeSize(n) + Size(nodes[1..]);
      DefinitionsWellFormed(world, nodes[1..], template, depth);
      match n
      case NamedBlock(_, body) => DefinitionsWellFormed(world, body, template, depth);
      case Control(_, body) => DefinitionsWellFormed(world, body, template, depth);
      case Apply(_, body) => DefinitionsWellFormed(world, body, template, depth);
      case Include(name) => DefinitionsWellFormed(world, world[name].body, name, depth - 1);
      case _ =>
    }
  }

  lemma {:induction false} ChainWellFormed(world: World, chain: seq<string>, depth: nat)
    requires WellFormedWorld(world) && ChainDefinitions(world, chain, depth).Some?
    ensures AllWellFormed(ChainDefinitions(world, chain, depth).value)
  {
    if chain != [] {
      ChainWellFormed(world, chain[1..], depth);
      DefinitionsWellFormed(world, world[chain[0]].body, chain[0], depth);
    }
  }

  lemma {:induction false} DefineWellFormed(blocks: map<string, Block>, definitions: seq<Definition>)
    requires AllWellFormed(definitions) && WellFormedBlocks(blocks)
    ensures WellFormedBlocks(Define(blocks, definitions))
    decreases |definitions|
  {
    if definitions != [] {
      assert definitions[0] in definitions;
      var more := blocks[definitions[0].0 := definitions[0].1];
      DefineWellFormed(more, definitions[1..]);
    }
  }

  lemma BlocksWellFormed(world: World, chain: seq<string>, depth: nat)
    requires WellFormedWorld(world) && ChainDefinitions(world, chain, depth).Some?
    ensures WellFormedEnv(Env(world, Define(map[], ChainDefinitions(world, chain, depth).value)))
  {
    ChainWellFormed(world, chain, depth);
    DefineWellFormed(map[], ChainDefinitions(world, chain, depth).value);
  }
}
