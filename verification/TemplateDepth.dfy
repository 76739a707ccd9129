/** The bound on how deeply templates may nest only cuts off: once a template compiles, a larger bound gives the
    same module. */
module TemplateDepth {
  import opened Bytes
  import opened TemplateAst
  import opened PythonCode
  import opened TemplateCompiler
  import opened TemplateInheritance

  lemma {:induction false} TransMore(env: Env, nodes: seq<Node>, template: string, k: nat, depth: nat)
    requires Trans(env, nodes, template, k, depth).Some?
    ensures Trans(env, nodes, template, k, depth + 1) == Trans(env, nodes, template, k, depth)
    decreases depth, Size(nodes), 1
  {
    hide TransNode;
    if nodes != [] {
      NodeMore(env, nodes[0], template, k, depth);
      TransMore(env, nodes[1..], template, TransNode(env, nodes[0], template, k, depth).value.1, depth);
    }
  }

  lemma {:induction false} NodeMore(env: Env, n: Node, template: string, k: nat, depth: nat)
    requires TransNode(env, n, template, k, depth).Some?
    ensures TransNode(env, n, template, k, depth + 1) == TransNode(env, n, template, k, depth)
    decreases depth, NodeSize(n), 0
  {
    hide Trans, TransParts, Split;
    match n
    case Control(statement, body) =>
      PartsMore(env, Split(statement, body), template, k, depth, Size(body));
    case Apply(_, body) =>
      TransMore(env, body, template, k + 1, depth);
    case NamedBlock(name, _) =>
      TransMore(env, env.blocks[name].body, env.blocks[name].template, k, depth - 1);
    case Include(name) =>
      TransMore(env, env.world[name].body, name, k, depth - 1);
    case _ =>
  }

  lemma {:induction false} PartsMore(env: Env, parts: seq<Part>, template: string, k: nat, depth: nat, size: nat)
    requires forall i :: 0 <= i < |parts| ==> Size(parts[i].nodes) <= size
    requires TransParts(env, parts, template, k, depth, size).Some?
    ensures TransParts(env, parts, template, k, depth + 1, size) == TransParts(env, parts, template, k, depth, size)
    decreases depth, size, 2, |parts|
  {
    hide Trans;
    if parts != [] {
      TransMore(env, parts[0].nodes, template, k, depth);
      PartsMore(env, parts[1..], template, Trans(env, parts[0].nodes, template, k, depth).value.1, depth, size);
    }
  }

  lemma {:induction false} DefinitionsMore(world: World, nodes: seq<Node>, template: string, depth: nat)
    requires Definitions(world, nodes, template, depth).Some?
    ensures Definitions(world, nodes, template, depth + 1) == Definitions(world, nodes, template, depth)
    decreases depth, Size(nodes), 1
  {
    if nodes != [] {
      NodeDefinitionsMore(world, nodes[0], template, depth);
      DefinitionsMore(world, nodes[1..], template, depth);
    }
  }

  lemma {:induction false} NodeDefinitionsMore(world: World, n: Node, template: string, depth: nat)
    requires NodeDefinitions(world, n, template, depth).Some?
    ensures NodeDefinitions(world, n, template, depth + 1) == NodeDefinitions(world, n, template, depth)
    decreases depth, NodeSize(n), 0
  {
    hide Definitions;
    match n
    case NamedBlock(_, body) => DefinitionsMore(world, body, template, depth);
    case Control(_, body) => DefinitionsMore(world, body, template, depth);
    case Apply(_, body) => DefinitionsMore(world, body, template, depth);
    case Include(name) => DefinitionsMore(world, world[name].body, name, depth - 1);
    case _ =>
  }

  lemma {:induction false} AncestorsMore(world: World, name: string, depth: nat)
    requires Ancestors(world, name, depth).Some?
    ensures Ancestors(world, name, depth + 1) == Ancestors(world, name, depth)
    decreases depth, 0, 1
  {
    ParentsMore(world, world[name].body, depth);
  }

  lemma {:induction false} ParentsMore(world: World, body: seq<Node>, depth: nat)
    requires ParentsIn(world, body, depth).Some?
    ensures ParentsIn(world, body, depth + 1) == ParentsIn(world, body, depth)
    decreases depth, 0, 0, |body|
  {
    if body != [] {
      if body[0].Extends? {
        AncestorsMore(world, body[0].name, depth - 1);
      }
      ParentsMore(world, body[1..], depth);
    }
  }

  lemma {:induction false} ChainMore(world: World, chain: seq<string>, depth: nat)
    requires ChainDefinitions(world, chain, depth).Some?
    ensures ChainDefinitions(world, chain, depth + 1) == ChainDefinitions(world, chain, depth)
  {
    if chain != [] {
      ChainMore(world, chain[1..], depth);
      DefinitionsMore(world, world[chain[0]].body, chain[0], depth);
    }
  }

  /** What a template compiles to does not depend on the bound. */
  lemma {:induction false} CompiledMore(world: World, name: string, depth: nat, more: nat)
    requires Compiled(world, name, depth).Some? && depth <= more
    ensures Compiled(world, name, more) == Compiled(world, name, depth)
    decreases more - depth
  {
    hide Ancestors, ChainDefinitions, Trans;
    if depth < more {
      var chain := Ancestors(world, name, depth).value;
      AncestorsMore(world, name, depth);
      ChainMore(world, chain, depth);
      var (env, root) := CompileEnv(world, name, depth).value;
      TransMore(env, world[root].body, root, 0, depth);
      CompiledMore(world, name, depth + 1, more);
    }
  }
}
