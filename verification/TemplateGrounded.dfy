/** Templates that do not go round in circles compile: if everything a template refers to exists and ranks below it,
    a bound on nesting as large as its rank is enough. */
module TemplateGrounded {
  import opened Bytes
  import opened TemplateAst
  import opened PythonCode
  import opened TemplateCompiler
  import opened TemplateInheritance

  /** What chunks refer to: templates, by extends and include, and blocks. */
  datatype Ref = OfTemplate(name: string) | OfBlock(name: string)

  type Rank = Ref -> nat

  /** Every template that is extended or included exists and ranks below the bound. */
  predicate Found(world: World, nodes: seq<Node>, rank: Rank, bound: nat) {
    forall n :: n in nodes ==> FoundNode(world, n, rank, bound)
  }

  predicate FoundNode(world: World, n: Node, rank: Rank, bound: nat) {
    match n
    case Control(_, body) => Found(world, body, rank, bound)
    case Apply(_, body) => Found(world, body, rank, bound)
    case NamedBlock(_, body) => Found(world, body, rank, bound)
    case Include(name) => name in world && rank(OfTemplate(name)) < bound
    case Extends(name) => name in world && rank(OfTemplate(name)) < bound
    case _ => true
  }

  ghost predicate Acyclic(world: World, rank: Rank) {
    forall t :: t in world ==> Found(world, world[t].body, rank, rank(OfTemplate(t)))
  }

  /** Chunks that can be written out: blocks and includes rank below the bound, and nothing extends a template any
      more. */
  predicate Writable(nodes: seq<Node>, included: set<string>, rank: Rank, bound: nat) {
    forall n :: n in nodes ==> !n.Intermediate? && WritableNode(n, included, rank, bound)
  }

  predicate WritableNode(n: Node, included: set<string>, rank: Rank, bound: nat) {
    match n
    case Control(_, body) => forall c :: c in body ==> WritableNode(c, included, rank, bound)
    case Apply(_, body) => Writable(body, included, rank, bound)
    case NamedBlock(name, _) => rank(OfBlock(name)) < bound
    case Include(name) => name in included && rank(OfTemplate(name)) < bound
    case Extends(_) => false
    case _ => true
  }

  /** So are all blocks, as resolved, and all templates that are included. */
  ghost predicate AllWritable(env: Env, included: set<string>, rank: Rank) {
    && (forall b :: b in env.blocks ==> Writable(env.blocks[b].body, included, rank, rank(OfBlock(b))))
    && (forall t :: t in included ==>
          t in env.world && Writable(env.world[t].body, included, rank, rank(OfTemplate(t))))
  }

  // ----- ancestors and blocks are found -----

  lemma {:induction false} AncestorsFound(world: World, name: string, rank: Rank, depth: nat)
    requires Acyclic(world, rank) && name in world && rank(OfTemplate(name)) <= depth
    ensures Ancestors(world, name, depth).Some?
    ensures forall t :: t in Ancestors(world, name, depth).value ==> t in world && rank(OfTemplate(t)) <= depth
    decreases depth, 0, 1
  {
    ParentsFound(world, world[name].body, rank, rank(OfTemplate(name)), depth);
  }

  lemma {:induction false} ParentsFound(world: World, body: seq<Node>, rank: Rank, bound: nat, depth: nat)
    requires Acyclic(world, rank) && Found(world, body, rank, bound) && bound <= depth
    ensures ParentsIn(world, body, depth).Some?
    ensures forall t :: t in ParentsIn(world, body, depth).value ==> t in world && rank(OfTemplate(t)) <= depth
    decreases depth, 0, 0, |body|
  {
    if body != [] {
      assert FoundNode(world, body[0], rank, bound);
      if body[0].Extends? {
        AncestorsFound(world, body[0].name, rank, depth - 1);
      }
      ParentsFound(world, body[1..], rank, bound, depth);
    }
  }

  lemma {:induction false} DefinitionsFound(world: World, nodes: seq<Node>, template: string, rank: Rank, bound: nat,
                                            depth: nat)
    requires Acyclic(world, rank) && Found(world, nodes, rank, bound) && bound <= depth
    ensures Definitions(world, nodes, template, depth).Some?
    decreases depth, Size(nodes)
  {
    if nodes != [] {
      var n := nodes[0];
      assert FoundNode(world, n, rank, bound) && Size(nodes) == NodeSize(n) + Size(nodes[1..]);
      DefinitionsFound(world, nodes[1..], template, rank, bound, depth);
      match n
      case NamedBlock(_, body) => DefinitionsFound(world, body, template, rank, bound, depth);
      case Control(_, body) => DefinitionsFound(world, body, template, rank, bound, depth);
      case Apply(_, body) => DefinitionsFound(world, body, template, rank, bound, depth);
      case Include(name) =>
        DefinitionsFound(world, world[name].body, name, rank, rank(OfTemplate(name)), depth - 1);
      case _ =>
    }
  }

  lemma {:induction false} ChainFound(world: World, chain: seq<string>, rank: Rank, depth: nat)
    requires Acyclic(world, rank) && forall t :: t in chain ==> t in world && rank(OfTemplate(t)) <= depth
    ensures ChainDefinitions(world, chain, depth).Some?
  {
    if chain != [] {
      assert chain[0] in chain;
      ChainFound(world, chain[1..], rank, depth);
      DefinitionsFound(world, world[chain[0]].body, chain[0], rank, rank(OfTemplate(chain[0])), depth);
    }
  }

  // ----- every block that is written is in the table -----

  function Names(definitions: seq<Definition>): set<string> {
    set d | d in definitions :: d.0
  }

  /** The names of all blocks in these chunks, and in what they include, are among these. */
  predicate Covered(world: World, nodes: seq<Node>, names: set<string>, depth: nat)
    decreases depth, nodes
  {
    forall n :: n in nodes ==> CoveredNode(world, n, names, depth)
  }

  predicate CoveredNode(world: World, n: Node, names: set<string>, depth: nat)
    decreases depth, n
  {
    match n
    case Control(_, body) => Covered(world, body, names, depth)
    case Apply(_, body) => Covered(world, body, names, depth)
    case NamedBlock(name, body) => name in names && Covered(world, body, names, depth)
    case Include(name) => depth > 0 && name in world && Covered(world, world[name].body, names, depth - 1)
    case _ => true
  }

  lemma {:induction false} CoveredMore(world: World, nodes: seq<Node>, names: set<string>, more: set<string>,
                                       depth: nat, deeper: nat)
    requires Covered(world, nodes, names, depth) && names <= more && depth <= deeper
    ensures Covered(world, nodes, more, deeper)
    decreases depth, nodes
  {
    forall n | n in nodes
      ensures CoveredNode(world, n, more, deeper)
    {
      assert CoveredNode(world, n, names, depth);
      match n
      case Control(_, body) => CoveredMore(world, body, names, more, depth, deeper);
      case Apply(_, body) => CoveredMore(world, body, names, more, depth, deeper);
      case NamedBlock(_, body) => CoveredMore(world, body, names, more, depth, deeper);
      case Include(name) => CoveredMore(world, world[name].body, names, more, depth - 1, deeper - 1);
      case _ =>
    }
  }

  ghost predicate AllCovered(world: World, definitions: seq<Definition>, names: set<string>, depth: nat) {
    forall d :: d in definitions ==> d.0 in names && Covered(world, d.1.body, names, depth)
  }

  lemma AllCoveredMore(world: World, definitions: seq<Definition>, names: set<string>, more: set<string>,
                       depth: nat, deeper: nat)
    requires AllCovered(world, definitions, names, depth) && names <= more && depth <= deeper
    ensures AllCovered(world, definitions, more, deeper)
  {
    forall d | d in definitions
      ensures Covered(world, d.1.body, more, deeper)
    {
      CoveredMore(world, d.1.body, names, more, depth, deeper);
    }
  }

  lemma NamesConcat(a: seq<Definition>, b: seq<Definition>)
    ensures Names(a + b) == Names(a) + Names(b)
  {
  }

  /** Looking for blocks finds those in the chunks, and those in the blocks found. */
  lemma {:induction false} DefinitionsCover(world: World, nodes: seq<Node>, template: string, depth: nat)
    requires Definitions(world, nodes, template, depth).Some?
    ensures var found := Definitions(world, nodes, template, depth).value;
            Covered(world, nodes, Names(found), depth) && AllCovered(world, found, Names(found), depth)
    decreases depth, Size(nodes), 1
  {
    hide CoveredNode, NodeDefinitions, Names;
    if nodes != [] {
      var first := NodeDefinitions(world, nodes[0], template, depth).value;
      var rest := Definitions(world, nodes[1..], template, depth).value;
      NodeCovers(world, nodes[0], template, depth);
      DefinitionsCover(world, nodes[1..], template, depth);
      NamesConcat(first, rest);
      var names := Names(first + rest);
      CoveredMore(world, [nodes[0]], Names(first), names, depth, depth);
      CoveredMore(world, nodes[1..], Names(rest), names, depth, depth);
      AllCoveredMore(world, first, Names(first), names, depth, depth);
      AllCoveredMore(world, rest, Names(rest), names, depth, depth);
      assert nodes == [nodes[0]] + nodes[1..];
    }
  }

  lemma {:induction false} NodeCovers(world: World, n: Node, template: string, depth: nat)
    requires NodeDefinitions(world, n, template, depth).Some?
    ensures var found := NodeDefinitions(world, n, template, depth).value;
            Covered(world, [n], Names(found), depth) && AllCovered(world, found, Names(found), depth)
    decreases depth, NodeSize(n), 0
  {
    hide Definitions, Names;
    match n
    case Control(_, body) => DefinitionsCover(world, body, template, depth);
    case Apply(_, body) => DefinitionsCover(world, body, template, depth);
    case NamedBlock(name, body) =>
      DefinitionsCover(world, body, template, depth);
      var inner := Definitions(world, body, template, depth).value;
      var own := [(name, Block(body, template))];
      NamesConcat(own, inner);
      assert name in Names(own) by {
        assert own[0] in own;
        NameOf(own, own[0]);
      }
      CoveredMore(world, body, Names(inner), Names(own + inner), depth, depth);
      AllCoveredMore(world, inner, Names(inner), Names(own + inner), depth, depth);
    case Include(name) =>
      DefinitionsCover(world, world[name].body, name, depth - 1);
      var inner := Definitions(world, world[name].body, name, depth - 1).value;
      AllCoveredMore(world, inner, Names(inner), Names(inner), depth - 1, depth);
    case _ =>
  }

  lemma NameOf(definitions: seq<Definition>, d: Definition)
    requires d in definitions
    ensures d.0 in Names(definitions)
  {
  }

  lemma {:induction false} ChainCovers(world: World, chain: seq<string>, depth: nat)
    requires ChainDefinitions(world, chain, depth).Some?
    ensures var found := ChainDefinitions(world, chain, depth).value;
            && AllCovered(world, found, Names(found), depth)
            && forall t :: t in chain ==> t in world && Covered(world, world[t].body, Names(found), depth)
  {
    hide Covered, Names;
    if chain != [] {
      var earlier := ChainDefinitions(world, chain[1..], depth).value;
      var own := Definitions(world, world[chain[0]].body, chain[0], depth).value;
      ChainCovers(world, chain[1..], depth);
      DefinitionsCover(world, world[chain[0]].body, chain[0], depth);
      NamesConcat(earlier, own);
      var names := Names(earlier + own);
      AllCoveredMore(world, earlier, Names(earlier), names, depth, depth);
      AllCoveredMore(world, own, Names(own), names, depth, depth);
      forall t | t in chain
        ensures t in world && Covered(world, world[t].body, names, depth)
      {
        if t == chain[0] {
          CoveredMore(world, world[t].body, Names(own), names, depth, depth);
        } else {
          assert t in chain[1..];
          CoveredMore(world, world[t].body, Names(earlier), names, depth, depth);
        }
      }
    }
  }

  /** The table holds the blocks that were found, and each of them is one of these. */
  lemma {:induction false} TableOf(blocks: map<string, Block>, definitions: seq<Definition>)
    ensures var m := Define(blocks, definitions);
            && m.Keys == blocks.Keys + Names(definitions)
            && forall b :: b in m ==> (b, m[b]) in definitions || (b in blocks && m[b] == blocks[b])
    decreases |definitions|
  {
    if definitions != [] {
      var d := definitions[0];
      TableOf(blocks[d.0 := d.1], definitions[1..]);
      assert definitions == [d] + definitions[1..];
      NamesConcat([d], definitions[1..]);
      assert Names([d]) == {d.0} by {
        assert [d][0] in [d];
      }
    }
  }

  // ----- writing succeeds -----

  lemma {:induction false} TransSucceeds(env: Env, nodes: seq<Node>, template: string, k: nat, included: set<string>,
                                         rank: Rank, bound: nat, depth: nat, reach: nat, all: nat)
    requires AllWritable(env, included, rank) && Writable(nodes, included, rank, bound) && bound <= depth
    requires Covered(env.world, nodes, env.blocks.Keys, reach) && reach <= all
    requires forall b :: b in env.blocks ==> Covered(env.world, env.blocks[b].body, env.blocks.Keys, all)
    ensures Trans(env, nodes, template, k, depth).Some?
    decreases depth, Size(nodes), 1
  {
    hide TransNode, WritableNode, CoveredNode;
    if nodes != [] {
      assert nodes[0] in nodes;
      NodeSucceeds(env, nodes[0], template, k, included, rank, bound, depth, reach, all);
      var (_, k1) := TransNode(env, nodes[0], template, k, depth).value;
      TransSucceeds(env, nodes[1..], template, k1, included, rank, bound, depth, reach, all);
    }
  }

  lemma {:induction false} NodeSucceeds(env: Env, n: Node, template: string, k: nat, included: set<string>,
                                        rank: Rank, bound: nat, depth: nat, reach: nat, all: nat)
    requires AllWritable(env, included, rank) && bound <= depth
    requires !n.Intermediate? && WritableNode(n, included, rank, bound)
    requires CoveredNode(env.world, n, env.blocks.Keys, reach) && reach <= all
    requires forall b :: b in env.blocks ==> Covered(env.world, env.blocks[b].body, env.blocks.Keys, all)
    ensures TransNode(env, n, template, k, depth).Some?
    decreases depth, NodeSize(n), 0
  {
    hide Trans, TransParts;
    match n
    case Control(statement, body) =>
      PartsSucceed(env, Split(statement, body), template, k, included, rank, bound, depth, reach, all, Size(body));
    case Apply(_, body) =>
      TransSucceeds(env, body, template, k + 1, included, rank, bound, depth, reach, all);
    case NamedBlock(name, _) =>
      TransSucceeds(env, env.blocks[name].body, env.blocks[name].template, k, included, rank, rank(OfBlock(name)),
                    depth - 1, all, all);
    case Include(name) =>
      TransSucceeds(env, env.world[name].body, name, k, included, rank, rank(OfTemplate(name)),
                    depth - 1, reach - 1, all);
    case _ =>
  }

  lemma {:induction false} PartsSucceed(env: Env, parts: seq<Part>, template: string, k: nat, included: set<string>,
                                        rank: Rank, bound: nat, depth: nat, reach: nat, all: nat, size: nat)
    requires forall i :: 0 <= i < |parts| ==> Size(parts[i].nodes) <= size
    requires forall i, n :: 0 <= i < |parts| && n in parts[i].nodes ==>
               !n.Intermediate? && WritableNode(n, included, rank, bound)
                 && CoveredNode(env.world, n, env.blocks.Keys, reach)
    requires AllWritable(env, included, rank) && bound <= depth && reach <= all
    requires forall b :: b in env.blocks ==> Covered(env.world, env.blocks[b].body, env.blocks.Keys, all)
    ensures TransParts(env, parts, template, k, depth, size).Some?
    decreases depth, size, 2, |parts|
  {
    hide Trans, WritableNode, CoveredNode;
    if parts != [] {
      TransSucceeds(env, parts[0].nodes, template, k, included, rank, bound, depth, reach, all);
      var (_, k1) := Trans(env, parts[0].nodes, template, k, depth).value;
      PartsSucceed(env, parts[1..], template, k1, included, rank, bound, depth, reach, all, size);
    }
  }

  /** If the references between templates go down in rank, the ancestors and the blocks of each are found; if those
      between the blocks, as resolved, and what they include do so too, the template compiles. No block is
      missing. */
  lemma AcyclicCompiles(world: World, name: string, rank: Rank, included: set<string>, depth: nat)
    requires Acyclic(world, rank) && name in world && rank(OfTemplate(name)) <= depth
    ensures CompileEnv(world, name, depth).Some?
    ensures var (env, root) := CompileEnv(world, name, depth).value;
            && root in world
            && (AllWritable(env, included, rank) && Writable(world[root].body, included, rank, depth) ==>
                  Compiled(world, name, depth).Some?)
  {
    hide Ancestors, ChainDefinitions, Trans, Covered, Writable, Found;
    AncestorsFound(world, name, rank, depth);
    var chain := Ancestors(world, name, depth).value;
    ChainFound(world, chain, rank, depth);
    ChainCovers(world, chain, depth);
    var definitions := ChainDefinitions(world, chain, depth).value;
    TableOf(map[], definitions);
    ChainNotEmpty(world, name, depth);
    var (env, root) := CompileEnv(world, name, depth).value;
    assert root in chain && env.blocks.Keys == Names(definitions);
    if AllWritable(env, included, rank) && Writable(world[root].body, included, rank, depth) {
      TransSucceeds(env, world[root].body, root, 0, included, rank, depth, depth, depth, depth);
    }
  }

  lemma ChainNotEmpty(world: World, name: string, depth: nat)
    requires Ancestors(world, name, depth).Some?
    ensures Ancestors(world, name, depth).value != []
  {
  }
}
