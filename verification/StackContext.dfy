/** Stack contexts (tornado/stack_context.py): captured chains of contexts share nodes whose parent links are
    spliced in place, and wrapped calls enter and leave the contexts of their chain. */
module StackContexts {
  import opened Bytes

  type Exception = nat

  /** The value of `_state.contexts`: the stack contexts from the outermost inwards, and the head of the chain. */
  datatype Contexts = Contexts(stack: seq<Node>, head: Node?)

  /** A `StackContext`, or an `ExceptionStackContext`. */
  class Node {
    const isHandler: bool
    var active: bool
    var oldContexts: Contexts
    ghost const rank: nat   // larger than the rank of every node that it ever points to

    constructor (isHandler: bool, below: Contexts, ghost rank: nat)
      ensures this.isHandler == isHandler && active && oldContexts == below && this.rank == rank
    {
      this.isHandler, active, oldContexts, this.rank := isHandler, true, below, rank;
    }
  }

  // ----- chains, as values -----

  type Links = map<Node, Node?>

  ghost predicate Acyclic(links: Links) {
    forall n :: n in links && links[n] != null ==> links[n] in links && links[n].rank < n.rank
  }

  ghost predicate Within(links: Links, x: Node?) {
    x == null || x in links
  }

  /** From a head through the parent links, innermost first. */
  ghost function Chain(links: Links, x: Node?): seq<Node>
    requires Acyclic(links) && Within(links, x)
    decreases if x == null then 0 else x.rank + 1
  {
    if x == null then [] else [x] + Chain(links, links[x])
  }

  ghost function Filter(s: seq<Node>, dead: set<Node>): seq<Node> {
    if s == [] then []
    else if s[0] !in dead then [s[0]] + Filter(s[1..], dead)
    else Filter(s[1..], dead)
  }

  function StackOnly(s: seq<Node>): seq<Node> {
    if s == [] then [] else if s[0].isHandler then StackOnly(s[1..]) else [s[0]] + StackOnly(s[1..])
  }

  function Reverse(s: seq<Node>): (r: seq<Node>)
    ensures |r| == |s|
  {
    if s == [] then [] else Reverse(s[1..]) + [s[0]]
  }

  /** `t` is `s` without some elements, all of them dead. */
  ghost predicate Pruned(s: seq<Node>, t: seq<Node>, dead: set<Node>) {
    if s == [] then t == []
    else (t != [] && s[0] == t[0] && Pruned(s[1..], t[1..], dead)) || (s[0] in dead && Pruned(s[1..], t, dead))
  }

  lemma {:induction false} PrunedRefl(s: seq<Node>, dead: set<Node>)
    ensures Pruned(s, s, dead)
  {
    if s != [] {
      PrunedRefl(s[1..], dead);
    }
  }

  lemma {:induction false} PrunedTrans(s: seq<Node>, t: seq<Node>, u: seq<Node>, a: set<Node>, b: set<Node>)
    requires Pruned(s, t, a) && Pruned(t, u, b) && a <= b
    ensures Pruned(s, u, b)
    decreases |s|
  {
    if s != [] {
      if t != [] && s[0] == t[0] && Pruned(s[1..], t[1..], a) {
        if u != [] && t[0] == u[0] && Pruned(t[1..], u[1..], b) {
          PrunedTrans(s[1..], t[1..], u[1..], a, b);
        } else {
          PrunedTrans(s[1..], t[1..], u, a, b);
        }
      } else {
        PrunedTrans(s[1..], t, u, a, b);
      }
    }
  }

  lemma {:induction false} PrunedFilter(s: seq<Node>, t: seq<Node>, dead: set<Node>)
    requires Pruned(s, t, dead)
    ensures Filter(s, dead) == Filter(t, dead)
    decreases |s|
  {
    if s != [] {
      if t != [] && s[0] == t[0] && Pruned(s[1..], t[1..], dead) {
        PrunedFilter(s[1..], t[1..], dead);
      } else {
        PrunedFilter(s[1..], t, dead);
      }
    }
  }

  /** Nothing is left out while everything stays active. */
  lemma {:induction false} PrunedAllActive(s: seq<Node>, t: seq<Node>, dead: set<Node>)
    requires Pruned(s, t, dead) && forall n :: n in s ==> n !in dead
    ensures s == t
    decreases |s|
  {
    if s != [] {
      assert s[0] !in dead;
      PrunedAllActive(s[1..], t[1..], dead);
      assert s == [s[0]] + s[1..] && t == [t[0]] + t[1..];
    }
  }

  lemma {:induction false} PrunedAppend(p: seq<Node>, s: seq<Node>, t: seq<Node>, dead: set<Node>)
    requires Pruned(s, t, dead)
    ensures Pruned(p + s, p + t, dead)
  {
    if p == [] {
      assert p + s == s && p + t == t;
    } else {
      assert (p + s)[1..] == p[1..] + s && (p + t)[1..] == p[1..] + t;
      PrunedAppend(p[1..], s, t, dead);
    }
  }

  lemma {:induction false} FilterTwice(s: seq<Node>, a: set<Node>, b: set<Node>)
    requires a <= b
    ensures Filter(Filter(s, a), b) == Filter(s, b)
  {
    if s != [] {
      FilterTwice(s[1..], a, b);
      if s[0] !in a {
        assert ([s[0]] + Filter(s[1..], a))[1..] == Filter(s[1..], a);
      }
    }
  }

  lemma {:induction false} FilterAll(s: seq<Node>, dead: set<Node>)
    requires forall n :: n in s ==> n !in dead
    ensures Filter(s, dead) == s
  {
    if s != [] {
      FilterAll(s[1..], dead);
      assert s == [s[0]] + s[1..];
    }
  }

  lemma {:induction false} FilterConcat(s: seq<Node>, t: seq<Node>, dead: set<Node>)
    ensures Filter(s + t, dead) == Filter(s, dead) + Filter(t, dead)
  {
    if s == [] {
      assert s + t == t;
    } else {
      assert (s + t)[1..] == s[1..] + t;
      FilterConcat(s[1..], t, dead);
    }
  }

  lemma {:induction false} FilterReverse(s: seq<Node>, dead: set<Node>)
    ensures Filter(Reverse(s), dead) == Reverse(Filter(s, dead))
  {
    if s != [] {
      FilterReverse(s[1..], dead);
      FilterConcat(Reverse(s[1..]), [s[0]], dead);
      assert [s[0]][1..] == [];
      if s[0] !in dead {
        assert ([s[0]] + Filter(s[1..], dead))[1..] == Filter(s[1..], dead);
      }
    }
  }

  lemma {:induction false} FilterStackOnly(s: seq<Node>, dead: set<Node>)
    ensures Filter(StackOnly(s), dead) == StackOnly(Filter(s, dead))
  {
    if s != [] {
      FilterStackOnly(s[1..], dead);
      if !s[0].isHandler {
        assert ([s[0]] + StackOnly(s[1..]))[1..] == StackOnly(s[1..]);
      }
      if s[0] !in dead {
        assert ([s[0]] + Filter(s[1..], dead))[1..] == Filter(s[1..], dead);
      }
    }
  }

  /** Making a node skip a parent that is not active prunes chains, of that node and of every other. */
  lemma {:induction false} Splice(links: Links, ctx: Node, dead: set<Node>, x: Node?)
    requires Acyclic(links) && Within(links, x)
    requires ctx in links && links[ctx] != null && links[ctx] in dead
    ensures var links' := links[ctx := links[links[ctx]]];
            Acyclic(links') && Within(links', x) && Pruned(Chain(links, x), Chain(links', x), dead)
    decreases if x == null then 0 else x.rank + 1
  {
    var links' := links[ctx := links[links[ctx]]];
    assert Acyclic(links');
    if x != null {
      var p := links[ctx];
      var s, t := Chain(links, x), Chain(links', x);
      if x == ctx {
        Splice(links, ctx, dead, links[p]);
        assert s[1..] == Chain(links, p) && s[1..][1..] == Chain(links, links[p]);
        assert t[1..] == Chain(links', links[p]);
        assert Pruned(s[1..], t[1..], dead);
      } else {
        Splice(links, ctx, dead, links[x]);
        assert s[1..] == Chain(links, links[x]) && t[1..] == Chain(links', links[x]);
      }
    }
  }

  lemma RankFalls(links: Links, n: Node)
    requires Acyclic(links) && n in links
    ensures links[n] != null ==> links[n] in links && links[n].rank < n.rank
  {
  }

  /** The nodes of a chain from `from` up to, not including, `to`. */
  ghost predicate Path(links: Links, path: seq<Node>, from: Node?, to: Node?) {
    if path == [] then from == to
    else from == path[0] && path[0] in links && Path(links, path[1..], links[path[0]], to)
  }

  lemma {:induction false} PathSnoc(links: Links, path: seq<Node>, from: Node?, to: Node)
    requires Path(links, path, from, to) && to in links
    ensures Path(links, path + [to], from, links[to])
  {
    if path == [] {
      assert path + [to] == [to] && [to][1..] == [];
    } else {
      assert (path + [to])[1..] == path[1..] + [to];
      PathSnoc(links, path[1..], links[path[0]], to);
    }
  }

  lemma {:induction false} PathChain(links: Links, path: seq<Node>, from: Node?, to: Node?)
    requires Acyclic(links) && Within(links, from) && Within(links, to)
    requires Path(links, path, from, to)
    ensures Chain(links, from) == path + Chain(links, to)
    ensures to != null ==> forall n :: n in path ==> n.rank > to.rank
  {
    if path == [] {
      assert path + Chain(links, to) == Chain(links, to);
    } else {
      PathChain(links, path[1..], links[path[0]], to);
      assert path == [path[0]] + path[1..];
      assert path + Chain(links, to) == [path[0]] + (path[1..] + Chain(links, to));
      if path[1..] == [] {
        assert links[path[0]] == to;
      } else {
        assert links[path[0]] == path[1..][0];
      }
    }
  }

  lemma {:induction false} PathFrame(links: Links, links': Links, path: seq<Node>, from: Node?, to: Node?)
    requires Path(links, path, from, to)
    requires forall n :: n in path && n in links ==> n in links' && links'[n] == links[n]
    ensures Path(links', path, from, to)
  {
    if path != [] {
      assert path[0] in path;
      PathFrame(links, links', path[1..], links[path[0]], to);
    }
  }

  // ----- captured contexts -----

  /** The stack contexts of a captured pair are those of its chain, as far as they are still active. */
  ghost predicate Coherent(links: Links, dead: set<Node>, c: Contexts) {
    && Acyclic(links) && Within(links, c.head) && (forall n :: n in c.stack ==> n in links)
    && Filter(c.stack, dead) == Reverse(StackOnly(Filter(Chain(links, c.head), dead)))
  }

  /** Pruning the chains and deactivating contexts keeps captured pairs coherent. */
  lemma CoherentKept(links: Links, dead: set<Node>, links': Links, dead': set<Node>, c: Contexts)
    requires Coherent(links, dead, c) && dead <= dead'
    requires Acyclic(links') && links.Keys <= links'.Keys
    requires Pruned(Chain(links, c.head), Chain(links', c.head), dead')
    ensures Coherent(links', dead', c)
  {
    var chain := Chain(links, c.head);
    PrunedFilter(chain, Chain(links', c.head), dead');
    FilterTwice(c.stack, dead, dead');
    FilterReverse(StackOnly(Filter(chain, dead)), dead');
    FilterStackOnly(Filter(chain, dead), dead');
    FilterTwice(chain, dead, dead');
  }

  /** Every chain of the first links is pruned to the chain of the second. */
  ghost predicate PrunesTo(links: Links, links': Links, dead: set<Node>) {
    && Acyclic(links) && Acyclic(links') && links.Keys <= links'.Keys
    && forall x :: x in links ==> Pruned(Chain(links, x), Chain(links', x), dead)
  }

  lemma PrunesRefl(links: Links, dead: set<Node>)
    requires Acyclic(links)
    ensures PrunesTo(links, links, dead)
  {
    forall x | x in links
      ensures Pruned(Chain(links, x), Chain(links, x), dead)
    {
      PrunedRefl(Chain(links, x), dead);
    }
  }

  lemma PrunesTrans(l0: Links, l1: Links, l2: Links, a: set<Node>, b: set<Node>)
    requires PrunesTo(l0, l1, a) && PrunesTo(l1, l2, b) && a <= b
    ensures PrunesTo(l0, l2, b)
  {
    forall x | x in l0
      ensures Pruned(Chain(l0, x), Chain(l2, x), b)
    {
      PrunedTrans(Chain(l0, x), Chain(l1, x), Chain(l2, x), a, b);
    }
  }

  /** As `PrunesTo`, for a head that may be missing. */
  lemma PrunesHead(links: Links, links': Links, dead: set<Node>, x: Node?)
    requires PrunesTo(links, links', dead) && Within(links, x)
    ensures Within(links', x) && Pruned(Chain(links, x), Chain(links', x), dead)
  {
  }

  lemma SplicePrunes(links: Links, ctx: Node, dead: set<Node>)
    requires Acyclic(links) && ctx in links && links[ctx] != null && links[ctx] in dead
    ensures PrunesTo(links, links[ctx := links[links[ctx]]], dead)
  {
    Splice(links, ctx, dead, null);
    forall x | x in links
      ensures Pruned(Chain(links, x), Chain(links[ctx := links[links[ctx]]], x), dead)
    {
      Splice(links, ctx, dead, x);
    }
  }

  /** A new node on top changes no chain. */
  lemma {:induction false} PushChain(links: Links, n: Node, below: Node?, x: Node?)
    requires Acyclic(links) && n !in links && Within(links, below) && (below != null ==> below.rank < n.rank)
    requires Within(links, x)
    ensures Acyclic(links[n := below]) && Chain(links[n := below], x) == Chain(links, x)
    decreases if x == null then 0 else x.rank + 1
  {
    if x != null {
      PushChain(links, n, below, links[x]);
    }
  }

  lemma PushPrunes(links: Links, n: Node, below: Node?, dead: set<Node>)
    requires Acyclic(links) && n !in links && Within(links, below) && (below != null ==> below.rank < n.rank)
    ensures PrunesTo(links, links[n := below], dead)
  {
    PushChain(links, n, below, null);
    forall x | x in links
      ensures Pruned(Chain(links, x), Chain(links[n := below], x), dead)
    {
      PushChain(links, n, below, x);
      PrunedRefl(Chain(links, x), dead);
    }
  }

  lemma PushCoherent(links: Links, dead: set<Node>, c: Contexts, n: Node)
    requires Coherent(links, dead, c) && n !in links && n !in dead && (c.head != null ==> c.head.rank < n.rank)
    ensures Coherent(links[n := c.head], dead, Contexts(if n.isHandler then c.stack else c.stack + [n], n))
  {
    PushChain(links, n, c.head, c.head);
    FilterConcat(c.stack, [n], dead);
    assert [n][1..] == [];
    var chain := Chain(links, c.head);
    assert ([n] + chain)[1..] == chain;
    assert ([n] + Filter(chain, dead))[1..] == Filter(chain, dead);
    assert ([n] + StackOnly(Filter(chain, dead)))[1..] == StackOnly(Filter(chain, dead));
  }

  ghost predicate AllCoherent(links: Links, dead: set<Node>, known: set<Contexts>) {
    forall c :: c in known ==> Coherent(links, dead, c)
  }

  lemma AllCoherentKept(links: Links, dead: set<Node>, links': Links, dead': set<Node>, known: set<Contexts>)
    requires AllCoherent(links, dead, known) && dead <= dead' && PrunesTo(links, links', dead')
    ensures AllCoherent(links', dead', known)
  {
    forall c | c in known
      ensures Coherent(links', dead', c)
    {
      PrunesHead(links, links', dead', c.head);
      CoherentKept(links, dead, links', dead', c);
    }
  }

  // ----- leaving the contexts of a wrapped call -----

  datatype Answer = Handled | Declined | Raises(error: Exception)

  /** `exit` of a stack context, with the exception it was told of and the one it raised; or a call of the handler
      of an exception context. */
  datatype Event =
    | Exited(node: Node, seen: Option<Exception>, raised: Option<Exception>)
    | Asked(node: Node, error: Exception, answer: Answer)

  function Seen(e: Event): Option<Exception> {
    if e.Exited? then e.seen else Some(e.error)
  }

  /** The exception that the next context outwards is told of. A stack context never stops an exception. */
  function Out(e: Event): Option<Exception> {
    match e
    case Exited(_, seen, raised) => if raised.Some? then raised else seen
    case Asked(_, error, answer) =>
      match answer
      case Handled => None
      case Declined => Some(error)
      case Raises(other) => Some(other)
  }

  /** Going outwards through these nodes with an exception, or without: each stack context is left, and each
      handler is called if there is an exception at that point. */
  ghost predicate Unwinds(nodes: seq<Node>, exc: Option<Exception>, events: seq<Event>, final: Option<Exception>) {
    if nodes == [] then events == [] && exc == final
    else if nodes[0].isHandler && exc.None? then Unwinds(nodes[1..], exc, events, final)
    else
      && events != [] && events[0].node == nodes[0] && events[0].Asked? == nodes[0].isHandler
      && Seen(events[0]) == exc && Unwinds(nodes[1..], Out(events[0]), events[1..], final)
  }

  lemma {:induction false} UnwindsConcat(a: seq<Node>, exc: Option<Exception>, events: seq<Event>,
                                         mid: Option<Exception>, b: seq<Node>, more: seq<Event>,
                                         final: Option<Exception>)
    requires Unwinds(a, exc, events, mid) && Unwinds(b, mid, more, final)
    ensures Unwinds(a + b, exc, events + more, final)
    decreases |a|
  {
    if a == [] {
      assert a + b == b && events + more == more;
    } else {
      assert (a + b)[1..] == a[1..] + b;
      if a[0].isHandler && exc.None? {
        UnwindsConcat(a[1..], exc, events, mid, b, more, final);
      } else {
        assert (events + more)[1..] == events[1..] + more;
        UnwindsConcat(a[1..], Out(events[0]), events[1..], mid, b, more, final);
      }
    }
  }

  lemma UnwindsOne(n: Node, e: Event)
    requires e.node == n && e.Asked? == n.isHandler
    ensures Unwinds([n], Seen(e), [e], Out(e))
  {
    assert [n][1..] == [] && [e][1..] == [];
  }

  /** Without an exception, handlers are passed over. */
  lemma {:induction false} UnwindsHandlers(a: seq<Node>)
    requires StackOnly(a) == []
    ensures Unwinds(a, None, [], None)
  {
    if a != [] {
      UnwindsHandlers(a[1..]);
    }
  }

  function ExitsOf(events: seq<Event>): seq<Node> {
    if events == [] then [] else (if events[0].Exited? then [events[0].node] else []) + ExitsOf(events[1..])
  }

  /** Each stack context that is passed is left exactly once, in the order of the chain. */
  lemma {:induction false} UnwindsExits(nodes: seq<Node>, exc: Option<Exception>, events: seq<Event>,
                                        final: Option<Exception>)
    requires Unwinds(nodes, exc, events, final)
    ensures ExitsOf(events) == StackOnly(nodes)
    decreases |nodes|
  {
    if nodes != [] {
      if nodes[0].isHandler && exc.None? {
        UnwindsExits(nodes[1..], exc, events, final);
      } else {
        UnwindsExits(nodes[1..], Out(events[0]), events[1..], final);
      }
    }
  }

  /** Each context is told of the exception that the last one let out: once a handler has returned true none
      further out sees the exception, and one that a handler raises carries on outwards. */
  lemma {:induction false} UnwindsThread(nodes: seq<Node>, exc: Option<Exception>, events: seq<Event>,
                                         final: Option<Exception>)
    requires Unwinds(nodes, exc, events, final)
    ensures events == [] ==> final == exc
    ensures events != [] ==> Seen(events[0]) == exc && final == Out(events[|events| - 1])
    ensures forall i :: 0 < i < |events| ==> Seen(events[i]) == Out(events[i - 1])
    decreases |nodes|
  {
    if nodes != [] {
      if nodes[0].isHandler && exc.None? {
        UnwindsThread(nodes[1..], exc, events, final);
      } else {
        UnwindsThread(nodes[1..], Out(events[0]), events[1..], final);
        forall i | 0 < i < |events|
          ensures Seen(events[i]) == Out(events[i - 1])
        {
          assert events[i] == events[1..][i - 1];
          if i > 1 {
            assert events[i - 1] == events[1..][i - 2];
          }
        }
      }
    }
  }

  /** What happens at the context number k, given the exception that came up to it: a stack context is left, and told
      of it; a handler is asked about it, and passed over if there is none. `i` events came before. */
  lemma {:induction false} UnwindsAt(nodes: seq<Node>, exc: Option<Exception>, events: seq<Event>,
                                     final: Option<Exception>, k: nat)
    returns (i: nat, now: Option<Exception>)
    requires Unwinds(nodes, exc, events, final) && k < |nodes|
    ensures i <= |events| && ExitsOf(events[..i]) == StackOnly(nodes[..k])
    ensures if i == 0 then now == exc else LetsOut(events[i - 1], now)
    ensures !nodes[k].isHandler ==>
              i < |events| && events[i].Exited? && events[i].node == nodes[k] && events[i].seen == now
    ensures nodes[k].isHandler && now.Some? ==>
              i < |events| && events[i].Asked? && events[i].node == nodes[k] && events[i].error == now.value
    ensures nodes[k].isHandler && now.None? ==> Unwinds(nodes[k + 1..], None, events[i..], final)
    decreases k
  {
    if k == 0 {
      i, now := 0, exc;
      assert events[..0] == [] && nodes[..0] == [] && events[0..] == events;
    } else {
      var passed := nodes[0].isHandler && exc.None?;
      var rest := if passed then events else events[1..];
      i, now := UnwindsAt(nodes[1..], if passed then exc else Out(events[0]), rest, final, k - 1);
      assert nodes[1..][..k - 1] == nodes[..k][1..] && nodes[1..][k..] == nodes[k + 1..];
      if !passed {
        assert rest[..i] == events[..i + 1][1..] && rest[i..] == events[i + 1..];
        i := i + 1;
      }
    }
  }

  /** The exception that goes on outwards: one that is raised, none if a handler has returned true, or the same. */
  ghost predicate LetsOut(e: Event, out: Option<Exception>) {
    match e
    case Exited(_, seen, None) => out == seen
    case Exited(_, _, Some(raised)) => out == Some(raised)
    case Asked(_, _, Handled) => out.None?
    case Asked(_, error, Declined) => out == Some(error)
    case Asked(_, _, Raises(other)) => out == Some(other)
  }

  /** The first stack context of a chain, with the handlers before it. */
  lemma {:induction false} FirstStack(chain: seq<Node>) returns (k: nat)
    requires StackOnly(chain) != []
    ensures k < |chain| && StackOnly(chain[..k]) == [] && chain[k] == StackOnly(chain)[0] && !chain[k].isHandler
    ensures StackOnly(chain[k + 1..]) == StackOnly(chain)[1..]
  {
    if chain[0].isHandler {
      var j := FirstStack(chain[1..]);
      k := j + 1;
      assert chain[..k][1..] == chain[1..][..j] && chain[k + 1..] == chain[1..][j + 1..];
    } else {
      k := 0;
    }
  }

  lemma {:induction false} ReverseSnoc(s: seq<Node>)
    requires s != []
    ensures Reverse(s)[0] == s[|s| - 1] && Reverse(s)[1..] == Reverse(s[..|s| - 1])
  {
    if |s| > 1 {
      ReverseSnoc(s[1..]);
      assert s[1..][..|s| - 2] == s[..|s| - 1][1..];
    } else {
      assert s[1..] == [];
    }
  }

  lemma {:induction false} ReverseTwice(s: seq<Node>)
    ensures Reverse(Reverse(s)) == s
  {
    if s != [] {
      ReverseTwice(s[1..]);
      var r := Reverse(s);
      ReverseSnoc(r);
      assert r[..|r| - 1] == Reverse(s[1..]);
      assert Reverse(r) == [Reverse(r)[0]] + Reverse(r)[1..];
    }
  }

  /** The chain of a node in the middle of a chain is the rest of it. */
  lemma {:induction false} ChainFrom(links: Links, x: Node?, k: nat)
    requires Acyclic(links) && Within(links, x) && k < |Chain(links, x)|
    ensures Chain(links, x)[k] in links && Chain(links, Chain(links, x)[k]) == Chain(links, x)[k..]
    decreases k
  {
    assert Chain(links, x)[1..] == Chain(links, links[x]);
    if k > 0 {
      ChainFrom(links, links[x], k - 1);
    }
  }

  // ----- the state -----

  datatype Moment = Moment(links: Links, dead: set<Node>, callables: set<Wrapped>, known: set<Contexts>)

  /** What may happen to the contexts while other code runs: chains are pruned, contexts are deactivated, and
      there are new ones. */
  ghost predicate Later(a: Moment, b: Moment) {
    a.callables <= b.callables && a.known <= b.known && a.dead <= b.dead && PrunesTo(a.links, b.links, b.dead)
  }

  lemma LaterRefl(a: Moment)
    requires Acyclic(a.links)
    ensures Later(a, a)
  {
    PrunesRefl(a.links, a.dead);
  }

  lemma LaterTrans(a: Moment, b: Moment, c: Moment)
    requires Later(a, b) && Later(b, c)
    ensures Later(a, c)
  {
    PrunesTrans(a.links, b.links, c.links, b.dead, c.dead);
  }

  lemma LaterHead(a: Moment, b: Moment, x: Node?)
    requires Later(a, b) && Within(a.links, x)
    ensures Acyclic(a.links) && Acyclic(b.links) && Within(b.links, x) && a.dead <= b.dead && a.known <= b.known
    ensures a.links.Keys <= b.links.Keys && a.callables <= b.callables
    ensures Pruned(Chain(a.links, x), Chain(b.links, x), b.dead)
  {
  }

  // ----- the exception path -----

  ghost predicate Reaches(links: Links, from: Node?, n: Node) {
    Acyclic(links) && Within(links, from) && n in Chain(links, from)
  }

  /** Outwards from `from` to `to`: `path[k]` is the moment when the context `visited[k]` is about to be left, and
      `path[k + 1]` the moment after that, when its parent link is followed. */
  ghost predicate Walk(path: seq<Moment>, from: Node?, visited: seq<Node>, to: Node?) {
    && path != [] && Acyclic(path[0].links) && Within(path[0].links, from)
    && (if visited == [] then |path| == 1 && from == to
        else
          && |path| > 1 && from == visited[0] && from in path[1].links && Later(path[0], path[1])
          && Walk(path[1..], path[1].links[visited[0]], visited[1..], to))
  }

  /** While one of the contexts on the way is being left, `n` is spliced out of the chain of that context. */
  ghost predicate CutOff(path: seq<Moment>, visited: seq<Node>, n: Node)
    requires |path| == |visited| + 1
  {
    && visited != []
    && ((Reaches(path[0].links, visited[0], n) && !Reaches(path[1].links, visited[0], n))
        || CutOff(path[1..], visited[1..], n))
  }

  lemma {:induction false} WalkLength(path: seq<Moment>, from: Node?, visited: seq<Node>, to: Node?)
    requires Walk(path, from, visited, to)
    ensures |path| == |visited| + 1
    decreases |visited|
  {
    if visited != [] {
      WalkLength(path[1..], path[1].links[visited[0]], visited[1..], to);
    }
  }

  lemma {:induction false} WalkSnoc(path: seq<Moment>, from: Node?, visited: seq<Node>, to: Node, now: Moment)
    requires Walk(path, from, visited, to) && Later(path[|path| - 1], now)
    requires Acyclic(now.links) && to in now.links
    ensures Walk(path + [now], from, visited + [to], now.links[to])
    decreases |visited|
  {
    hide Later;
    var longer := path + [now];
    if visited == [] {
      assert longer == [path[0], now] && longer[1..] == [now] && ([] + [to])[1..] == [];
      RankFalls(now.links, to);
    } else {
      assert longer[1..] == path[1..] + [now] && (visited + [to])[1..] == visited[1..] + [to];
      WalkSnoc(path[1..], path[1].links[visited[0]], visited[1..], to, now);
    }
  }

  /** What is left on the exception path: the contexts that can be reached when it starts, except for those cut off
      on the way. */
  lemma {:induction false} WalkVisits(path: seq<Moment>, from: Node?, visited: seq<Node>, n: Node)
    requires Walk(path, from, visited, null)
    ensures |path| == |visited| + 1
    ensures n in visited <==> Reaches(path[0].links, from, n) && !CutOff(path, visited, n)
    ensures n in visited ==> from != null && n.rank <= from.rank
    decreases |visited|
  {
    hide Later;
    WalkLength(path, from, visited, null);
    if visited != [] {
      var v := visited[0];
      var next := path[1].links[v];
      WalkVisits(path[1..], next, visited[1..], n);
      assert visited == [v] + visited[1..];
      LaterReaches(path[0], path[1], v, n);
      RankFalls(path[1].links, v);
      if n == v {
        NotCutOff(path[1..], next, visited[1..], n);
      }
    }
  }

  /** A context is not cut off once the walk is past it. */
  lemma {:induction false} NotCutOff(path: seq<Moment>, from: Node?, visited: seq<Node>, n: Node)
    requires Walk(path, from, visited, null) && (from == null || from.rank < n.rank)
    ensures |path| == |visited| + 1 && !CutOff(path, visited, n)
    decreases |visited|
  {
    hide Later;
    WalkLength(path, from, visited, null);
    if visited != [] {
      ChainRanks(path[0].links, from);
      RankFalls(path[1].links, visited[0]);
      NotCutOff(path[1..], path[1].links[visited[0]], visited[1..], n);
    }
  }

  lemma LaterReaches(a: Moment, b: Moment, v: Node, n: Node)
    requires Later(a, b) && v in a.links
    ensures v in b.links && Acyclic(b.links) && Within(b.links, b.links[v])
    ensures Reaches(b.links, v, n) ==> Reaches(a.links, v, n)
    ensures Reaches(b.links, v, n) <==> n == v || Reaches(b.links, b.links[v], n)
  {
    LaterHead(a, b, v);
    PrunedWithin(Chain(a.links, v), Chain(b.links, v), b.dead);
    ChainStep(b.links, v);
  }

  /** How the contexts of a wrapped call were left: along the tuple taken on entry, or from some point on along the
      parent links, as they were when the first exception was raised and later on. `taken` says how much of the
      chain had been dealt with by then. */
  datatype Unwinding = AlongTuple | AlongLinks(taken: nat, from: Node?, path: seq<Moment>)

  ghost predicate Unwound(how: Unwinding, chain: seq<Node>, visited: seq<Node>) {
    match how
    case AlongTuple => visited == chain
    case AlongLinks(taken, from, path) =>
      && taken <= |chain| && taken <= |visited| && chain[..taken] == visited[..taken]
      && Walk(path, from, visited[taken..], null)
      && (if taken == 0 then chain != [] && from == chain[0]
          else chain[taken - 1] in path[0].links && from == path[0].links[chain[taken - 1]])
  }

  /** The moments of the exception path lie between these two: it starts after the one and ends with the other. */
  ghost predicate During(how: Unwinding, before: Moment, now: Moment) {
    how.AlongLinks? ==> how.path != [] && Later(before, how.path[0]) && how.path[|how.path| - 1] == now
  }

  lemma DuringLater(how: Unwinding, before: Moment, start: Moment, now: Moment)
    requires Later(before, start) && During(how, start, now)
    ensures During(how, before, now)
  {
    hide Later;
    if how.AlongLinks? {
      LaterTrans(before, start, how.path[0]);
    }
  }

  /** A context of the chain that the exception path should have passed, but that was spliced out before it started
      or while contexts further in were being left. */
  ghost predicate SplicedOut(how: Unwinding, chain: seq<Node>, visited: seq<Node>, n: Node) {
    && how.AlongLinks? && how.taken <= |chain| && how.taken <= |visited|
    && |how.path| == |visited| - how.taken + 1
    && n in chain[how.taken..]
    && (!Reaches(how.path[0].links, how.from, n) || CutOff(how.path, visited[how.taken..], n))
  }

  ghost predicate Descending(chain: seq<Node>) {
    forall i, j :: 0 <= i < j < |chain| ==> chain[i].rank > chain[j].rank
  }

  lemma {:induction false} ChainDescends(links: Links, x: Node?)
    requires Acyclic(links) && Within(links, x)
    ensures Descending(Chain(links, x))
    decreases if x == null then 0 else x.rank + 1
  {
    if x != null {
      RankFalls(links, x);
      ChainDescends(links, links[x]);
      ChainRanks(links, links[x]);
      var rest := Chain(links, links[x]);
      var whole := [x] + rest;
      forall i, j | 0 <= i < j < |whole|
        ensures whole[i].rank > whole[j].rank
      {
        assert whole[j] == rest[j - 1];
        assert rest[j - 1] in rest;
      }
    }
  }

  /** A callable that `wrap` returned. */
  class Wrapped {
    var captured: Contexts

    constructor (captured: Contexts)
      ensures this.captured == captured
    {
      this.captured := captured;
    }
  }

  class State {
    var contexts: Contexts
    /** Every context entered and every callable wrapped so far. */
    var nodes: set<Node>
    var callables: set<Wrapped>
    /** Every pair that may still be looked at. */
    ghost var known: set<Contexts>

    ghost function Links(): Links
      reads `nodes, nodes`oldContexts
    {
      map n | n in nodes :: n.oldContexts.head
    }

    ghost function Dead(): set<Node>
      reads `nodes, nodes`active
    {
      set n | n in nodes && !n.active
    }

    ghost predicate Known()
      reads this, nodes`oldContexts, callables
    {
      && contexts in known
      && (forall n :: n in nodes ==> n.oldContexts in known)
      && (forall w :: w in callables ==> w.captured in known)
    }

    ghost predicate Valid()
      reads this, nodes, callables
    {
      Known() && Acyclic(Links()) && AllCoherent(Links(), Dead(), known)
    }

    constructor ()
      ensures Valid() && contexts == Contexts([], null) && nodes == {} && callables == {}
    {
      contexts, nodes, callables, known := Contexts([], null), {}, {}, {Contexts([], null)};
    }

    ghost function Now(): Moment
      reads `nodes, `callables, `known, nodes`active, nodes`oldContexts
    {
      Moment(Links(), Dead(), callables, known)
    }

    /** The `_deactivate` callback of a context. */
    method Deactivate(n: Node)
      requires Valid() && n in nodes
      modifies n`active
      ensures Valid() && !n.active && Links() == old(Links()) && Dead() == old(Dead()) + {n}
    {
      hide Acyclic, AllCoherent, PrunesTo;
      n.active := false;
      PrunesRefl(Links(), Dead());
      AllCoherentKept(Links(), old(Dead()), Links(), Dead(), known);
    }

    /** `__enter__` of either kind of context. */
    method Enter(isHandler: bool) returns (n: Node)
      requires Valid()
      modifies this
      ensures Valid() && fresh(n) && n.isHandler == isHandler && n.active && n.oldContexts == old(contexts)
      ensures nodes == old(nodes) + {n} && callables == old(callables) && old(known) <= known
      ensures contexts == Contexts(if isHandler then old(contexts.stack) else old(contexts.stack) + [n], n)
      ensures Dead() == old(Dead()) && PrunesTo(old(Links()), Links(), Dead())
    {
      hide Acyclic, AllCoherent, PrunesTo, Coherent, Within;
      KnownCoherent(Links(), Dead(), known, contexts);
      ghost var l0, below := Links(), contexts;
      n := new Node(isHandler, contexts, if contexts.head == null then 0 else contexts.head.rank + 1);
      assert n !in nodes;
      nodes := nodes + {n};
      contexts := Contexts(if isHandler then contexts.stack else contexts.stack + [n], n);
      known := known + {contexts};
      assert Links() == l0[n := below.head];
      assert Dead() == old(Dead());
      PushPrunes(l0, n, below.head, Dead());
      PushCoherent(l0, Dead(), below, n);
      AllCoherentKept(l0, Dead(), Links(), Dead(), old(known));
      AllCoherentAdd(Links(), Dead(), old(known), contexts);
    }

    /** `__exit__` of either kind of context, once its handler has run: the contexts of before it was entered. */
    method Leave(n: Node)
      requires Valid() && n in nodes
      modifies `contexts
      ensures Valid() && contexts == n.oldContexts
    {
      contexts := n.oldContexts;
    }

    /** `NullContext` */
    method EnterNull()
      requires Valid()
      modifies `contexts, `known
      ensures Valid() && contexts == Contexts([], null) && old(known) <= known
    {
      hide AllCoherent, Acyclic;
      NullCoherent(Links(), Dead());
      AllCoherentAdd(Links(), Dead(), known, Contexts([], null));
      contexts := Contexts([], null);
      known := known + {contexts};
    }

    /** `wrap` */
    method Wrap() returns (w: Wrapped)
      requires Valid()
      modifies `callables
      ensures Valid() && fresh(w) && callables == old(callables) + {w} && w.captured == contexts
    {
      hide AllCoherent, Acyclic;
      w := new Wrapped(contexts);
      callables := callables + {w};
    }

    /** `tuple([h for h in contexts[0] if h.active])` */
    method ActiveOnly(stack: seq<Node>) returns (r: seq<Node>)
      requires forall n :: n in stack ==> n in nodes
      ensures r == Filter(stack, Dead())
    {
      r := [];
      for i := 0 to |stack|
        invariant r == Filter(stack[..i], Dead())
      {
        assert stack[..i + 1] == stack[..i] + [stack[i]];
        FilterConcat(stack[..i], [stack[i]], Dead());
        assert [stack[i]][1..] == [];
        if stack[i].active {
          r := r + [stack[i]];
        }
      }
      assert stack[..|stack|] == stack;
    }

    /** The inner loop of `_remove_deactivated`: `ctx` skips its parents that are not active. */
    method SkipParents(ctx: Node) returns (parent: Node?)
      requires Valid() && ctx in nodes
      modifies ctx`oldContexts
      ensures Valid() && Within(Links(), parent)
      ensures parent != null ==> parent.active && parent.rank < ctx.rank
      ensures Links() == old(Links())[ctx := parent] && PrunesTo(old(Links()), Links(), Dead())
    {
      hide AllCoherent, PrunesTo, Coherent, Acyclic;
      ghost var l0, dead := Links(), Dead();
      PrunesRefl(l0, dead);
      KnownCoherent(l0, dead, known, ctx.oldContexts);
      parent := ctx.oldContexts.head;
      RankFalls(l0, ctx);
      while parent != null
        invariant Valid() && Within(Links(), parent) && parent == ctx.oldContexts.head
        invariant parent != null ==> parent.rank < ctx.rank
        invariant Dead() == dead && Links() == l0[ctx := parent] && PrunesTo(l0, Links(), dead)
        decreases if parent == null then 0 else parent.rank + 1
      {
        if parent.active {
          break;
        }
        ghost var l1 := Links();
        ctx.oldContexts := parent.oldContexts;
        SplicePrunes(l1, ctx, dead);
        assert Links() == l1[ctx := l1[parent]];
        RankFalls(l1, parent);
        AllCoherentKept(l1, dead, Links(), dead, known);
        PrunesTrans(l0, l1, Links(), dead, dead);
        PrunesAcyclic(l1, Links(), dead);
        parent := parent.oldContexts.head;
      }
    }

    /** The outer loop of `_remove_deactivated`. */
    method PruneChain(head: Node?)
      requires Valid() && Within(Links(), head) && (head != null ==> head.active)
      modifies nodes`oldContexts
      ensures Valid() && Within(Links(), head) && forall n :: n in Chain(Links(), head) ==> n !in Dead()
      ensures PrunesTo(old(Links()), Links(), Dead())
    {
      hide AllCoherent, PrunesTo, Coherent, Known;
      ghost var l0, dead := Links(), Dead();
      ghost var path: seq<Node> := [];
      PrunesRefl(l0, dead);
      var ctx := head;
      while ctx != null
        invariant Valid() && Within(Links(), head) && Within(Links(), ctx) && (ctx != null ==> ctx.active)
        invariant Path(Links(), path, head, ctx) && forall n :: n in path ==> n !in dead
        invariant Dead() == dead && PrunesTo(l0, Links(), dead)
        decreases if ctx == null then 0 else ctx.rank + 1
      {
        ghost var l1 := Links();
        var node: Node := ctx;
        PathChain(l1, path, head, ctx);
        var parent := SkipParents(node);
        PrunesTrans(l0, l1, Links(), dead, dead);
        PathFrame(l1, Links(), path, head, ctx);
        PathSnoc(Links(), path, head, node);
        path := path + [node];
        ctx := parent;
      }
      PathChain(Links(), path, head, null);
      assert path + [] == path;
    }

    /** `_remove_deactivated`: the chain from the new head is the active part of the chain that was captured, and
        no other chain that shares its nodes loses an active context. */
    method RemoveDeactivated(c: Contexts) returns (r: Contexts)
      requires Valid() && c in known
      modifies `known, nodes`oldContexts
      ensures Valid() && r in known && old(known) <= known && Within(Links(), r.head)
      ensures Chain(Links(), r.head) == Filter(old(Chain(Links(), c.head)), Dead())
      ensures r.stack == Reverse(StackOnly(Chain(Links(), r.head)))
      ensures Dead() == old(Dead()) && PrunesTo(old(Links()), Links(), Dead())
    {
      hide AllCoherent, PrunesTo, Coherent;
      ghost var l0, dead := Links(), Dead();
      KnownCoherent(l0, dead, known, c);
      var stack := ActiveOnly(c.stack);
      var head := c.head;
      while head != null && !head.active
        invariant Within(l0, head) && Filter(Chain(l0, head), dead) == Filter(Chain(l0, c.head), dead)
        decreases if head == null then 0 else head.rank + 1
      {
        assert Chain(l0, head)[1..] == Chain(l0, l0[head]);
        head := head.oldContexts.head;
      }
      PruneChain(head);
      var links := Links();
      PrunesHead(l0, links, dead, head);
      PrunedFilter(Chain(l0, head), Chain(links, head), dead);
      PrunedCoherent(l0, links, dead, c, head);
      r := Contexts(stack, head);
      known := known + {r};
      AllCoherentAdd(links, dead, old(known), r);
    }

    /** Code that runs inside a wrapped call, in a context manager or in the wrapped function: it may deactivate
        contexts, enter and leave contexts, wrap callables, and call wrapped callables, which prunes their chains. */
    method UserCode()
      requires Valid()
      modifies this, nodes, callables
      ensures Valid() && Later(old(Now()), Now())
      ensures fresh(nodes - old(nodes)) && fresh(callables - old(callables))
    {
      hide Later, AllCoherent, Acyclic, Known;
      LaterRefl(Now());
      var calls := Any();
      for i := 0 to calls
        invariant Valid() && Later(old(Now()), Now())
        invariant fresh(nodes - old(nodes)) && fresh(callables - old(callables))
      {
        ghost var before := Now();
        UserStep();
        LaterTrans(old(Now()), before, Now());
      }
    }

    method UserStep()
      requires Valid()
      modifies this, nodes, callables
      ensures Valid() && Later(old(Now()), Now())
      ensures fresh(nodes - old(nodes)) && fresh(callables - old(callables))
    {
      hide PrunesTo, AllCoherent, Acyclic, Coherent;
      PrunesRefl(Links(), Dead());
      var choice := Any();
      if choice == 0 {
        var isHandler: bool := *;
        var _ := Enter(isHandler);
      } else if choice == 1 {
        EnterNull();
      } else if choice == 2 {
        var _ := Wrap();
      } else if choice == 3 && nodes != {} {
        var n :| n in nodes;
        Leave(n);
      } else if choice == 4 && nodes != {} {
        var n :| n in nodes;
        Deactivate(n);
        PrunesRefl(Links(), Dead());
      } else if callables != {} {
        var w :| w in callables;
        var _ := Prune(w);
      }
    }

    /** `cap_contexts[0] = contexts = _remove_deactivated(cap_contexts[0])` */
    method Prune(w: Wrapped) returns (c: Contexts)
      requires Valid() && w in callables
      modifies `known, nodes`oldContexts, w
      ensures Valid() && c in known && c == w.captured && old(known) <= known && Within(Links(), c.head)
      ensures Chain(Links(), c.head) == Filter(old(Chain(Links(), w.captured.head)), Dead())
      ensures c.stack == Reverse(StackOnly(Chain(Links(), c.head)))
      ensures Dead() == old(Dead()) && PrunesTo(old(Links()), Links(), Dead())
    {
      hide PrunesTo, AllCoherent, Acyclic, Coherent;
      c := RemoveDeactivated(w.captured);
      w.captured := c;
    }

    /** `_handle_exception`: outwards along the chain as it is when each node is reached. */
    method HandleException(tail: Node?, exc: Option<Exception>)
      returns (final: Option<Exception>, events: seq<Event>, ghost visited: seq<Node>, ghost path: seq<Moment>)
      requires Valid() && Within(Links(), tail)
      modifies this, nodes, callables
      ensures Valid() && Later(old(Now()), Now())
      ensures fresh(nodes - old(nodes)) && fresh(callables - old(callables))
      ensures Unwinds(visited, exc, events, final)
      ensures Pruned(old(Chain(Links(), tail)), visited, Dead())
      ensures path != [] && path[0] == old(Now()) && path[|path| - 1] == Now() && Walk(path, tail, visited, null)
    {
      hide Later, AllCoherent, Known, Coherent, Unwinds, Acyclic, Chain, Pruned, Walk;
      ghost var chain := Chain(Links(), tail);
      LaterRefl(Now());
      PrunedRefl(chain, Dead());
      final, events, visited := exc, [], [];
      assert [] + chain == chain;
      UnwindsNothing(exc);
      path := [Now()];
      WalkNothing(Now(), tail);
      var ctx := tail;
      while ctx != null
        invariant Valid() && Later(old(Now()), Now()) && Within(Links(), ctx)
        invariant fresh(nodes - old(nodes)) && fresh(callables - old(callables))
        invariant Unwinds(visited, exc, events, final)
        invariant Pruned(chain, visited + Chain(Links(), ctx), Dead())
        invariant path != [] && path[0] == old(Now()) && path[|path| - 1] == Now() && Walk(path, tail, visited, ctx)
        decreases if ctx == null then 0 else ctx.rank + 1
      {
        var node: Node := ctx;
        ghost var before, seen := Now(), final;
        var more;
        final, more := Exit(node, final);
        LaterTrans(old(Now()), before, Now());
        UnwindsConcat(visited, exc, events, seen, [node], more, final);
        events := events + more;
        LaterHead(before, Now(), node);
        ctx := node.oldContexts.head;
        WalkSnoc(path, tail, visited, node, Now());
        path := path + [Now()];
        RankFalls(Links(), node);
        ChainStep(Links(), node);
        PrunedAppend(visited, Chain(before.links, node), Chain(Links(), node), Dead());
        PrunedTrans(chain, visited + Chain(before.links, node), visited + Chain(Links(), node), before.dead, Dead());
        assert visited + Chain(Links(), node) == (visited + [node]) + Chain(Links(), ctx);
        visited := visited + [node];
      }
      ChainOfNull(Links());
      assert visited + [] == visited;
    }

    /** The exception path after a stack context that is being left has raised. */
    method HandleBeyond(n: Node, ghost chain: seq<Node>, exc: Option<Exception>)
      returns (final: Option<Exception>, events: seq<Event>, ghost visited: seq<Node>, ghost path: seq<Moment>)
      requires Valid() && n in Links() && Within(Links(), Links()[n])
      requires Pruned(chain, Chain(Links(), Links()[n]), Dead())
      modifies this, nodes, callables
      ensures Valid() && Later(old(Now()), Now())
      ensures fresh(nodes - old(nodes)) && fresh(callables - old(callables))
      ensures Unwinds(visited, exc, events, final) && Pruned(chain, visited, Dead())
      ensures path != [] && path[0] == old(Now()) && path[|path| - 1] == Now()
      ensures Walk(path, old(Links())[n], visited, null)
    {
      hide Later, AllCoherent, Known, Coherent, Acyclic, Unwinds, Chain, Pruned, Walk;
      var top := n.oldContexts.head;
      final, events, visited, path := HandleException(top, exc);
      LaterHead(old(Now()), Now(), top);
      PrunedTrans(chain, Chain(old(Links()), top), visited, old(Dead()), Dead());
    }

    /** `exit` of one context: a handler is only called if there is an exception. */
    method Exit(n: Node, exc: Option<Exception>) returns (final: Option<Exception>, events: seq<Event>)
      requires Valid()
      modifies this, nodes, callables
      ensures Valid() && Later(old(Now()), Now())
      ensures fresh(nodes - old(nodes)) && fresh(callables - old(callables))
      ensures Unwinds([n], exc, events, final)
    {
      hide Later, AllCoherent, Known, Coherent, Acyclic;
      LaterRefl(Now());
      assert [n][1..] == [];
      if n.isHandler && exc.None? {
        return None, [];
      }
      UserCode();
      var e: Event;
      if n.isHandler {
        var answer: Answer := *;
        e := Asked(n, exc.value, answer);
      } else {
        var raised: Option<Exception> := *;
        e := Exited(n, exc, raised);
      }
      UnwindsOne(n, e);
      return Out(e), [e];
    }

    /** A wrapped call: the contexts of its chain that are still active are entered, the function runs, and they are
        left, outwards. Entering a context is taken not to raise. */
    method Call(w: Wrapped)
      returns (raised: Option<Exception>, entered: seq<Node>, own: Option<Exception>, events: seq<Event>,
               ghost chain: seq<Node>, ghost visited: seq<Node>, ghost how: Unwinding)
      requires Valid() && w in callables
      modifies this, nodes, callables
      ensures Valid() && Later(old(Now()), Now()) && contexts == old(contexts)
      ensures chain == Filter(old(Chain(Links(), w.captured.head)), old(Dead()))
      ensures entered == Reverse(StackOnly(chain)) && Descending(chain)
      ensures Unwinds(visited, own, events, raised)
      ensures Pruned(chain, visited, Dead())
      ensures Unwound(how, chain, visited) && During(how, old(Now()), Now())
      ensures how.AlongTuple? <==> (own.None? || chain == []) && forall e :: e in events ==> Out(e).None?
    {
      hide Later, AllCoherent, Coherent, Acyclic, Unwinds, Chain, Pruned, Filter, StackOnly, Reverse, Known, Links,
        Dead, Walk, Unwound, Descending;
      KnownContexts();
      var current := contexts;
      var c := Prune(w);
      SetContexts(c);
      ghost var pruned := Now();
      PrunedLater(old(Now()), pruned);
      chain := Chain(pruned.links, c.head);
      ChainDescends(pruned.links, c.head);
      entered := EnterStack(c);
      ghost var ready := Now();
      LaterTrans(old(Now()), pruned, ready);
      raised, own, events, visited, how := RunEntered(c, pruned);
      LaterTrans(old(Now()), ready, Now());
      DuringLater(how, old(Now()), ready, Now());
      LaterHead(old(Now()), Now(), null);
      SetContexts(current);
    }

    lemma KnownContexts()
      requires Valid()
      ensures contexts in known
    {
    }

    method SetContexts(c: Contexts)
      requires Valid() && c in known
      modifies `contexts
      ensures Valid() && contexts == c
    {
      hide AllCoherent, Acyclic;
      contexts := c;
    }

    /** What the function raises, if anything. */
    method Thrown() returns (e: Option<Exception>) {
      e := *;
    }

    /** The function itself, and what follows. */
    method RunEntered(c: Contexts, ghost pruned: Moment)
      returns (raised: Option<Exception>, own: Option<Exception>, events: seq<Event>, ghost visited: seq<Node>,
               ghost how: Unwinding)
      requires Valid() && Later(pruned, Now()) && Acyclic(pruned.links) && Within(pruned.links, c.head)
      requires c.stack == Reverse(StackOnly(Chain(pruned.links, c.head)))
      modifies this, nodes, callables
      ensures Valid() && Later(old(Now()), Now())
      ensures fresh(nodes - old(nodes)) && fresh(callables - old(callables))
      ensures Unwinds(visited, own, events, raised)
      ensures Pruned(Chain(pruned.links, c.head), visited, Dead())
      ensures Unwound(how, Chain(pruned.links, c.head), visited) && During(how, old(Now()), Now())
      ensures how.AlongTuple? <==>
              (own.None? || Chain(pruned.links, c.head) == []) && forall e :: e in events ==> Out(e).None?
    {
      hide Later, AllCoherent, Known, Coherent, Acyclic, Unwinds, Chain, Pruned, StackOnly, Reverse, Walk;
      UserCode();
      own := Thrown();
      ghost var called := Now();
      LaterTrans(pruned, old(Now()), called);
      LaterHead(pruned, called, c.head);
      ChainHead(pruned.links, c.head);
      if own.Some? && c.head != null {
        ghost var path;
        raised, events, visited, path := HandleException(c.head, own);
        how := AlongLinks(0, c.head, path);
        LaterRefl(called);
        assert visited[0..] == visited && visited[..0] == Chain(pruned.links, c.head)[..0];
        LaterHead(called, Now(), c.head);
        PrunedTrans(Chain(pruned.links, c.head), Chain(called.links, c.head), visited, called.dead, Dead());
      } else {
        raised, events, visited, how := ExitStack(c, own, pruned);
        ChainOfNull(pruned.links);
      }
      LaterTrans(old(Now()), called, Now());
      DuringLater(how, old(Now()), called, Now());
    }

    method EnterStack(c: Contexts) returns (entered: seq<Node>)
      requires Valid()
      modifies this, nodes, callables
      ensures Valid() && Later(old(Now()), Now())
      ensures fresh(nodes - old(nodes)) && fresh(callables - old(callables))
      ensures entered == c.stack
    {
      hide Later, AllCoherent, Known, Acyclic;
      LaterRefl(Now());
      entered := [];
      for n := 0 to |c.stack|
        invariant Valid() && Later(old(Now()), Now())
        invariant fresh(nodes - old(nodes)) && fresh(callables - old(callables))
        invariant entered == c.stack[..n]
      {
        ghost var before := Now();
        UserCode();
        LaterTrans(old(Now()), before, Now());
        entered := entered + [c.stack[n]];
      }
    }

    /** The shorter path: the stack is left in reverse order; when an `exit` raises, the rest of the chain handles
        the exception. */
    method ExitStack(c: Contexts, exc: Option<Exception>, ghost pruned: Moment)
      returns (final: Option<Exception>, events: seq<Event>, ghost visited: seq<Node>, ghost how: Unwinding)
      requires Valid() && Later(pruned, Now()) && Acyclic(pruned.links) && Within(pruned.links, c.head)
      requires c.stack == Reverse(StackOnly(Chain(pruned.links, c.head)))
      requires exc.Some? ==> c.head == null
      modifies this, nodes, callables
      ensures Valid() && Later(old(Now()), Now())
      ensures fresh(nodes - old(nodes)) && fresh(callables - old(callables))
      ensures Unwinds(visited, exc, events, final)
      ensures Pruned(Chain(pruned.links, c.head), visited, Dead())
      ensures Unwound(how, Chain(pruned.links, c.head), visited) && During(how, old(Now()), Now())
      ensures how.AlongTuple? <==> forall e :: e in events ==> Out(e).None?
    {
      hide Later, AllCoherent, Known, Coherent, Acyclic, Unwinds, Chain, Pruned, StackOnly, Reverse, Links, Dead,
        Within, Walk;
      ghost var chain, k := Chain(pruned.links, c.head), 0;
      ChainOfNull(pruned.links);
      LaterRefl(Now());
      final, events := exc, [];
      UnwindsNothing(exc);
      assert chain[..0] == [] && chain[0..] == chain;
      assert c.stack[..|c.stack|] == c.stack;
      var lastCtx: nat := |c.stack|;
      while lastCtx > 0
        invariant lastCtx <= |c.stack| && k <= |chain| && final == exc
        invariant Valid() && Later(old(Now()), Now()) && Later(pruned, Now())
        invariant fresh(nodes - old(nodes)) && fresh(callables - old(callables))
        invariant c.stack[..lastCtx] == Reverse(StackOnly(chain[k..]))
        invariant Unwinds(chain[..k], exc, events, final)
        invariant forall e :: e in events ==> Out(e).None?
      {
        ghost var j := NextOnStack(chain, k, c.stack, lastCtx);
        lastCtx := lastCtx - 1;
        var node := c.stack[lastCtx];
        ghost var before := Now();
        var more;
        final, more := Exit(node, final);
        LaterTrans(pruned, before, Now());
        LaterTrans(old(Now()), before, Now());
        UnwindsPast(chain, k, j, exc, events, more, final);
        ExitEvent(node, exc, more, final);
        events := events + more;
        k := j + 1;
        if final.Some? {
          RestOfChain(pruned, Now(), c.head, j);
          ghost var raisedAt, seen := Now(), final;
          var rest;
          ghost var beyond, path;
          final, rest, beyond, path := HandleBeyond(node, chain[k..], final);
          LaterTrans(old(Now()), raisedAt, Now());
          visited, how := chain[..k] + beyond, AlongLinks(k, raisedAt.links[node], path);
          Beyond(chain, k, exc, events, seen, beyond, rest, final, Dead());
          assert visited[k..] == beyond && visited[..k] == chain[..k];
          assert more[0] in events + rest;
          return final, events + rest, visited, how;
        }
      }
      visited, how := chain, AlongTuple;
      PrunedRefl(chain, Dead());
      UnwindsRest(chain, k, exc, events);
    }
  }

  lemma Beyond(chain: seq<Node>, k: nat, exc: Option<Exception>, events: seq<Event>, seen: Option<Exception>,
               beyond: seq<Node>, rest: seq<Event>, final: Option<Exception>, dead: set<Node>)
    requires k <= |chain| && Unwinds(chain[..k], exc, events, seen)
    requires Unwinds(beyond, seen, rest, final) && Pruned(chain[k..], beyond, dead)
    ensures Unwinds(chain[..k] + beyond, exc, events + rest, final)
    ensures Pruned(chain, chain[..k] + beyond, dead)
  {
    PrunedAppend(chain[..k], chain[k..], beyond, dead);
    assert chain[..k] + chain[k..] == chain;
    UnwindsConcat(chain[..k], exc, events, seen, beyond, rest, final);
  }

  lemma PrunedLater(a: Moment, b: Moment)
    requires a.callables == b.callables && a.known <= b.known && a.dead == b.dead && PrunesTo(a.links, b.links, b.dead)
    ensures Later(a, b) && Acyclic(b.links)
  {
  }

  lemma ChainStep(links: Links, n: Node)
    requires Acyclic(links) && n in links
    ensures Within(links, links[n]) && Chain(links, n) == [n] + Chain(links, links[n])
  {
  }

  lemma WalkNothing(now: Moment, from: Node?)
    requires Acyclic(now.links) && Within(now.links, from)
    ensures Walk([now], from, [], from)
  {
  }

  lemma ChainOfNull(links: Links)
    requires Acyclic(links)
    ensures Chain(links, null) == []
  {
  }

  lemma UnwindsNothing(exc: Option<Exception>)
    ensures Unwinds([], exc, [], exc)
  {
  }

  /** Where in the chain the next context to be left is. */
  lemma NextOnStack(chain: seq<Node>, k: nat, stack: seq<Node>, n: nat) returns (j: nat)
    requires k <= |chain| && 0 < n <= |stack| && stack[..n] == Reverse(StackOnly(chain[k..]))
    ensures k <= j < |chain| && chain[j] == stack[n - 1] && !chain[j].isHandler && StackOnly(chain[k..j]) == []
    ensures stack[..n - 1] == Reverse(StackOnly(chain[j + 1..]))
  {
    var on := StackOnly(chain[k..]);
    var i := FirstStack(chain[k..]);
    j := k + i;
    assert chain[k..][..i] == chain[k..j] && chain[k..][i + 1..] == chain[j + 1..];
    assert Reverse(on) == Reverse(on[1..]) + [on[0]];
    assert stack[..n - 1] == stack[..n][..n - 1];
    assert stack[n - 1] == stack[..n][n - 1];
  }

  lemma UnwindsPast(chain: seq<Node>, k: nat, j: nat, exc: Option<Exception>, events: seq<Event>, more: seq<Event>,
                    final: Option<Exception>)
    requires k <= j < |chain| && exc.None? && StackOnly(chain[k..j]) == []
    requires Unwinds(chain[..k], exc, events, exc) && Unwinds([chain[j]], exc, more, final)
    ensures Unwinds(chain[..j + 1], exc, events + more, final)
  {
    UnwindsHandlers(chain[k..j]);
    UnwindsConcat(chain[..k], exc, events, exc, chain[k..j], [], exc);
    assert events + [] == events && chain[..k] + chain[k..j] == chain[..j];
    UnwindsConcat(chain[..j], exc, events, exc, [chain[j]], more, final);
    assert chain[..j] + [chain[j]] == chain[..j + 1];
  }

  lemma ExitEvent(n: Node, exc: Option<Exception>, events: seq<Event>, final: Option<Exception>)
    requires !n.isHandler && Unwinds([n], exc, events, final)
    ensures |events| == 1 && Out(events[0]) == final
  {
    assert [n][1..] == [];
  }

  lemma UnwindsRest(chain: seq<Node>, k: nat, exc: Option<Exception>, events: seq<Event>)
    requires k <= |chain| && StackOnly(chain[k..]) == [] && Unwinds(chain[..k], exc, events, exc)
    requires exc.None? || chain == []
    ensures Unwinds(chain, exc, events, exc)
  {
    if chain == [] {
      assert chain[..k] == chain;
    } else {
      UnwindsHandlers(chain[k..]);
      UnwindsConcat(chain[..k], exc, events, exc, chain[k..], [], exc);
      assert events + [] == events && chain[..k] + chain[k..] == chain;
    }
  }

  lemma {:induction false} PrunedWithin(s: seq<Node>, t: seq<Node>, dead: set<Node>)
    requires Pruned(s, t, dead)
    ensures forall n :: n in t ==> n in s
    decreases |s|
  {
    if s != [] {
      if t != [] && s[0] == t[0] && Pruned(s[1..], t[1..], dead) {
        PrunedWithin(s[1..], t[1..], dead);
        assert t == [t[0]] + t[1..];
      } else {
        PrunedWithin(s[1..], t, dead);
      }
    }
  }

  lemma {:induction false} ChainRanks(links: Links, x: Node?)
    requires Acyclic(links) && Within(links, x)
    ensures forall n :: n in Chain(links, x) ==> x != null && n.rank <= x.rank
    decreases if x == null then 0 else x.rank + 1
  {
    if x != null {
      ChainRanks(links, links[x]);
    }
  }

  /** What is left of the chain beyond its node `j`, after pruning. */
  lemma RestOfChain(a: Moment, b: Moment, head: Node?, j: nat)
    requires Later(a, b) && Acyclic(a.links) && Within(a.links, head) && j < |Chain(a.links, head)|
    ensures Acyclic(b.links) && Chain(a.links, head)[j] in b.links
    ensures var top := b.links[Chain(a.links, head)[j]];
            Within(b.links, top) && Pruned(Chain(a.links, head)[j + 1..], Chain(b.links, top), b.dead)
  {
    hide PrunesTo;
    var l1, l2, dead := a.links, b.links, b.dead;
    PrunesAcyclic(l1, l2, dead);
    ChainFrom(l1, head, j);
    var n := Chain(l1, head)[j];
    var s, t := Chain(l1, l1[n]), Chain(l2, l2[n]);
    PrunesHead(l1, l2, dead, n);
    RankFalls(l1, n);
    ChainRanks(l1, l1[n]);
    assert Chain(l1, n) == [n] + s && Chain(l2, n) == [n] + t;
    assert ([n] + s)[1..] == s && ([n] + t)[1..] == t;
    assert Chain(l1, head)[j + 1..] == s by {
      assert Chain(l1, head)[j..][1..] == Chain(l1, head)[j + 1..];
    }
    assert n in [n] + t;
    if Pruned(s, [n] + t, dead) {
      PrunedWithin(s, [n] + t, dead);
    }
  }

  /** A wrapped call enters the stack contexts of its chain once each, and leaves each of them once, in reverse
      order, if and only if nothing raises, or what raises does so without any of them having been spliced out of
      the parent links that are then followed. */
  lemma Balanced(chain: seq<Node>, visited: seq<Node>, dead: set<Node>, entered: seq<Node>, own: Option<Exception>,
                 events: seq<Event>, raised: Option<Exception>, how: Unwinding)
    requires entered == Reverse(StackOnly(chain)) && Pruned(chain, visited, dead)
    requires Unwinds(visited, own, events, raised)
    requires Unwound(how, chain, visited) && Descending(chain)
    ensures ExitsOf(events) == Reverse(entered) <==>
            how.AlongTuple? || forall n :: n in entered ==> !SplicedOut(how, chain, visited, n)
  {
    hide Pruned, Unwinds, Unwound, Descending, StackOnly, Reverse, SplicedOut;
    var on, left := StackOnly(chain), StackOnly(visited);
    UnwindsExits(visited, own, events, raised);
    PrunedStack(chain, visited, dead);
    ReverseTwice(on);
    forall n | n in entered
      ensures n in left <==> !SplicedOut(how, chain, visited, n)
    {
      ReverseOne(on, n);
      StackIn(chain, n);
      StackIn(visited, n);
      LeftUnlessSplicedOut(chain, visited, how, n);
    }
    DescendingStack(chain);
    AllThere(on, entered, left, dead);
    if how.AlongTuple? {
      TupleLeavesAll(how, chain, visited);
    }
  }

  lemma TupleLeavesAll(how: Unwinding, chain: seq<Node>, visited: seq<Node>)
    requires Unwound(how, chain, visited) && how.AlongTuple?
    ensures visited == chain
  {
  }

  lemma AllThere(s: seq<Node>, reversed: seq<Node>, t: seq<Node>, dead: set<Node>)
    requires Pruned(s, t, dead) && Descending(s) && reversed == Reverse(s)
    ensures s == t <==> forall n :: n in reversed ==> n in t
  {
    if s == t {
      forall n | n in reversed
        ensures n in t
      {
        ReverseOne(s, n);
      }
    } else if forall n :: n in reversed ==> n in t {
      ReverseIn(s);
      PrunedAllThere(s, t, dead);
    }
  }

  lemma OnceOnly(chain: seq<Node>, k: nat, n: Node)
    requires Descending(chain) && k <= |chain| && n in chain[k..]
    ensures n !in chain[..k]
  {
    var j :| 0 <= j < |chain| - k && chain[k..][j] == n;
    forall i | 0 <= i < k
      ensures chain[..k][i] != n
    {
      assert chain[i].rank > chain[k + j].rank;
    }
  }

  /** The same for one context: it is skipped exactly if it has been spliced out. */
  lemma LeftUnlessSplicedOut(chain: seq<Node>, visited: seq<Node>, how: Unwinding, n: Node)
    requires Unwound(how, chain, visited) && Descending(chain) && n in chain
    ensures n in visited <==> !SplicedOut(how, chain, visited, n)
  {
    hide Reaches, CutOff, Walk, Descending;
    if how.AlongLinks? {
      var taken, beyond := how.taken, visited[how.taken..];
      assert chain == chain[..taken] + chain[taken..] && visited == visited[..taken] + beyond;
      WalkVisits(how.path, how.from, beyond, n);
      if n in chain[taken..] {
        OnceOnly(chain, taken, n);
      }
    }
  }

  /** A call in which nothing raises leaves every context that it entered, even those deactivated meanwhile. */
  lemma BalancedIfNothingRaises(chain: seq<Node>, visited: seq<Node>, entered: seq<Node>, events: seq<Event>,
                                raised: Option<Exception>, how: Unwinding)
    requires entered == Reverse(StackOnly(chain)) && Unwinds(visited, None, events, raised)
    requires Unwound(how, chain, visited)
    requires how.AlongTuple? <==> forall e :: e in events ==> Out(e).None?
    requires forall e :: e in events ==> Out(e).None?
    ensures ExitsOf(events) == Reverse(entered) && raised.None?
  {
    UnwindsExits(visited, None, events, raised);
    UnwindsThread(visited, None, events, raised);
    ReverseTwice(StackOnly(chain));
    if events != [] {
      assert events[|events| - 1] in events;
    }
  }

  /** The same of any wrapped call, in any state. */
  method BalancedCall(state: State, w: Wrapped)
    returns (raised: Option<Exception>, entered: seq<Node>, own: Option<Exception>, events: seq<Event>,
             ghost chain: seq<Node>, ghost visited: seq<Node>, ghost how: Unwinding)
    requires state.Valid() && w in state.callables
    modifies state, state.nodes, state.callables
    ensures state.Valid() && state.contexts == old(state.contexts)
    ensures chain == Filter(old(Chain(state.Links(), w.captured.head)), old(state.Dead()))
    ensures Unwinds(visited, own, events, raised) && Pruned(chain, visited, state.Dead())
    ensures Unwound(how, chain, visited) && During(how, old(state.Now()), state.Now())
    ensures entered == Reverse(StackOnly(chain)) && Descending(chain)
    ensures own.None? && (forall e :: e in events ==> Out(e).None?) ==>
              ExitsOf(events) == Reverse(entered) && raised.None?
    ensures ExitsOf(events) == Reverse(entered) <==>
            how.AlongTuple? || forall n :: n in entered ==> !SplicedOut(how, chain, visited, n)
    ensures how.AlongTuple? <==> (own.None? || chain == []) && forall e :: e in events ==> Out(e).None?
  {
    hide *;
    raised, entered, own, events, chain, visited, how := state.Call(w);
    Balanced(chain, visited, state.Dead(), entered, own, events, raised, how);
    if own.None? && forall e :: e in events ==> Out(e).None? {
      BalancedIfNothingRaises(chain, visited, entered, events, raised, how);
    }
  }

  /** And so does one that raises, if none of the contexts that it entered has been deactivated by the time it
      ends. */
  lemma BalancedIfActive(chain: seq<Node>, visited: seq<Node>, dead: set<Node>, entered: seq<Node>,
                         own: Option<Exception>, events: seq<Event>, raised: Option<Exception>)
    requires entered == Reverse(StackOnly(chain)) && Pruned(chain, visited, dead)
    requires Unwinds(visited, own, events, raised)
    requires forall n :: n in entered ==> n !in dead
    ensures ExitsOf(events) == Reverse(entered)
  {
    UnwindsExits(visited, own, events, raised);
    PrunedStack(chain, visited, dead);
    ReverseTwice(StackOnly(chain));
    ReverseIn(StackOnly(chain));
    PrunedAllActive(StackOnly(chain), StackOnly(visited), dead);
  }

  /** In any case the contexts that are still active are left, each once, in reverse order, and nothing that was
      not entered is left. */
  lemma ActiveAreLeft(chain: seq<Node>, visited: seq<Node>, dead: set<Node>, entered: seq<Node>,
                      own: Option<Exception>, events: seq<Event>, raised: Option<Exception>)
    requires entered == Reverse(StackOnly(chain)) && Pruned(chain, visited, dead)
    requires Unwinds(visited, own, events, raised)
    ensures Filter(ExitsOf(events), dead) == Filter(Reverse(entered), dead)
    ensures Pruned(Reverse(entered), ExitsOf(events), dead)
  {
    UnwindsExits(visited, own, events, raised);
    PrunedStack(chain, visited, dead);
    ReverseTwice(StackOnly(chain));
    PrunedFilter(StackOnly(chain), StackOnly(visited), dead);
  }

  lemma {:induction false} PrunedStack(s: seq<Node>, t: seq<Node>, dead: set<Node>)
    requires Pruned(s, t, dead)
    ensures Pruned(StackOnly(s), StackOnly(t), dead)
    decreases |s|
  {
    if s != [] {
      if t != [] && s[0] == t[0] && Pruned(s[1..], t[1..], dead) {
        PrunedStack(s[1..], t[1..], dead);
        if !s[0].isHandler {
          assert ([s[0]] + StackOnly(s[1..]))[1..] == StackOnly(s[1..]);
          assert ([s[0]] + StackOnly(t[1..]))[1..] == StackOnly(t[1..]);
        }
      } else {
        PrunedStack(s[1..], t, dead);
        if !s[0].isHandler {
          assert ([s[0]] + StackOnly(s[1..]))[1..] == StackOnly(s[1..]);
        }
      }
    }
  }

  lemma {:induction false} ReverseOne(s: seq<Node>, n: Node)
    ensures n in s <==> n in Reverse(s)
  {
    if s != [] {
      ReverseOne(s[1..], n);
      assert s == [s[0]] + s[1..];
    }
  }

  lemma {:induction false} ReverseIn(s: seq<Node>)
    ensures forall n :: n in s ==> n in Reverse(s)
  {
    if s != [] {
      ReverseIn(s[1..]);
      assert s == [s[0]] + s[1..];
    }
  }

  lemma {:induction false} StackIn(s: seq<Node>, n: Node)
    ensures n in StackOnly(s) <==> n in s && !n.isHandler
  {
    if s != [] {
      StackIn(s[1..], n);
      assert s == [s[0]] + s[1..];
    }
  }

  lemma {:induction false} DescendingStack(s: seq<Node>)
    requires Descending(s)
    ensures Descending(StackOnly(s))
  {
    if s != [] {
      DescendingStack(s[1..]);
      var rest := StackOnly(s[1..]);
      forall j | 0 <= j < |rest|
        ensures s[0].rank > rest[j].rank
      {
        StackIn(s[1..], rest[j]);
        var i :| 0 <= i < |s[1..]| && s[1..][i] == rest[j];
        assert s[0].rank > s[i + 1].rank;
      }
    }
  }

  lemma FirstOnce(s: seq<Node>)
    requires Descending(s) && s != []
    ensures s[0] !in s[1..]
  {
    forall j | 0 <= j < |s| - 1
      ensures s[1..][j] != s[0]
    {
      assert s[0].rank > s[j + 1].rank;
    }
  }

  /** A pruned chain that still has every element is the whole chain. */
  lemma {:induction false} PrunedAllThere(s: seq<Node>, t: seq<Node>, dead: set<Node>)
    requires Pruned(s, t, dead) && Descending(s) && forall n :: n in s ==> n in t
    ensures s == t
    decreases |s|
  {
    if s != [] {
      var first := s[0];
      assert first in s;
      FirstOnce(s);
      if !(t != [] && first == t[0] && Pruned(s[1..], t[1..], dead)) {
        PrunedWithin(s[1..], t, dead);
        assert false;
      }
      forall n | n in s[1..]
        ensures n in t[1..]
      {
        assert n in s && n != first;
        assert t == [first] + t[1..];
      }
      PrunedAllThere(s[1..], t[1..], dead);
      assert s == [s[0]] + s[1..] && t == [t[0]] + t[1..];
    }
  }

  /** A context that is deactivated while the function runs, and spliced out by another wrapped call on the same
      chain, is not left when the function then raises. */
  method SkippedExit() returns (entered: seq<Node>, left: seq<Node>)
    ensures |entered| == 2 && entered[0] !in left && left != Reverse(entered)
  {
    hide Later, AllCoherent, Coherent, Acyclic, PrunesTo, Chain, Pruned, Filter, StackOnly, Reverse, Unwinds,
      State.Known, Unwound, SplicedOut, Descending;
    var state, outer, inner, first, second := TwoContexts();
    TwoOnChain(inner, outer, {});
    var c := state.Prune(first);
    entered := c.stack;
    assert state.Dead() == {};
    ChainHead(state.Links(), c.head);
    ChainDescends(state.Links(), c.head);
    ghost var chain := [inner, outer];
    var final, events, visited, dead, how := RaiseAfterPruning(state, outer, inner, c, second);
    left := ExitsOf(events);
    assert entered[0] == outer && outer in entered && outer in chain;
    LeftUnlessSplicedOut(chain, visited, how, outer);
    UnwindsExits(visited, Some(0), events, final);
    StackIn(visited, outer);
    Balanced(chain, visited, dead, entered, Some(0), events, final, how);
  }

  /** A stack context within another, captured twice. */
  method TwoContexts() returns (state: State, outer: Node, inner: Node, first: Wrapped, second: Wrapped)
    ensures state.Valid() && fresh(state) && fresh(state.nodes) && fresh(state.callables) && state.Dead() == {}
    ensures outer != inner && !outer.isHandler && !inner.isHandler && outer in state.nodes && inner in state.nodes
    ensures {first, second} <= state.callables && first != second
    ensures first.captured.head == inner && second.captured.head == inner
    ensures Chain(state.Links(), inner) == [inner, outer]
  {
    hide Later, AllCoherent, Coherent, Acyclic, PrunesTo, Chain, Pruned, Filter, State.Known;
    state := new State();
    assert state.Dead() == {};
    outer := state.Enter(false);
    inner := state.Enter(false);
    first := state.Wrap();
    second := state.Wrap();
    ChainOfTwo(state.Links(), inner, outer);
  }

  method RaiseAfterPruning(state: State, outer: Node, inner: Node, c: Contexts, second: Wrapped)
    returns (final: Option<Exception>, events: seq<Event>, ghost visited: seq<Node>, ghost dead: set<Node>,
             ghost how: Unwinding)
    requires state.Valid() && outer in state.nodes && second in state.callables && second.captured.head == inner
    requires outer != inner && !outer.isHandler && !inner.isHandler && state.Dead() == {}
    requires Within(state.Links(), c.head)
    requires Chain(state.Links(), inner) == Chain(state.Links(), c.head) == [inner, outer]
    modifies state, state.nodes, state.callables
    ensures Unwinds(visited, Some(0), events, final) && Pruned([inner, outer], visited, dead)
    ensures Unwound(how, [inner, outer], visited)
    ensures how.AlongLinks? && SplicedOut(how, [inner, outer], visited, outer)
  {
    hide Later, AllCoherent, Coherent, Acyclic, PrunesTo, Chain, Pruned, Filter, StackOnly, Reverse, Unwinds,
      State.Known, Walk, CutOff;
    ChainHead(state.Links(), c.head);
    state.Deactivate(outer);
    assert state.Dead() == {outer};
    TwoOnChain(inner, outer, {outer});
    var pruned := state.Prune(second);
    ChainHead(state.Links(), pruned.head);
    assert Chain(state.Links(), c.head) == [inner];
    ghost var path, start := *, state.Now();
    final, events, visited, path := state.HandleException(c.head, Some(0));
    LaterHead(start, state.Now(), null);
    dead, how := state.Dead(), AlongLinks(0, inner, path);
    assert visited[0..] == visited && [inner, outer][0..] == [inner, outer] && visited[..0] == [inner, outer][..0];
    assert path[0] == start;
    assert !Reaches(path[0].links, inner, outer);
    WalkLength(path, inner, visited, null);
    OneCut(inner, outer, visited, {outer}, dead);
  }

  lemma OneCut(inner: Node, outer: Node, visited: seq<Node>, a: set<Node>, b: set<Node>)
    requires outer in a && a <= b && Pruned([inner], visited, b)
    ensures Pruned([inner, outer], visited, b)
  {
    assert [inner, outer][1..] == [outer] && [outer][1..] == [] && [inner][1..] == [];
    assert Pruned([outer], [], a) && Pruned([inner, outer], [inner], a);
    PrunedTrans([inner, outer], [inner], visited, a, b);
  }

  lemma ChainOfTwo(links: Links, inner: Node, outer: Node)
    requires Acyclic(links) && inner in links && outer in links && links[inner] == outer && links[outer] == null
    ensures Chain(links, inner) == [inner, outer]
  {
    assert Chain(links, outer) == [outer] + Chain(links, null);
  }

  lemma ChainHead(links: Links, x: Node?)
    requires Acyclic(links) && Within(links, x)
    ensures x == if Chain(links, x) == [] then null else Chain(links, x)[0]
  {
  }

  lemma TwoOnChain(inner: Node, outer: Node, dead: set<Node>)
    requires inner !in dead && inner != outer && !inner.isHandler && !outer.isHandler
    ensures Filter([inner, outer], dead) == if outer in dead then [inner] else [inner, outer]
    ensures Reverse(StackOnly([inner, outer])) == [outer, inner]
  {
    assert [inner, outer][1..] == [outer] && [outer][1..] == [] && [inner] + [] == [inner];
    assert Filter([outer], dead) == if outer in dead then Filter([], dead) else [outer] + Filter([], dead);
    assert StackOnly([outer]) == [outer] + StackOnly([]);
    assert StackOnly([inner, outer]) == [inner] + StackOnly([outer]);
    assert Reverse([outer]) == Reverse([]) + [outer];
  }

  lemma {:induction false} FilterIn(s: seq<Node>, dead: set<Node>)
    ensures forall n :: n in Filter(s, dead) ==> n in s
  {
    if s != [] {
      FilterIn(s[1..], dead);
    }
  }

  lemma PrunedCoherent(links: Links, links': Links, dead: set<Node>, c: Contexts, head: Node?)
    requires Coherent(links, dead, c) && Acyclic(links') && links.Keys <= links'.Keys && Within(links', head)
    requires forall n :: n in Chain(links', head) ==> n !in dead
    requires Filter(Chain(links', head), dead) == Filter(Chain(links, c.head), dead)
    ensures Coherent(links', dead, Contexts(Filter(c.stack, dead), head))
    ensures Chain(links', head) == Filter(Chain(links, c.head), dead)
    ensures Filter(c.stack, dead) == Reverse(StackOnly(Chain(links', head)))
  {
    FilterAll(Chain(links', head), dead);
    FilterTwice(c.stack, dead, dead);
    FilterIn(c.stack, dead);
  }

  lemma PrunesAcyclic(links: Links, links': Links, dead: set<Node>)
    requires PrunesTo(links, links', dead)
    ensures Acyclic(links) && Acyclic(links') && links.Keys <= links'.Keys
  {
  }

  lemma KnownCoherent(links: Links, dead: set<Node>, known: set<Contexts>, c: Contexts)
    requires AllCoherent(links, dead, known) && c in known
    ensures Coherent(links, dead, c) && Acyclic(links) && Within(links, c.head) && forall n :: n in c.stack ==>
              n in links
  {
  }

  lemma NullCoherent(links: Links, dead: set<Node>)
    requires Acyclic(links)
    ensures Coherent(links, dead, Contexts([], null))
  {
  }

  lemma AllCoherentAdd(links: Links, dead: set<Node>, known: set<Contexts>, c: Contexts)
    requires AllCoherent(links, dead, known) && Coherent(links, dead, c)
    ensures AllCoherent(links, dead, known + {c}) && Acyclic(links)
  {
  }
}
