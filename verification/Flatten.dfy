/** The tree surgery of the flattening pass, on block objects with parent pointers. */
module Flatten {
  import opened GraphSyntax
  import opened Connectivity
  import opened Splicing
  import opened LinkWeights
  import opened SpliceLevels
  import opened FlattenConnectivity
  import opened Scoping
  import opened Sequences

  class BlockNode {
    var namespace: string
    var args: map<string, Arg>
    var actors: seq<Actor>
    var links: seq<Link>
    var blocks: seq<BlockNode>
    var parent: BlockNode?
    ghost const height: nat
    ghost const repr: set<BlockNode>

    ghost predicate Valid()
      reads this, repr
      decreases height
    {
      && this in repr
      && (forall c :: c in blocks ==>
           c in repr && c.repr <= repr && this !in c.repr && c.height < height && c.parent == this)
      && (forall i, j :: 0 <= i < j < |blocks| ==> blocks[i].repr !! blocks[j].repr)
      && (forall c :: c in blocks ==> c.Valid())
    }

    /** The tree below this node as a value. */
    ghost function Tree(): Block
      requires Valid()
      reads this, repr
      decreases height, |blocks| + 1
    {
      Block(namespace, args, actors, links, TreesFrom(0))
    }

    ghost function TreesFrom(k: nat): (ts: seq<Block>)
      requires Valid() && k <= |blocks|
      reads this, repr
      ensures |ts| == |blocks| - k
      ensures forall i :: 0 <= i < |ts| ==> ts[i] == blocks[k + i].Tree()
      decreases height, |blocks| - k
    {
      if k == |blocks| then [] else [blocks[k].Tree()] + TreesFrom(k + 1)
    }

    /** A node over trees that have nothing in common. */
    constructor (namespace: string, args: map<string, Arg>, actors: seq<Actor>, links: seq<Link>,
                 blocks: seq<BlockNode>)
      requires forall i :: 0 <= i < |blocks| ==> blocks[i].Valid()
      requires forall i, j :: 0 <= i < j < |blocks| ==> blocks[i].repr !! blocks[j].repr
      modifies blocks
      ensures Valid() && parent == null && this.blocks == blocks
      ensures this.namespace == namespace && this.args == args && this.actors == actors && this.links == links
      ensures fresh(this) && forall o :: o in repr ==> o == this || exists i :: 0 <= i < |blocks| && o in blocks[i].repr
      ensures forall i :: 0 <= i < |blocks| ==> blocks[i].Valid() && blocks[i].Tree() == old(blocks[i].Tree())
    {
      hide BlockNode.Valid, BlockNode.Tree;
      this.namespace, this.args, this.actors, this.links, this.blocks, parent :=
        namespace, args, actors, links, blocks, null;
      repr := {this} + set i, o | 0 <= i < |blocks| && o in blocks[i].repr :: o;
      height := Tallest(blocks) + 1;
      new;
      TallestIsMax(blocks);
      InOwnTrees(blocks);
      Adopt(this, blocks);
    }

    method RemoveChild(child: BlockNode)
      requires child in blocks
      requires forall i, j :: 0 <= i < j < |blocks| ==> blocks[i] != blocks[j]
      requires child != this
      modifies this`blocks, child`parent
      ensures child.parent == null
      ensures child == old(blocks)[0] ==> blocks == old(blocks)[1..]
    {
      var i := 0;
      while blocks[i] != child
        invariant 0 <= i < |blocks|
        invariant child !in blocks[..i]
        decreases |blocks| - i
      {
        i := i + 1;
      }
      blocks := blocks[..i] + blocks[i + 1..];
      child.parent := null;
    }
  }

  /** A pointer to the parent does not belong to the tree below. */
  method SetParent(child: BlockNode, parent: BlockNode)
    requires child.Valid()
    modifies child`parent
    ensures child.parent == parent && child.Valid() && child.Tree() == old(child.Tree())
  {
    ghost var trees := child.TreesFrom(0);
    SubBlocks(child);
    child.parent := parent;
    SubBlocksAgain(child, trees);
  }

  lemma SubBlocksAgain(b: BlockNode, trees: seq<Block>)
    requires |trees| == |b.blocks| && Below(b, b.blocks, 0)
    requires forall i :: 0 <= i < |b.blocks| ==> b.blocks[i].Valid() && b.blocks[i].Tree() == trees[i]
    ensures b.Valid() && b.TreesFrom(0) == trees
  {
    forall c | c in b.blocks ensures exists i :: 0 <= i < |b.blocks| && c == b.blocks[i] {
    }
    assert b.Valid();
  }

  method Adopt(node: BlockNode, blocks: seq<BlockNode>)
    requires node.blocks == blocks && node !in blocks
    requires forall i :: 0 <= i < |blocks| ==>
               blocks[i].Valid() && blocks[i] in node.repr && blocks[i].repr <= node.repr
    requires forall i :: 0 <= i < |blocks| ==> node !in blocks[i].repr && blocks[i].height < node.height
    requires forall i, j :: 0 <= i < j < |blocks| ==> blocks[i].repr !! blocks[j].repr
    requires node in node.repr
    modifies blocks
    ensures node.Valid()
    ensures forall i :: 0 <= i < |blocks| ==> blocks[i].Valid() && blocks[i].Tree() == old(blocks[i].Tree())
  {
    hide BlockNode.Valid, BlockNode.Tree;
    InOwnTrees(blocks);
    ghost var trees := TreesOf(blocks);
    var k := 0;
    while k < |blocks|
      invariant k <= |blocks| && forall i :: 0 <= i < k ==> blocks[i].parent == node
      invariant forall i :: 0 <= i < |blocks| ==> blocks[i].Valid() && blocks[i].Tree() == old(blocks[i].Tree())
    {
      forall i | 0 <= i < |blocks| && i != k ensures blocks[i].repr !! blocks[k].repr {
        assert if i < k then blocks[i].repr !! blocks[k].repr else blocks[k].repr !! blocks[i].repr;
      }
      SetParent(blocks[k], node);
      k := k + 1;
    }
    SubBlocksAgain(node, trees);
  }

  ghost function TreesOf(blocks: seq<BlockNode>): (trees: seq<Block>)
    requires forall i :: 0 <= i < |blocks| ==> blocks[i].Valid()
    reads blocks, set i, o | 0 <= i < |blocks| && o in blocks[i].repr :: o
    ensures |trees| == |blocks| && forall i :: 0 <= i < |blocks| ==> trees[i] == blocks[i].Tree()
  {
    if blocks == [] then [] else TreesOf(blocks[..|blocks| - 1]) + [blocks[|blocks| - 1].Tree()]
  }

  lemma InOwnTrees(blocks: seq<BlockNode>)
    requires forall i :: 0 <= i < |blocks| ==> blocks[i].Valid()
    ensures forall i :: 0 <= i < |blocks| ==> blocks[i] in blocks[i].repr
  {
  }

  ghost function Tallest(nodes: seq<BlockNode>): nat {
    if nodes == [] then 0
    else
      var rest := Tallest(nodes[..|nodes| - 1]);
      if nodes[|nodes| - 1].height > rest then nodes[|nodes| - 1].height else rest
  }

  lemma {:induction false} TallestIsMax(nodes: seq<BlockNode>)
    ensures forall i :: 0 <= i < |nodes| ==> nodes[i].height <= Tallest(nodes)
  {
    if nodes != [] {
      TallestIsMax(nodes[..|nodes| - 1]);
    }
  }

  lemma {:induction false} AllRewiredSnoc(inner: seq<Link>, l: Link, ns: string, outer: seq<Link>)
    ensures AllRewired(inner + [l], ns, outer) == AllRewired(inner, ns, outer) + Rewired(l, ns, outer)
  {
    if inner == [] {
      assert inner + [l] == [l] && AllRewired([l][1..], ns, outer) == [];
    } else {
      AllRewiredSnoc(inner[1..], l, ns, outer);
      assert (inner + [l])[1..] == inner[1..] + [l];
      Assoc(Rewired(inner[0], ns, outer), AllRewired(inner[1..], ns, outer), Rewired(l, ns, outer));
    }
  }

  lemma {:induction false} ThroughInportSnoc(outer: seq<Link>, q: Link, ns: string, port: string, i: InPort)
    ensures ThroughInport(outer + [q], ns, port, i)
         == ThroughInport(outer, ns, port, i) + (if q.inport == In(ns, port) then [Link(q.outport, i)] else [])
  {
    if outer == [] {
      assert outer + [q] == [q] && ThroughInport([q][1..], ns, port, i) == [];
    } else {
      ThroughInportSnoc(outer[1..], q, ns, port, i);
      assert (outer + [q])[1..] == outer[1..] + [q];
      Assoc(if outer[0].inport == In(ns, port) then [Link(outer[0].outport, i)] else [],
            ThroughInport(outer[1..], ns, port, i),
            if q.inport == In(ns, port) then [Link(q.outport, i)] else []);
    }
  }

  lemma {:induction false} ThroughOutportSnoc(outer: seq<Link>, q: Link, ns: string, port: string, o: OutPort)
    ensures ThroughOutport(outer + [q], ns, port, o)
         == ThroughOutport(outer, ns, port, o) + (if q.outport == Out(ns, port) then [Link(o, q.inport)] else [])
  {
    if outer == [] {
      assert outer + [q] == [q] && ThroughOutport([q][1..], ns, port, o) == [];
    } else {
      ThroughOutportSnoc(outer[1..], q, ns, port, o);
      assert (outer + [q])[1..] == outer[1..] + [q];
      Assoc(if outer[0].outport == Out(ns, port) then [Link(o, outer[0].inport)] else [],
            ThroughOutport(outer[1..], ns, port, o),
            if q.outport == Out(ns, port) then [Link(o, q.inport)] else []);
    }
  }

  lemma {:induction false} OuterRestSnoc(outer: seq<Link>, q: Link, ns: string, inner: seq<Link>)
    ensures OuterRest(outer + [q], ns, inner)
         == OuterRest(outer, ns, inner) + (if ConsumedOutside(q, ns, inner) then [] else [q])
  {
    if outer == [] {
      assert outer + [q] == [q] && OuterRest([q][1..], ns, inner) == [];
    } else {
      OuterRestSnoc(outer[1..], q, ns, inner);
      assert (outer + [q])[1..] == outer[1..] + [q];
    }
  }

  lemma {:induction false} InnerRestSnoc(inner: seq<Link>, l: Link, ns: string, outer: seq<Link>)
    ensures InnerRest(inner + [l], ns, outer)
         == InnerRest(inner, ns, outer) + (if ConsumedInside(l, ns, outer) then [] else [PromoteLink(ns, l)])
  {
    if inner == [] {
      assert inner + [l] == [l] && InnerRest([l][1..], ns, outer) == [];
    } else {
      InnerRestSnoc(inner[1..], l, ns, outer);
      assert (inner + [l])[1..] == inner[1..] + [l];
    }
  }

  lemma {:induction false} LiftActorsSnoc(ns: string, env: map<string, Arg>, actors: seq<Actor>, a: Actor)
    ensures LiftActors(ns, env, actors + [a]) == LiftActors(ns, env, actors) + [LiftActor(ns, env, a)]
  {
    if actors == [] {
      assert actors + [a] == [a] && LiftActors(ns, env, [a][1..]) == [];
    } else {
      LiftActorsSnoc(ns, env, actors[1..], a);
      assert (actors + [a])[1..] == actors[1..] + [a];
    }
  }

  lemma NoAssignment(ns: string, env: map<string, Arg>, actors: seq<Actor>)
    ensures LiftActors(ns, env, actors[..0]) + actors[0..] == actors
  {
  }

  lemma NextAssignment(ns: string, env: map<string, Arg>, before: seq<Actor>, now: seq<Actor>, i: nat)
    requires i < |before| == |now| && now == LiftActors(ns, env, before[..i]) + before[i..]
    ensures now[i] == before[i]
    ensures now[i := LiftActor(ns, env, before[i])] == LiftActors(ns, env, before[..i + 1]) + before[i + 1..]
  {
    hide LiftActors, LiftActor;
    LiftActorsSnoc(ns, env, before[..i], before[i]);
    assert before[..i + 1] == before[..i] + [before[i]];
    LiftActorsLength(ns, env, before[..i]);
  }

  lemma DistinctSubBlocks(b: BlockNode)
    requires b.Valid()
    ensures forall c :: c in b.blocks ==> c.Valid()
    ensures forall i, j :: 0 <= i < j < |b.blocks| ==> b.blocks[i] != b.blocks[j]
  {
    forall i | 0 <= i < |b.blocks| ensures b.blocks[i] in b.blocks[i].repr {
      assert b.blocks[i] in b.blocks && b.blocks[i].Valid();
    }
  }

  /** What a valid node says about its nested blocks, without the blocks of these. */
  ghost predicate Below(b: BlockNode, subs: seq<BlockNode>, from: nat)
    reads subs
  {
    && b in b.repr
    && (forall i :: from <= i < |subs| ==>
         subs[i] in b.repr && subs[i].repr <= b.repr && b !in subs[i].repr && subs[i].height < b.height &&
           subs[i].parent == b)
    && (forall i, j :: from <= i < j < |subs| ==> subs[i].repr !! subs[j].repr)
  }

  lemma SubBlocks(b: BlockNode)
    requires b.Valid()
    ensures Below(b, b.blocks, 0)
    ensures forall i :: 0 <= i < |b.blocks| ==>
              b.blocks[i] in b.blocks[i].repr && b.blocks[i].Valid() && b.blocks[i].Tree() == b.TreesFrom(0)[i]
  {
    DistinctSubBlocks(b);
    forall i | 0 <= i < |b.blocks| ensures b.blocks[i] in b.blocks[i].repr && b.blocks[i].Valid() {
      assert b.blocks[i] in b.blocks;
    }
  }

  /** A node stays valid when it loses its first block. */
  lemma ValidWithoutFirst(b: BlockNode, subs: seq<BlockNode>, trees: seq<Block>)
    requires |subs| == |trees| && subs != [] && b.blocks == subs[1..] && Below(b, subs, 1)
    requires forall i :: 1 <= i < |subs| ==> subs[i].Valid() && subs[i].Tree() == trees[i]
    ensures b.Valid() && b.TreesFrom(0) == trees[1..]
  {
    forall c | c in b.blocks ensures exists i :: 1 <= i < |subs| && c == subs[i] {
      var i :| 0 <= i < |b.blocks| && c == b.blocks[i];
      assert c == subs[i + 1];
    }
    assert b.Valid();
    assert |b.TreesFrom(0)| == |trees[1..]|;
  }

  lemma FlattenFirst(ns: string, args: map<string, Arg>, actors: seq<Actor>, links: seq<Link>, blocks: seq<Block>)
    requires blocks != []
    ensures var c, rest := blocks[0], blocks[1..];
      && FlatLinks(Block(ns, args, actors, links, blocks)) == SpliceAll(Splice(links, c.ns, FlatLinks(c)), rest)
      && FlatActors(Block(ns, args, actors, links, blocks)) ==
         (actors + LiftActors(c.ns, c.args, FlatActors(c))) + Dissolved(rest)
  {
    Assoc(actors, LiftActors(blocks[0].ns, blocks[0].args, FlatActors(blocks[0])), Dissolved(blocks[1..]));
  }

  lemma FlattenTheorem(tree: Block)
    ensures FlatActors(tree) == Lexical(tree, [])
    ensures Consistent(tree) && Scripted(tree) ==>
              (multiset(FlatLinks(tree)) == multiset(Resolve(tree)) <==> SelfLinkFree(tree))
    ensures Consistent(tree) && tree.links == [] ==> forall l :: l in FlatLinks(tree) ==> l.Crossing()
  {
    FlatActorsAreLexical(tree);
    if Consistent(tree) {
      FlatKeepsHull(tree.links, tree.blocks);
      forall l | tree.links == [] && l in FlatLinks(tree) ensures l.Crossing() {
        assert l.outport.InternalOut? ==> FromHull(FlatLinks(tree), l.outport.port);
        assert l.inport.InternalIn? ==> ToHull(FlatLinks(tree), l.inport.port);
      }
      if Scripted(tree) {
        FlattenExact(tree);
      }
    }
  }

  /** Position k of the inner links rewires position j of the outer ones. */
  ghost predicate Joins(l: Link, q: Link, ns: string) {
    || (l.outport.InternalOut? && q.inport == In(ns, l.outport.port))
    || (l.inport.InternalIn? && q.outport == Out(ns, l.inport.port))
  }

  ghost predicate ConsumedUpTo(inner: seq<Link>, n: nat, outer: seq<Link>, ns: string, ins: set<nat>, outs: set<nat>)
    requires n <= |inner|
  {
    && (forall k :: k in ins <==> 0 <= k < n && ConsumedInside(inner[k], ns, outer))
    && (forall j :: j in outs <==> 0 <= j < |outer| && exists k :: 0 <= k < n && Joins(inner[k], outer[j], ns))
  }

  /** The first i links have been visited: promoted in place, with their replacements at the end. */
  ghost predicate Visited(now: seq<Link>, inner: seq<Link>, i: nat, ns: string, outer: seq<Link>, ins: set<nat>,
                          outs: set<nat>) {
    && i <= |inner| <= |now|
    && (forall k :: 0 <= k < i ==> now[k] == PromoteLink(ns, inner[k]))
    && (forall k :: i <= k < |inner| ==> now[k] == inner[k])
    && now[|inner|..] == AllRewired(inner[..i], ns, outer)
    && ConsumedUpTo(inner, i, outer, ns, ins, outs)
  }

  lemma NothingVisited(inner: seq<Link>, ns: string, outer: seq<Link>)
    ensures Visited(inner, inner, 0, ns, outer, {}, {})
  {
  }

  lemma VisitedStep(now: seq<Link>, now': seq<Link>, inner: seq<Link>, i: nat, ns: string, outer: seq<Link>,
                    ins: set<nat>, ins': set<nat>, outs: set<nat>, outs': set<nat>)
    requires i < |inner| && Visited(now, inner, i, ns, outer, ins, outs)
    requires now' == now[i := PromoteLink(ns, now[i])] + Rewired(now[i], ns, outer)
    requires ins' == ins + if ConsumedInside(now[i], ns, outer) then {i} else {}
    requires outs' == outs + set j | 0 <= j < |outer| && Joins(now[i], outer[j], ns)
    ensures Visited(now', inner, i + 1, ns, outer, ins', outs')
  {
    hide Joins, ConsumedInside, Rewired, AllRewired;
    AllRewiredSnoc(inner[..i], inner[i], ns, outer);
    assert inner[..i + 1] == inner[..i] + [inner[i]];
    assert now'[|inner|..] == now[|inner|..] + Rewired(inner[i], ns, outer);
  }

  /** The links at the first n positions that are not in dead, in order. */
  function Kept(links: seq<Link>, dead: set<nat>, n: nat): seq<Link>
    requires n <= |links|
  {
    if n == 0 then [] else Kept(links, dead, n - 1) + (if n - 1 in dead then [] else [links[n - 1]])
  }

  lemma {:induction false} KeptOutside(outer: seq<Link>, dead: set<nat>, ns: string, inner: seq<Link>, n: nat)
    requires n <= |outer|
    requires forall j :: 0 <= j < |outer| ==> (j in dead <==> ConsumedOutside(outer[j], ns, inner))
    ensures Kept(outer, dead, n) == OuterRest(outer[..n], ns, inner)
  {
    if n > 0 {
      KeptOutside(outer, dead, ns, inner, n - 1);
      OuterRestSnoc(outer[..n - 1], outer[n - 1], ns, inner);
      assert outer[..n] == outer[..n - 1] + [outer[n - 1]];
    }
  }

  lemma {:induction false} KeptInside(links: seq<Link>, dead: set<nat>, ns: string, inner: seq<Link>, outer: seq<Link>,
                                      n: nat)
    requires n <= |inner| <= |links|
    requires forall k :: 0 <= k < |inner| ==> links[k] == PromoteLink(ns, inner[k])
    requires forall k :: 0 <= k < |inner| ==> (k in dead <==> ConsumedInside(inner[k], ns, outer))
    ensures Kept(links, dead, n) == InnerRest(inner[..n], ns, outer)
  {
    if n > 0 {
      KeptInside(links, dead, ns, inner, outer, n - 1);
      InnerRestSnoc(inner[..n - 1], inner[n - 1], ns, outer);
      assert inner[..n] == inner[..n - 1] + [inner[n - 1]];
    }
  }

  lemma {:induction false} KeptTail(links: seq<Link>, dead: set<nat>, n: nat, m: nat)
    requires n <= m <= |links| && forall k :: k in dead ==> k < n
    ensures Kept(links, dead, m) == Kept(links, dead, n) + links[n..m]
  {
    if n < m {
      KeptTail(links, dead, n, m - 1);
      assert links[n..m] == links[n..m - 1] + [links[m - 1]];
    }
  }

  lemma JoinsIsConsumed(inner: seq<Link>, ns: string, outer: seq<Link>)
    ensures forall q :: ConsumedOutside(q, ns, inner) <==> exists k :: 0 <= k < |inner| && Joins(inner[k], q, ns)
    ensures forall l :: ConsumedInside(l, ns, outer) <==> exists j :: 0 <= j < |outer| && Joins(l, outer[j], ns)
  {
    forall q ensures ConsumedOutside(q, ns, inner) <==> exists k :: 0 <= k < |inner| && Joins(inner[k], q, ns) {
      if ConsumedOutside(q, ns, inner) {
        var l :| l in inner && Joins(l, q, ns);
        var k :| 0 <= k < |inner| && inner[k] == l;
      }
    }
    forall l ensures ConsumedInside(l, ns, outer) <==> exists j :: 0 <= j < |outer| && Joins(l, outer[j], ns) {
      if ConsumedInside(l, ns, outer) {
        var q :| q in outer && Joins(l, q, ns);
        var j :| 0 <= j < |outer| && outer[j] == q;
      }
    }
  }

  class Flatten {
    var stack: seq<string>
    /** The links to delete, by their position in the block and in the block around it. */
    var consumedInside: set<nat>
    var consumedOutside: set<nat>

    constructor ()
      ensures stack == []
    {
      stack := [];
      consumedInside, consumedOutside := {}, {};
    }

    /** Names and arguments of the actors of block b, whose namespace is on the stack. */
    method VisitAssignments(b: BlockNode)
      requires stack != [] && stack[|stack| - 1] == b.namespace
      modifies b`actors
      ensures b.actors == LiftActors(b.namespace, b.args, old(b.actors))
    {
      hide LiftActors;
      NoAssignment(b.namespace, b.args, b.actors);
      var i := 0;
      ghost var before := b.actors;
      while i < |b.actors|
        invariant 0 <= i <= |b.actors| == |before|
        invariant b.actors == LiftActors(b.namespace, b.args, before[..i]) + before[i..]
      {
        var a := b.actors[i];
        NextAssignment(b.namespace, b.args, before, b.actors, i);
        b.actors := b.actors[i := Actor(stack[|stack| - 1] + ":" + a.ident, a.actorType, LiftArgs(b.args, a.args))];
        i := i + 1;
      }
      assert before[..i] == before;
    }

    /** Follow the inside of a hull inport out to the links that arrive there. */
    method VisitInternalOutPort(b: BlockNode, i: nat)
      requires i < |b.links| && b.links[i].outport.InternalOut? && b.parent != null && b.parent != b
      modifies b`links, this`consumedInside, this`consumedOutside
      ensures b.links ==
                old(b.links) + ThroughInport(b.parent.links, b.namespace, old(b.links)[i].outport.port,
                                             old(b.links)[i].inport)
      ensures consumedInside == old(consumedInside)
           + (if UsesIn(b.parent.links, b.namespace, old(b.links)[i].outport.port) then {i} else {})
      ensures consumedOutside == old(consumedOutside)
           + set j | 0 <= j < |b.parent.links| &&
             b.parent.links[j].inport == In(b.namespace, old(b.links)[i].outport.port)
    {
      var outer, l2 := b.parent.links, b.links[i];
      var port, j := l2.outport.port, 0;
      while j < |outer|
        invariant 0 <= j <= |outer|
        invariant b.links == old(b.links) + ThroughInport(outer[..j], b.namespace, port, l2.inport)
        invariant consumedInside == old(consumedInside) + (if UsesIn(outer[..j], b.namespace, port) then {i} else {})
        invariant consumedOutside ==
                    old(consumedOutside) + set k | 0 <= k < j && outer[k].inport == In(b.namespace, port)
      {
        ThroughInportSnoc(outer[..j], outer[j], b.namespace, port, l2.inport);
        assert outer[..j + 1] == outer[..j] + [outer[j]];
        if outer[j].inport == In(b.namespace, port) {
          b.links := b.links + [Link(outer[j].outport, l2.inport)];
          consumedInside := consumedInside + {i};
          consumedOutside := consumedOutside + {j};
          assert outer[j] in outer[..j + 1];
        }
        j := j + 1;
      }
      assert outer[..j] == outer;
    }

    /** Follow the inside of a hull outport out to the links that leave there. */
    method VisitInternalInPort(b: BlockNode, i: nat)
      requires i < |b.links| && b.links[i].inport.InternalIn? && b.parent != null && b.parent != b
      modifies b`links, this`consumedInside, this`consumedOutside
      ensures b.links ==
                old(b.links) + ThroughOutport(b.parent.links, b.namespace, old(b.links)[i].inport.port,
                                              old(b.links)[i].outport)
      ensures consumedInside == old(consumedInside)
           + (if UsesOut(b.parent.links, b.namespace, old(b.links)[i].inport.port) then {i} else {})
      ensures consumedOutside == old(consumedOutside)
           + set j | 0 <= j < |b.parent.links| &&
             b.parent.links[j].outport == Out(b.namespace, old(b.links)[i].inport.port)
    {
      var outer, l1 := b.parent.links, b.links[i];
      var port, j := l1.inport.port, 0;
      while j < |outer|
        invariant 0 <= j <= |outer|
        invariant b.links == old(b.links) + ThroughOutport(outer[..j], b.namespace, port, l1.outport)
        invariant consumedInside == old(consumedInside) + (if UsesOut(outer[..j], b.namespace, port) then {i} else {})
        invariant consumedOutside ==
                    old(consumedOutside) + set k | 0 <= k < j && outer[k].outport == Out(b.namespace, port)
      {
        ThroughOutportSnoc(outer[..j], outer[j], b.namespace, port, l1.outport);
        assert outer[..j + 1] == outer[..j] + [outer[j]];
        if outer[j].outport == Out(b.namespace, port) {
          b.links := b.links + [Link(l1.outport, outer[j].inport)];
          consumedInside := consumedInside + {i};
          consumedOutside := consumedOutside + {j};
          assert outer[j] in outer[..j + 1];
        }
        j := j + 1;
      }
      assert outer[..j] == outer;
    }

    /** Real ports are promoted before the hull ports of the same link are looked through. */
    method VisitLink(b: BlockNode, i: nat)
      requires i < |b.links| && b.parent != null && b.parent != b
      requires stack != [] && stack[|stack| - 1] == b.namespace
      modifies b`links, this`consumedInside, this`consumedOutside
      ensures b.links ==
                old(b.links)[i := PromoteLink(b.namespace, old(b.links)[i])] +
                  Rewired(old(b.links)[i], b.namespace, b.parent.links)
      ensures consumedInside == old(consumedInside)
           + (if ConsumedInside(old(b.links)[i], b.namespace, b.parent.links) then {i} else {})
      ensures consumedOutside == old(consumedOutside)
           + set j | 0 <= j < |b.parent.links| && Joins(old(b.links)[i], b.parent.links[j], b.namespace)
    {
      ghost var l := b.links[i];
      PromoteEnds(b, i);
      if b.links[i].outport.InternalOut? {
        VisitInternalOutPort(b, i);
      }
      if b.links[i].inport.InternalIn? {
        VisitInternalInPort(b, i);
      }
    }

    /** The ends that are ports of actors or instances get the namespace of the block. */
    method PromoteEnds(b: BlockNode, i: nat)
      requires i < |b.links| && stack != [] && stack[|stack| - 1] == b.namespace
      modifies b`links
      ensures b.links == old(b.links)[i := PromoteLink(b.namespace, old(b.links)[i])]
    {
      var ns, l := stack[|stack| - 1], b.links[i];
      if l.outport.Out? {
        b.links := b.links[i := b.links[i].(outport := PromoteOut(ns, l.outport))];
      }
      if l.inport.In? {
        b.links := b.links[i := b.links[i].(inport := PromoteIn(ns, l.inport))];
      }
    }

    method VisitLinks(b: BlockNode)
      requires b.parent != null && b.parent != b
      requires stack != [] && stack[|stack| - 1] == b.namespace
      modifies b`links, this`consumedInside, this`consumedOutside
      ensures |b.links| >= |old(b.links)|
      ensures forall k :: 0 <= k < |old(b.links)| ==> b.links[k] == PromoteLink(b.namespace, old(b.links)[k])
      ensures b.links[|old(b.links)|..] == AllRewired(old(b.links), b.namespace, b.parent.links)
      ensures forall k :: k in consumedInside <==>
                0 <= k < |old(b.links)| && ConsumedInside(old(b.links)[k], b.namespace, b.parent.links)
      ensures forall j :: j in consumedOutside <==>
                0 <= j < |b.parent.links| && ConsumedOutside(b.parent.links[j], b.namespace, old(b.links))
    {
      consumedInside, consumedOutside := {}, {};
      ghost var inner, outer := b.links, b.parent.links;
      var n, i := |b.links|, 0;
      NothingVisited(inner, b.namespace, outer);
      while i < n
        invariant 0 <= i <= n == |inner| <= |b.links|
        invariant Visited(b.links, inner, i, b.namespace, outer, consumedInside, consumedOutside)
      {
        ghost var before, ins, outs := b.links, consumedInside, consumedOutside;
        VisitLink(b, i);
        VisitedStep(before, b.links, inner, i, b.namespace, outer, ins, consumedInside, outs, consumedOutside);
        i := i + 1;
      }
      assert inner[..n] == inner;
      JoinsIsConsumed(inner, b.namespace, outer);
    }

    method KeepAlive(links: seq<Link>, dead: set<nat>) returns (alive: seq<Link>)
      ensures alive == Kept(links, dead, |links|)
    {
      alive := [];
      for i := 0 to |links|
        invariant alive == Kept(links, dead, i)
      {
        if i !in dead {
          alive := alive + [links[i]];
        }
      }
    }

    /** Rewire the links across the hull of b, whose nested blocks are gone, drop the
        replaced links and move everything that is left to the block around b. */
    method Dissolve(b: BlockNode)
      requires b.parent != null && b.parent != b
      requires stack != [] && stack[|stack| - 1] == b.namespace
      modifies b`links, b`actors, b.parent`links, b.parent`actors, this`consumedInside, this`consumedOutside
      ensures b.parent.links == Splice(old(b.parent.links), b.namespace, old(b.links))
      ensures b.parent.actors == old(b.parent.actors) + LiftActors(b.namespace, b.args, old(b.actors))
    {
      hide ConsumedUpTo, AllRewired, OuterRest, InnerRest, LiftActors;
      ghost var inner, outer, ns := b.links, b.parent.links, b.namespace;
      VisitAssignments(b);
      VisitLinks(b);
      ghost var visited := b.links;
      var restInside := KeepAlive(b.links, consumedInside);
      var restOutside := KeepAlive(b.parent.links, consumedOutside);
      b.links, b.parent.links := restInside, restOutside;
      b.parent.actors := b.parent.actors + b.actors;
      b.parent.links := b.parent.links + b.links;

      KeptOutside(outer, consumedOutside, ns, inner, |outer|);
      KeptTail(visited, consumedInside, |inner|, |visited|);
      KeptInside(visited, consumedInside, ns, inner, outer, |inner|);
      assert outer[..|outer|] == outer && inner[..|inner|] == inner;
      assert visited[|inner|..|visited|] == visited[|inner|..];
    }

    /** Flatten the block b into the block around it, which then no longer contains it. */
    method VisitBlock(b: BlockNode)
      requires b.Valid() && b.parent != null && b.parent !in b.repr && b in b.parent.blocks
      requires forall i, j :: 0 <= i < j < |b.parent.blocks| ==> b.parent.blocks[i] != b.parent.blocks[j]
      modifies this, b.repr, b.parent
      ensures b.parent == null && stack == old(stack)
      ensures old(b.parent).links == Splice(old(b.parent.links), old(b.namespace), FlatLinks(old(b.Tree())))
      ensures old(b.parent).actors ==
                old(b.parent.actors) + LiftActors(old(b.namespace), old(b.args), FlatActors(old(b.Tree())))
      ensures old(b.parent).namespace == old(b.parent.namespace) && old(b.parent).args == old(b.parent.args)
      ensures old(b.parent).parent == old(b.parent.parent)
      ensures b == old(b.parent.blocks)[0] ==> old(b.parent).blocks == old(b.parent.blocks)[1..]
      decreases b.height, 1
    {
      ghost var p, tree := b.parent, b.Tree();
      stack := stack + [b.namespace];
      var subs, k := b.blocks, 0;
      while k < |subs|
        invariant 0 <= k <= |subs|
        invariant b.Valid() && b.blocks == subs[k..] && stack == old(stack) + [b.namespace]
        invariant b.parent == p && b.namespace == old(b.namespace) && b.args == old(b.args)
        invariant FlatLinks(b.Tree()) == FlatLinks(tree) && FlatActors(b.Tree()) == FlatActors(tree)
        invariant unchanged(p)
      {
        VisitFirstSubBlock(b, subs[k]);
        k := k + 1;
      }
      assert b.actors + [] == b.actors;
      Dissolve(b);
      b.parent.RemoveChild(b);
      stack := stack[..|stack| - 1];
    }

    /** Flatten the tree below the root node, which is not a block and keeps its name to
        itself: every connection of the graph is left over once for each way through the
        hulls exactly when no instance is linked to itself, and no hull port is left. */
    method Process(root: BlockNode)
      requires root.Valid()
      modifies this, root.repr
      ensures root.blocks == [] && stack == old(stack)
      ensures root.links == FlatLinks(old(root.Tree()))
      ensures root.actors == Lexical(old(root.Tree()), [])
      ensures Consistent(old(root.Tree())) && Scripted(old(root.Tree())) ==>
                (multiset(root.links) == multiset(Resolve(old(root.Tree()))) <==> SelfLinkFree(old(root.Tree())))
      ensures Consistent(old(root.Tree())) && old(root.links) == [] ==> forall l :: l in root.links ==> l.Crossing()
    {
      ghost var tree := root.Tree();
      VisitSubBlocks(root);
      FlattenTheorem(tree);
    }

    method VisitSubBlocks(root: BlockNode)
      requires root.Valid()
      modifies this, root.repr
      ensures root.blocks == [] && stack == old(stack)
      ensures root.links == FlatLinks(old(root.Tree()))
      ensures root.actors == FlatActors(old(root.Tree()))
    {
      ghost var tree := root.Tree();
      var blocks, k := root.blocks, 0;
      while k < |blocks|
        invariant 0 <= k <= |blocks|
        invariant root.Valid() && root.blocks == blocks[k..] && stack == old(stack)
        invariant FlatLinks(root.Tree()) == FlatLinks(tree) && FlatActors(root.Tree()) == FlatActors(tree)
      {
        VisitFirstSubBlock(root, blocks[k]);
        k := k + 1;
      }
      assert root.actors + [] == root.actors;
    }

    method VisitFirstSubBlock(b: BlockNode, sub: BlockNode)
      requires b.Valid() && b.blocks != [] && sub == b.blocks[0]
      modifies this, sub.repr, b
      ensures b.Valid() && b.blocks == old(b.blocks)[1..] && stack == old(stack)
      ensures b.parent == old(b.parent) && b.namespace == old(b.namespace) && b.args == old(b.args)
      ensures FlatLinks(b.Tree()) == old(FlatLinks(b.Tree()))
      ensures FlatActors(b.Tree()) == old(FlatActors(b.Tree()))
      decreases b.height, 0
    {
      ghost var trees := b.TreesFrom(0);
      FlattenFirst(b.namespace, b.args, b.actors, b.links, trees);
      DetachFirstSubBlock(b, sub);
    }

    method DetachFirstSubBlock(b: BlockNode, sub: BlockNode)
      requires b.Valid() && b.blocks != [] && sub == b.blocks[0]
      modifies this, sub.repr, b
      ensures b.Valid() && b.blocks == old(b.blocks)[1..] && stack == old(stack)
      ensures b.parent == old(b.parent) && b.namespace == old(b.namespace) && b.args == old(b.args)
      ensures b.TreesFrom(0) == old(b.TreesFrom(0))[1..]
      ensures b.links == Splice(old(b.links), old(sub.namespace), FlatLinks(old(sub.Tree())))
      ensures b.actors == old(b.actors) + LiftActors(old(sub.namespace), old(sub.args), FlatActors(old(sub.Tree())))
      decreases b.height, 0, 0
    {
      hide BlockNode.Valid, BlockNode.Tree, Splice;
      ghost var subs, trees := b.blocks, b.TreesFrom(0);
      DistinctSubBlocks(b);
      SubBlocks(b);
      VisitBlock(sub);
      forall i | 1 <= i < |subs| ensures subs[i].Valid() && subs[i].parent == b && subs[i].Tree() == trees[i] {
        assert subs[i].repr !! sub.repr && b !in subs[i].repr;
      }
      ValidWithoutFirst(b, subs, trees);
    }
  }

  lemma {:induction false} LiftActorsLength(ns: string, env: map<string, Arg>, actors: seq<Actor>)
    ensures |LiftActors(ns, env, actors)| == |actors|
  {
    if actors != [] {
      LiftActorsLength(ns, env, actors[1..]);
    }
  }
}
