/** From a checked script to its flat graph: what the consistency check finds before expansion is
    what flattening relies on after it. */
module Compile {
  import opened GraphSyntax
  import opened Connectivity
  import opened Splicing
  import opened LinkWeights
  import opened SpliceLevels
  import opened FlattenConnectivity
  import opened FlattenNames
  import opened Walks
  import opened Scoping
  import opened ComponentExpansion

  datatype Component = Component(inports: set<string>, outports: set<string>, block: Block)

  function Blocks(comps: map<string, Component>): Definitions {
    map x | x in comps :: comps[x].block
  }

  /** An actor or component instance of the block. */
  ghost predicate Declares(b: Block, ident: string) {
    exists i :: 0 <= i < |b.actors| && b.actors[i].ident == ident
  }

  /** Names are identifiers, every link leads from something declared to something declared, hull
      ports are not joined directly, and an instance is linked at exactly the ports of its component. */
  ghost predicate Checked(b: Block, comps: map<string, Component>) {
    && b.blocks == [] && DistinctIdents(b.actors) && NoPassthrough(b.links)
    && (forall i :: 0 <= i < |b.actors| ==> Identifier(b.actors[i].ident))
    && (forall l :: l in b.links ==>
         (l.outport.Out? ==> Declares(b, l.outport.actor)) && (l.inport.In? ==> Declares(b, l.inport.actor)))
    && (forall i :: 0 <= i < |b.actors| && b.actors[i].actorType in comps ==>
         Wired(b.links, b.actors[i].ident, comps[b.actors[i].actorType]))
  }

  ghost predicate Wired(links: seq<Link>, ident: string, c: Component) {
    && (forall p :: UsesIn(links, ident, p) <==> p in c.inports)
    && (forall p :: UsesOut(links, ident, p) <==> p in c.outports)
  }

  /** Inside, a component uses exactly its own hull ports. */
  ghost predicate HullWired(c: Component) {
    && (forall p :: FromHull(c.block.links, p) <==> p in c.inports)
    && (forall p :: ToHull(c.block.links, p) <==> p in c.outports)
  }

  ghost predicate CheckedComponents(comps: map<string, Component>) {
    forall x :: x in comps ==> Checked(comps[x].block, comps) && HullWired(comps[x])
  }

  ghost predicate ExpansionOf(e: Block, a: Actor, defs: Definitions, depth: nat) {
    depth > 0 && a.actorType in defs && e == Full(Instance(a, defs[a.actorType]), defs, depth - 1)
  }

  lemma {:induction false} KeptOrInstance(actors: seq<Actor>, defs: Definitions, depth: nat)
    requires depth > 0
    ensures forall a :: a in actors <==> a in Kept(actors, defs) || a in Instances(actors, defs)
    ensures forall a :: a in Instances(actors, defs) ==> a.actorType in defs
    ensures |Expansions(actors, defs, depth)| == |Instances(actors, defs)|
    ensures forall i :: 0 <= i < |Instances(actors, defs)| ==>
              ExpansionOf(Expansions(actors, defs, depth)[i], Instances(actors, defs)[i], defs, depth)
  {
    if actors != [] {
      KeptOrInstance(actors[..|actors| - 1], defs, depth);
      assert actors == actors[..|actors| - 1] + [actors[|actors| - 1]];
    }
  }

  lemma {:induction false} PartsOf(actors: seq<Actor>, defs: Definitions)
    ensures forall a :: a in Kept(actors, defs) ==> a in actors && a.actorType !in defs
    ensures forall a :: a in Instances(actors, defs) ==> a in actors && a.actorType in defs
  {
    if actors != [] {
      PartsOf(actors[..|actors| - 1], defs);
    }
  }

  lemma OneMoreIdent(actors: seq<Actor>, a: Actor)
    requires DistinctIdents(actors) && forall b :: b in actors ==> b.ident != a.ident
    ensures DistinctIdents(actors + [a])
  {
  }

  lemma {:induction false} DistinctParts(actors: seq<Actor>, defs: Definitions)
    requires DistinctIdents(actors)
    ensures DistinctIdents(Kept(actors, defs)) && DistinctIdents(Instances(actors, defs))
    ensures forall a, c :: a in Kept(actors, defs) && c in Instances(actors, defs) ==> a.ident != c.ident
    ensures forall a :: a in Kept(actors, defs) || a in Instances(actors, defs) ==> a in actors
  {
    PartsOf(actors, defs);
    if actors != [] {
      var front, last := actors[..|actors| - 1], actors[|actors| - 1];
      DistinctParts(front, defs);
      PartsOf(front, defs);
      assert forall a :: a in front ==> a.ident != last.ident;
      hide DistinctIdents;
      if last.actorType in defs {
        OneMoreIdent(Instances(front, defs), last);
      } else {
        OneMoreIdent(Kept(front, defs), last);
      }
    }
  }

  /** What flattening needs to know about a block. */
  ghost predicate Ready(b: Block) {
    Consistent(b) && Scripted(b) && Declared(b) && WellNamed(b)
  }

  /** All that concerns only the block itself. */
  ghost predicate ReadyTop(b: Block) {
    && Level(b.links, b.blocks) && DistinctIdents(b.actors)
    && (forall l :: l in b.links ==>
         (l.outport.Out? ==> Identifier(l.outport.actor)) && (l.inport.In? ==> Identifier(l.inport.actor)))
    && (forall l :: l in b.links ==>
         && (l.outport.Out? ==> Names(b.actors, l.outport.actor) || exists c :: c in b.blocks &&
                                                                      c.ns == l.outport.actor)
         && (l.inport.In? ==> Names(b.actors, l.inport.actor) || exists c :: c in b.blocks && c.ns == l.inport.actor))
    && (forall a :: a in b.actors ==> Identifier(a.ident)) && (forall c :: c in b.blocks ==> Identifier(c.ns))
    && (forall a, c :: a in b.actors && c in b.blocks ==> a.ident != c.ns)
  }

  lemma ReadyFromTop(b: Block)
    requires ReadyTop(b) && forall c :: c in b.blocks ==> Ready(c)
    ensures Ready(b)
  {
    hide Attached, Identifier, Names;
  }

  /** The block of an instance is linked outside at the ports that are linked inside. */
  lemma InstanceAttached(b: Block, comps: map<string, Component>, a: Actor, e: Block, depth: nat)
    requires Checked(b, comps) && CheckedComponents(comps) && a in b.actors && ExpansionOf(e, a, Blocks(comps), depth)
    ensures e.ns == a.ident && Identifier(e.ns) && Attached(b.links, e.ns, e.links)
  {
    var c := comps[a.actorType];
    assert e.links == c.block.links;
    assert Wired(b.links, a.ident, c) && HullWired(c);
  }

  lemma BlockOfInstance(b: Block, comps: map<string, Component>, depth: nat, e: Block) returns (a: Actor)
    requires Checked(b, comps) && depth > 0 && e in Full(b, Blocks(comps), depth).blocks
    ensures a in Instances(b.actors, Blocks(comps)) && a in b.actors && ExpansionOf(e, a, Blocks(comps), depth)
  {
    var defs := Blocks(comps);
    KeptOrInstance(b.actors, defs, depth);
    assert FullAll(b.blocks, defs, depth) == [];
    var i :| 0 <= i < |Expansions(b.actors, defs, depth)| && Expansions(b.actors, defs, depth)[i] == e;
    a := Instances(b.actors, defs)[i];
  }

  lemma DistinctBlocks(b: Block, comps: map<string, Component>, depth: nat)
    requires Checked(b, comps) && depth > 0
    ensures DistinctNames(Full(b, Blocks(comps), depth).blocks)
  {
    hide Kept, Instances, Expansions;
    var defs := Blocks(comps);
    KeptOrInstance(b.actors, defs, depth);
    DistinctParts(b.actors, defs);
    assert FullAll(b.blocks, defs, depth) == [];
    var blocks, instances := Full(b, defs, depth).blocks, Instances(b.actors, defs);
    assert blocks == Expansions(b.actors, defs, depth);
    forall i | 0 <= i < |blocks| ensures blocks[i].ns == instances[i].ident {
      assert ExpansionOf(blocks[i], instances[i], defs, depth);
    }
  }

  /** Whatever the block declares is an actor or a block after expansion. */
  lemma DeclaredAfter(b: Block, comps: map<string, Component>, depth: nat, ident: string)
    requires Checked(b, comps) && depth > 0 && Declares(b, ident)
    ensures Identifier(ident)
    ensures Names(Full(b, Blocks(comps), depth).actors, ident) ||
              exists c :: c in Full(b, Blocks(comps), depth).blocks && c.ns == ident
  {
    var defs := Blocks(comps);
    KeptOrInstance(b.actors, defs, depth);
    assert FullAll(b.blocks, defs, depth) == [];
    var i :| 0 <= i < |b.actors| && b.actors[i].ident == ident;
    if b.actors[i] in Kept(b.actors, defs) {
    } else {
      var k :| 0 <= k < |Instances(b.actors, defs)| && Instances(b.actors, defs)[k] == b.actors[i];
      assert ExpansionOf(Expansions(b.actors, defs, depth)[k], b.actors[i], defs, depth);
      assert Expansions(b.actors, defs, depth)[k] in Full(b, defs, depth).blocks;
    }
  }

  lemma FullTop(b: Block, comps: map<string, Component>, depth: nat)
    requires Checked(b, comps) && CheckedComponents(comps) && depth > 0
    ensures ReadyTop(Full(b, Blocks(comps), depth))
  {
    var defs := Blocks(comps);
    var full := Full(b, defs, depth);
    KeptOrInstance(b.actors, defs, depth);
    DistinctParts(b.actors, defs);
    DistinctBlocks(b, comps, depth);
    forall l | l in full.links
      ensures l.outport.Out? ==> Identifier(l.outport.actor)
      ensures l.outport.Out? ==>
                Names(full.actors, l.outport.actor) || exists c :: c in full.blocks && c.ns == l.outport.actor
      ensures l.inport.In? ==> Identifier(l.inport.actor)
      ensures l.inport.In? ==>
                Names(full.actors, l.inport.actor) || exists c :: c in full.blocks && c.ns == l.inport.actor
    {
      if l.outport.Out? {
        DeclaredAfter(b, comps, depth, l.outport.actor);
      }
      if l.inport.In? {
        DeclaredAfter(b, comps, depth, l.inport.actor);
      }
    }
    forall e | e in full.blocks
      ensures Identifier(e.ns) && Attached(full.links, e.ns, e.links)
      ensures forall a :: a in full.actors ==> a.ident != e.ns
    {
      var a := BlockOfInstance(b, comps, depth, e);
      InstanceAttached(b, comps, a, e, depth);
    }
  }

  lemma InstanceIsChecked(comps: map<string, Component>, a: Actor)
    requires CheckedComponents(comps) && a.actorType in comps
    ensures Checked(Instance(a, comps[a.actorType].block), comps)
  {
    var b := comps[a.actorType].block;
    assert forall ident :: Declares(Instance(a, b), ident) <==> Declares(b, ident);
  }

  /** A checked script is ready to be flattened once it is expanded. */
  lemma {:induction false} ExpandedIsReady(b: Block, comps: map<string, Component>, rank: map<string, nat>, depth: nat)
    requires Checked(b, comps) && CheckedComponents(comps)
    requires Acyclic(Blocks(comps), rank) && Below(b, Blocks(comps), rank, depth)
    ensures Ready(Full(b, Blocks(comps), depth + 1))
    decreases depth
  {
    hide Checked, CheckedComponents, Ready, ReadyTop, Full;
    var defs := Blocks(comps);
    FullTop(b, comps, depth + 1);
    forall e | e in Full(b, defs, depth + 1).blocks ensures Ready(e) {
      var a := BlockOfInstance(b, comps, depth + 1, e);
      var i :| 0 <= i < |b.actors| && b.actors[i] == a;
      assert rank[a.actorType] < depth;
      InstanceIsChecked(comps, a);
      InstanceBelow(a, defs, rank, depth - 1);
      ExpandedIsReady(Instance(a, defs[a.actorType]), comps, rank, depth - 1);
    }
    ReadyFromTop(Full(b, defs, depth + 1));
  }

  /** The script as it is flattened: one block, named after the script, that holds everything. */
  function Script(name: string, main: Block): Block {
    Block("", map[], [], [], [main.(ns := name)])
  }

  /** From source to flat graph: for a checked script, every pair of ports of the expanded graph is linked as
      often as there are ways to go from one to the other, and exactly if a walk joins them, unless some
      instance is linked straight to itself; every actor has its full name and the argument values of its
      scope; all names differ; all links are between flat actors. */
  lemma CompiledGraph(name: string, main: Block, comps: map<string, Component>, rank: map<string, nat>, depth: nat)
    requires Identifier(name) && Checked(main, comps) && CheckedComponents(comps)
    requires Acyclic(Blocks(comps), rank) && Below(main, Blocks(comps), rank, depth)
    requires forall l :: l in main.links ==> l.Crossing()
    ensures var tree := Script(name, Full(main, Blocks(comps), depth));
      && (multiset(FlatLinks(tree)) == multiset(Resolve(tree)) <==> SelfLinkFree(tree))
      && ((forall x :: x in FlatLinks(tree) <==> Reachable(tree, x)) <==> SelfLinkFree(tree))
      && FlatActors(tree) == Lexical(tree, [])
      && DistinctIdents(FlatActors(tree))
      && (forall x :: x in Resolve(tree) ==>
           x.Crossing() && Names(FlatActors(tree), x.outport.actor) && Names(FlatActors(tree), x.inport.actor))
  {
    var full := Full(main, Blocks(comps), depth);
    var tree := Script(name, full);
    FullIsStable(main, Blocks(comps), rank, depth, depth + 1);
    ExpandedIsReady(main, comps, rank, depth);
    ReadyRenamed(full, name);
    ScriptIsReady(name, full);
    FlattenExact(tree);
    FlatLinksAreWalks(tree);
    FlatActorsAreLexical(tree);
    FlatNamesDistinct(tree);
    forall x | x in Resolve(tree)
      ensures x.Crossing() && Names(FlatActors(tree), x.outport.actor) && Names(FlatActors(tree), x.inport.actor)
    {
      ResolvedIsCrossing(tree, x);
      EndsAreFlatActors(tree, x);
    }
  }

  lemma ReadyRenamed(b: Block, name: string)
    requires Ready(b)
    ensures Ready(b.(ns := name))
  {
  }

  lemma ScriptIsReady(name: string, full: Block)
    requires Identifier(name) && Ready(full.(ns := name)) && forall l :: l in full.links ==> l.Crossing()
    ensures Ready(Script(name, full))
  {
    var tree := Script(name, full);
    assert tree.blocks[0] == full.(ns := name);
    assert Attached([], name, full.links);
  }

  lemma ResolvedIsCrossing(tree: Block, x: Link)
    requires tree.links == [] && |tree.blocks| == 1 && x in Resolve(tree)
    ensures x.Crossing()
  {
    InInside(x, tree.blocks);
    InChase(x, tree.links, tree.blocks);
  }

  /* ----- a script that is not flattened right ----- */

  const INNER := Block("", map[], [Actor("a", "std.Identity", [])],
                       [Link(InternalOut("i"), In("a", "token")), Link(Out("a", "token"), InternalIn("o"))], [])

  const LOOP := map["Loop" := Component({"i"}, {"o"}, INNER)]

  /** An instance of the component, its outport linked to its own inport. */
  const LOOPED := Block("", map[], [Actor("c", "Loop", [])], [Link(Out("c", "o"), In("c", "i"))], [])

  lemma LoopIsChecked()
    ensures Checked(LOOPED, LOOP) && CheckedComponents(LOOP)
  {
    assert forall l :: l in LOOPED.links <==> l == LOOPED.links[0];
    assert LOOPED.links[0] in LOOPED.links && Declares(LOOPED, "c") by {
      assert LOOPED.actors[0].ident == "c";
    }
    assert forall l :: l in INNER.links <==> l == INNER.links[0] || l == INNER.links[1];
    assert INNER.links[0] in INNER.links && INNER.links[1] in INNER.links && Declares(INNER, "a") by {
      assert INNER.actors[0].ident == "a";
    }
  }

  lemma LoopIsAcyclic()
    ensures Acyclic(Blocks(LOOP), map["Loop" := 0]) && Below(LOOPED, Blocks(LOOP), map["Loop" := 0], 1)
  {
  }

  lemma LoopLinksItself()
    ensures !SelfLinkFree(Script("s", Full(LOOPED, Blocks(LOOP), 1)))
  {
    var full := Full(LOOPED, Blocks(LOOP), 1);
    LoopIsChecked();
    DeclaredAfter(LOOPED, LOOP, 1, "c");
    assert LOOPED.links[0] in full.links;
    assert full.actors == [] by {
      assert LOOPED.actors[..0] == [] && Kept([], Blocks(LOOP)) == [];
    }
    hide Full;
    assert !NoSelfLink(full.links, "c");
    assert !SelfLinkFree(full);
    assert full.(ns := "s") in Script("s", full).blocks;
  }

  /** Every check accepts an instance that is linked to itself, and flattening then leaves something
      else than the connections of the graph. */
  lemma SelfLinkIsNotResolved()
    ensures Checked(LOOPED, LOOP) && CheckedComponents(LOOP)
    ensures var tree := Script("s", Full(LOOPED, Blocks(LOOP), 1));
      multiset(FlatLinks(tree)) != multiset(Resolve(tree)) &&
        !(forall x :: x in FlatLinks(tree) <==> Reachable(tree, x))
  {
    hide Checked, CheckedComponents, Full, Below, SelfLinkFree;
    LoopIsChecked();
    LoopIsAcyclic();
    LoopLinksItself();
    CompiledGraph("s", LOOPED, LOOP, map["Loop" := 0], 1);
  }
}
