/** The passes of the compiler in their order: from a script as it is written to the flat graph. */
module CodeGeneration {
  import opened Options
  import opened GraphSyntax
  import opened ConstantTrees
  import Connectivity
  import SpliceLevels
  import Splicing
  import FlattenNames
  import Walks
  import Scoping
  import Constants
  import ComponentExpansion
  import Compile
  import Occurrences
  import FlatOccurrences
  import WrittenWalks
  import PortNotation
  import PortRewrites
  import Flatten

  datatype RawBlock = RawBlock(actors: seq<Actor>, links: seq<PortNotation.RawLink>)

  datatype RawComponent = RawComponent(inports: set<string>, outports: set<string>, body: RawBlock)

  /** A script after parsing. */
  datatype RawScript = RawScript(name: string, main: RawBlock, comps: map<string, RawComponent>,
                                 constants: seq<Constants.Constant>)

  /** The types of the actors that the rewrites add. */
  const ADDED := {"std.Constant", "std.Constantify", "flow.Void", "flow.Terminator"}

  function AsRaw(links: seq<Link>): seq<PortNotation.RawLink> {
    seq(|links|, i requires 0 <= i < |links| =>
      PortNotation.RawLink(PortNotation.From(links[i].outport), PortNotation.One(PortNotation.To(links[i].inport))))
  }

  /** The block has only plain links, which stand for the connections that were written, and its own actors
      first; what the others stand for is in `roles`. */
  ghost predicate Rewrote(raw: RawBlock, b: Block, roles: PortNotation.Roles, made: seq<Actor>) {
    && b == Block("", map[], b.actors, b.links, [])
    && PortNotation.Wires(AsRaw(b.links), roles) == PortNotation.Wires(raw.links, map[])
    && PortRewrites.ActorsAre(b.actors, raw.actors, PortNotation.Labels(raw.links) + multiset(made))
    && PortRewrites.MadeFits(made, roles) && PortRewrites.TransformsLinked(AsRaw(b.links), roles)
    && UsedRightly(b.links, made) && forall x :: x in roles ==> !PortRewrites.Plain(x)
  }

  /** Actors that were added are linked only at the ports of their type. */
  ghost predicate UsedRightly(links: seq<Link>, made: seq<Actor>) {
    forall i, j :: 0 <= i < |links| && 0 <= j < |made| ==>
      PortRewrites.LeavesAs(links[i].outport, made[j]) && PortRewrites.ArrivesAs(links[i].inport, made[j])
  }

  /** The block stands for what was written. */
  ghost predicate IsRewritten(raw: RawBlock, b: Block) {
    exists roles, made :: Rewrote(raw, b, roles, made)
  }

  ghost predicate PlainNames(raw: RawBlock) {
    forall x :: PortNotation.AnyNames(raw.links, x) ==> PortRewrites.Plain(x)
  }

  method RewriteBlock(raw: RawBlock, counts: PortRewrites.Counts)
      returns (b: Block, counts': PortRewrites.Counts)
    requires PlainNames(raw)
    ensures IsRewritten(raw, b)
  {
    hide PortNotation.Wires, PortNotation.Labels, PortRewrites.ActorsAre;
    hide PortRewrites.MadeFits, PortRewrites.TransformsLinked, UsedRightly;
    var rewrite := new PortRewrites.PortRewrite(raw.actors, raw.links);
    counts' := rewrite.Rewrite(counts);
    var links, k := [], 0;
    while k < |rewrite.links|
      invariant k <= |rewrite.links| && AsRaw(links) == rewrite.links[..k]
    {
      links := links + [PortRewrites.LinkOf(rewrite.links[k])];
      k := k + 1;
    }
    assert AsRaw(links) == rewrite.links;
    b := Block("", map[], rewrite.actors, links, []);
    StillRight(links, rewrite.links, rewrite.made);
    assert Rewrote(raw, b, rewrite.roles, rewrite.made);
  }

  lemma StillRight(links: seq<Link>, raw: seq<PortNotation.RawLink>, made: seq<Actor>)
    requires AsRaw(links) == raw && PortRewrites.PlainLinks(raw) && PortRewrites.UsedRightly(raw, made)
    ensures UsedRightly(links, made)
  {
    forall i, j | 0 <= i < |links| && 0 <= j < |made|
      ensures PortRewrites.LeavesAs(links[i].outport, made[j]) && PortRewrites.ArrivesAs(links[i].inport, made[j])
    {
      assert raw[i] == AsRaw(links)[i];
    }
  }

  /* ----- the actors that are added are no components ----- */

  lemma {:induction false} LabelTypes(links: seq<PortNotation.RawLink>)
    ensures forall a :: a in PortNotation.Labels(links) ==> a.actorType in ADDED
  {
    if links != [] {
      LabelTypes(links[..|links| - 1]);
      SinkLabelTypes(PortNotation.SinksOf(links[|links| - 1]));
    }
  }

  lemma {:induction false} SinkLabelTypes(sinks: seq<PortNotation.Sink>)
    ensures forall a :: a in PortNotation.SinkLabels(sinks) ==> a.actorType in ADDED
  {
    if sinks != [] {
      SinkLabelTypes(sinks[..|sinks| - 1]);
    }
  }

  lemma AddedTypes(raw: RawBlock, b: Block)
    requires IsRewritten(raw, b)
    ensures forall a :: a in b.actors ==> a in raw.actors || a.actorType in ADDED
  {
    hide PortNotation.Wires, PortNotation.Labels, PortRewrites.TransformsLinked;
    LabelTypes(raw.links);
    var roles, made :| Rewrote(raw, b, roles, made);
    var n := |raw.actors|;
    forall a | a in b.actors ensures a in raw.actors || a.actorType in ADDED {
      assert b.actors == b.actors[..n] + b.actors[n..];
      if a in b.actors[n..] {
        assert a in multiset(b.actors[n..]);
        assert a in PortNotation.Labels(raw.links) || a in made;
      }
    }
  }

  /** The actors only use components below the bound. */
  ghost predicate RawBelow(raw: RawBlock, comps: map<string, RawComponent>, rank: map<string, nat>, bound: nat) {
    forall a :: a in raw.actors && a.actorType in comps ==> a.actorType in rank && rank[a.actorType] < bound
  }

  ghost predicate RawAcyclic(comps: map<string, RawComponent>, rank: map<string, nat>) {
    comps.Keys !! ADDED && forall x :: x in comps ==> x in rank && RawBelow(comps[x].body, comps, rank, rank[x])
  }

  lemma StillBelow(raw: RawBlock, b: Block, comps: map<string, RawComponent>,
                   defs: ComponentExpansion.Definitions, rank: map<string, nat>, bound: nat, defined: Values)
    requires IsRewritten(raw, b) && RawBelow(raw, comps, rank, bound) && defs.Keys == comps.Keys
    requires comps.Keys !! ADDED
    ensures ComponentExpansion.Below(ReplaceBlock(b, defined), defs, rank, bound)
    ensures ComponentExpansion.Below(b, defs, rank, bound)
  {
    hide PortNotation.Wires, PortNotation.Labels, PortRewrites.ActorsAre;
    hide PortRewrites.MadeFits, PortRewrites.TransformsLinked;
    AddedTypes(raw, b);
    var r := ReplaceBlock(b, defined);
    forall i | 0 <= i < |r.actors| && r.actors[i].actorType in defs
      ensures r.actors[i].actorType in rank && rank[r.actors[i].actorType] < bound
    {
      assert b.actors[i] in b.actors && r.actors[i].actorType == b.actors[i].actorType;
    }
  }

  /* ----- the tree of nodes ----- */

  /** The nodes of a tree, with parent pointers. */
  method Plant(b: Block) returns (node: Flatten.BlockNode)
    ensures node.Valid() && node.Tree() == b && node.parent == null && fresh(node.repr)
    decreases b, 1
  {
    var nodes := PlantAll(b.blocks);
    node := new Flatten.BlockNode(b.ns, b.args, b.actors, b.links, nodes);
    assert node.TreesFrom(0) == b.blocks;
  }

  method PlantAll(blocks: seq<Block>) returns (nodes: seq<Flatten.BlockNode>)
    ensures |nodes| == |blocks|
    ensures forall i :: 0 <= i < |nodes| ==> nodes[i].Valid() && nodes[i].Tree() == blocks[i] && fresh(nodes[i].repr)
    ensures forall i, j :: 0 <= i < j < |nodes| ==> nodes[i].repr !! nodes[j].repr
    decreases blocks
  {
    hide Flatten.BlockNode.Valid, Flatten.BlockNode.Tree;
    nodes := [];
    var k := 0;
    while k < |blocks|
      invariant k == |nodes| <= |blocks|
      invariant forall i :: 0 <= i < k ==> nodes[i].Valid() && nodes[i].Tree() == blocks[i] && fresh(nodes[i].repr)
      invariant forall i, j :: 0 <= i < j < k ==> nodes[i].repr !! nodes[j].repr
    {
      var node := Plant(blocks[k]);
      nodes := nodes + [node];
      k := k + 1;
    }
  }

  /* ----- all passes ----- */

  /** What the passes in between have made: the rewritten blocks, and the values of the constants. */
  datatype Stages = Stages(main: Block, comps: map<string, Compile.Component>, defined: Values)

  ghost predicate AllRewritten(comps: map<string, RawComponent>, comps': map<string, Compile.Component>,
                               names: set<string>) {
    && comps'.Keys == names <= comps.Keys
    && forall x :: x in names ==>
         && comps'[x].inports == comps[x].inports && comps'[x].outports == comps[x].outports
         && IsRewritten(comps[x].body, comps'[x].block)
  }

  /** The rewrites have kept what was written, and a constant has a value exactly if its chain of
      references reaches it. */
  ghost predicate Staged(script: RawScript, s: Stages)
    requires Constants.DistinctConstants(script.constants)
  {
    && IsRewritten(script.main, s.main) && AllRewritten(script.comps, s.comps, script.comps.Keys)
    && forall x, v :: x in s.defined && s.defined[x] == v <==>
         Constants.Reaches(Constants.Definitions(script.constants), x, v)
  }

  function ReplaceComps(comps: map<string, Compile.Component>, defined: Values): map<string, Compile.Component> {
    map x | x in comps :: comps[x].(block := ReplaceBlock(comps[x].block, defined))
  }

  /** The graph before it is flattened, with constants replaced. */
  ghost function Expanded(script: RawScript, s: Stages, depth: nat): Block {
    Compile.Script(script.name, ComponentExpansion.Full(ReplaceBlock(s.main, s.defined),
                                                        Compile.Blocks(ReplaceComps(s.comps, s.defined)), depth))
  }

  /** The graph before it is flattened, with constants as names. */
  ghost function Unresolved(script: RawScript, s: Stages, depth: nat): Block {
    Compile.Script(script.name, ComponentExpansion.Full(s.main, Compile.Blocks(s.comps), depth))
  }

  lemma ReplacedDefs(comps: map<string, Compile.Component>, defined: Values)
    ensures Compile.Blocks(ReplaceComps(comps, defined)) == ReplaceDefs(Compile.Blocks(comps), defined)
  {
  }

  /** Replacing constants first comes to replacing them at the end. */
  lemma ExpandedIsReplaced(script: RawScript, s: Stages, depth: nat)
    ensures Expanded(script, s, depth) == ReplaceBlock(Unresolved(script, s, depth), s.defined)
  {
    hide ComponentExpansion.Full;
    ReplacedDefs(s.comps, s.defined);
    ReplaceFull(s.main, Compile.Blocks(s.comps), s.defined, depth);
    var full := ComponentExpansion.Full(s.main, Compile.Blocks(s.comps), depth);
    ReplaceOne(full.(ns := script.name), s.defined);
    assert ReplaceBlock(full, s.defined).(ns := script.name) == ReplaceBlock(full.(ns := script.name), s.defined);
  }

  /** The checks accept what the rewrites and the replacement of constants have left. */
  ghost predicate Accepted(script: RawScript, s: Stages) {
    && Identifier(script.name) && Compile.Checked(ReplaceBlock(s.main, s.defined), ReplaceComps(s.comps, s.defined))
    && Compile.CheckedComponents(ReplaceComps(s.comps, s.defined))
    && forall l :: l in s.main.links ==> l.Crossing()
  }

  /** The flat graph has the connections of the nested one unless an instance is linked to itself, all
      names differ, and links join actors. */
  ghost predicate FlatGraph(tree: Block, actors: seq<Actor>, links: seq<Link>) {
    && (multiset(links) == multiset(Connectivity.Resolve(tree)) <==> SpliceLevels.SelfLinkFree(tree))
    && ((forall x :: x in links <==> Walks.Reachable(tree, x)) <==> SpliceLevels.SelfLinkFree(tree))
    && FlattenNames.DistinctIdents(actors)
    && forall x :: x in Connectivity.Resolve(tree) ==>
         x.Crossing() && FlattenNames.Names(actors, x.outport.actor) && FlattenNames.Names(actors, x.inport.actor)
  }

  method RewriteAll(comps: map<string, RawComponent>, counts: PortRewrites.Counts)
      returns (comps': map<string, Compile.Component>, counts': PortRewrites.Counts)
    requires forall x :: x in comps ==> PlainNames(comps[x].body)
    ensures AllRewritten(comps, comps', comps.Keys)
  {
    hide IsRewritten, PlainNames;
    var todo := comps.Keys;
    comps', counts' := map[], counts;
    while todo != {}
      invariant todo <= comps.Keys && AllRewritten(comps, comps', comps.Keys - todo)
    {
      var x :| x in todo;
      var b, n := RewriteBlock(comps[x].body, counts');
      counts' := n;
      comps' := comps'[x := Compile.Component(comps[x].inports, comps[x].outports, b)];
      todo := todo - {x};
    }
  }

  /** The definitions at the top of the script, and then its main block. */
  method Items(defs: ComponentExpansion.Definitions, main: Block) returns (items: seq<ComponentExpansion.Item>)
    ensures forall i :: 0 <= i < |items| ==>
              if items[i].Definition? then items[i].name in defs else items[i].block == main
    ensures forall x :: x in defs ==> ComponentExpansion.Definition(x) in items
    ensures ComponentExpansion.Blocks(items) == [main]
  {
    hide ComponentExpansion.Blocks;
    ComponentExpansion.NoBlocks();
    items := [];
    var todo := defs.Keys;
    while todo != {}
      invariant todo <= defs.Keys && ComponentExpansion.Blocks(items) == []
      invariant forall i :: 0 <= i < |items| ==> items[i].Definition? && items[i].name in defs
      invariant forall x :: x in defs.Keys - todo ==> ComponentExpansion.Definition(x) in items
    {
      var x :| x in todo;
      ComponentExpansion.BlocksMore(items, ComponentExpansion.Definition(x));
      items := items + [ComponentExpansion.Definition(x)];
      todo := todo - {x};
    }
    ComponentExpansion.BlocksMore(items, ComponentExpansion.Main(main));
    items := items + [ComponentExpansion.Main(main)];
  }

  method Expand(main: Block, comps: map<string, Compile.Component>, known: set<string>, verify: bool,
                ghost rank: map<string, nat>, ghost depth: nat)
      returns (full: Block, errors: set<string>)
    requires ComponentExpansion.Acyclic(Compile.Blocks(comps), rank)
    requires ComponentExpansion.Below(main, Compile.Blocks(comps), rank, depth)
    ensures full == ComponentExpansion.Full(main, Compile.Blocks(comps), depth)
    ensures ErrorsAre(errors, full, Compile.Blocks(comps), rank, known, verify)
  {
    hide ComponentExpansion.Acyclic, ComponentExpansion.Below, ComponentExpansion.Full, ComponentExpansion.Unknown;
    hide MissingIn, ComponentExpansion.AllUnfolded, ComponentExpansion.Expanded, ComponentExpansion.Expander.Missing;
    var expander := new ComponentExpansion.Expander(known, Compile.Blocks(comps), verify, rank);
    var items := Items(Compile.Blocks(comps), main);
    var blocks := expander.Process(items, depth);
    full, errors := OneFull(blocks, main, Compile.Blocks(comps), depth), expander.errors;
    assert blocks == [full];
    ComponentExpansion.UnknownAllOne(full, known);
    expander.AreDefined(items);
    DefinitionsAreItems(expander, items);
  }

  lemma DefinitionsAreItems(expander: ComponentExpansion.Expander, items: seq<ComponentExpansion.Item>)
    requires expander.AllDefined(items)
    requires forall c :: c in expander.original ==> ComponentExpansion.Definition(c) in items
    ensures forall x :: x in expander.Missing(items) <==>
              expander.verify && MissingIn(x, expander.original, expander.rank, expander.known)
  {
    hide ComponentExpansion.Full, ComponentExpansion.Unknown;
    forall x ensures x in expander.Missing(items) <==>
                       expander.verify && MissingIn(x, expander.original, expander.rank, expander.known)
    {
      expander.InMissing(items, x);
      if i :| 0 <= i < |items| && expander.MissingAt(items[i], x) {
        assert IsMissing(x, items[i].name, expander.original, expander.rank, expander.known);
      }
      if c :| IsMissing(x, c, expander.original, expander.rank, expander.known) {
        assert ComponentExpansion.Definition(c) in items;
        assert expander.MissingAt(ComponentExpansion.Definition(c), x);
      }
    }
  }

  /** The definition, once expanded, has an actor of a type that is not known. */
  ghost predicate IsMissing(x: string, c: string, defs: ComponentExpansion.Definitions, rank: map<string, nat>,
                            known: set<string>) {
    c in defs && c in rank && x in ComponentExpansion.Unknown(ComponentExpansion.Full(defs[c], defs, rank[c]), known)
  }

  ghost predicate MissingIn(x: string, defs: ComponentExpansion.Definitions, rank: map<string, nat>,
                            known: set<string>) {
    exists c :: IsMissing(x, c, defs, rank, known)
  }

  /** Types are reported if asked for: those in the main block and in the definitions that are not known. */
  ghost predicate ErrorsAre(errors: set<string>, full: Block, defs: ComponentExpansion.Definitions,
                            rank: map<string, nat>, known: set<string>, verify: bool) {
    forall x :: x in errors <==>
      verify && (x in ComponentExpansion.Unknown(full, known) || MissingIn(x, defs, rank, known))
  }

  function OneFull(blocks: seq<Block>, main: Block, ghost defs: ComponentExpansion.Definitions,
                   ghost depth: nat): (full: Block)
    requires blocks == ComponentExpansion.FullAll([main], defs, depth)
    ensures full == ComponentExpansion.Full(main, defs, depth) && blocks == [full]
  {
    assert [main][..0] == [] && ComponentExpansion.FullAll([], defs, depth) == [];
    blocks[0]
  }

  lemma StagedIsAcyclic(script: RawScript, s: Stages, rank: map<string, nat>, depth: nat)
    requires Constants.DistinctConstants(script.constants) && Staged(script, s)
    requires RawAcyclic(script.comps, rank) && RawBelow(script.main, script.comps, rank, depth)
    ensures ComponentExpansion.Acyclic(Compile.Blocks(ReplaceComps(s.comps, s.defined)), rank)
    ensures ComponentExpansion.Below(ReplaceBlock(s.main, s.defined), Compile.Blocks(ReplaceComps(s.comps, s.defined)),
                                     rank, depth)
  {
    hide IsRewritten, RawBelow, ReplaceBlock, ComponentExpansion.Below;
    var defs := Compile.Blocks(ReplaceComps(s.comps, s.defined));
    StillBelow(script.main, s.main, script.comps, defs, rank, depth, s.defined);
    forall x | x in defs ensures x in rank && ComponentExpansion.Below(defs[x], defs, rank, rank[x]) {
      StillBelow(script.comps[x].body, s.comps[x].block, script.comps, defs, rank, rank[x], s.defined);
    }
  }

  /** The written blocks can be expanded as well. */
  lemma StagedIsExpandable(script: RawScript, s: Stages, rank: map<string, nat>, depth: nat)
    requires Constants.DistinctConstants(script.constants) && Staged(script, s)
    requires RawAcyclic(script.comps, rank) && RawBelow(script.main, script.comps, rank, depth)
    ensures FlatOccurrences.Expandable(s.main, Compile.Blocks(s.comps), rank, depth)
  {
    hide PortNotation.Wires, RawBelow, ReplaceBlock, ComponentExpansion.Below;
    var defs := Compile.Blocks(s.comps);
    StillBelow(script.main, s.main, script.comps, defs, rank, depth, map[]);
    forall x | x in defs ensures x in rank && ComponentExpansion.Below(defs[x], defs, rank, rank[x]) {
      StillBelow(script.comps[x].body, s.comps[x].block, script.comps, defs, rank, rank[x], map[]);
    }
    forall x | x in defs ensures defs[x].blocks == [] {
      assert IsRewritten(script.comps[x].body, s.comps[x].block);
    }
  }

  /* ----- the result, and what is written ----- */

  /** A flat actor is one that occurs in the script, inside of instances; its arguments are those of the
      instance, seen from outside, and constants count before parameters. If a constant hides no parameter
      of another value, they may as well count after them. */
  ghost predicate ActorsAsWritten(script: RawScript, s: Stages, actors: seq<Actor>) {
    var defs := Compile.Blocks(s.comps);
    && (forall g :: g in actors <==> Occurrences.IsFlat(g, script.name, s.main, defs, s.defined, true))
    && (Occurrences.NothingHidden(s.main, defs, s.defined) ==>
         forall g :: g in actors <==> Occurrences.IsFlat(g, script.name, s.main, defs, s.defined, false))
  }

  /** The links are the pairs of ports that a walk through the script joins, unless an instance is linked
      to itself. */
  ghost predicate LinksAsWritten(script: RawScript, s: Stages, links: seq<Link>) {
    var defs := Compile.Blocks(s.comps);
    (forall x :: x in links <==> WrittenWalks.Joined(x, script.name, s.main, defs)) <==>
      WrittenWalks.NoneLinksItself(s.main, defs)
  }

  /** Exactly the types that are used and not known are reported, and only if that is asked for. */
  ghost predicate ErrorsAsWritten(s: Stages, known: set<string>, verify: bool, errors: set<string>) {
    var defs := Compile.Blocks(s.comps);
    forall x :: x in errors <==>
      verify && x !in known && (Occurrences.Uses(s.main, defs, x) || UsedInDefinition(x, defs))
  }

  ghost predicate UsedInDefinition(x: string, defs: ComponentExpansion.Definitions) {
    exists c :: c in defs && Occurrences.Uses(defs[c], defs, x)
  }

  lemma ActorsAreWritten(script: RawScript, s: Stages, rank: map<string, nat>, depth: nat)
    requires FlatOccurrences.Expandable(s.main, Compile.Blocks(s.comps), rank, depth)
    ensures ActorsAsWritten(script, s, Scoping.Lexical(Expanded(script, s, depth), []))
  {
    hide FlatOccurrences.Expandable, Occurrences.IsFlat, Occurrences.NothingHidden, Scoping.Lexical;
    var defs, tree := Compile.Blocks(s.comps), Expanded(script, s, depth);
    ExpandedIsTree(script, s, depth);
    forall g
      ensures g in Scoping.Lexical(tree, []) <==> Occurrences.IsFlat(g, script.name, s.main, defs, s.defined, true)
      ensures Occurrences.NothingHidden(s.main, defs, s.defined) ==>
        (g in Scoping.Lexical(tree, []) <==> Occurrences.IsFlat(g, script.name, s.main, defs, s.defined, false))
    {
      FlatOccurrences.FlatActorsOccur(script.name, s.main, defs, rank, depth, s.defined, g);
      if Occurrences.NothingHidden(s.main, defs, s.defined) {
        Occurrences.FlatEitherWay(g, script.name, s.main, defs, s.defined);
      }
    }
  }

  lemma ExpandedIsTree(script: RawScript, s: Stages, depth: nat)
    ensures Expanded(script, s, depth) ==
              WrittenWalks.Replaced(script.name, s.main, Compile.Blocks(s.comps), depth, s.defined)
    ensures Expanded(script, s, depth) ==
              ReplaceBlock(FlatOccurrences.Tree(script.name, s.main, Compile.Blocks(s.comps), depth), s.defined)
  {
    hide ReplaceBlock;
    ExpandedIsReplaced(script, s, depth);
  }

  lemma LinksAreWritten(script: RawScript, s: Stages, rank: map<string, nat>, depth: nat, actors: seq<Actor>,
                        links: seq<Link>)
    requires FlatOccurrences.Expandable(s.main, Compile.Blocks(s.comps), rank, depth)
    requires WrittenWalks.AllNamed(s.main, Compile.Blocks(s.comps))
    requires FlatGraph(Expanded(script, s, depth), actors, links)
    ensures LinksAsWritten(script, s, links)
  {
    hide FlatOccurrences.Expandable, WrittenWalks.AllNamed, Walks.Reachable, WrittenWalks.Joined;
    hide WrittenWalks.NoneLinksItself, SpliceLevels.SelfLinkFree, Expanded, WrittenWalks.Replaced;
    var defs, tree := Compile.Blocks(s.comps), Expanded(script, s, depth);
    ExpandedIsTree(script, s, depth);
    forall x ensures Walks.Reachable(tree, x) <==> WrittenWalks.Joined(x, script.name, s.main, defs) {
      WrittenWalks.ReachableIsJoined(script.name, s.main, defs, rank, depth, s.defined, x);
    }
    WrittenWalks.FreeExactly(script.name, s.main, defs, rank, depth, s.defined);
  }

  /** In a checked script every port belongs to something with a name. */
  lemma AcceptedIsNamed(script: RawScript, s: Stages)
    requires Accepted(script, s)
    ensures WrittenWalks.AllNamed(s.main, Compile.Blocks(s.comps))
  {
    hide Compile.Checked, ReplaceBlock, WrittenWalks.NamedEnds;
    CheckedIsNamed(s.main, s.defined, ReplaceComps(s.comps, s.defined));
    forall x | x in s.comps ensures forall l :: l in s.comps[x].block.links ==> WrittenWalks.NamedEnds(l) {
      assert x in ReplaceComps(s.comps, s.defined);
      CheckedIsNamed(s.comps[x].block, s.defined, ReplaceComps(s.comps, s.defined));
    }
  }

  lemma CheckedIsNamed(b: Block, defined: Values, comps: map<string, Compile.Component>)
    requires Compile.Checked(ReplaceBlock(b, defined), comps)
    ensures forall l :: l in b.links ==> WrittenWalks.NamedEnds(l)
  {
    assert ReplaceBlock(b, defined).links == b.links;
  }

  lemma ErrorsAreWritten(script: RawScript, s: Stages, rank: map<string, nat>, depth: nat, known: set<string>,
                         verify: bool, errors: set<string>)
    requires FlatOccurrences.Expandable(s.main, Compile.Blocks(s.comps), rank, depth)
    requires var defs := Compile.Blocks(ReplaceComps(s.comps, s.defined));
             ErrorsAre(errors, ComponentExpansion.Full(ReplaceBlock(s.main, s.defined), defs, depth), defs, rank, known,
                       verify)
    ensures ErrorsAsWritten(s, known, verify, errors)
  {
    hide ComponentExpansion.Full, ComponentExpansion.Unknown, ReplaceBlock, Occurrences.Uses;
    var defs := Compile.Blocks(s.comps);
    ReplacedDefs(s.comps, s.defined);
    forall x
      ensures x in ComponentExpansion.Unknown(ComponentExpansion.Full(ReplaceBlock(s.main, s.defined),
                                                                      ReplaceDefs(defs, s.defined), depth), known)
         <==> x !in known && Occurrences.Uses(s.main, defs, x)
    {
      UnknownAsWritten(s.main, defs, s.defined, rank, depth, known, x);
    }
    forall x
      ensures MissingIn(x, ReplaceDefs(defs, s.defined), rank, known) <==> x !in known && UsedInDefinition(x, defs)
    {
      forall c | c in defs
        ensures IsMissing(x, c, ReplaceDefs(defs, s.defined), rank, known) <==>
                  x !in known && Occurrences.Uses(defs[c], defs, x)
      {
        UnknownAsWritten(defs[c], defs, s.defined, rank, rank[c], known, x);
      }
    }
  }

  lemma UnknownAsWritten(b: Block, defs: ComponentExpansion.Definitions, defined: Values, rank: map<string, nat>,
                         depth: nat, known: set<string>, x: string)
    requires ComponentExpansion.Acyclic(defs, rank) && FlatOccurrences.Flat(defs) && b.blocks == []
    requires ComponentExpansion.Below(b, defs, rank, depth)
    ensures x in ComponentExpansion.Unknown(ComponentExpansion.Full(ReplaceBlock(b, defined),
                                                                    ReplaceDefs(defs, defined), depth), known)
       <==> x !in known && Occurrences.Uses(b, defs, x)
  {
    hide *;
    ReplaceFull(b, defs, defined, depth);
    FlatOccurrences.UnknownReplaced(ComponentExpansion.Full(b, defs, depth), defined, known);
    FlatOccurrences.UnknownIsUsed(b, defs, rank, depth, known, x);
  }

  lemma ConstantsOutermost(script: RawScript, s: Stages, depth: nat)
    ensures HarmlessTree(Unresolved(script, s, depth), [], s.defined) ==>
              Scoping.Lexical(Expanded(script, s, depth), []) ==
                LexicalOver(Unresolved(script, s, depth), [], s.defined)
  {
    hide ReplaceBlock, HarmlessTree;
    ExpandedIsReplaced(script, s, depth);
    if HarmlessTree(Unresolved(script, s, depth), [], s.defined) {
      TreeOver(Unresolved(script, s, depth), [], s.defined);
      assert Constants.ReplaceInScopes([], s.defined) == [];
    }
  }

  lemma AcceptedIsFlat(script: RawScript, s: Stages, rank: map<string, nat>, depth: nat)
    requires Accepted(script, s)
    requires ComponentExpansion.Acyclic(Compile.Blocks(ReplaceComps(s.comps, s.defined)), rank)
    requires ComponentExpansion.Below(ReplaceBlock(s.main, s.defined),
                                      Compile.Blocks(ReplaceComps(s.comps, s.defined)), rank, depth)
    ensures FlatGraph(Expanded(script, s, depth), Scoping.Lexical(Expanded(script, s, depth), []),
                      Splicing.FlatLinks(Expanded(script, s, depth)))
  {
    hide Compile.Checked, Compile.CheckedComponents, ComponentExpansion.Acyclic;
    hide ComponentExpansion.Below, ComponentExpansion.Full;
    assert ReplaceBlock(s.main, s.defined).links == s.main.links;
    Compile.CompiledGraph(script.name, ReplaceBlock(s.main, s.defined), ReplaceComps(s.comps, s.defined), rank, depth);
  }

  /** Rewrite ports, block by block, and replace constants. */
  method Phase1(script: RawScript)
      returns (main: Block, comps: map<string, Compile.Component>, issues: seq<Constants.Issue>, s: Stages)
    requires Constants.DistinctConstants(script.constants) && PlainNames(script.main)
    requires forall x :: x in script.comps ==> PlainNames(script.comps[x].body)
    ensures Staged(script, s) && main == ReplaceBlock(s.main, s.defined) && comps == ReplaceComps(s.comps, s.defined)
    ensures issues == [] <==> forall c :: c in script.constants ==> c.ident in s.defined
  {
    hide IsRewritten, AllRewritten, PlainNames, Constants.Told, Constants.RefersToDangling;
    var rewritten, block, counts;
    rewritten, counts := RewriteAll(script.comps, PortRewrites.Counts(0, 0, 0));
    block, counts := RewriteBlock(script.main, counts);
    var constants := new Constants.ReplaceConstants();
    constants.Resolve(script.constants);
    s := Stages(block, rewritten, constants.defined);
    main, comps, issues := ReplaceBlock(block, constants.defined), ReplaceComps(rewritten, constants.defined),
      constants.issues;
    NoneUnresolved(script.constants, constants.defined, constants.unresolved);
  }

  lemma NoneUnresolved(constants: seq<Constants.Constant>, defined: Values, unresolved: seq<Constants.Constant>)
    requires forall c :: c in unresolved <==> c in constants && c.ident !in defined
    ensures unresolved == [] <==> forall c :: c in constants ==> c.ident in defined
  {
    if unresolved != [] {
      assert unresolved[0] in unresolved;
    }
  }

  /** Expand components and flatten the result. */
  method Phase2(name: string, main: Block, comps: map<string, Compile.Component>, known: set<string>, verify: bool,
                ghost rank: map<string, nat>, ghost depth: nat)
      returns (actors: seq<Actor>, links: seq<Link>, errors: set<string>)
    requires ComponentExpansion.Acyclic(Compile.Blocks(comps), rank)
    requires ComponentExpansion.Below(main, Compile.Blocks(comps), rank, depth)
    ensures var tree := Compile.Script(name, ComponentExpansion.Full(main, Compile.Blocks(comps), depth));
            actors == Scoping.Lexical(tree, []) && links == Splicing.FlatLinks(tree)
    ensures ErrorsAre(errors, ComponentExpansion.Full(main, Compile.Blocks(comps), depth), Compile.Blocks(comps), rank,
                      known, verify)
  {
    hide ComponentExpansion.Acyclic, ComponentExpansion.Below, ComponentExpansion.Full;
    hide Flatten.BlockNode.Valid, Flatten.BlockNode.Tree, ErrorsAre;
    var full;
    full, errors := Expand(main, comps, known, verify, rank, depth);
    var root := Plant(Compile.Script(name, full));
    var flatten := new Flatten.Flatten();
    flatten.Process(root);
    actors, links := root.actors, root.links;
  }

  /** From the written script to the flat graph. */
  method GenerateCode(script: RawScript, known: set<string>, verify: bool, ghost rank: map<string, nat>,
                      ghost depth: nat)
      returns (actors: seq<Actor>, links: seq<Link>, issues: seq<Constants.Issue>, errors: set<string>, s: Stages)
    requires Constants.DistinctConstants(script.constants) && PlainNames(script.main)
    requires forall x :: x in script.comps ==> PlainNames(script.comps[x].body)
    requires RawAcyclic(script.comps, rank) && RawBelow(script.main, script.comps, rank, depth)
    ensures Staged(script, s)
    ensures issues == [] <==> forall c :: c in script.constants ==> c.ident in s.defined
    ensures actors == Scoping.Lexical(Expanded(script, s, depth), [])
    ensures links == Splicing.FlatLinks(Expanded(script, s, depth))
    ensures HarmlessTree(Unresolved(script, s, depth), [], s.defined) ==>
              actors == LexicalOver(Unresolved(script, s, depth), [], s.defined)
    ensures Accepted(script, s) ==> FlatGraph(Expanded(script, s, depth), actors, links)
    ensures ActorsAsWritten(script, s, actors)
    ensures Accepted(script, s) ==> LinksAsWritten(script, s, links)
    ensures ErrorsAsWritten(s, known, verify, errors)
  {
    hide Staged, PlainNames, RawAcyclic, RawBelow, FlatGraph, ActorsAsWritten, LinksAsWritten, ErrorsAsWritten;
    hide Accepted, HarmlessTree, Unresolved, ComponentExpansion.Acyclic, FlatOccurrences.Expandable, ErrorsAre;
    var main, comps;
    main, comps, issues, s := Phase1(script);
    StagedIsAcyclic(script, s, rank, depth);
    actors, links, errors := Phase2(script.name, main, comps, known, verify, rank, depth);
    ConstantsOutermost(script, s, depth);
    StagedIsExpandable(script, s, rank, depth);
    ActorsAreWritten(script, s, rank, depth);
    ErrorsAreWritten(script, s, rank, depth, known, verify, errors);
    if Accepted(script, s) {
      AcceptedIsFlat(script, s, rank, depth);
      AcceptedIsNamed(script, s);
      LinksAreWritten(script, s, rank, depth, actors, links);
    }
  }
}
