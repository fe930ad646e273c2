/** Replacing component instances by the blocks that define the components. */
module ComponentExpansion {
  import opened GraphSyntax

  type Definitions = map<string, Block>

  /** The arguments of an instance, by name; the last one counts. */
  function ArgMap(args: seq<NamedArg>): map<string, Arg> {
    if args == [] then map[]
    else ArgMap(args[..|args| - 1])[args[|args| - 1].ident := args[|args| - 1].arg]
  }

  /** The last argument of the name counts. */
  ghost predicate LastOf(args: seq<NamedArg>, x: string, i: int) {
    0 <= i < |args| && args[i].ident == x && forall j :: i < j < |args| ==> args[j].ident != x
  }

  ghost predicate Omits(args: seq<NamedArg>, x: string) {
    forall i :: 0 <= i < |args| ==> args[i].ident != x
  }

  lemma {:induction false} ArgMapLast(args: seq<NamedArg>, x: string, i: int)
    requires LastOf(args, x, i)
    ensures x in ArgMap(args) && ArgMap(args)[x] == args[i].arg
  {
    var k := |args| - 1;
    if i < k {
      ArgMapLast(args[..k], x, i);
    }
  }

  lemma {:induction false} ArgMapNone(args: seq<NamedArg>, x: string)
    requires Omits(args, x)
    ensures x !in ArgMap(args)
  {
    if args != [] {
      ArgMapNone(args[..|args| - 1], x);
    }
  }

  lemma {:induction false} ArgMapSome(args: seq<NamedArg>, x: string)
    requires x !in ArgMap(args)
    ensures Omits(args, x)
  {
    if args != [] {
      ArgMapSome(args[..|args| - 1], x);
    }
  }

  /** The block that stands for an instance of a component. */
  function Instance(a: Actor, definition: Block): Block {
    definition.(ns := a.ident, args := ArgMap(a.args))
  }

  /* ----- the reference: unfolding the original definitions ----- */

  /** The actors that are not instances of components. */
  function Kept(actors: seq<Actor>, defs: Definitions): seq<Actor> {
    if actors == [] then []
    else
      var last := actors[|actors| - 1];
      Kept(actors[..|actors| - 1], defs) + if last.actorType in defs then [] else [last]
  }

  /** All instances replaced, and the instances in their definitions, as deep as `depth` goes. */
  function Full(b: Block, defs: Definitions, depth: nat): Block
    decreases depth, b, 1
  {
    b.(actors := Kept(b.actors, defs), blocks := FullAll(b.blocks, defs, depth) + Expansions(b.actors, defs, depth))
  }

  function FullAll(blocks: seq<Block>, defs: Definitions, depth: nat): seq<Block>
    decreases depth, blocks
  {
    if blocks == [] then []
    else FullAll(blocks[..|blocks| - 1], defs, depth) + [Full(blocks[|blocks| - 1], defs, depth)]
  }

  function Expansions(actors: seq<Actor>, defs: Definitions, depth: nat): seq<Block>
    decreases depth, actors
  {
    if actors == [] then []
    else
      var last := actors[|actors| - 1];
      Expansions(actors[..|actors| - 1], defs, depth) +
      if last.actorType in defs && depth > 0 then [Full(Instance(last, defs[last.actorType]), defs, depth - 1)] else []
  }

  /** All components used in the block are ranked below the bound. */
  predicate Below(b: Block, defs: Definitions, rank: map<string, nat>, bound: nat)
    decreases b
  {
    && (forall i :: 0 <= i < |b.actors| && b.actors[i].actorType in defs ==>
         b.actors[i].actorType in rank && rank[b.actors[i].actorType] < bound)
    && (forall i :: 0 <= i < |b.blocks| ==> Below(b.blocks[i], defs, rank, bound))
  }

  /** No component uses itself, directly or through others. */
  ghost predicate Acyclic(defs: Definitions, rank: map<string, nat>) {
    forall x :: x in defs ==> x in rank && Below(defs[x], defs, rank, rank[x])
  }

  /** There is no instance of a component, at any depth. */
  predicate Expanded(b: Block, defs: Definitions)
    decreases b
  {
    && (forall i :: 0 <= i < |b.actors| ==> b.actors[i].actorType !in defs)
    && (forall i :: 0 <= i < |b.blocks| ==> Expanded(b.blocks[i], defs))
  }

  lemma {:induction false} KeptAreNoInstances(actors: seq<Actor>, defs: Definitions)
    ensures forall i :: 0 <= i < |Kept(actors, defs)| ==> Kept(actors, defs)[i].actorType !in defs
    ensures (forall i :: 0 <= i < |actors| ==> actors[i].actorType !in defs) ==> Kept(actors, defs) == actors
  {
    if actors != [] {
      KeptAreNoInstances(actors[..|actors| - 1], defs);
    }
  }

  /** Unfolding leaves only actors that are no instances of components. */
  lemma {:induction false} FullIsExpanded(b: Block, defs: Definitions, rank: map<string, nat>, depth: nat)
    requires Acyclic(defs, rank) && Below(b, defs, rank, depth)
    ensures Expanded(Full(b, defs, depth), defs)
    decreases depth, b, 1
  {
    KeptAreNoInstances(b.actors, defs);
    FullAllAreExpanded(b.blocks, defs, rank, depth);
    ExpansionsAreExpanded(b.actors, defs, rank, depth);
  }

  ghost predicate AllBelow(blocks: seq<Block>, defs: Definitions, rank: map<string, nat>, bound: nat) {
    forall i :: 0 <= i < |blocks| ==> Below(blocks[i], defs, rank, bound)
  }

  ghost predicate ActorsBelow(actors: seq<Actor>, defs: Definitions, rank: map<string, nat>, bound: nat) {
    forall i :: 0 <= i < |actors| && actors[i].actorType in defs ==>
      actors[i].actorType in rank && rank[actors[i].actorType] < bound
  }

  ghost predicate AllExpanded(blocks: seq<Block>, defs: Definitions) {
    forall i :: 0 <= i < |blocks| ==> Expanded(blocks[i], defs)
  }

  lemma {:induction false} FullAllAreExpanded(blocks: seq<Block>, defs: Definitions, rank: map<string, nat>, depth: nat)
    requires Acyclic(defs, rank) && AllBelow(blocks, defs, rank, depth)
    ensures AllExpanded(FullAll(blocks, defs, depth), defs)
    decreases depth, blocks
  {
    if blocks != [] {
      FullAllAreExpanded(blocks[..|blocks| - 1], defs, rank, depth);
      FullIsExpanded(blocks[|blocks| - 1], defs, rank, depth);
    }
  }

  lemma {:induction false} BelowMore(b: Block, defs: Definitions, rank: map<string, nat>, bound: nat, more: nat)
    requires Below(b, defs, rank, bound) && bound <= more
    ensures Below(b, defs, rank, more)
    decreases b
  {
    forall i | 0 <= i < |b.blocks| ensures Below(b.blocks[i], defs, rank, more) {
      BelowMore(b.blocks[i], defs, rank, bound, more);
    }
  }

  lemma InstanceBelow(a: Actor, defs: Definitions, rank: map<string, nat>, bound: nat)
    requires Acyclic(defs, rank) && a.actorType in defs && rank[a.actorType] <= bound
    ensures Below(Instance(a, defs[a.actorType]), defs, rank, bound)
  {
    BelowMore(defs[a.actorType], defs, rank, rank[a.actorType], bound);
  }

  lemma {:induction false} ExpansionsAreExpanded(actors: seq<Actor>, defs: Definitions, rank: map<string, nat>,
                                                 depth: nat)
    requires Acyclic(defs, rank) && ActorsBelow(actors, defs, rank, depth)
    ensures AllExpanded(Expansions(actors, defs, depth), defs)
    decreases depth, actors
  {
    if actors != [] {
      var last := actors[|actors| - 1];
      ExpansionsAreExpanded(actors[..|actors| - 1], defs, rank, depth);
      if last.actorType in defs {
        InstanceBelow(last, defs, rank, depth - 1);
        FullIsExpanded(Instance(last, defs[last.actorType]), defs, rank, depth - 1);
      }
    }
  }

  /** What is expanded stays as it is. */
  lemma {:induction false} ExpandedIsFull(b: Block, defs: Definitions, depth: nat)
    requires Expanded(b, defs)
    ensures Full(b, defs, depth) == b
    decreases b, 1
  {
    KeptAreNoInstances(b.actors, defs);
    NothingToExpand(b.actors, defs, depth);
    AllExpandedAreFull(b.blocks, defs, depth);
  }

  lemma {:induction false} AllExpandedAreFull(blocks: seq<Block>, defs: Definitions, depth: nat)
    requires AllExpanded(blocks, defs)
    ensures FullAll(blocks, defs, depth) == blocks
    decreases blocks
  {
    if blocks != [] {
      AllExpandedAreFull(blocks[..|blocks| - 1], defs, depth);
      ExpandedIsFull(blocks[|blocks| - 1], defs, depth);
    }
  }

  lemma {:induction false} NothingToExpand(actors: seq<Actor>, defs: Definitions, depth: nat)
    requires forall i :: 0 <= i < |actors| ==> actors[i].actorType !in defs
    ensures Expansions(actors, defs, depth) == []
    decreases actors
  {
    if actors != [] {
      NothingToExpand(actors[..|actors| - 1], defs, depth);
    }
  }

  /** Deeper unfolding finds nothing more. */
  lemma {:induction false} FullIsStable(b: Block, defs: Definitions, rank: map<string, nat>, d: nat, e: nat)
    requires Acyclic(defs, rank) && Below(b, defs, rank, d) && d <= e
    ensures Full(b, defs, d) == Full(b, defs, e)
    decreases d, b, 1
  {
    FullAllStable(b.blocks, defs, rank, d, e);
    ExpansionsStable(b.actors, defs, rank, d, e);
  }

  lemma {:induction false} FullAllStable(blocks: seq<Block>, defs: Definitions, rank: map<string, nat>, d: nat, e: nat)
    requires Acyclic(defs, rank) && AllBelow(blocks, defs, rank, d) && d <= e
    ensures FullAll(blocks, defs, d) == FullAll(blocks, defs, e)
    decreases d, blocks
  {
    if blocks != [] {
      FullAllStable(blocks[..|blocks| - 1], defs, rank, d, e);
      FullIsStable(blocks[|blocks| - 1], defs, rank, d, e);
    }
  }

  lemma {:induction false} ExpansionsStable(actors: seq<Actor>, defs: Definitions, rank: map<string, nat>, d: nat,
                                            e: nat)
    requires Acyclic(defs, rank) && ActorsBelow(actors, defs, rank, d) && d <= e
    ensures Expansions(actors, defs, d) == Expansions(actors, defs, e)
    decreases d, actors
  {
    if actors != [] {
      var last := actors[|actors| - 1];
      ExpansionsStable(actors[..|actors| - 1], defs, rank, d, e);
      if last.actorType in defs {
        InstanceBelow(last, defs, rank, d - 1);
        FullIsStable(Instance(last, defs[last.actorType]), defs, rank, d - 1, e - 1);
      }
    }
  }

  /* ----- what an instance becomes ----- */

  /** The instances that become blocks, in order. */
  ghost function Instances(actors: seq<Actor>, defs: Definitions): seq<Actor> {
    if actors == [] then []
    else
      var last := actors[|actors| - 1];
      Instances(actors[..|actors| - 1], defs) + if last.actorType in defs then [last] else []
  }

  /** The block has the name of the instance and its arguments; the last one of a name counts. */
  ghost predicate StandsIn(e: Block, a: Actor) {
    && e.ns == a.ident
    && (forall x :: x in e.args <==> !Omits(a.args, x))
    && forall x, i :: LastOf(a.args, x, i) ==> x in e.args && e.args[x] == a.args[i].arg
  }

  /** The block has the links that are written, the actors that are no instances, the blocks that are nested
      already, and a block for each instance, in order, with what its definition says. */
  ghost predicate Unfolded(e: Block, b: Block, defs: Definitions)
    decreases e
  {
    var n, instances := |b.blocks|, Instances(b.actors, defs);
    && e.links == b.links && (forall c :: c in e.actors <==> c in b.actors && c.actorType !in defs)
    && |e.blocks| == n + |instances|
    && (forall i :: 0 <= i < n ==>
         && e.blocks[i].ns == b.blocks[i].ns && e.blocks[i].args == b.blocks[i].args
         && Unfolded(e.blocks[i], b.blocks[i], defs))
    && forall i :: 0 <= i < |instances| ==>
         && StandsIn(e.blocks[n + i], instances[i]) && instances[i].actorType in defs
         && Unfolded(e.blocks[n + i], defs[instances[i].actorType], defs)
  }

  ghost predicate UnfoldedFor(e: Block, a: Actor, defs: Definitions) {
    StandsIn(e, a) && a.actorType in defs && Unfolded(e, defs[a.actorType], defs)
  }

  ghost predicate AllUnfoldedFor(blocks: seq<Block>, instances: seq<Actor>, defs: Definitions) {
    |blocks| == |instances| && forall i :: 0 <= i < |blocks| ==> UnfoldedFor(blocks[i], instances[i], defs)
  }

  ghost predicate UnfoldedInPlace(e: Block, b: Block, defs: Definitions) {
    e.ns == b.ns && e.args == b.args && Unfolded(e, b, defs)
  }

  ghost predicate AllUnfolded(blocks: seq<Block>, written: seq<Block>, defs: Definitions) {
    |blocks| == |written| && forall i :: 0 <= i < |blocks| ==> UnfoldedInPlace(blocks[i], written[i], defs)
  }

  lemma UnfoldedFromParts(e: Block, b: Block, defs: Definitions)
    requires e.links == b.links && e.actors == Kept(b.actors, defs) && |e.blocks| >= |b.blocks|
    requires AllUnfolded(e.blocks[..|b.blocks|], b.blocks, defs)
    requires AllUnfoldedFor(e.blocks[|b.blocks|..], Instances(b.actors, defs), defs)
    ensures Unfolded(e, b, defs)
  {
    var n, instances := |b.blocks|, Instances(b.actors, defs);
    forall c ensures c in e.actors <==> c in b.actors && c.actorType !in defs {
      InKept(c, b.actors, defs);
    }
    forall i | 0 <= i < n
      ensures e.blocks[i].ns == b.blocks[i].ns && e.blocks[i].args == b.blocks[i].args
      ensures Unfolded(e.blocks[i], b.blocks[i], defs)
    {
      assert UnfoldedInPlace(e.blocks[..n][i], b.blocks[i], defs);
    }
    forall i | 0 <= i < |instances|
      ensures StandsIn(e.blocks[n + i], instances[i]) && instances[i].actorType in defs
      ensures Unfolded(e.blocks[n + i], defs[instances[i].actorType], defs)
    {
      assert UnfoldedFor(e.blocks[n..][i], instances[i], defs);
    }
  }

  lemma {:induction false} InKept(a: Actor, actors: seq<Actor>, defs: Definitions)
    ensures a in Kept(actors, defs) <==> a in actors && a.actorType !in defs
  {
    if actors != [] {
      InKept(a, actors[..|actors| - 1], defs);
      assert actors == actors[..|actors| - 1] + [actors[|actors| - 1]];
    }
  }

  lemma InstanceStandsIn(a: Actor, definition: Block, defs: Definitions, depth: nat)
    ensures StandsIn(Full(Instance(a, definition), defs, depth), a)
  {
    var e := Full(Instance(a, definition), defs, depth);
    forall x ensures x in e.args <==> !Omits(a.args, x) {
      if Omits(a.args, x) {
        ArgMapNone(a.args, x);
      } else if x !in e.args {
        ArgMapSome(a.args, x);
      }
    }
    forall x, i | LastOf(a.args, x, i) ensures x in e.args && e.args[x] == a.args[i].arg {
      ArgMapLast(a.args, x, i);
    }
  }

  /** Expanding leaves exactly what the definitions say, to any depth. */
  lemma {:induction false} FullIsUnfolded(b: Block, defs: Definitions, rank: map<string, nat>, depth: nat)
    requires Acyclic(defs, rank) && Below(b, defs, rank, depth)
    ensures UnfoldedInPlace(Full(b, defs, depth), b, defs)
    decreases depth, b, 1
  {
    hide Unfolded, AllUnfolded, AllUnfoldedFor;
    var e := Full(b, defs, depth);
    FullAllAreUnfolded(b.blocks, defs, rank, depth);
    ExpansionsAreUnfolded(b.actors, defs, rank, depth);
    FullAllLength(b.blocks, defs, depth);
    assert e.blocks[..|b.blocks|] == FullAll(b.blocks, defs, depth);
    assert e.blocks[|b.blocks|..] == Expansions(b.actors, defs, depth);
    UnfoldedFromParts(e, b, defs);
  }

  lemma {:induction false} FullAllLength(blocks: seq<Block>, defs: Definitions, depth: nat)
    ensures |FullAll(blocks, defs, depth)| == |blocks|
    decreases blocks
  {
    if blocks != [] {
      FullAllLength(blocks[..|blocks| - 1], defs, depth);
    }
  }

  lemma {:induction false} FullAllAreUnfolded(blocks: seq<Block>, defs: Definitions, rank: map<string, nat>,
                                              depth: nat)
    requires Acyclic(defs, rank) && AllBelow(blocks, defs, rank, depth)
    ensures AllUnfolded(FullAll(blocks, defs, depth), blocks, defs)
    decreases depth, blocks
  {
    hide UnfoldedInPlace, Full;
    if blocks != [] {
      FullAllAreUnfolded(blocks[..|blocks| - 1], defs, rank, depth);
      FullIsUnfolded(blocks[|blocks| - 1], defs, rank, depth);
    }
  }

  lemma {:induction false} ExpansionsAreUnfolded(actors: seq<Actor>, defs: Definitions, rank: map<string, nat>,
                                                 depth: nat)
    requires Acyclic(defs, rank) && ActorsBelow(actors, defs, rank, depth)
    ensures AllUnfoldedFor(Expansions(actors, defs, depth), Instances(actors, defs), defs)
    decreases depth, actors
  {
    hide UnfoldedFor, Full, Instance;
    if actors != [] {
      var last := actors[|actors| - 1];
      ExpansionsAreUnfolded(actors[..|actors| - 1], defs, rank, depth);
      if last.actorType in defs {
        InstanceBelow(last, defs, rank, depth - 1);
        FullIsUnfolded(Instance(last, defs[last.actorType]), defs, rank, depth - 1);
        InstanceUnfolded(last, defs, depth - 1);
      }
    }
  }

  lemma InstanceUnfolded(a: Actor, defs: Definitions, depth: nat)
    requires a.actorType in defs
    requires UnfoldedInPlace(Full(Instance(a, defs[a.actorType]), defs, depth), Instance(a, defs[a.actorType]), defs)
    ensures UnfoldedFor(Full(Instance(a, defs[a.actorType]), defs, depth), a, defs)
  {
    InstanceStandsIn(a, defs[a.actorType], defs, depth);
  }

  /* ----- the pass ----- */

  /** The types of actors, at any depth, that nothing is known about. */
  ghost function Unknown(b: Block, known: set<string>): set<string>
    decreases b, 1
  {
    UnknownActors(b.actors, known) + UnknownAll(b.blocks, known)
  }

  ghost function UnknownActors(actors: seq<Actor>, known: set<string>): set<string> {
    set i | 0 <= i < |actors| && actors[i].actorType !in known :: actors[i].actorType
  }

  ghost function UnknownAll(blocks: seq<Block>, known: set<string>): set<string>
    decreases blocks
  {
    if blocks == [] then {} else UnknownAll(blocks[..|blocks| - 1], known) + Unknown(blocks[|blocks| - 1], known)
  }

  lemma {:induction false} UnknownAllConcat(a: seq<Block>, b: seq<Block>, known: set<string>)
    ensures UnknownAll(a + b, known) == UnknownAll(a, known) + UnknownAll(b, known)
  {
    if b == [] {
      assert a + b == a;
    } else {
      UnknownAllConcat(a, b[..|b| - 1], known);
      assert (a + b)[..|a + b| - 1] == a + b[..|b| - 1];
    }
  }

  lemma UnknownAllOne(b: Block, known: set<string>)
    ensures UnknownAll([b], known) == Unknown(b, known)
  {
    assert UnknownAll([], known) == {};
  }

  lemma {:induction false} ExpandedIsBelow(b: Block, defs: Definitions, rank: map<string, nat>, bound: nat)
    requires Expanded(b, defs)
    ensures Below(b, defs, rank, bound)
    decreases b
  {
    forall i | 0 <= i < |b.blocks| ensures Below(b.blocks[i], defs, rank, bound) {
      ExpandedIsBelow(b.blocks[i], defs, rank, bound);
    }
  }

  /** A definition, untouched or expanded already, gives the same block for an instance. */
  lemma InstanceEitherWay(a: Actor, definition: Block, defs: Definitions, rank: map<string, nat>, depth: nat)
    requires Acyclic(defs, rank) && a.actorType in defs && rank[a.actorType] < depth
    requires definition == defs[a.actorType] || definition == Full(defs[a.actorType], defs, rank[a.actorType])
    ensures Below(Instance(a, definition), defs, rank, rank[a.actorType])
    ensures Full(Instance(a, definition), defs, rank[a.actorType]) ==
              Full(Instance(a, defs[a.actorType]), defs, depth - 1)
  {
    var original, d := defs[a.actorType], rank[a.actorType];
    InstanceBelow(a, defs, rank, d);
    FullIsStable(Instance(a, original), defs, rank, d, depth - 1);
    if definition != original {
      FullIsExpanded(original, defs, rank, d);
      assert Expanded(Instance(a, definition), defs);
      ExpandedIsBelow(Instance(a, definition), defs, rank, d);
      ExpandedIsFull(Instance(a, definition), defs, d);
    }
  }

  lemma NextActor(actors: seq<Actor>, k: nat, defs: Definitions, depth: nat)
    requires k < |actors|
    ensures Kept(actors[..k + 1], defs) ==
              Kept(actors[..k], defs) + if actors[k].actorType in defs then [] else [actors[k]]
    ensures Expansions(actors[..k + 1], defs, depth) == Expansions(actors[..k], defs, depth) +
              if actors[k].actorType in defs && depth > 0 then
                [Full(Instance(actors[k], defs[actors[k].actorType]), defs, depth - 1)] else []
  {
    assert actors[..k + 1][..k] == actors[..k];
  }

  lemma NextBlock(blocks: seq<Block>, k: nat, defs: Definitions, depth: nat)
    requires k < |blocks|
    ensures FullAll(blocks[..k + 1], defs, depth) == FullAll(blocks[..k], defs, depth) + [Full(blocks[k], defs, depth)]
  {
    assert blocks[..k + 1][..k] == blocks[..k];
  }

  /** What is at the top of a script: definitions of components, and blocks. */
  datatype Item = Definition(name: string) | Main(block: Block)

  class Expander {
    /** The types that stand for actors, and the definitions of the components. */
    const known: set<string>
    const verify: bool
    var defs: Definitions
    var errors: set<string>
    /** The definitions as they were, and an order in which no component uses a later one. */
    ghost const original: Definitions
    ghost const rank: map<string, nat>

    constructor (known: set<string>, defs: Definitions, verify: bool, ghost rank: map<string, nat>)
      requires Acyclic(defs, rank)
      ensures Valid() && this.known == known && this.verify == verify && original == defs && this.rank == rank
      ensures errors == {}
    {
      this.known, this.defs, this.verify, this.original, this.rank, errors := known, defs, verify, defs, rank, {};
    }

    /** Every definition is as it was, or expanded. */
    ghost predicate Valid()
      reads this`defs
    {
      && Acyclic(original, rank) && defs.Keys == original.Keys
      && forall x :: x in defs ==> defs[x] == original[x] || defs[x] == Full(original[x], original, rank[x])
    }

    ghost function Reported(b: Block): set<string> {
      if verify then Unknown(b, known) else {}
    }

    method VisitBlock(b: Block, ghost depth: nat) returns (r: Block)
      requires Valid() && Below(b, original, rank, depth)
      modifies this`errors
      ensures r == Full(b, original, depth)
      ensures errors == old(errors) + Reported(r)
      decreases depth, b, 1
    {
      var blocks := VisitBlocks(b.blocks, depth);
      var kept, expansions := VisitActors(b.actors, depth);
      UnknownAllConcat(blocks, expansions, known);
      r := b.(actors := kept, blocks := blocks + expansions);
    }

    method VisitBlocks(blocks: seq<Block>, ghost depth: nat) returns (r: seq<Block>)
      requires Valid() && AllBelow(blocks, original, rank, depth)
      modifies this`errors
      ensures r == FullAll(blocks, original, depth)
      ensures errors == old(errors) + if verify then UnknownAll(r, known) else {}
      decreases depth, blocks
    {
      r := [];
      var k := 0;
      while k < |blocks|
        invariant k <= |blocks| && r == FullAll(blocks[..k], original, depth)
        invariant errors == old(errors) + if verify then UnknownAll(r, known) else {}
      {
        var b := VisitBlock(blocks[k], depth);
        NextBlock(blocks, k, original, depth);
        assert (r + [b])[..|r|] == r;
        r := r + [b];
        k := k + 1;
      }
      assert blocks[..k] == blocks;
    }

    /** Actors stay; an instance becomes a copy of its definition, which is visited in turn. */
    method VisitActors(actors: seq<Actor>, ghost depth: nat) returns (kept: seq<Actor>, blocks: seq<Block>)
      requires Valid() && ActorsBelow(actors, original, rank, depth)
      modifies this`errors
      ensures kept == Kept(actors, original) && blocks == Expansions(actors, original, depth)
      ensures AllUnfoldedFor(blocks, Instances(actors, original), original)
      ensures errors == old(errors) + if verify then UnknownActors(kept, known) + UnknownAll(blocks, known) else {}
      decreases depth, actors
    {
      hide Acyclic, Full, Below, UnknownActors, Kept, Expansions, Unknown, Instance;
      hide Instances, AllUnfoldedFor;
      NothingKept(actors, depth);
      kept, blocks := [], [];
      var k := 0;
      while k < |actors|
        invariant k <= |actors| && kept == Kept(actors[..k], original)
        invariant blocks == Expansions(actors[..k], original, depth)
        invariant errors == old(errors) + if verify then UnknownActors(kept, known) + UnknownAll(blocks, known) else {}
      {
        var a := actors[k];
        NextActor(actors, k, original, depth);
        if a.actorType in defs {
          InstanceEitherWay(a, defs[a.actorType], original, rank, depth);
          var b := VisitBlock(Instance(a, defs[a.actorType]), rank[a.actorType]);
          assert (blocks + [b])[..|blocks|] == blocks;
          blocks := blocks + [b];
        } else {
          OneMoreActor(kept, a);
          if a.actorType !in known && verify {
            errors := errors + {a.actorType};
          }
          kept := kept + [a];
        }
        k := k + 1;
      }
      assert actors[..k] == actors;
      ExpansionsAreUnfolded(actors, original, rank, depth);
    }

    lemma NothingKept(actors: seq<Actor>, depth: nat)
      ensures Kept(actors[..0], original) == [] && Expansions(actors[..0], original, depth) == []
      ensures UnknownActors([], known) == {}
    {
    }

    lemma OneMoreActor(kept: seq<Actor>, a: Actor)
      ensures UnknownActors(kept + [a], known) ==
                UnknownActors(kept, known) + if a.actorType in known then {} else {a.actorType}
    {
      var more := kept + [a];
      assert more[|kept|] == a && forall i :: 0 <= i < |kept| ==> more[i] == kept[i];
    }

    /** Visit what is at the top, definitions and blocks in any order. A definition is expanded in place,
        so that instances may be copies of either form of it. */
    method Process(root: seq<Item>, ghost depth: nat) returns (blocks: seq<Block>)
      requires Valid() && forall i :: 0 <= i < |root| ==>
                 if root[i].Definition? then root[i].name in defs else Below(root[i].block, original, rank, depth)
      modifies this`defs, this`errors
      ensures Valid() && blocks == FullAll(Blocks(root), original, depth)
      ensures AllUnfolded(blocks, Blocks(root), original)
      ensures forall i :: 0 <= i < |blocks| ==> Expanded(blocks[i], original)
      ensures forall i :: 0 <= i < |root| && root[i].Definition? ==> Expanded(defs[root[i].name], original)
      ensures errors == old(errors) + Missing(root) + if verify then UnknownAll(blocks, known) else {}
    {
      hide Acyclic, Full, FullAll, Below, Blocks, Unknown, UnknownAll, Expanded, AllUnfolded, AllExpanded, AllBelow;
      hide Valid;
      NothingYet(root, depth);
      AreDefined(root);
      blocks := [];
      var k := 0;
      while k < |root|
        invariant k <= |root| && Valid() && defs.Keys == old(defs).Keys
        invariant blocks == FullAll(Blocks(root[..k]), original, depth)
        invariant forall i :: 0 <= i < k && root[i].Definition? ==> Expanded(defs[root[i].name], original)
        invariant errors == old(errors) + Missing(root[..k]) + if verify then UnknownAll(blocks, known) else {}
      {
        NextItem(root, k, depth);
        NextMissing(root, k);
        if root[k].Definition? {
          VisitDefinition(root[k].name);
        } else {
          var b := VisitBlock(root[k].block, depth);
          UnknownAllConcat(blocks, [b], known);
          UnknownAllOne(b, known);
          blocks := blocks + [b];
        }
        k := k + 1;
      }
      assert root[..k] == root;
      BlocksBelow(root, depth);
      NoneUsesItself();
      FullAllAreExpanded(Blocks(root), original, rank, depth);
      FullAllAreUnfolded(Blocks(root), original, rank, depth);
    }

    lemma NoneUsesItself()
      requires Valid()
      ensures Acyclic(original, rank)
    {
    }

    ghost predicate AllDefined(root: seq<Item>) {
      forall i :: 0 <= i < |root| && root[i].Definition? ==> root[i].name in original && root[i].name in rank
    }

    /** What is reported for the definitions, as they are after expansion. */
    ghost function Missing(root: seq<Item>): set<string>
      requires AllDefined(root)
    {
      if root == [] then {}
      else
        var last := root[|root| - 1];
        Missing(root[..|root| - 1]) +
        if last.Definition? then Reported(Full(original[last.name], original, rank[last.name])) else {}
    }

    /** The type is not known, and there is an actor of it in the definition after expansion. */
    ghost predicate MissingAt(item: Item, x: string) {
      && item.Definition? && item.name in original && item.name in rank
      && x in Unknown(Full(original[item.name], original, rank[item.name]), known)
    }

    lemma {:induction false} InMissing(root: seq<Item>, x: string)
      requires AllDefined(root)
      ensures x in Missing(root) <==> verify && exists i :: 0 <= i < |root| && MissingAt(root[i], x)
    {
      hide Full, Unknown;
      if root != [] {
        InMissing(root[..|root| - 1], x);
      }
    }

    lemma AreDefined(root: seq<Item>)
      requires Valid() && forall i :: 0 <= i < |root| && root[i].Definition? ==> root[i].name in defs
      ensures AllDefined(root)
    {
    }

    lemma NextMissing(root: seq<Item>, k: nat)
      requires k < |root| && AllDefined(root)
      ensures Missing(root[..k + 1]) == Missing(root[..k]) +
                if root[k].Definition? then Reported(Full(original[root[k].name], original, rank[root[k].name])) else {}
    {
      assert root[..k + 1][..k] == root[..k];
    }

    /** The definition is expanded in place; visiting it again changes nothing. */
    method VisitDefinition(name: string)
      requires Valid() && name in defs
      modifies this`defs, this`errors
      ensures Valid() && defs == old(defs)[name := defs[name]] && Expanded(defs[name], original)
      ensures defs[name] == Full(original[name], original, rank[name])
      ensures errors == old(errors) + Reported(defs[name])
    {
      hide Full, Expanded, Below, Unknown;
      var definition := defs[name];
      FullIsExpanded(original[name], original, rank, rank[name]);
      if definition != original[name] {
        ExpandedIsBelow(definition, original, rank, rank[name]);
        ExpandedIsFull(definition, original, rank[name]);
      }
      var b := VisitBlock(definition, rank[name]);
      defs := defs[name := b];
    }

    lemma NothingYet(root: seq<Item>, depth: nat)
      ensures FullAll(Blocks(root[..0]), original, depth) == [] && UnknownAll([], known) == {}
    {
    }

    lemma NextItem(root: seq<Item>, k: nat, depth: nat)
      requires k < |root|
      ensures Blocks(root[..k + 1]) == Blocks(root[..k]) + if root[k].Definition? then [] else [root[k].block]
      ensures FullAll(Blocks(root[..k + 1]), original, depth) ==
              FullAll(Blocks(root[..k]), original, depth) +
              if root[k].Definition? then [] else [Full(root[k].block, original, depth)]
    {
      assert root[..k + 1][..k] == root[..k];
      var before, after := Blocks(root[..k]), Blocks(root[..k + 1]);
      if root[k].Main? {
        assert after == before + [root[k].block] && after[..|before|] == before;
      } else {
        assert after == before;
      }
    }

    lemma {:induction false} BlocksBelow(root: seq<Item>, depth: nat)
      requires forall i :: 0 <= i < |root| && root[i].Main? ==> Below(root[i].block, original, rank, depth)
      ensures AllBelow(Blocks(root), original, rank, depth)
    {
      if root != [] {
        BlocksBelow(root[..|root| - 1], depth);
      }
    }
  }

  /** The blocks at the top, without the definitions. */
  function Blocks(root: seq<Item>): seq<Block> {
    if root == [] then []
    else Blocks(root[..|root| - 1]) + if root[|root| - 1].Main? then [root[|root| - 1].block] else []
  }

  lemma NoBlocks()
    ensures Blocks([]) == []
  {
  }

  lemma BlocksMore(items: seq<Item>, item: Item)
    ensures Blocks(items + [item]) == if item.Main? then Blocks(items) + [item.block] else Blocks(items)
  {
    assert (items + [item])[..|items|] == items;
  }
}
