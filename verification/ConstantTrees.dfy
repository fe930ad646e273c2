/** Constants in whole trees: replaced before components are expanded, found outermost after it. */
module ConstantTrees {
  import opened GraphSyntax
  import opened Scoping
  import opened Constants
  import opened ComponentExpansion

  type Values = map<string, Literal>

  function ReplaceArgs(args: seq<NamedArg>, defined: Values): seq<NamedArg> {
    seq(|args|, i requires 0 <= i < |args| => NamedArg(args[i].ident, ReplaceArg(args[i].arg, defined)))
  }

  function ReplaceActor(a: Actor, defined: Values): Actor {
    a.(args := ReplaceArgs(a.args, defined))
  }

  function ReplaceActors(actors: seq<Actor>, defined: Values): seq<Actor> {
    seq(|actors|, i requires 0 <= i < |actors| => ReplaceActor(actors[i], defined))
  }

  function ReplaceBlock(b: Block, defined: Values): Block
    decreases b, 1
  {
    Block(b.ns, ReplaceInEnv(b.args, defined), ReplaceActors(b.actors, defined), b.links,
          ReplaceBlocks(b.blocks, defined))
  }

  function ReplaceBlocks(blocks: seq<Block>, defined: Values): seq<Block>
    decreases blocks
  {
    if blocks == [] then []
    else ReplaceBlocks(blocks[..|blocks| - 1], defined) + [ReplaceBlock(blocks[|blocks| - 1], defined)]
  }

  function ReplaceDefs(defs: Definitions, defined: Values): Definitions {
    map x | x in defs :: ReplaceBlock(defs[x], defined)
  }

  /* ----- replacing before or after expansion ----- */

  lemma {:induction false} ReplaceArgMap(args: seq<NamedArg>, defined: Values)
    ensures ArgMap(ReplaceArgs(args, defined)) == ReplaceInEnv(ArgMap(args), defined)
  {
    if args != [] {
      ReplaceArgMap(args[..|args| - 1], defined);
      assert ReplaceArgs(args, defined)[..|args| - 1] == ReplaceArgs(args[..|args| - 1], defined);
    }
  }

  lemma {:induction false} ReplaceKept(actors: seq<Actor>, defs: Definitions, defined: Values)
    ensures Kept(ReplaceActors(actors, defined), ReplaceDefs(defs, defined)) ==
              ReplaceActors(Kept(actors, defs), defined)
  {
    if actors != [] {
      ReplaceKept(actors[..|actors| - 1], defs, defined);
      assert ReplaceActors(actors, defined)[..|actors| - 1] == ReplaceActors(actors[..|actors| - 1], defined);
    }
  }

  lemma {:induction false} ReplaceConcat(a: seq<Block>, b: seq<Block>, defined: Values)
    ensures ReplaceBlocks(a + b, defined) == ReplaceBlocks(a, defined) + ReplaceBlocks(b, defined)
  {
    if b == [] {
      assert a + b == a;
    } else {
      ReplaceConcat(a, b[..|b| - 1], defined);
      assert (a + b)[..|a + b| - 1] == a + b[..|b| - 1];
    }
  }

  lemma ReplaceOne(b: Block, defined: Values)
    ensures ReplaceBlocks([b], defined) == [ReplaceBlock(b, defined)]
  {
    assert [b][..0] == [];
  }

  lemma ReplaceInstance(a: Actor, definition: Block, defined: Values)
    ensures Instance(ReplaceActor(a, defined), ReplaceBlock(definition, defined)) ==
              ReplaceBlock(Instance(a, definition), defined)
  {
    ReplaceArgMap(a.args, defined);
  }

  /** Expanding what has been replaced is replacing in what has been expanded. */
  lemma {:induction false} ReplaceFull(b: Block, defs: Definitions, defined: Values, depth: nat)
    ensures Full(ReplaceBlock(b, defined), ReplaceDefs(defs, defined), depth) ==
              ReplaceBlock(Full(b, defs, depth), defined)
    decreases depth, b, 1
  {
    ReplaceKept(b.actors, defs, defined);
    ReplaceFullAll(b.blocks, defs, defined, depth);
    ReplaceExpansions(b.actors, defs, defined, depth);
    ReplaceConcat(FullAll(b.blocks, defs, depth), Expansions(b.actors, defs, depth), defined);
  }

  lemma {:induction false} ReplaceFullAll(blocks: seq<Block>, defs: Definitions, defined: Values, depth: nat)
    ensures FullAll(ReplaceBlocks(blocks, defined), ReplaceDefs(defs, defined), depth) ==
              ReplaceBlocks(FullAll(blocks, defs, depth), defined)
    decreases depth, blocks
  {
    if blocks != [] {
      var front, last := blocks[..|blocks| - 1], blocks[|blocks| - 1];
      ReplaceFullAll(front, defs, defined, depth);
      ReplaceFull(last, defs, defined, depth);
      assert ReplaceBlocks(blocks, defined)[..|ReplaceBlocks(front, defined)|] == ReplaceBlocks(front, defined);
      ReplaceConcat(FullAll(front, defs, depth), [Full(last, defs, depth)], defined);
      ReplaceOne(Full(last, defs, depth), defined);
    }
  }

  lemma {:induction false} ReplaceExpansions(actors: seq<Actor>, defs: Definitions, defined: Values, depth: nat)
    ensures Expansions(ReplaceActors(actors, defined), ReplaceDefs(defs, defined), depth) ==
            ReplaceBlocks(Expansions(actors, defs, depth), defined)
    decreases depth, actors
  {
    hide Full, Instance, ReplaceBlock, ReplaceActor;
    if actors != [] {
      var k := |actors| - 1;
      var front, last, replaced := actors[..k], actors[k], ReplaceActors(actors, defined);
      assert replaced[..k] == ReplaceActors(front, defined) && replaced[k] == ReplaceActor(last, defined);
      assert actors[..k + 1] == actors && replaced[..k + 1] == replaced;
      ReplaceExpansions(front, defs, defined, depth);
      NextActor(actors, k, defs, depth);
      NextActor(replaced, k, ReplaceDefs(defs, defined), depth);
      TypeKept(last, defined);
      if last.actorType in defs && depth > 0 {
        var e := Instance(last, defs[last.actorType]);
        ReplaceInstance(last, defs[last.actorType], defined);
        ReplaceFull(e, defs, defined, depth - 1);
        ReplaceConcat(Expansions(front, defs, depth), [Full(e, defs, depth - 1)], defined);
        ReplaceOne(Full(e, defs, depth - 1), defined);
      } else {
        assert Expansions(actors, defs, depth) == Expansions(front, defs, depth);
        assert Expansions(replaced, ReplaceDefs(defs, defined), depth) ==
                 Expansions(replaced[..k], ReplaceDefs(defs, defined), depth);
      }
    }
  }

  lemma TypeKept(a: Actor, defined: Values)
    ensures ReplaceActor(a, defined).actorType == a.actorType
  {
  }

  /* ----- lexical scope, with the constants outermost ----- */

  function InScopeOf(a: Actor, scopes: seq<Scope>, defined: Values): Actor {
    Actor(FullName(scopes, a.ident), a.actorType,
          seq(|a.args|, i requires 0 <= i < |a.args| =>
            NamedArg(a.args[i].ident, Eval(a.args[i].arg, scopes + [ConstantScope(defined)]))))
  }

  function AllInScopeOf(actors: seq<Actor>, scopes: seq<Scope>, defined: Values): seq<Actor> {
    if actors == [] then [] else [InScopeOf(actors[0], scopes, defined)] + AllInScopeOf(actors[1..], scopes, defined)
  }

  /** All actors with their full names, and with argument values that may be constants. */
  function LexicalOver(b: Block, scopes: seq<Scope>, defined: Values): seq<Actor>
    decreases b, 1
  {
    AllInScopeOf(b.actors, scopes, defined) + LexicalAllOver(b.blocks, scopes, defined)
  }

  function LexicalAllOver(blocks: seq<Block>, scopes: seq<Scope>, defined: Values): seq<Actor>
    decreases blocks
  {
    if blocks == [] then []
    else LexicalOver(blocks[0], [Scope(blocks[0].ns, blocks[0].args)] + scopes, defined) +
         LexicalAllOver(blocks[1..], scopes, defined)
  }

  /** At every level, a parameter with the name of a constant has its value. */
  ghost predicate HarmlessTree(b: Block, scopes: seq<Scope>, defined: Values)
    decreases b
  {
    && Harmless(scopes, defined)
    && forall i :: 0 <= i < |b.blocks| ==>
         HarmlessTree(b.blocks[i], [Scope(b.blocks[i].ns, b.blocks[i].args)] + scopes, defined)
  }

  lemma {:induction false} NamesKept(scopes: seq<Scope>, defined: Values, ident: string)
    ensures FullName(ReplaceInScopes(scopes, defined), ident) == FullName(scopes, ident)
    decreases |scopes|
  {
    if scopes != [] {
      PathKept(scopes, defined);
    }
  }

  lemma {:induction false} PathKept(scopes: seq<Scope>, defined: Values)
    requires scopes != []
    ensures Path(ReplaceInScopes(scopes, defined)) == Path(scopes)
    decreases |scopes|
  {
    if |scopes| > 1 {
      PathKept(scopes[1..], defined);
      assert ReplaceInScopes(scopes, defined)[1..] == ReplaceInScopes(scopes[1..], defined);
    }
  }

  lemma {:induction false} ActorsOver(actors: seq<Actor>, scopes: seq<Scope>, defined: Values)
    requires Harmless(scopes, defined)
    ensures AllInScope(ReplaceActors(actors, defined), ReplaceInScopes(scopes, defined)) ==
              AllInScopeOf(actors, scopes, defined)
  {
    if actors != [] {
      var a := actors[0];
      ActorsOver(actors[1..], scopes, defined);
      assert ReplaceActors(actors, defined)[1..] == ReplaceActors(actors[1..], defined);
      NamesKept(scopes, defined, a.ident);
      forall i | 0 <= i < |a.args|
        ensures Eval(ReplaceArg(a.args[i].arg, defined), ReplaceInScopes(scopes, defined)) ==
                  Eval(a.args[i].arg, scopes + [ConstantScope(defined)])
      {
        OutermostIfHarmless(a.args[i].arg, scopes, defined);
      }
      assert InScope(ReplaceActor(a, defined), ReplaceInScopes(scopes, defined)) == InScopeOf(a, scopes, defined);
    }
  }

  lemma ReplaceScope(b: Block, scopes: seq<Scope>, defined: Values)
    ensures ReplaceInScopes([Scope(b.ns, b.args)] + scopes, defined) ==
            [Scope(ReplaceBlock(b, defined).ns, ReplaceBlock(b, defined).args)] + ReplaceInScopes(scopes, defined)
  {
  }

  lemma {:induction false} ReplaceFirst(blocks: seq<Block>, defined: Values)
    requires blocks != []
    ensures ReplaceBlocks(blocks, defined) == [ReplaceBlock(blocks[0], defined)] + ReplaceBlocks(blocks[1..], defined)
  {
    assert blocks == [blocks[0]] + blocks[1..];
    ReplaceConcat([blocks[0]], blocks[1..], defined);
    ReplaceOne(blocks[0], defined);
  }

  /** Lexical evaluation of the replaced tree is lexical evaluation with the constants outermost. */
  lemma {:induction false} TreeOver(b: Block, scopes: seq<Scope>, defined: Values)
    requires HarmlessTree(b, scopes, defined)
    ensures Lexical(ReplaceBlock(b, defined), ReplaceInScopes(scopes, defined)) == LexicalOver(b, scopes, defined)
    decreases b, 1
  {
    ActorsOver(b.actors, scopes, defined);
    TreesOver(b.blocks, scopes, defined);
  }

  lemma {:induction false} TreesOver(blocks: seq<Block>, scopes: seq<Scope>, defined: Values)
    requires forall i :: 0 <= i < |blocks| ==>
               HarmlessTree(blocks[i], [Scope(blocks[i].ns, blocks[i].args)] + scopes, defined)
    ensures LexicalAll(ReplaceBlocks(blocks, defined), ReplaceInScopes(scopes, defined)) ==
              LexicalAllOver(blocks, scopes, defined)
    decreases blocks
  {
    if blocks != [] {
      ReplaceFirst(blocks, defined);
      assert ReplaceBlocks(blocks, defined)[1..] == ReplaceBlocks(blocks[1..], defined);
      ReplaceScope(blocks[0], scopes, defined);
      TreeOver(blocks[0], [Scope(blocks[0].ns, blocks[0].args)] + scopes, defined);
      TreesOver(blocks[1..], scopes, defined);
    }
  }
}
