/** The nested blocks of an expanded script are the chains of instances, so that its flat actors are those that
    occur in the script. */
module FlatOccurrences {
  import opened GraphSyntax
  import opened Sequences
  import opened Scoping
  import opened Constants
  import opened ComponentExpansion
  import opened ConstantTrees
  import opened Occurrences
  import Compile
  import Walks

  /* ----- nested blocks ----- */

  /** The block is reached through the scopes, which are listed from the inside out. */
  ghost predicate Within(b: Block, scopes: seq<Scope>, c: Block)
    decreases |scopes|
  {
    if scopes == [] then c == b
    else exists d :: d in b.blocks && Scope(d.ns, d.args) == scopes[|scopes| - 1] &&
                     Within(d, scopes[..|scopes| - 1], c)
  }

  lemma WithinOneMore(b: Block, d: Block, scopes: seq<Scope>, c: Block)
    requires d in b.blocks && Within(d, scopes, c)
    ensures Within(b, scopes + [Scope(d.ns, d.args)], c)
  {
    var more := scopes + [Scope(d.ns, d.args)];
    assert more[..|more| - 1] == scopes;
  }

  ghost predicate ActorWithin(b: Block, scopes: seq<Scope>, c: Block, a: Actor) {
    Within(b, scopes, c) && a in c.actors
  }

  lemma ActorOneMore(b: Block, d: Block, scopes: seq<Scope>, c: Block, a: Actor)
    requires d in b.blocks && ActorWithin(d, scopes, c, a)
    ensures ActorWithin(b, scopes + [Scope(d.ns, d.args)], c, a)
  {
    WithinOneMore(b, d, scopes, c);
  }

  lemma {:induction false} InAllInScope(g: Actor, actors: seq<Actor>, scopes: seq<Scope>)
    ensures g in AllInScope(actors, scopes) <==> exists a :: a in actors && g == InScope(a, scopes)
  {
    if actors != [] {
      InAllInScope(g, actors[1..], scopes);
      assert actors == [actors[0]] + actors[1..];
    }
  }

  ghost predicate InLexicalOf(g: Actor, d: Block, outer: seq<Scope>) {
    g in Lexical(d, [Scope(d.ns, d.args)] + outer)
  }

  lemma {:induction false} InLexicalAll(g: Actor, blocks: seq<Block>, outer: seq<Scope>)
    ensures g in LexicalAll(blocks, outer) <==> exists d :: d in blocks && InLexicalOf(g, d, outer)
  {
    if blocks != [] {
      InLexicalAll(g, blocks[1..], outer);
      assert blocks == [blocks[0]] + blocks[1..];
      assert InLexicalOf(g, blocks[0], outer) <==>
               g in Lexical(blocks[0], [Scope(blocks[0].ns, blocks[0].args)] + outer);
    }
  }

  lemma AppendScopes(scopes: seq<Scope>, s: Scope, outer: seq<Scope>)
    ensures scopes + ([s] + outer) == (scopes + [s]) + outer
  {
  }

  lemma {:induction false} FindInTree(g: Actor, b: Block, outer: seq<Scope>)
      returns (scopes: seq<Scope>, c: Block, a: Actor)
    requires g in Lexical(b, outer)
    ensures ActorWithin(b, scopes, c, a) && g == InScope(a, scopes + outer)
    decreases b
  {
    InAllInScope(g, b.actors, outer);
    InLexicalAll(g, b.blocks, outer);
    if g in AllInScope(b.actors, outer) {
      a :| a in b.actors && g == InScope(a, outer);
      scopes, c := [], b;
      assert [] + outer == outer;
    } else {
      var d :| d in b.blocks && InLexicalOf(g, d, outer);
      scopes, c, a := FindInTree(g, d, [Scope(d.ns, d.args)] + outer);
      ActorOneMore(b, d, scopes, c, a);
      AppendScopes(scopes, Scope(d.ns, d.args), outer);
      scopes := scopes + [Scope(d.ns, d.args)];
    }
  }

  lemma {:induction false} TreeHas(b: Block, scopes: seq<Scope>, c: Block, a: Actor, outer: seq<Scope>)
    requires ActorWithin(b, scopes, c, a)
    ensures InScope(a, scopes + outer) in Lexical(b, outer)
    decreases |scopes|
  {
    var g := InScope(a, scopes + outer);
    if scopes == [] {
      assert scopes + outer == outer;
      InAllInScope(g, b.actors, outer);
    } else {
      var s, rest := scopes[|scopes| - 1], scopes[..|scopes| - 1];
      var d :| d in b.blocks && Scope(d.ns, d.args) == s && Within(d, rest, c);
      TreeHas(d, rest, c, a, [s] + outer);
      AppendScopes(rest, s, outer);
      assert rest + [s] == scopes;
      assert InLexicalOf(g, d, outer);
      InLexicalAll(g, b.blocks, outer);
    }
  }

  lemma {:induction false} InUnknownAll(x: string, blocks: seq<Block>, known: set<string>)
    ensures x in UnknownAll(blocks, known) <==> exists d :: d in blocks && x in Unknown(d, known)
  {
    if blocks != [] {
      var front, last := blocks[..|blocks| - 1], blocks[|blocks| - 1];
      InUnknownAll(x, front, known);
      hide Unknown;
      assert blocks == front + [last];
      assert x in UnknownAll(blocks, known) <==> x in UnknownAll(front, known) || x in Unknown(last, known);
    }
  }

  lemma {:induction false} FindUnknown(x: string, b: Block, known: set<string>)
      returns (scopes: seq<Scope>, c: Block, a: Actor)
    requires x in Unknown(b, known)
    ensures ActorWithin(b, scopes, c, a) && a.actorType == x && x !in known
    decreases b
  {
    if x in UnknownActors(b.actors, known) {
      var i :| 0 <= i < |b.actors| && b.actors[i].actorType !in known && b.actors[i].actorType == x;
      scopes, c, a := [], b, b.actors[i];
    } else {
      InUnknownAll(x, b.blocks, known);
      var d :| d in b.blocks && x in Unknown(d, known);
      scopes, c, a := FindUnknown(x, d, known);
      ActorOneMore(b, d, scopes, c, a);
      scopes := scopes + [Scope(d.ns, d.args)];
    }
  }

  lemma {:induction false} IsUnknown(b: Block, scopes: seq<Scope>, c: Block, a: Actor, known: set<string>)
    requires ActorWithin(b, scopes, c, a) && a.actorType !in known
    ensures a.actorType in Unknown(b, known)
    decreases |scopes|
  {
    if scopes != [] {
      var d :| d in b.blocks && Scope(d.ns, d.args) == scopes[|scopes| - 1] && Within(d, scopes[..|scopes| - 1], c);
      IsUnknown(d, scopes[..|scopes| - 1], c, a, known);
      InUnknownAll(a.actorType, b.blocks, known);
    }
  }

  /* ----- chains of instances ----- */

  /** What the instances are as enclosing blocks. */
  ghost function ScopesOf(insts: seq<Actor>): seq<Scope> {
    if insts == [] then []
    else
      var last := insts[|insts| - 1];
      [Scope(last.ident, ArgMap(last.args))] + ScopesOf(insts[..|insts| - 1])
  }

  lemma {:induction false} ScopesCons(a: Actor, insts: seq<Actor>)
    ensures ScopesOf([a] + insts) == ScopesOf(insts) + [Scope(a.ident, ArgMap(a.args))]
  {
    if insts == [] {
      assert [a] + insts == [a] && [a][..0] == [];
    } else {
      var all, k := [a] + insts, |insts| - 1;
      assert all[..k + 1] == [a] + insts[..k] && all[k + 1] == insts[k];
      ScopesCons(a, insts[..k]);
      Assoc([Scope(insts[k].ident, ArgMap(insts[k].args))], ScopesOf(insts[..k]), [Scope(a.ident, ArgMap(a.args))]);
    }
  }

  /** An instance with the name is declared. */
  ghost predicate Hosts(b: Block, defs: Definitions, name: string) {
    exists a :: a in b.actors && a.actorType in defs && a.ident == name
  }

  /** The expanded block has the links and the actors that were written, and a block for each instance. */
  ghost predicate Mirrors(c: Block, written: Block, defs: Definitions) {
    && c.links == written.links
    && (forall a :: a in c.actors <==> a in written.actors && a.actorType !in defs)
    && forall name :: Walks.NoInstance(c, name) <==> !Hosts(written, defs, name)
  }

  ghost predicate ExpansionFrom(e: Block, actors: seq<Actor>, defs: Definitions, depth: nat, a: Actor) {
    a in actors && a.actorType in defs && depth > 0 && e == Full(Instance(a, defs[a.actorType]), defs, depth - 1)
  }

  lemma {:induction false} InExpansions(e: Block, actors: seq<Actor>, defs: Definitions, depth: nat)
    ensures e in Expansions(actors, defs, depth) <==> exists a :: ExpansionFrom(e, actors, defs, depth, a)
    decreases actors
  {
    if actors != [] {
      var front, last := actors[..|actors| - 1], actors[|actors| - 1];
      InExpansions(e, front, defs, depth);
      assert actors == front + [last];
      hide Full;
      if a :| ExpansionFrom(e, actors, defs, depth, a) {
        assert a in front ==> ExpansionFrom(e, front, defs, depth, a);
      }
      if a :| ExpansionFrom(e, front, defs, depth, a) {
        assert ExpansionFrom(e, actors, defs, depth, a);
      }
      if e in Expansions(actors, defs, depth) && e !in Expansions(front, defs, depth) {
        assert ExpansionFrom(e, actors, defs, depth, last);
      }
    }
  }

  /** No block is nested where it is written. */
  ghost predicate Flat(defs: Definitions) {
    forall x :: x in defs ==> defs[x].blocks == []
  }

  lemma BlocksOfFull(b: Block, defs: Definitions, depth: nat, e: Block)
    requires b.blocks == []
    ensures e in Full(b, defs, depth).blocks <==> exists a :: ExpansionFrom(e, b.actors, defs, depth, a)
  {
    assert FullAll(b.blocks, defs, depth) == [];
    InExpansions(e, b.actors, defs, depth);
  }

  lemma FullMirrors(b: Block, defs: Definitions, rank: map<string, nat>, depth: nat)
    requires b.blocks == [] && Below(b, defs, rank, depth)
    ensures Mirrors(Full(b, defs, depth), b, defs)
  {
    var full := Full(b, defs, depth);
    forall a ensures a in full.actors <==> a in b.actors && a.actorType !in defs {
      InKept(a, b.actors, defs);
    }
    forall name ensures Walks.NoInstance(full, name) <==> !Hosts(b, defs, name) {
      if e :| e in full.blocks && e.ns == name {
        BlocksOfFull(b, defs, depth, e);
        var a :| ExpansionFrom(e, b.actors, defs, depth, a);
        assert a.ident == name;
      }
      if a :| a in b.actors && a.actorType in defs && a.ident == name {
        var e := Full(Instance(a, defs[a.actorType]), defs, depth - 1);
        assert ExpansionFrom(e, b.actors, defs, depth, a);
        BlocksOfFull(b, defs, depth, e);
        assert e.ns == name;
      }
    }
  }

  /** The name and the arguments of a block do not matter for what is inside. */
  lemma SameInside(b: Block, b': Block, defs: Definitions, insts: seq<Actor>)
    requires b'.actors == b.actors && b'.links == b.links
    ensures Chain(b', defs, insts) <==> Chain(b, defs, insts)
    ensures Chain(b, defs, insts) ==>
              forall c :: Mirrors(c, Inside(b', defs, insts), defs) <==> Mirrors(c, Inside(b, defs, insts), defs)
  {
    assert forall name :: Hosts(b', defs, name) <==> Hosts(b, defs, name);
  }

  lemma ChainCons(b: Block, defs: Definitions, a: Actor, insts: seq<Actor>)
    requires a in b.actors && a.actorType in defs && Chain(defs[a.actorType], defs, insts)
    ensures Chain(b, defs, [a] + insts)
    ensures Inside(b, defs, [a] + insts) == Inside(defs[a.actorType], defs, insts)
  {
    assert ([a] + insts)[1..] == insts;
  }

  lemma {:induction false} FindChain(b: Block, defs: Definitions, rank: map<string, nat>, depth: nat,
                                     scopes: seq<Scope>, c: Block) returns (insts: seq<Actor>)
    requires Acyclic(defs, rank) && Flat(defs) && b.blocks == [] && Below(b, defs, rank, depth)
    requires Within(Full(b, defs, depth), scopes, c)
    ensures Chain(b, defs, insts) && ScopesOf(insts) == scopes && Mirrors(c, Inside(b, defs, insts), defs)
    decreases |scopes|
  {
    hide Full, Mirrors, Acyclic, Instance;
    if scopes == [] {
      insts := [];
      FullMirrors(b, defs, rank, depth);
    } else {
      var k := |scopes| - 1;
      var d :| d in Full(b, defs, depth).blocks && Scope(d.ns, d.args) == scopes[k] && Within(d, scopes[..k], c);
      BlocksOfFull(b, defs, depth, d);
      var a :| ExpansionFrom(d, b.actors, defs, depth, a);
      var definition := defs[a.actorType];
      InstanceIs(a, definition, defs, depth - 1);
      RankBelow(b, defs, rank, depth, a);
      InstanceBelow(a, defs, rank, depth - 1);
      var rest := FindChain(Instance(a, definition), defs, rank, depth - 1, scopes[..k], c);
      SameInside(definition, Instance(a, definition), defs, rest);
      ChainCons(b, defs, a, rest);
      ScopesCons(a, rest);
      insts := [a] + rest;
    }
  }

  lemma InstanceIs(a: Actor, definition: Block, defs: Definitions, depth: nat)
    ensures var i := Instance(a, definition); i.actors == definition.actors && i.links == definition.links &&
                                              i.blocks == definition.blocks
    ensures Full(Instance(a, definition), defs, depth).ns == a.ident
    ensures Full(Instance(a, definition), defs, depth).args == ArgMap(a.args)
  {
  }

  lemma RankBelow(b: Block, defs: Definitions, rank: map<string, nat>, depth: nat, a: Actor)
    requires Below(b, defs, rank, depth) && a in b.actors && a.actorType in defs
    ensures a.actorType in rank && rank[a.actorType] < depth
  {
    var i :| 0 <= i < |b.actors| && b.actors[i] == a;
  }

  lemma {:induction false} FollowChain(b: Block, defs: Definitions, rank: map<string, nat>, depth: nat,
                                       insts: seq<Actor>) returns (c: Block)
    requires Acyclic(defs, rank) && Flat(defs) && b.blocks == [] && Below(b, defs, rank, depth)
    requires Chain(b, defs, insts)
    ensures Within(Full(b, defs, depth), ScopesOf(insts), c) && Mirrors(c, Inside(b, defs, insts), defs)
    decreases |insts|
  {
    hide Full, Mirrors, Acyclic, Instance;
    if insts == [] {
      c := Full(b, defs, depth);
      FullMirrors(b, defs, rank, depth);
    } else {
      var a, rest := insts[0], insts[1..];
      var definition := defs[a.actorType];
      RankBelow(b, defs, rank, depth, a);
      InstanceBelow(a, defs, rank, depth - 1);
      InstanceIs(a, definition, defs, depth - 1);
      SameInside(definition, Instance(a, definition), defs, rest);
      c := FollowChain(Instance(a, definition), defs, rank, depth - 1, rest);
      var d := Full(Instance(a, definition), defs, depth - 1);
      assert ExpansionFrom(d, b.actors, defs, depth, a);
      BlocksOfFull(b, defs, depth, d);
      WithinOneMore(Full(b, defs, depth), d, ScopesOf(rest), c);
      ChainCons(b, defs, a, rest);
      ScopesCons(a, rest);
      assert insts == [a] + rest;
    }
  }

  /* ----- the whole script ----- */

  /** The scopes of what is written inside the instances, in the script of this name. */
  ghost function InScript(script: string, insts: seq<Actor>): seq<Scope> {
    ScopesOf(insts) + [Scope(script, map[])]
  }

  lemma {:induction false} NameInScript(script: string, insts: seq<Actor>, ident: string)
    ensures FullName(InScript(script, insts), ident) == NameIn(script, insts, ident)
    decreases |insts|
  {
    var scopes := InScript(script, insts);
    PathInScript(script, insts);
    assert Path(scopes) + ":" + ident == script + ":" + Prefix(insts) + ident;
  }

  lemma {:induction false} PathInScript(script: string, insts: seq<Actor>)
    ensures Path(InScript(script, insts)) + ":" == script + ":" + Prefix(insts)
    decreases |insts|
  {
    if insts != [] {
      var last, outer := insts[|insts| - 1], insts[..|insts| - 1];
      PathInScript(script, outer);
      assert InScript(script, insts)[1..] == InScript(script, outer);
      assert Path(InScript(script, insts)) == Path(InScript(script, outer)) + ":" + last.ident;
      assert (Path(InScript(script, outer)) + ":" + last.ident) + ":" ==
               (Path(InScript(script, outer)) + ":") + (last.ident + ":");
      assert (script + ":" + Prefix(outer)) + (last.ident + ":") == script + ":" + Prefix(insts);
    }
  }

  lemma ArgMapGives(a: Actor, x: string)
    ensures x in ArgMap(a.args) <==> !Omits(a.args, x)
    ensures x in ArgMap(a.args) ==> forall given :: Gives(a, x, given) <==> given == ArgMap(a.args)[x]
  {
    if Omits(a.args, x) {
      ArgMapNone(a.args, x);
    } else {
      var given := GivesOrOmits(a, x);
      forall v | Gives(a, x, v) ensures x in ArgMap(a.args) && v == ArgMap(a.args)[x] {
        var i :| LastOf(a.args, x, i) && v == a.args[i].arg;
        ArgMapLast(a.args, x, i);
      }
    }
  }

  /** Evaluation in the scopes of the instances is what an argument stands for. */
  lemma {:induction false} ValueInScript(arg: Arg, script: string, insts: seq<Actor>, defined: Values, value: Arg)
    ensures Eval(ReplaceArg(arg, defined), ReplaceInScopes(InScript(script, insts), defined)) == value
       <==> StandsFor(arg, insts, defined, true, value)
    decreases |insts|
  {
    var scopes := ReplaceInScopes(InScript(script, insts), defined);
    if arg.Id? && arg.ident !in defined {
      if insts == [] {
        assert Eval(arg, scopes[1..]) == arg;
      } else {
        var last, outer := insts[|insts| - 1], insts[..|insts| - 1];
        assert InScript(script, insts)[1..] == InScript(script, outer);
        assert scopes[1..] == ReplaceInScopes(InScript(script, outer), defined);
        assert scopes[0].env == ReplaceInEnv(ArgMap(last.args), defined);
        ArgMapGives(last, arg.ident);
        if Omits(last.args, arg.ident) {
          ValueInScript(arg, script, outer, defined, value);
        } else {
          var given := ArgMap(last.args)[arg.ident];
          ValueInScript(given, script, outer, defined, value);
          assert Gives(last, arg.ident, given);
        }
      }
    }
  }

  ghost predicate ReplacedFrom(e: Block, blocks: seq<Block>, defined: Values) {
    exists d :: d in blocks && e == ReplaceBlock(d, defined)
  }

  lemma OneMoreReplaced(e: Block, front: seq<Block>, last: Block, defined: Values)
    ensures ReplacedFrom(e, front + [last], defined) <==>
              ReplacedFrom(e, front, defined) || e == ReplaceBlock(last, defined)
  {
    hide ReplaceBlock;
    if ReplacedFrom(e, front, defined) {
      var d :| d in front && e == ReplaceBlock(d, defined);
      assert d in front + [last];
    }
    assert last in front + [last];
  }

  lemma {:induction false} InReplaceBlocks(e: Block, blocks: seq<Block>, defined: Values)
    ensures e in ReplaceBlocks(blocks, defined) <==> ReplacedFrom(e, blocks, defined)
    decreases blocks
  {
    hide ReplaceBlock;
    if blocks != [] {
      var front, last := blocks[..|blocks| - 1], blocks[|blocks| - 1];
      InReplaceBlocks(e, front, defined);
      OneMoreReplaced(e, front, last, defined);
      assert blocks == front + [last];
      assert ReplaceBlocks(blocks, defined) == ReplaceBlocks(front, defined) + [ReplaceBlock(last, defined)];
    }
  }

  lemma ReplacedIs(b: Block, defined: Values)
    ensures var r := ReplaceBlock(b, defined); r.ns == b.ns && r.args == ReplaceInEnv(b.args, defined) &&
                                               r.blocks == ReplaceBlocks(b.blocks, defined)
  {
  }

  lemma {:induction false} FindReplaced(b: Block, defined: Values, scopes': seq<Scope>, c': Block)
      returns (scopes: seq<Scope>, c: Block)
    requires Within(ReplaceBlock(b, defined), scopes', c')
    ensures Within(b, scopes, c) && scopes' == ReplaceInScopes(scopes, defined) && c' == ReplaceBlock(c, defined)
    decreases |scopes'|
  {
    hide ReplaceBlock, ReplaceInEnv;
    if scopes' == [] {
      scopes, c := [], b;
    } else {
      hide ReplaceInScopes;
      var k := |scopes'| - 1;
      var d' :| d' in ReplaceBlock(b, defined).blocks && Scope(d'.ns, d'.args) == scopes'[k] &&
        Within(d', scopes'[..k], c');
      var d := BlockReplaced(b, defined, d');
      scopes, c := FindReplaced(d, defined, scopes'[..k], c');
      WithinOneMore(b, d, scopes, c);
      OneMoreScope(scopes', scopes, defined, Scope(d.ns, d.args));
      scopes := scopes + [Scope(d.ns, d.args)];
    }
  }

  lemma BlockReplaced(b: Block, defined: Values, d': Block) returns (d: Block)
    requires d' in ReplaceBlock(b, defined).blocks
    ensures d in b.blocks && d' == ReplaceBlock(d, defined)
    ensures d'.ns == d.ns && d'.args == ReplaceInEnv(d.args, defined)
  {
    ReplacedIs(b, defined);
    InReplaceBlocks(d', b.blocks, defined);
    d :| d in b.blocks && d' == ReplaceBlock(d, defined);
    ReplacedIs(d, defined);
  }

  lemma OneMoreScope(scopes': seq<Scope>, scopes: seq<Scope>, defined: Values, s: Scope)
    requires scopes' != [] && scopes'[..|scopes'| - 1] == ReplaceInScopes(scopes, defined)
    requires scopes'[|scopes'| - 1] == Scope(s.ns, ReplaceInEnv(s.env, defined))
    ensures scopes' == ReplaceInScopes(scopes + [s], defined)
  {
    assert scopes' == scopes'[..|scopes'| - 1] + [scopes'[|scopes'| - 1]];
  }

  lemma {:induction false} WithinReplaced(b: Block, defined: Values, scopes: seq<Scope>, c: Block)
    requires Within(b, scopes, c)
    ensures Within(ReplaceBlock(b, defined), ReplaceInScopes(scopes, defined), ReplaceBlock(c, defined))
    decreases |scopes|
  {
    if scopes != [] {
      var k := |scopes| - 1;
      var d :| d in b.blocks && Scope(d.ns, d.args) == scopes[k] && Within(d, scopes[..k], c);
      WithinReplaced(d, defined, scopes[..k], c);
      InReplaceBlocks(ReplaceBlock(d, defined), b.blocks, defined);
      assert ReplaceInScopes(scopes, defined)[..k] == ReplaceInScopes(scopes[..k], defined);
    }
  }

  /** The components can be expanded, and nothing is nested before. */
  ghost predicate Expandable(main: Block, defs: Definitions, rank: map<string, nat>, depth: nat) {
    Acyclic(defs, rank) && Flat(defs) && main.blocks == [] && main.args == map[] && Below(main, defs, rank, depth)
  }

  /** The graph before it is flattened. */
  ghost function Tree(script: string, main: Block, defs: Definitions, depth: nat): Block {
    Compile.Script(script, Full(main, defs, depth))
  }

  lemma FindInScript(script: string, main: Block, defs: Definitions, rank: map<string, nat>, depth: nat,
                     scopes: seq<Scope>, c: Block) returns (insts: seq<Actor>)
    requires Expandable(main, defs, rank, depth) && Within(Tree(script, main, defs, depth), scopes, c) && scopes != []
    ensures Chain(main, defs, insts) && scopes == InScript(script, insts) && Mirrors(c, Inside(main, defs, insts), defs)
  {
    var k, main' := |scopes| - 1, main.(ns := script);
    assert Full(main, defs, depth).(ns := script) == Full(main', defs, depth);
    assert Within(Full(main', defs, depth), scopes[..k], c) && scopes[k] == Scope(script, map[]);
    insts := FindChain(main', defs, rank, depth, scopes[..k], c);
    SameInside(main, main', defs, insts);
  }

  lemma FollowInScript(script: string, main: Block, defs: Definitions, rank: map<string, nat>, depth: nat,
                       insts: seq<Actor>) returns (c: Block)
    requires Expandable(main, defs, rank, depth) && Chain(main, defs, insts)
    ensures Within(Tree(script, main, defs, depth), InScript(script, insts), c)
    ensures Mirrors(c, Inside(main, defs, insts), defs)
  {
    var main' := main.(ns := script);
    SameInside(main, main', defs, insts);
    c := FollowChain(main', defs, rank, depth, insts);
    assert Full(main, defs, depth).(ns := script) == Full(main', defs, depth);
    WithinOneMore(Tree(script, main, defs, depth), Full(main', defs, depth), ScopesOf(insts), c);
  }

  lemma FlatOfActor(flat: Actor, script: string, insts: seq<Actor>, a: Actor, defined: Values)
    ensures flat == InScope(ReplaceActor(a, defined), ReplaceInScopes(InScript(script, insts), defined))
       <==> FlatOf(flat, script, insts, a, defined, true)
  {
    var scopes := ReplaceInScopes(InScript(script, insts), defined);
    var made := InScope(ReplaceActor(a, defined), scopes);
    NamesKept(InScript(script, insts), defined, a.ident);
    NameInScript(script, insts, a.ident);
    forall i | 0 <= i < |a.args| && |flat.args| == |a.args|
      ensures made.args[i].arg == flat.args[i].arg <==>
                StandsFor(a.args[i].arg, insts, defined, true, flat.args[i].arg)
    {
      ValueInScript(a.args[i].arg, script, insts, defined, flat.args[i].arg);
    }
    assert |flat.args| == |a.args| && (forall i :: 0 <= i < |a.args| ==> made.args[i] == flat.args[i]) ==>
             made.args == flat.args;
  }

  /** The flat actors are those that occur in the script, with the values their arguments stand for. */
  lemma FlatActorsOccur(script: string, main: Block, defs: Definitions, rank: map<string, nat>, depth: nat,
                        defined: Values, flat: Actor)
    requires Expandable(main, defs, rank, depth)
    ensures flat in Lexical(ReplaceBlock(Tree(script, main, defs, depth), defined), [])
       <==> IsFlat(flat, script, main, defs, defined, true)
  {
    hide Expandable, ReplaceBlock, ReplaceInScopes, InScript, FlatOf, Lexical, Tree, ReplaceActor, InScope;
    var tree := Tree(script, main, defs, depth);
    if flat in Lexical(ReplaceBlock(tree, defined), []) {
      var scopes', c', a' := FindInTree(flat, ReplaceBlock(tree, defined), []);
      var scopes, c := FindReplaced(tree, defined, scopes', c');
      assert scopes' + [] == scopes';
      var a := Unreplaced(c, defined, a');
      NothingAtTop(script, main, defs, depth, c, scopes);
      var insts := FindInScript(script, main, defs, rank, depth, scopes, c);
      FlatOfActor(flat, script, insts, a, defined);
      assert Occurs(main, defs, insts, a);
    }
    if insts, a :| Occurs(main, defs, insts, a) && FlatOf(flat, script, insts, a, defined, true) {
      var c := FollowInScript(script, main, defs, rank, depth, insts);
      var scopes := InScript(script, insts);
      WithinReplaced(tree, defined, scopes, c);
      ReplacedIn(c, defined, a);
      FlatOfActor(flat, script, insts, a, defined);
      TreeHas(ReplaceBlock(tree, defined), ReplaceInScopes(scopes, defined), ReplaceBlock(c, defined),
              ReplaceActor(a, defined), []);
      assert ReplaceInScopes(scopes, defined) + [] == ReplaceInScopes(scopes, defined);
    }
  }

  lemma Unreplaced(c: Block, defined: Values, a': Actor) returns (a: Actor)
    requires a' in ReplaceBlock(c, defined).actors
    ensures a in c.actors && a' == ReplaceActor(a, defined)
  {
    var i :| 0 <= i < |c.actors| && ReplaceBlock(c, defined).actors[i] == a';
    a := c.actors[i];
  }

  lemma ReplacedIn(c: Block, defined: Values, a: Actor)
    requires a in c.actors
    ensures ReplaceActor(a, defined) in ReplaceBlock(c, defined).actors
  {
    var i :| 0 <= i < |c.actors| && c.actors[i] == a;
    assert ReplaceBlock(c, defined).actors[i] == ReplaceActor(a, defined);
  }

  /** The script itself has no actors, only its main block has. */
  lemma NothingAtTop(script: string, main: Block, defs: Definitions, depth: nat, c: Block, scopes: seq<Scope>)
    requires Within(Tree(script, main, defs, depth), scopes, c) && c.actors != []
    ensures scopes != []
  {
  }

  /** What is reported as unknown for a block is what its chains lead to. */
  lemma UnknownIsUsed(b: Block, defs: Definitions, rank: map<string, nat>, depth: nat, known: set<string>, x: string)
    requires Acyclic(defs, rank) && Flat(defs) && b.blocks == [] && Below(b, defs, rank, depth)
    ensures x in Unknown(Full(b, defs, depth), known) <==> x !in known && Uses(b, defs, x)
  {
    hide Acyclic, Below, Full, Unknown;
    if x in Unknown(Full(b, defs, depth), known) {
      var scopes, c, a := FindUnknown(x, Full(b, defs, depth), known);
      var insts := FindChain(b, defs, rank, depth, scopes, c);
      assert Occurs(b, defs, insts, a);
    }
    if x !in known && Uses(b, defs, x) {
      var insts, a :| Occurs(b, defs, insts, a) && a.actorType == x;
      var c := FollowChain(b, defs, rank, depth, insts);
      IsUnknown(Full(b, defs, depth), ScopesOf(insts), c, a, known);
    }
  }

  /** Replacing constants does not change the types. */
  lemma UnknownReplaced(b: Block, defined: Values, known: set<string>)
    ensures Unknown(ReplaceBlock(b, defined), known) == Unknown(b, known)
  {
    hide ReplaceBlock, Unknown;
    forall x ensures x in Unknown(ReplaceBlock(b, defined), known) <==> x in Unknown(b, known) {
      if x in Unknown(ReplaceBlock(b, defined), known) {
        var scopes', c', a' := FindUnknown(x, ReplaceBlock(b, defined), known);
        var scopes, c := FindReplaced(b, defined, scopes', c');
        var a := Unreplaced(c, defined, a');
        IsUnknown(b, scopes, c, a, known);
      }
      if x in Unknown(b, known) {
        var scopes, c, a := FindUnknown(x, b, known);
        WithinReplaced(b, defined, scopes, c);
        ReplacedIn(c, defined, a);
        IsUnknown(ReplaceBlock(b, defined), ReplaceInScopes(scopes, defined), ReplaceBlock(c, defined),
                  ReplaceActor(a, defined), known);
      }
    }
  }
}
