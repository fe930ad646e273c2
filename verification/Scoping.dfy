/** What Flatten does to the actors: names grow by one prefix per level, and arguments
    that are identifiers are looked up in the arguments of each block they leave. */
module Scoping {
  import opened GraphSyntax

  function LiftArg(env: map<string, Arg>, a: Arg): Arg {
    if a.Id? && a.ident in env then env[a.ident] else a
  }

  function LiftArgs(env: map<string, Arg>, args: seq<NamedArg>): seq<NamedArg> {
    seq(|args|, i requires 0 <= i < |args| => NamedArg(args[i].ident, LiftArg(env, args[i].arg)))
  }

  /** The actor a of the block b seen from the block around b. */
  function LiftActor(ns: string, env: map<string, Arg>, a: Actor): Actor {
    Actor(ns + ":" + a.ident, a.actorType, LiftArgs(env, a.args))
  }

  function LiftActors(ns: string, env: map<string, Arg>, actors: seq<Actor>): seq<Actor> {
    if actors == [] then [] else [LiftActor(ns, env, actors[0])] + LiftActors(ns, env, actors[1..])
  }

  /** The actors of a block after all its nested blocks have been dissolved, in order. */
  function FlatActors(b: Block): seq<Actor>
    decreases b, 1
  {
    b.actors + Dissolved(b.blocks)
  }

  function Dissolved(blocks: seq<Block>): seq<Actor>
    decreases blocks
  {
    if blocks == [] then []
    else LiftActors(blocks[0].ns, blocks[0].args, FlatActors(blocks[0])) + Dissolved(blocks[1..])
  }

  /* ----- the reference: paths and lexical scoping ----- */

  /** One enclosing block; scopes are listed from the inside out. */
  datatype Scope = Scope(ns: string, env: map<string, Arg>)

  /** The names of the enclosing blocks, outermost first, joined by ':'. */
  function Path(scopes: seq<Scope>): string
    requires scopes != []
  {
    if |scopes| == 1 then scopes[0].ns else Path(scopes[1..]) + ":" + scopes[0].ns
  }

  function FullName(scopes: seq<Scope>, ident: string): string {
    if scopes == [] then ident else Path(scopes) + ":" + ident
  }

  /** The value of an argument in nested environments: the innermost binding counts, and
      an identifier it is bound to belongs to the scopes further out. */
  function Eval(a: Arg, scopes: seq<Scope>): Arg
    decreases |scopes|
  {
    if a.Value? || scopes == [] then a
    else if a.ident in scopes[0].env then Eval(scopes[0].env[a.ident], scopes[1..])
    else Eval(a, scopes[1..])
  }

  function InScope(a: Actor, scopes: seq<Scope>): Actor {
    Actor(FullName(scopes, a.ident), a.actorType,
          seq(|a.args|, i requires 0 <= i < |a.args| => NamedArg(a.args[i].ident, Eval(a.args[i].arg, scopes))))
  }

  function AllInScope(actors: seq<Actor>, scopes: seq<Scope>): seq<Actor> {
    if actors == [] then [] else [InScope(actors[0], scopes)] + AllInScope(actors[1..], scopes)
  }

  /** All actors of the tree in depth-first order, with their full names and argument values. */
  function Lexical(b: Block, scopes: seq<Scope>): seq<Actor>
    decreases b, 1
  {
    AllInScope(b.actors, scopes) + LexicalAll(b.blocks, scopes)
  }

  function LexicalAll(blocks: seq<Block>, scopes: seq<Scope>): seq<Actor>
    decreases blocks
  {
    if blocks == [] then []
    else Lexical(blocks[0], [Scope(blocks[0].ns, blocks[0].args)] + scopes) + LexicalAll(blocks[1..], scopes)
  }

  /* ----- level by level = lexical ----- */

  lemma {:induction false} FullNameOutward(ns: string, env: map<string, Arg>, scopes: seq<Scope>, ident: string)
    ensures FullName([Scope(ns, env)] + scopes, ident) == FullName(scopes, ns + ":" + ident)
  {
    assert ([Scope(ns, env)] + scopes)[1..] == scopes;
    if scopes != [] {
      assert (Path(scopes) + ":" + ns) + ":" + ident == Path(scopes) + ":" + (ns + ":" + ident);
    }
  }

  lemma InScopeOutward(ns: string, env: map<string, Arg>, scopes: seq<Scope>, a: Actor)
    ensures InScope(LiftActor(ns, env, a), scopes) == InScope(a, [Scope(ns, env)] + scopes)
  {
    FullNameOutward(ns, env, scopes, a.ident);
    assert ([Scope(ns, env)] + scopes)[1..] == scopes;
  }

  lemma {:induction false} AllInScopeOutward(ns: string, env: map<string, Arg>, scopes: seq<Scope>, actors: seq<Actor>)
    ensures AllInScope(LiftActors(ns, env, actors), scopes) == AllInScope(actors, [Scope(ns, env)] + scopes)
  {
    if actors != [] {
      InScopeOutward(ns, env, scopes, actors[0]);
      AllInScopeOutward(ns, env, scopes, actors[1..]);
      assert LiftActors(ns, env, actors)[1..] == LiftActors(ns, env, actors[1..]);
    }
  }

  lemma {:induction false} AllInScopeConcat(a: seq<Actor>, b: seq<Actor>, scopes: seq<Scope>)
    ensures AllInScope(a + b, scopes) == AllInScope(a, scopes) + AllInScope(b, scopes)
  {
    if a == [] {
      assert a + b == b;
    } else {
      assert (a + b)[1..] == a[1..] + b;
      AllInScopeConcat(a[1..], b, scopes);
    }
  }

  lemma {:induction false} AllInNoScope(actors: seq<Actor>)
    ensures AllInScope(actors, []) == actors
  {
    if actors != [] {
      AllInNoScope(actors[1..]);
      assert InScope(actors[0], []).args == actors[0].args;
    }
  }

  lemma {:induction false} FlatInScope(b: Block, scopes: seq<Scope>)
    ensures AllInScope(FlatActors(b), scopes) == Lexical(b, scopes)
    decreases b, 1
  {
    AllInScopeConcat(b.actors, Dissolved(b.blocks), scopes);
    DissolvedInScope(b.blocks, scopes);
  }

  lemma {:induction false} DissolvedInScope(blocks: seq<Block>, scopes: seq<Scope>)
    ensures AllInScope(Dissolved(blocks), scopes) == LexicalAll(blocks, scopes)
    decreases blocks
  {
    if blocks != [] {
      var c := blocks[0];
      AllInScopeConcat(LiftActors(c.ns, c.args, FlatActors(c)), Dissolved(blocks[1..]), scopes);
      AllInScopeOutward(c.ns, c.args, scopes, FlatActors(c));
      FlatInScope(c, [Scope(c.ns, c.args)] + scopes);
      DissolvedInScope(blocks[1..], scopes);
    }
  }

  /** Substituting arguments one level at a time is lexical scoping, and the prefixes add
      up to the ':'-joined path of each actor. */
  lemma FlatActorsAreLexical(b: Block)
    ensures FlatActors(b) == Lexical(b, [])
  {
    AllInNoScope(FlatActors(b));
    FlatInScope(b, []);
  }
}
