/** The actors of a script where they are written: inside instances of components, which give values to the
    parameters. The flat graph has each of them once for every way to get there. */
module Occurrences {
  import opened GraphSyntax
  import opened Scoping
  import opened Constants
  import opened ComponentExpansion
  import opened ConstantTrees
  import Compile
  import Walks

  /** From the block into the first instance, from its definition into the next, and so on. */
  ghost predicate Chain(b: Block, defs: Definitions, insts: seq<Actor>)
    decreases |insts|
  {
    insts == [] ||
    (insts[0] in b.actors && insts[0].actorType in defs && Chain(defs[insts[0].actorType], defs, insts[1..]))
  }

  /** What is written where the chain ends. */
  ghost function Inside(b: Block, defs: Definitions, insts: seq<Actor>): Block
    requires Chain(b, defs, insts)
  {
    if insts == [] then b
    else
      LastIsDefined(b, defs, insts);
      defs[insts[|insts| - 1].actorType]
  }

  lemma {:induction false} LastIsDefined(b: Block, defs: Definitions, insts: seq<Actor>)
    requires Chain(b, defs, insts) && insts != []
    ensures insts[|insts| - 1].actorType in defs
    decreases |insts|
  {
    if |insts| > 1 {
      LastIsDefined(defs[insts[0].actorType], defs, insts[1..]);
    }
  }

  ghost predicate Occurs(b: Block, defs: Definitions, insts: seq<Actor>, a: Actor) {
    Chain(b, defs, insts) && a in Inside(b, defs, insts).actors && a.actorType !in defs
  }

  /** The instance gives the value to its parameter. */
  ghost predicate Gives(a: Actor, parameter: string, arg: Arg) {
    exists i :: LastOf(a.args, parameter, i) && arg == a.args[i].arg
  }

  /** The value of an argument that is written inside the instances. A name belongs to the innermost instance
      that gives it a value, and what is given there is written one level further out. Constants count before
      all parameters (`first`), or after them. */
  ghost predicate StandsFor(arg: Arg, insts: seq<Actor>, defined: Values, first: bool, value: Arg)
    decreases |insts|
  {
    if arg.Value? then value == arg
    else if arg.ident in defined && (first || insts == []) then value == Value(defined[arg.ident])
    else if insts == [] then value == arg
    else
      var last, outer := insts[|insts| - 1], insts[..|insts| - 1];
      if Omits(last.args, arg.ident) then StandsFor(arg, outer, defined, first, value)
      else exists given :: Gives(last, arg.ident, given) && StandsFor(given, outer, defined, first, value)
  }

  /** The names of the instances, each with a colon behind it. */
  ghost function Prefix(insts: seq<Actor>): string {
    if insts == [] then "" else Prefix(insts[..|insts| - 1]) + (insts[|insts| - 1].ident + ":")
  }

  ghost function NameIn(script: string, insts: seq<Actor>, ident: string): string {
    script + ":" + Prefix(insts) + ident
  }

  /** The flat actor for the one that is written inside the instances. */
  ghost predicate FlatOf(flat: Actor, script: string, insts: seq<Actor>, a: Actor, defined: Values, first: bool) {
    && flat.ident == NameIn(script, insts, a.ident) && flat.actorType == a.actorType
    && |flat.args| == |a.args|
    && forall i :: 0 <= i < |a.args| ==>
         flat.args[i].ident == a.args[i].ident && StandsFor(a.args[i].arg, insts, defined, first, flat.args[i].arg)
  }

  ghost predicate IsFlat(flat: Actor, script: string, b: Block, defs: Definitions, defined: Values, first: bool) {
    exists insts, a :: Occurs(b, defs, insts, a) && FlatOf(flat, script, insts, a, defined, first)
  }

  /** A type is used where a chain leads. */
  ghost predicate Uses(b: Block, defs: Definitions, actorType: string) {
    exists insts, a :: Occurs(b, defs, insts, a) && a.actorType == actorType
  }

  /* ----- constants before parameters or after them ----- */

  /** A parameter with the name of a constant is given its value. */
  ghost predicate NothingHidden(b: Block, defs: Definitions, defined: Values) {
    forall insts, x, given :: Chain(b, defs, insts) && x in defined && Binds(insts, x, given) ==>
      StandsFor(given, insts[..|insts| - 1], defined, false, Value(defined[x]))
  }

  /** The innermost instance gives the value to its parameter. */
  ghost predicate Binds(insts: seq<Actor>, parameter: string, given: Arg) {
    insts != [] && Gives(insts[|insts| - 1], parameter, given)
  }

  ghost predicate SameEitherWay(b: Block, defs: Definitions, defined: Values) {
    forall insts, arg, value :: Chain(b, defs, insts) ==>
      (StandsFor(arg, insts, defined, true, value) <==> StandsFor(arg, insts, defined, false, value))
  }

  lemma {:induction false} GivesOrOmits(a: Actor, x: string) returns (given: Arg)
    ensures Omits(a.args, x) || Gives(a, x, given)
  {
    var i := |a.args|;
    given := Id(x);
    while i > 0
      invariant 0 <= i <= |a.args|
      invariant forall j :: i <= j < |a.args| ==> a.args[j].ident != x
    {
      if a.args[i - 1].ident == x {
        given := a.args[i - 1].arg;
        assert LastOf(a.args, x, i - 1);
        return;
      }
      i := i - 1;
    }
  }

  lemma GivesOnce(a: Actor, x: string, v: Arg, w: Arg)
    requires Gives(a, x, v) && Gives(a, x, w)
    ensures v == w && !Omits(a.args, x)
  {
  }

  lemma {:induction false} ChainPrefix(b: Block, defs: Definitions, insts: seq<Actor>)
    requires Chain(b, defs, insts) && insts != []
    ensures Chain(b, defs, insts[..|insts| - 1])
    decreases |insts|
  {
    if |insts| > 1 {
      ChainPrefix(defs[insts[0].actorType], defs, insts[1..]);
      assert insts[..|insts| - 1][1..] == insts[1..][..|insts| - 2];
    }
  }

  lemma {:induction false} OneValue(arg: Arg, insts: seq<Actor>, defined: Values, first: bool, v: Arg, w: Arg)
    requires StandsFor(arg, insts, defined, first, v) && StandsFor(arg, insts, defined, first, w)
    ensures v == w
    decreases |insts|
  {
    if arg.Id? && insts != [] && !(arg.ident in defined && first) {
      var last, outer := insts[|insts| - 1], insts[..|insts| - 1];
      if Omits(last.args, arg.ident) {
        OneValue(arg, outer, defined, first, v, w);
      } else {
        var g :| Gives(last, arg.ident, g) && StandsFor(g, outer, defined, first, v);
        var h :| Gives(last, arg.ident, h) && StandsFor(h, outer, defined, first, w);
        GivesOnce(last, arg.ident, g, h);
        OneValue(g, outer, defined, first, v, w);
      }
    }
  }

  /** If nothing is hidden, a name of a constant stands for the constant everywhere. */
  lemma {:induction false} ConstantEverywhere(b: Block, defs: Definitions, defined: Values, insts: seq<Actor>,
                                              x: string)
    requires NothingHidden(b, defs, defined) && Chain(b, defs, insts) && x in defined
    ensures StandsFor(Id(x), insts, defined, false, Value(defined[x]))
    decreases |insts|
  {
    if insts != [] {
      var last, outer := insts[|insts| - 1], insts[..|insts| - 1];
      ChainPrefix(b, defs, insts);
      var given := GivesOrOmits(last, x);
      if Omits(last.args, x) {
        ConstantEverywhere(b, defs, defined, outer, x);
      } else {
        assert Binds(insts, x, given);
        assert StandsFor(given, outer, defined, false, Value(defined[x]));
      }
    }
  }

  lemma {:induction false} SameIfNothingHidden(b: Block, defs: Definitions, defined: Values, insts: seq<Actor>,
                                               arg: Arg, value: Arg)
    requires NothingHidden(b, defs, defined) && Chain(b, defs, insts)
    ensures StandsFor(arg, insts, defined, true, value) <==> StandsFor(arg, insts, defined, false, value)
    decreases |insts|
  {
    if arg.Id? && arg.ident in defined {
      ConstantEverywhere(b, defs, defined, insts, arg.ident);
      if StandsFor(arg, insts, defined, false, value) {
        OneValue(arg, insts, defined, false, value, Value(defined[arg.ident]));
      }
    } else if arg.Id? && insts != [] {
      hide NothingHidden;
      var last, outer := insts[|insts| - 1], insts[..|insts| - 1];
      ChainPrefix(b, defs, insts);
      SameIfNothingHidden(b, defs, defined, outer, arg, value);
      forall given | Gives(last, arg.ident, given)
        ensures StandsFor(given, outer, defined, true, value) <==> StandsFor(given, outer, defined, false, value)
      {
        SameIfNothingHidden(b, defs, defined, outer, given, value);
      }
    }
  }

  /** Looking up constants first and looking them up last comes to the same everywhere in the script if and
      only if no constant hides a parameter of another value. */
  lemma EitherWayExactly(b: Block, defs: Definitions, defined: Values)
    ensures SameEitherWay(b, defs, defined) <==> NothingHidden(b, defs, defined)
  {
    if NothingHidden(b, defs, defined) {
      forall insts, arg, value | Chain(b, defs, insts)
        ensures StandsFor(arg, insts, defined, true, value) <==> StandsFor(arg, insts, defined, false, value)
      {
        SameIfNothingHidden(b, defs, defined, insts, arg, value);
      }
    }
    if SameEitherWay(b, defs, defined) {
      forall insts, x, given | Chain(b, defs, insts) && x in defined && Binds(insts, x, given)
        ensures StandsFor(given, insts[..|insts| - 1], defined, false, Value(defined[x]))
      {
        assert StandsFor(Id(x), insts, defined, true, Value(defined[x]));
        assert StandsFor(Id(x), insts, defined, false, Value(defined[x]));
        var last: Actor := insts[|insts| - 1];
        var g: Arg :| !Omits(last.args, x) ==>
          Gives(last, x, g) && StandsFor(g, insts[..|insts| - 1], defined, false, Value(defined[x]));
        GivesOnce(last, x, given, given);
        GivesOnce(last, x, given, g);
      }
    }
  }

  lemma FlatEitherWay(flat: Actor, script: string, b: Block, defs: Definitions, defined: Values)
    requires NothingHidden(b, defs, defined)
    ensures IsFlat(flat, script, b, defs, defined, true) <==> IsFlat(flat, script, b, defs, defined, false)
  {
    forall insts, a | Occurs(b, defs, insts, a)
      ensures FlatOf(flat, script, insts, a, defined, true) <==> FlatOf(flat, script, insts, a, defined, false)
    {
      forall i | 0 <= i < |a.args| && |flat.args| == |a.args|
        ensures StandsFor(a.args[i].arg, insts, defined, true, flat.args[i].arg)
           <==> StandsFor(a.args[i].arg, insts, defined, false, flat.args[i].arg)
      {
        SameIfNothingHidden(b, defs, defined, insts, a.args[i].arg, flat.args[i].arg);
      }
    }
  }
}
