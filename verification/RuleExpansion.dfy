/** Replacing the names of rules by their definitions, in rounds. */
module RuleExpansion {
  import opened RuleCompiler

  ghost function Names(r: Rule): set<string> {
    match r
    case Pred(_) => {}
    case Named(name) => {name}
    case And(left, right) => Names(left) + Names(right)
    case Or(left, right) => Names(left) + Names(right)
    case Not(rule) => Names(rule)
  }

  function CountNames(r: Rule): nat {
    match r
    case Pred(_) => 0
    case Named(_) => 1
    case And(left, right) => CountNames(left) + CountNames(right)
    case Or(left, right) => CountNames(left) + CountNames(right)
    case Not(rule) => CountNames(rule)
  }

  /** Replace the names that have a definition. */
  function Subst(r: Rule, defs: map<string, Rule>): Rule {
    match r
    case Pred(_) => r
    case Named(name) => if name in defs then defs[name] else r
    case And(left, right) => And(Subst(left, defs), Subst(right, defs))
    case Or(left, right) => Or(Subst(left, defs), Subst(right, defs))
    case Not(rule) => Not(Subst(rule, defs))
  }

  ghost predicate NameFree(defs: map<string, Rule>) {
    forall x :: x in defs ==> Names(defs[x]) == {}
  }

  predicate HasReplaceable(r: Rule, defs: map<string, Rule>) {
    match r
    case Pred(_) => false
    case Named(name) => name in defs
    case And(left, right) => HasReplaceable(left, defs) || HasReplaceable(right, defs)
    case Or(left, right) => HasReplaceable(left, defs) || HasReplaceable(right, defs)
    case Not(rule) => HasReplaceable(rule, defs)
  }

  lemma {:induction false} ReplaceableIsNamed(r: Rule, defs: map<string, Rule>)
    ensures HasReplaceable(r, defs) <==> exists y :: y in Names(r) && y in defs
  {
    match r
    case Pred(_) =>
    case Named(name) => assert name in Names(r);
    case And(left, right) => ReplaceableIsNamed(left, defs); ReplaceableIsNamed(right, defs);
    case Or(left, right) => ReplaceableIsNamed(left, defs); ReplaceableIsNamed(right, defs);
    case Not(rule) => ReplaceableIsNamed(rule, defs);
  }

  lemma {:induction false} CountIsZero(r: Rule)
    ensures CountNames(r) == 0 <==> Names(r) == {}
  {
    match r
    case Pred(_) =>
    case Named(_) =>
    case And(left, right) => CountIsZero(left); CountIsZero(right);
    case Or(left, right) => CountIsZero(left); CountIsZero(right);
    case Not(rule) => CountIsZero(rule);
  }

  lemma {:induction false} SubstNames(r: Rule, defs: map<string, Rule>)
    requires NameFree(defs)
    ensures Names(Subst(r, defs)) == Names(r) - defs.Keys
    ensures if HasReplaceable(r, defs) then CountNames(Subst(r, defs)) < CountNames(r) else Subst(r, defs) == r
  {
    match r
    case Pred(_) =>
    case Named(name) =>
      if name in defs {
        CountIsZero(defs[name]);
      }
    case And(left, right) => SubstNames(left, defs); SubstNames(right, defs);
    case Or(left, right) => SubstNames(left, defs); SubstNames(right, defs);
    case Not(rule) => SubstNames(rule, defs);
  }

  ghost predicate Extends(defs: map<string, Rule>, defs': map<string, Rule>) {
    forall x :: x in defs ==> x in defs' && defs'[x] == defs[x]
  }

  /** Replacing in two steps is replacing in one. */
  lemma {:induction false} SubstTwice(r: Rule, defs: map<string, Rule>, defs': map<string, Rule>)
    requires NameFree(defs) && Extends(defs, defs')
    ensures Subst(Subst(r, defs), defs') == Subst(r, defs')
  {
    match r
    case Pred(_) =>
    case Named(name) =>
      if name in defs {
        SubstNameFree(defs[name], defs');
      }
    case And(left, right) => SubstTwice(left, defs, defs'); SubstTwice(right, defs, defs');
    case Or(left, right) => SubstTwice(left, defs, defs'); SubstTwice(right, defs, defs');
    case Not(rule) => SubstTwice(rule, defs, defs');
  }

  lemma {:induction false} SubstNameFree(r: Rule, defs: map<string, Rule>)
    requires Names(r) !! defs.Keys
    ensures Subst(r, defs) == r
  {
    match r
    case Pred(_) =>
    case Named(name) => assert name in Names(r);
    case And(left, right) => SubstNameFree(left, defs); SubstNameFree(right, defs);
    case Or(left, right) => SubstNameFree(left, defs); SubstNameFree(right, defs);
    case Not(rule) => SubstNameFree(rule, defs);
  }

  lemma {:induction false} SubstExtends(r: Rule, defs: map<string, Rule>, defs': map<string, Rule>)
    requires Extends(defs, defs') && Names(r) <= defs.Keys
    ensures Subst(r, defs) == Subst(r, defs')
  {
    match r
    case Pred(_) =>
    case Named(_) =>
    case And(left, right) => SubstExtends(left, defs, defs'); SubstExtends(right, defs, defs');
    case Or(left, right) => SubstExtends(left, defs, defs'); SubstExtends(right, defs, defs');
    case Not(rule) => SubstExtends(rule, defs, defs');
  }

  /* ----- the reference: unfolding names as often as it takes ----- */

  function Unfold(r: Rule, defs: map<string, Rule>, depth: nat): Rule
    decreases depth, r
  {
    match r
    case Pred(_) => r
    case Named(name) => if name in defs && depth > 0 then Unfold(defs[name], defs, depth - 1) else r
    case And(left, right) => And(Unfold(left, defs, depth), Unfold(right, defs, depth))
    case Or(left, right) => Or(Unfold(left, defs, depth), Unfold(right, defs, depth))
    case Not(rule) => Not(Unfold(rule, defs, depth))
  }

  /** What a rule with names says about a runtime: a name says what its definition says. */
  ghost predicate Says(r: Rule, defs: map<string, Rule>, facts: Facts, depth: nat)
    decreases depth, r
  {
    match r
    case Pred(p) => p in facts
    case Named(name) => name in defs && depth > 0 && Says(defs[name], defs, facts, depth - 1)
    case And(left, right) => Says(left, defs, facts, depth) && Says(right, defs, facts, depth)
    case Or(left, right) => Says(left, defs, facts, depth) || Says(right, defs, facts, depth)
    case Not(rule) => !Says(rule, defs, facts, depth)
  }

  ghost predicate SaysTheSame(unfolded: Rule, r: Rule, defs: map<string, Rule>, depth: nat) {
    forall facts :: Sat(unfolded, facts) <==> Says(r, defs, facts, depth)
  }

  /** Unfolding keeps what the rule says. */
  lemma {:induction false} UnfoldSays(r: Rule, defs: map<string, Rule>, facts: Facts, depth: nat)
    ensures Sat(Unfold(r, defs, depth), facts) <==> Says(r, defs, facts, depth)
    decreases depth, r
  {
    match r
    case Pred(_) =>
    case Named(name) =>
      if name in defs && depth > 0 {
        UnfoldSays(defs[name], defs, facts, depth - 1);
      }
    case And(left, right) =>
      UnfoldSays(left, defs, facts, depth);
      UnfoldSays(right, defs, facts, depth);
    case Or(left, right) =>
      UnfoldSays(left, defs, facts, depth);
      UnfoldSays(right, defs, facts, depth);
    case Not(rule) => UnfoldSays(rule, defs, facts, depth);
  }

  lemma UnfoldSaysTheSame(r: Rule, defs: map<string, Rule>, depth: nat)
    ensures SaysTheSame(Unfold(r, defs, depth), r, defs, depth)
  {
    forall facts ensures Sat(Unfold(r, defs, depth), facts) <==> Says(r, defs, facts, depth) {
      UnfoldSays(r, defs, facts, depth);
    }
  }

  ghost predicate RefersTo(defs: map<string, Rule>, x: string, y: string) {
    x in defs && y in Names(defs[x])
  }

  /** What has been expanded refers only to what was expanded before, and holds the result
      of replacing every name. */
  ghost predicate Grounded(defs: map<string, Rule>, expanded: map<string, Rule>, rank: map<string, nat>) {
    && NameFree(expanded) && expanded.Keys == rank.Keys && expanded.Keys <= defs.Keys
    && (forall x :: x in expanded ==> expanded[x] == Subst(defs[x], expanded))
    && (forall x, y :: x in expanded && RefersTo(defs, x, y) ==> y in expanded && rank[y] < rank[x])
  }

  lemma {:induction false} GroundedUnfolds(r: Rule, defs: map<string, Rule>, expanded: map<string, Rule>,
                                           rank: map<string, nat>, depth: nat)
    requires Grounded(defs, expanded, rank)
    requires forall x :: x in Names(r) && x in defs ==> x in expanded && rank[x] < depth
    ensures Subst(r, expanded) == Unfold(r, defs, depth)
    decreases depth, r
  {
    match r
    case Pred(_) =>
    case Named(name) =>
      assert name in Names(r);
      if name in defs {
        forall y | y in Names(defs[name]) ensures y in expanded && rank[y] < depth - 1 {
          assert RefersTo(defs, name, y);
        }
        GroundedUnfolds(defs[name], defs, expanded, rank, depth - 1);
      }
    case And(left, right) =>
      GroundedUnfolds(left, defs, expanded, rank, depth);
      GroundedUnfolds(right, defs, expanded, rank, depth);
    case Or(left, right) =>
      GroundedUnfolds(left, defs, expanded, rank, depth);
      GroundedUnfolds(right, defs, expanded, rank, depth);
    case Not(rule) =>
      GroundedUnfolds(rule, defs, expanded, rank, depth);
  }

  /** A chain of references. */
  ghost predicate Chain(defs: map<string, Rule>, path: seq<string>) {
    forall i :: 0 <= i < |path| - 1 ==> RefersTo(defs, path[i], path[i + 1])
  }

  lemma ChainSlice(defs: map<string, Rule>, path: seq<string>, a: nat, b: nat)
    requires Chain(defs, path) && a <= b <= |path|
    ensures Chain(defs, path[a..b])
  {
    var part := path[a..b];
    forall i | 0 <= i < |part| - 1 ensures RefersTo(defs, part[i], part[i + 1]) {
      assert part[i] == path[a + i] && part[i + 1] == path[a + i + 1];
    }
  }

  lemma {:induction false} ChainDescends(defs: map<string, Rule>, expanded: map<string, Rule>, rank: map<string, nat>,
                                         path: seq<string>)
    requires Grounded(defs, expanded, rank) && Chain(defs, path) && path != [] && path[0] in expanded
    ensures path[|path| - 1] in expanded
    ensures |path| > 1 ==> rank[path[|path| - 1]] < rank[path[0]]
  {
    if |path| > 1 {
      assert RefersTo(defs, path[0], path[1]);
      ChainSlice(defs, path, 1, |path|);
      ChainDescends(defs, expanded, rank, path[1..]);
    }
  }

  /** A rule that leads back to itself is never expanded, nor is one that leads to such a rule. */
  lemma CyclesAreNotExpanded(defs: map<string, Rule>, expanded: map<string, Rule>, rank: map<string, nat>,
                             path: seq<string>, k: nat)
    requires Grounded(defs, expanded, rank) && Chain(defs, path)
    requires k < |path| - 1 && path[k] == path[|path| - 1]
    ensures path[0] !in expanded
  {
    hide Grounded, Chain;
    var front, loop := path[..k + 1], path[k..];
    assert front[0] == path[0] && front[k] == path[k] == loop[0] && loop[|loop| - 1] == path[|path| - 1];
    if path[0] in expanded {
      ChainSlice(defs, path, 0, k + 1);
      assert path[0..k + 1] == front;
      ChainDescends(defs, expanded, rank, front);
      ChainSlice(defs, path, k, |path|);
      assert path[k..|path|] == loop;
      ChainDescends(defs, expanded, rank, loop);
    }
  }

  /** A rule body on its way from its definition to its expansion. */
  ghost predicate OnTheWay(body: Rule, definition: Rule, expanded: map<string, Rule>) {
    && Subst(body, expanded) == Subst(definition, expanded)
    && Names(body) <= Names(definition) <= Names(body) + expanded.Keys
  }

  lemma ReplacedOnTheWay(body: Rule, definition: Rule, expanded: map<string, Rule>)
    requires NameFree(expanded) && OnTheWay(body, definition, expanded)
    ensures OnTheWay(Subst(body, expanded), definition, expanded)
  {
    SubstTwice(body, expanded, expanded);
    SubstNames(body, expanded);
  }

  lemma OnTheWayExtends(body: Rule, definition: Rule, expanded: map<string, Rule>, expanded': map<string, Rule>)
    requires NameFree(expanded) && Extends(expanded, expanded') && OnTheWay(body, definition, expanded)
    ensures OnTheWay(body, definition, expanded')
  {
    SubstTwice(body, expanded, expanded');
    SubstTwice(definition, expanded, expanded');
  }

  /** A body without names joins the expanded rules. */
  lemma GroundedGrows(defs: map<string, Rule>, expanded: map<string, Rule>, rank: map<string, nat>, x: string,
                      body: Rule, top: nat)
    requires Grounded(defs, expanded, rank)
    requires x in defs && x !in expanded && Names(body) == {} && OnTheWay(body, defs[x], expanded)
    requires forall y :: RefersTo(defs, x, y) ==> y in rank && rank[y] < top
    ensures Grounded(defs, expanded[x := body], rank[x := top])
  {
    hide Subst, Names;
    var expanded', rank' := expanded[x := body], rank[x := top];
    assert Extends(expanded, expanded');
    SubstNameFree(body, expanded);
    forall y | y in expanded' ensures expanded'[y] == Subst(defs[y], expanded') {
      forall z | z in Names(defs[y]) ensures z in expanded {
        assert RefersTo(defs, y, z);
      }
      SubstExtends(defs[y], expanded, expanded');
    }
    forall y, z | y in expanded' && RefersTo(defs, y, z) ensures z in expanded' && rank'[z] < rank'[y] {
      assert z in expanded && z != x;
    }
  }
}
