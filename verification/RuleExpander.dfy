/** The pass that replaces the names of rules by their definitions, in rounds. */
module RuleExpander {
  import opened RuleCompiler
  import opened RuleExpansion
  import opened RuleRounds

  ghost function TotalNames(bodies: seq<Rule>): nat {
    if bodies == [] then 0 else CountNames(bodies[0]) + TotalNames(bodies[1..])
  }

  lemma {:induction false} TotalNamesUpdate(bodies: seq<Rule>, i: nat, body: Rule)
    requires i < |bodies|
    ensures TotalNames(bodies[i := body]) == TotalNames(bodies) - CountNames(bodies[i]) + CountNames(body)
  {
    if i == 0 {
      assert bodies[i := body][1..] == bodies[1..];
    } else {
      assert bodies[i := body][1..] == bodies[1..][i - 1 := body];
      TotalNamesUpdate(bodies[1..], i - 1, body);
    }
  }

  ghost function Start(rules: seq<Definition>): Work
    requires DistinctRules(rules)
  {
    Work(NamesOf(rules), Definitions(rules), BodiesOf(rules), seq(|rules|, i => i), map[], map[], 1, 0)
  }

  lemma StartShape(rules: seq<Definition>)
    requires DistinctRules(rules)
    ensures Shape(Start(rules))
    ensures forall i :: 0 <= i < |rules| ==> Start(rules).bodies[i] == Start(rules).defs[Start(rules).names[i]]
  {
    var w := Start(rules);
    assert forall i :: 0 <= i < |rules| ==>
             w.names[i] == rules[i].name && w.bodies[i] == rules[i].rule && w.unresolved[i] == i;
    forall i: nat | i < |rules| ensures i in w.unresolved {
      assert w.unresolved[i] == i;
    }
  }

  lemma StartMeaningful(rules: seq<Definition>)
    requires DistinctRules(rules) && Shape(Start(rules))
    ensures Meaningful(Start(rules))
  {
    var w := Start(rules);
    StartShape(rules);
    forall i: nat | i < |w.names| ensures OnTheWay(w.bodies[i], w.defs[w.names[i]], w.expanded) {
      assert w.bodies[i] == w.defs[w.names[i]];
    }
  }

  lemma StartTimely(rules: seq<Definition>)
    requires DistinctRules(rules) && Shape(Start(rules))
    ensures Timely(Start(rules)) && !Replacing(Start(rules))
  {
    var w := Start(rules);
    StartShape(rules);
    forall i, y | i in w.unresolved ensures Left(w, i, y) {
      assert w.bodies[i] == w.defs[w.names[i]];
    }
  }

  lemma StartProgress(rules: seq<Definition>)
    requires DistinctRules(rules)
    ensures Progress(Start(rules)) && !Replacing(Start(rules)) && AllNamed(NamesOf(rules), Definitions(rules))
  {
    StartShape(rules);
    StartMeaningful(rules);
    StartTimely(rules);
    forall y | y in Definitions(rules) ensures y in NamesOf(rules) {
      var i :| 0 <= i < |rules| && rules[i].name == y;
      assert NamesOf(rules)[i] == y;
    }
  }

  ghost function AfterVisit(w: Work, i: nat): Work
    requires i < |w.bodies| && i < |w.names|
  {
    if CountNames(w.bodies[i]) == 0 then Resolve(w, i) else Rewrite(w, i)
  }

  /** One visit keeps all that holds of the rounds, and has fewer names left if it replaced one. */
  lemma VisitStep(w: Work, i: nat)
    requires Progress(w) && NextUp(w, i)
    ensures i < |w.bodies| == |w.names| && Progress(AfterVisit(w, i))
    ensures Replacing(AfterVisit(w, i)) <==> Replacing(w) || HasReplaceable(w.bodies[i], w.expanded)
    ensures AfterVisit(w, i).bodies == w.bodies[i := Subst(w.bodies[i], w.expanded)]
    ensures TotalNames(AfterVisit(w, i).bodies) <= TotalNames(w.bodies)
    ensures HasReplaceable(w.bodies[i], w.expanded) ==> TotalNames(AfterVisit(w, i).bodies) < TotalNames(w.bodies)
  {
    var body := w.bodies[i];
    CountIsZero(body);
    SubstNames(body, w.expanded);
    TotalNamesUpdate(w.bodies, i, Subst(body, w.expanded));
    if CountNames(body) == 0 {
      SubstNameFree(body, w.expanded);
      ReplaceableIsNamed(body, w.expanded);
      ResolveStep(w, i);
      ResolveReplacing(w, i);
    } else {
      ReplacesNow(w, i);
      RewriteStep(w, i);
      RewriteReplacing(w, i);
    }
  }

  /** The visits of a round go through the definitions that are left, in order. */
  ghost predicate Visiting(w: Work, todo: seq<nat>, k: nat) {
    && k <= |todo| && Increasing(todo)
    && (forall m :: k <= m < |todo| ==> todo[m] in w.unresolved && w.next <= todo[m])
    && (forall i :: i in w.unresolved ==> i < w.next || i in todo[k..])
  }

  lemma VisitingStep(w: Work, todo: seq<nat>, k: nat)
    requires Progress(w) && Visiting(w, todo, k) && k < |todo|
    ensures NextUp(w, todo[k]) && todo[k] < |w.bodies| == |w.names|
    ensures Visiting(AfterVisit(w, todo[k]), todo, k + 1)
  {
    assert forall i :: i in todo[k..] ==> i == todo[k] || i in todo[k + 1..];
    assert forall i :: i in todo[k..] ==> todo[k] <= i;
  }

  lemma VisitingStarts(w: Work)
    requires Progress(w) && w.next == 0
    ensures Visiting(w, w.unresolved, 0)
  {
    assert w.unresolved[0..] == w.unresolved;
  }

  /** The rules that are reported are those that are not expanded, and the others are their
      definitions with all names unfolded. */
  ghost predicate Outcome(defs: map<string, Rule>, expanded: map<string, Rule>, turn: map<string, nat>, round: nat,
                          errors: seq<string>) {
    && Grounded(defs, expanded, turn)
    && (forall x :: x in errors <==> x in defs && x !in expanded)
    && (forall x, depth :: x in expanded && depth > round ==> expanded[x] == Unfold(defs[x], defs, depth))
  }

  lemma NoSchedule(w: Work)
    requires Progress(w) && RoundOver(w) && w.unresolved != [] && !Productive(w.names, w.defs, w.turn, w.round)
    ensures !Expandable(w.names, w.defs) && !DefinedBeforeUse(w.names, w.defs)
    ensures forall k :: 0 <= k < |w.unresolved| ==> w.unresolved[k] < |w.names|
  {
    GivingUp(w);
    if DefinedBeforeUse(w.names, w.defs) {
      InOrderNeverGivesUp(w);
    }
    forall k | 0 <= k < |w.unresolved| ensures w.unresolved[k] < |w.names| {
      assert w.unresolved[k] in w.unresolved;
    }
  }

  lemma LeftOver(w: Work, errors: seq<string>)
    requires Progress(w) && AllNamed(w.names, w.defs) && |errors| == |w.unresolved|
    requires forall k :: 0 <= k < |errors| ==> w.unresolved[k] < |w.names| && errors[k] == w.names[w.unresolved[k]]
    ensures Outcome(w.defs, w.expanded, w.turn, w.round, errors)
  {
    forall x | x in errors ensures x in w.defs && x !in w.expanded {
      var k :| 0 <= k < |errors| && errors[k] == x;
      assert w.unresolved[k] in w.unresolved;
    }
    forall x | x in w.defs && x !in w.expanded ensures x in errors {
      var i: nat :| i < |w.names| && w.names[i] == x;
      assert i in w.unresolved;
      var k :| 0 <= k < |w.unresolved| && w.unresolved[k] == i;
      assert errors[k] == x;
    }
    forall x, depth | x in w.expanded && depth > w.round ensures w.expanded[x] == Unfold(w.defs[x], w.defs, depth) {
      ExpandedUnfolds(w, x, depth);
    }
  }

  /** An expanded rule is its definition with all names unfolded. */
  lemma ExpandedUnfolds(w: Work, x: string, depth: nat)
    requires Progress(w) && x in w.expanded && depth > w.round
    ensures Names(w.expanded[x]) == {} && w.expanded[x] == Unfold(w.defs[x], w.defs, depth)
  {
    forall y | y in Names(w.defs[x]) ensures y in w.expanded && w.turn[y] < depth {
      assert RefersTo(w.defs, x, y);
    }
    GroundedUnfolds(w.defs[x], w.defs, w.expanded, w.turn, depth);
  }

  /** Once all rules are expanded, replacing names in any rule unfolds it. */
  lemma AppliedUnfolds(w: Work, r: Rule, depth: nat)
    requires Progress(w) && AllNamed(w.names, w.defs) && w.unresolved == [] && depth > w.round
    ensures Subst(r, w.expanded) == Unfold(r, w.defs, depth)
  {
    forall x | x in Names(r) && x in w.defs ensures x in w.expanded && w.turn[x] < depth {
      var i: nat :| i < |w.names| && w.names[i] == x;
      assert i !in w.unresolved;
    }
    GroundedUnfolds(r, w.defs, w.expanded, w.turn, depth);
  }

  class ExpandRules {
    /** The names of the rule definitions, and their bodies, which are rewritten in place. */
    const names: seq<string>
    var bodies: seq<Rule>
    /** The rules that are applied to actors. */
    var applied: seq<Rule>
    var expandedRules: map<string, Rule>
    /** Positions of the rules that are not known to be free of names yet. */
    var unresolved: seq<nat>
    /** The rules that could not be expanded. */
    var errors: seq<string>
    var replaced: bool
    var clean: bool
    /** The bodies as they were defined, the round in which each rule was expanded, the current
        round, and how far it has come. */
    ghost const defs: map<string, Rule>
    ghost var turn: map<string, nat>
    ghost var round: nat
    ghost var next: nat

    constructor (rules: seq<Definition>, applied: seq<Rule>)
      requires DistinctRules(rules)
      ensures names == NamesOf(rules) && defs == Definitions(rules) && this.applied == applied
      ensures Valid() && round == 1 && next == 0
    {
      names, bodies, unresolved := NamesOf(rules), BodiesOf(rules), seq(|rules|, i => i);
      this.applied := applied;
      expandedRules, errors, replaced, clean := map[], [], false, false;
      defs, turn, round, next := Definitions(rules), map[], 1, 0;
      StartProgress(rules);
    }

    ghost function State(): Work
      reads this
    {
      Work(names, defs, bodies, unresolved, expandedRules, turn, round, next)
    }

    ghost predicate Valid()
      reads this
    {
      Progress(State()) && AllNamed(names, defs) && errors == []
    }

    /** Replace what can be replaced in a rule body, noting whether it had names at all
        and whether any was replaced. */
    method Visit(r: Rule) returns (r': Rule)
      modifies this`clean, this`replaced
      ensures r' == Subst(r, expandedRules)
      ensures clean == (old(clean) && CountNames(r) == 0)
      ensures replaced == (old(replaced) || HasReplaceable(r, expandedRules))
      decreases r
    {
      match r {
        case Pred(_) =>
          r' := r;
        case Named(name) =>
          clean := false;
          r' := r;
          if name in expandedRules {
            r' := expandedRules[name];
            replaced := true;
          }
        case And(left, right) =>
          var left' := Visit(left);
          var right' := Visit(right);
          r' := And(left', right');
        case Or(left, right) =>
          var left' := Visit(left);
          var right' := Visit(right);
          r' := Or(left', right');
        case Not(rule) =>
          var rule' := Visit(rule);
          r' := Not(rule');
      }
    }

    /** Visit one definition; if it held no name, its rule is expanded. */
    method ExpandRule(i: nat)
      requires i < |bodies| == |names|
      modifies this`bodies, this`clean, this`replaced, this`expandedRules, this`unresolved, this`turn, this`next
      ensures State() == AfterVisit(old(State()), i)
      ensures replaced == (old(replaced) || HasReplaceable(old(bodies)[i], old(expandedRules)))
    {
      CountIsZero(bodies[i]);
      clean := true;
      var body := Visit(bodies[i]);
      if clean {
        SubstNameFree(bodies[i], expandedRules);
        assert bodies == bodies[i := body];
        expandedRules, turn := expandedRules[names[i] := body], turn[names[i] := round];
        unresolved := Without(unresolved, i);
      }
      bodies := bodies[i := body];
      next := i + 1;
    }

    /** A visit within a round. */
    method ExpandNext(i: nat, ghost todo: seq<nat>, ghost k: nat)
      requires Valid() && replaced == Replacing(State()) && Visiting(State(), todo, k) && k < |todo| && i == todo[k]
      modifies this`bodies, this`clean, this`replaced, this`expandedRules, this`unresolved, this`turn, this`next
      ensures Valid() && replaced == Replacing(State()) && Visiting(State(), todo, k + 1)
      ensures TotalNames(bodies) <= TotalNames(old(bodies))
      ensures replaced && !old(replaced) ==> TotalNames(bodies) < TotalNames(old(bodies))
    {
      hide Progress, Visiting, AllNamed, NextUp, Replacing;
      VisitingStep(State(), todo, k);
      VisitStep(State(), i);
      ExpandRule(i);
    }

    /** Visit every unresolved definition once. */
    method Round()
      requires Valid() && next == 0 && !replaced
      modifies this`bodies, this`clean, this`replaced, this`expandedRules, this`unresolved, this`turn, this`next
      ensures Valid() && RoundOver(State())
      ensures replaced == Productive(names, defs, turn, round)
      ensures replaced ==> TotalNames(bodies) < TotalNames(old(bodies))
    {
      hide Progress, Productive, AllNamed, NextUp;
      var todo, k := unresolved, 0;
      VisitingStarts(State());
      while k < |todo|
        invariant Valid() && replaced == Replacing(State()) && Visiting(State(), todo, k)
        invariant TotalNames(bodies) <= TotalNames(old(bodies))
        invariant replaced ==> TotalNames(bodies) < TotalNames(old(bodies))
      {
        ExpandNext(todo[k], todo, k);
        k := k + 1;
      }
      ReplacingIsProductive(State());
    }

    method Advance()
      requires Valid() && RoundOver(State()) && Productive(names, defs, turn, round)
      modifies this`round, this`next
      ensures Valid() && next == 0
    {
      hide Progress, Productive, RoundOver, AllNamed, Replacing;
      ghost var w := State();
      NextRoundStep(w);
      round, next := round + 1, 0;
      assert State() == NextRound(w);
    }

    /** Rounds, until nothing is left over or nothing was replaced. */
    method Rounds()
      requires Valid() && next == 0
      modifies this`bodies, this`clean, this`replaced, this`expandedRules, this`unresolved, this`turn, this`next,
        this`round
      ensures Valid() && RoundOver(State())
      ensures unresolved == [] || !Productive(names, defs, turn, round)
    {
      hide Progress, Productive, RoundOver, AllNamed, Replacing;
      while true
        invariant Valid() && next == 0
        decreases TotalNames(bodies)
      {
        replaced := false;
        Round();
        if unresolved == [] {
          return;
        }
        if !replaced {
          return;
        }
        Advance();
      }
    }

    /** Report what is left over. */
    method GiveUp()
      requires Valid() && RoundOver(State()) && unresolved != [] && !Productive(names, defs, turn, round)
      modifies this`errors
      ensures errors != [] && !Expandable(names, defs) && !DefinedBeforeUse(names, defs)
      ensures Outcome(defs, expandedRules, turn, round, errors)
    {
      hide Progress, Productive, RoundOver, AllNamed, Expandable, DefinedBeforeUse, Outcome;
      NoSchedule(State());
      var k := 0;
      while k < |unresolved|
        invariant k <= |unresolved| && |errors| == k
        invariant forall m :: 0 <= m < k ==> errors[m] == names[unresolved[m]]
      {
        errors := errors + [names[unresolved[k]]];
        k := k + 1;
      }
      LeftOver(State(), errors);
    }

    /** The final pass over the rules that are applied. */
    method ApplyAll()
      modifies this`applied, this`clean, this`replaced
      ensures |applied| == |old(applied)|
      ensures forall i :: 0 <= i < |applied| ==> applied[i] == Subst(old(applied)[i], expandedRules)
    {
      var k := 0;
      while k < |applied|
        invariant 0 <= k <= |applied| == |old(applied)|
        invariant forall i :: k <= i < |applied| ==> applied[i] == old(applied)[i]
        invariant forall i :: 0 <= i < k ==> applied[i] == Subst(old(applied)[i], expandedRules)
      {
        clean := true;
        var rule := Visit(applied[k]);
        applied := applied[k := rule];
        k := k + 1;
      }
    }

    /** Expand all definitions, and with them the rules that are applied; or report every
        definition that cannot be expanded, and leave the applied rules alone. */
    method Process()
      requires Valid() && next == 0
      modifies this
      ensures Outcome(defs, expandedRules, turn, round, errors)
      ensures errors == [] <==> Expandable(names, defs)
      ensures DefinedBeforeUse(names, defs) ==> errors == []
      ensures errors != [] ==> applied == old(applied)
      ensures errors == [] ==> |applied| == |old(applied)|
      ensures errors == [] ==>
        forall i, depth :: 0 <= i < |applied| && depth > round ==> applied[i] == Unfold(old(applied)[i], defs, depth)
      ensures errors == [] ==> AllSayTheSame(applied, old(applied), defs, round)
      ensures DefinitionsSayTheSame(expandedRules, defs, round)
    {
      hide AllSayTheSame, DefinitionsSayTheSame;
      Rounds();
      if unresolved != [] {
        GiveUp();
        OutcomeSays(defs, expandedRules, turn, round, errors);
        return;
      }
      ghost var w := State();
      FinishedSchedule(w);
      LeftOver(w, errors);
      OutcomeSays(defs, expandedRules, turn, round, errors);
      forall r, depth | depth > round ensures Subst(r, expandedRules) == Unfold(r, defs, depth) {
        AppliedUnfolds(w, r, depth);
      }
      ApplyAll();
      UnfoldedSay(applied, old(applied), defs, round);
    }
  }

  /** Every rule says what the one it comes from says with names. */
  ghost predicate AllSayTheSame(now: seq<Rule>, before: seq<Rule>, defs: map<string, Rule>, round: nat) {
    |now| == |before| &&
    forall i, depth :: 0 <= i < |now| && depth > round ==> SaysTheSame(now[i], before[i], defs, depth)
  }

  lemma UnfoldedSay(now: seq<Rule>, before: seq<Rule>, defs: map<string, Rule>, round: nat)
    requires |now| == |before|
    requires forall i, depth :: 0 <= i < |now| && depth > round ==> now[i] == Unfold(before[i], defs, depth)
    ensures AllSayTheSame(now, before, defs, round)
  {
    forall i, depth | 0 <= i < |now| && depth > round ensures SaysTheSame(now[i], before[i], defs, depth) {
      UnfoldSaysTheSame(before[i], defs, depth);
    }
  }

  ghost predicate DefinitionsSayTheSame(expanded: map<string, Rule>, defs: map<string, Rule>, round: nat) {
    expanded.Keys <= defs.Keys &&
    forall x, depth :: x in expanded && depth > round ==> SaysTheSame(expanded[x], defs[x], defs, depth)
  }

  lemma OutcomeSays(defs: map<string, Rule>, expanded: map<string, Rule>, turn: map<string, nat>, round: nat,
                    errors: seq<string>)
    requires Outcome(defs, expanded, turn, round, errors)
    ensures DefinitionsSayTheSame(expanded, defs, round)
  {
    forall x, depth | x in expanded && depth > round ensures SaysTheSame(expanded[x], defs[x], defs, depth) {
      UnfoldSaysTheSame(defs[x], defs, depth);
    }
  }

  /** A rule may stand in front of the one it refers to and still be given up on: here the first
      round expands the second rule but replaces nothing. */
  lemma ForwardReferenceGivesUp(p: Predicate)
    ensures !Expandable(["first", "second"], map["first" := Named("second"), "second" := Pred(p)])
  {
    var names, defs := ["first", "second"], map["first" := Named("second"), "second" := Pred(p)];
    forall turn | Schedule(names, defs, turn) ensures !NoIdleRound(names, defs, turn) {
      assert OnTurn(names, defs, turn, 0) && OnTurn(names, defs, turn, 1);
      assert Refers(names, defs, 0, "second");
      assert ReplacedBefore(names, turn, 0, "second", turn["first"]);
      assert ReplacedIn(names, turn, 0, "second", 2);
      assert Productive(names, defs, turn, 2);
      assert LaterProductive(names, defs, turn, 1);
    }
  }
}
