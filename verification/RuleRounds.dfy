/** Expanding rules in rounds over the definitions that still hold names. */
module RuleRounds {
  import opened RuleCompiler
  import opened RuleExpansion

  datatype Definition = Definition(name: string, rule: Rule)

  ghost predicate DistinctRules(rules: seq<Definition>) {
    forall i, j :: 0 <= i < j < |rules| ==> rules[i].name != rules[j].name
  }

  function NamesOf(rules: seq<Definition>): seq<string> {
    seq(|rules|, i requires 0 <= i < |rules| => rules[i].name)
  }

  function BodiesOf(rules: seq<Definition>): seq<Rule> {
    seq(|rules|, i requires 0 <= i < |rules| => rules[i].rule)
  }

  ghost function Definitions(rules: seq<Definition>): (defs: map<string, Rule>)
    requires DistinctRules(rules)
    ensures forall i :: 0 <= i < |rules| ==> rules[i].name in defs && defs[rules[i].name] == rules[i].rule
  {
    map i | 0 <= i < |rules| :: rules[i].name := rules[i].rule
  }

  /* ----- when each rule is expanded ----- */

  /** Definition i holds the name y. */
  ghost predicate Refers(names: seq<string>, defs: map<string, Rule>, i: nat, y: string) {
    i < |names| && RefersTo(defs, names[i], y)
  }

  /** The round in which y is replaced in definition i, when rules are expanded in the given
      rounds: the same round if y stands in front of it, and the next one if not. */
  ghost function When(names: seq<string>, turn: map<string, nat>, i: nat, y: string): nat
    requires i <= |names| && y in turn
  {
    if y in names[..i] then turn[y] else turn[y] + 1
  }

  ghost predicate ReplacedBefore(names: seq<string>, turn: map<string, nat>, i: nat, y: string, round: nat) {
    i <= |names| && y in turn && When(names, turn, i, y) < round
  }

  ghost predicate ReplacedIn(names: seq<string>, turn: map<string, nat>, i: nat, y: string, round: nat) {
    i <= |names| && y in turn && When(names, turn, i, y) == round
  }

  /** Definition i is expanded in the first round that finds all its names replaced. */
  ghost predicate OnTurn(names: seq<string>, defs: map<string, Rule>, turn: map<string, nat>, i: nat)
    requires i < |names| && names[i] in turn
  {
    && turn[names[i]] >= 1
    && (forall y :: Refers(names, defs, i, y) ==> ReplacedBefore(names, turn, i, y, turn[names[i]]))
    && (turn[names[i]] == 1 ||
        exists y :: Refers(names, defs, i, y) && ReplacedIn(names, turn, i, y, turn[names[i]] - 1))
  }

  /** The round of every rule. There is one such map if every name that is used is defined and
      no rule leads back to itself, and none otherwise. */
  ghost predicate Schedule(names: seq<string>, defs: map<string, Rule>, turn: map<string, nat>) {
    && (forall y :: y in turn ==> y in names)
    && forall i :: 0 <= i < |names| ==> names[i] in turn && OnTurn(names, defs, turn, i)
  }

  /** Something is replaced in the round. */
  ghost predicate Productive(names: seq<string>, defs: map<string, Rule>, turn: map<string, nat>, round: nat) {
    exists i, y :: Refers(names, defs, i, y) && ReplacedIn(names, turn, i, y, round)
  }

  ghost predicate LaterProductive(names: seq<string>, defs: map<string, Rule>, turn: map<string, nat>, round: nat) {
    exists later :: later > round && Productive(names, defs, turn, later)
  }

  /** No round without replacement has one with a replacement after it. */
  ghost predicate NoIdleRound(names: seq<string>, defs: map<string, Rule>, turn: map<string, nat>) {
    forall round :: round >= 1 && LaterProductive(names, defs, turn, round) ==> Productive(names, defs, turn, round)
  }

  /** The rules for which the rounds come to an end with every rule expanded. */
  ghost predicate Expandable(names: seq<string>, defs: map<string, Rule>) {
    exists turn :: Schedule(names, defs, turn) && NoIdleRound(names, defs, turn)
  }

  ghost predicate AllNamed(names: seq<string>, defs: map<string, Rule>) {
    forall y :: y in defs ==> y in names
  }

  /** Every rule only refers to rules in front of it. */
  ghost predicate DefinedBeforeUse(names: seq<string>, defs: map<string, Rule>) {
    forall i: nat, y :: Refers(names, defs, i, y) ==> y in names[..i]
  }

  /* ----- the state of the rounds ----- */

  /** In the current round the definitions below `next` have been visited. */
  datatype Work = Work(
    names: seq<string>, defs: map<string, Rule>, bodies: seq<Rule>, unresolved: seq<nat>,
    expanded: map<string, Rule>, turn: map<string, nat>, round: nat, next: nat)

  ghost predicate Increasing(s: seq<nat>) {
    forall i, j :: 0 <= i < j < |s| ==> s[i] < s[j]
  }

  function Without(s: seq<nat>, x: nat): (r: seq<nat>)
    ensures forall y :: y in r <==> y in s && y != x
  {
    if s == [] then [] else (if s[0] == x then [] else [s[0]]) + Without(s[1..], x)
  }

  lemma {:induction false} WithoutIncreasing(s: seq<nat>, x: nat)
    requires Increasing(s)
    ensures Increasing(Without(s, x))
  {
    if s != [] {
      WithoutIncreasing(s[1..], x);
      forall k | 0 <= k < |Without(s[1..], x)| ensures s[0] < Without(s[1..], x)[k] {
        assert Without(s[1..], x)[k] in s[1..];
      }
    }
  }

  ghost predicate Shape(w: Work) {
    && |w.bodies| == |w.names| && Increasing(w.unresolved)
    && (forall i, j :: 0 <= i < j < |w.names| ==> w.names[i] != w.names[j])
    && (forall i :: 0 <= i < |w.names| ==> w.names[i] in w.defs)
    && (forall i :: i in w.unresolved ==> i < |w.names|)
    && (forall i :: 0 <= i < |w.names| ==> (i in w.unresolved <==> w.names[i] !in w.expanded))
  }

  /** How many rounds have visited definition i. */
  ghost function Visits(w: Work, i: nat): nat
    requires w.round >= 1
  {
    if i < w.next then w.round else w.round - 1
  }

  /** The body holds the names that were not replaced in any visit. */
  ghost predicate Left(w: Work, i: nat, y: string)
    requires w.round >= 1 && i < |w.bodies|
  {
    y in Names(w.bodies[i]) <==>
      Refers(w.names, w.defs, i, y) && !ReplacedBefore(w.names, w.turn, i, y, Visits(w, i) + 1)
  }

  /** The last visit found a name. */
  ghost predicate Held(w: Work, i: nat)
    requires w.round >= 1
  {
    Visits(w, i) >= 1 ==>
      exists y :: Refers(w.names, w.defs, i, y) && !ReplacedBefore(w.names, w.turn, i, y, Visits(w, i))
  }

  ghost predicate Timely(w: Work)
    requires Shape(w)
  {
    && w.round >= 1
    && w.turn.Keys == w.expanded.Keys
    && (forall y :: y in w.turn ==>
         1 <= w.turn[y] <= w.round && (w.turn[y] == w.round ==> w.next <= |w.names| && y in w.names[..w.next]))
    && (forall i, y :: i in w.unresolved ==> Left(w, i, y))
    && (forall i :: i in w.unresolved ==> Held(w, i))
    && (forall i :: 0 <= i < |w.names| && w.names[i] in w.turn ==> OnTurn(w.names, w.defs, w.turn, i))
    && (forall r :: 1 <= r < w.round ==> Productive(w.names, w.defs, w.turn, r))
  }

  ghost predicate Meaningful(w: Work)
    requires Shape(w)
  {
    && Grounded(w.defs, w.expanded, w.turn)
    && (forall i :: 0 <= i < |w.names| ==> OnTheWay(w.bodies[i], w.defs[w.names[i]], w.expanded))
  }

  ghost predicate Progress(w: Work) {
    Shape(w) && Timely(w) && Meaningful(w)
  }

  /* ----- one visit ----- */

  /** The definition that the round visits after `next`. */
  ghost predicate NextUp(w: Work, i: nat) {
    i in w.unresolved && w.next <= i && forall j :: j in w.unresolved ==> j < w.next || i <= j
  }

  /** What is expanded by now is replaced in this visit at the latest. */
  lemma ExpandedIsReplaced(w: Work, i: nat, y: string)
    requires Progress(w) && NextUp(w, i) && y in w.turn
    ensures When(w.names, w.turn, i, y) <= w.round
  {
    if w.turn[y] == w.round {
      var k :| 0 <= k < w.next && w.names[k] == y;
      assert w.names[..i][k] == y;
    }
  }

  /** A name of the body that can be replaced in this visit could not be replaced earlier. */
  lemma ReplacedNow(w: Work, i: nat, y: string)
    requires Progress(w) && NextUp(w, i)
    ensures y in Names(w.bodies[i]) && y in w.expanded <==>
              Refers(w.names, w.defs, i, y) && ReplacedIn(w.names, w.turn, i, y, w.round)
  {
    assert Left(w, i, y);
    if y in w.turn {
      ExpandedIsReplaced(w, i, y);
    }
  }

  /** Whether the visit replaces anything. */
  ghost predicate Replaces(w: Work, i: nat) {
    exists y :: Refers(w.names, w.defs, i, y) && ReplacedIn(w.names, w.turn, i, y, w.round)
  }

  lemma ReplacesNow(w: Work, i: nat)
    requires Progress(w) && NextUp(w, i)
    ensures HasReplaceable(w.bodies[i], w.expanded) <==> Replaces(w, i)
  {
    ReplaceableIsNamed(w.bodies[i], w.expanded);
    if y :| y in Names(w.bodies[i]) && y in w.expanded {
      ReplacedNow(w, i, y);
    }
    if y :| Refers(w.names, w.defs, i, y) && ReplacedIn(w.names, w.turn, i, y, w.round) {
      ReplacedNow(w, i, y);
    }
  }

  /** The visit finds a name in the body. */
  ghost function Rewrite(w: Work, i: nat): Work
    requires i < |w.bodies|
  {
    w.(bodies := w.bodies[i := Subst(w.bodies[i], w.expanded)], next := i + 1)
  }

  lemma RewriteLeft(w: Work, i: nat, j: nat, y: string)
    requires Progress(w) && NextUp(w, i) && j in w.unresolved
    ensures Left(Rewrite(w, i), j, y)
  {
    SubstNames(w.bodies[i], w.expanded);
    hide Meaningful, OnTurn, Held;
    assert Left(w, j, y);
    if j == i && y in w.turn {
      ExpandedIsReplaced(w, i, y);
    }
  }

  lemma RewriteHeld(w: Work, i: nat, j: nat)
    requires Progress(w) && NextUp(w, i) && Names(w.bodies[i]) != {} && j in w.unresolved
    ensures Held(Rewrite(w, i), j)
  {
    hide Meaningful, OnTurn;
    assert Held(w, j);
    if j == i {
      var y :| y in Names(w.bodies[i]);
      assert Left(w, i, y);
    }
  }

  lemma VisitedLonger(w: Work, i: nat, y: string)
    requires Progress(w) && NextUp(w, i) && y in w.turn && w.turn[y] == w.round
    ensures y in w.names[..i + 1]
  {
    var k :| 0 <= k < w.next && w.names[k] == y;
    assert w.names[..i + 1][k] == y;
  }

  lemma RewriteTimely(w: Work, i: nat)
    requires Progress(w) && NextUp(w, i) && Names(w.bodies[i]) != {}
    requires Shape(Rewrite(w, i))
    ensures Timely(Rewrite(w, i))
  {
    hide Meaningful, OnTurn, Left, Held;
    forall j, y | j in w.unresolved ensures Left(Rewrite(w, i), j, y) {
      RewriteLeft(w, i, j, y);
    }
    forall j | j in w.unresolved ensures Held(Rewrite(w, i), j) {
      RewriteHeld(w, i, j);
    }
    forall y | y in w.turn && w.turn[y] == w.round ensures y in w.names[..i + 1] {
      VisitedLonger(w, i, y);
    }
  }

  lemma RewriteStep(w: Work, i: nat)
    requires Progress(w) && NextUp(w, i) && Names(w.bodies[i]) != {}
    ensures Progress(Rewrite(w, i))
  {
    RewriteTimely(w, i);
    ReplacedOnTheWay(w.bodies[i], w.defs[w.names[i]], w.expanded);
  }

  /** The visit finds no name in the body: the rule is expanded. */
  ghost function Resolve(w: Work, i: nat): Work
    requires i < |w.bodies| && i < |w.names|
  {
    w.(next := i + 1, unresolved := Without(w.unresolved, i),
       expanded := w.expanded[w.names[i] := w.bodies[i]], turn := w.turn[w.names[i] := w.round])
  }

  /** The round of a rule does not depend on rules that are expanded later. */
  lemma OnTurnKeeps(names: seq<string>, defs: map<string, Rule>, turn: map<string, nat>, x: string, round: nat, j: nat)
    requires j < |names| && names[j] in turn && x !in turn && OnTurn(names, defs, turn, j)
    ensures OnTurn(names, defs, turn[x := round], j)
  {
    var turn' := turn[x := round];
    forall y | Refers(names, defs, j, y) ensures ReplacedBefore(names, turn', j, y, turn[names[j]]) {
      assert ReplacedBefore(names, turn, j, y, turn[names[j]]);
    }
    if turn[names[j]] != 1 {
      var y :| Refers(names, defs, j, y) && ReplacedIn(names, turn, j, y, turn[names[j]] - 1);
      assert ReplacedIn(names, turn', j, y, turn[names[j]] - 1);
    }
  }

  lemma ResolvedOnTurn(w: Work, i: nat)
    requires Progress(w) && NextUp(w, i) && Names(w.bodies[i]) == {}
    ensures OnTurn(w.names, w.defs, Resolve(w, i).turn, i)
  {
    hide Meaningful, Increasing;
    var turn, turn' := w.turn, Resolve(w, i).turn;
    forall y | Refers(w.names, w.defs, i, y) ensures ReplacedBefore(w.names, turn', i, y, w.round) {
      assert Left(w, i, y);
    }
    assert Held(w, i);
    if w.round > 1 {
      var y :| Refers(w.names, w.defs, i, y) && !ReplacedBefore(w.names, turn, i, y, w.round - 1);
      assert Left(w, i, y);
      assert ReplacedIn(w.names, turn', i, y, w.round - 1);
    }
  }

  lemma ResolveLeft(w: Work, i: nat, j: nat, y: string)
    requires Progress(w) && NextUp(w, i) && Names(w.bodies[i]) == {}
    requires j in w.unresolved && j != i
    ensures Left(Resolve(w, i), j, y)
    ensures ReplacedBefore(w.names, Resolve(w, i).turn, j, y, Visits(w, j)) ==
              ReplacedBefore(w.names, w.turn, j, y, Visits(w, j))
  {
    assert Left(w, j, y);
    if y == w.names[i] {
      if y in w.names[..j] {
        var k :| 0 <= k < j && w.names[k] == y;
        assert k == i;
      }
      if i < j {
        assert w.names[..j][i] == y;
      }
    }
  }

  lemma ResolveHeld(w: Work, i: nat, j: nat)
    requires Progress(w) && NextUp(w, i) && Names(w.bodies[i]) == {}
    requires j in w.unresolved && j != i
    ensures Held(Resolve(w, i), j)
  {
    assert Held(w, j);
    if Visits(w, j) >= 1 {
      var y :| Refers(w.names, w.defs, j, y) && !ReplacedBefore(w.names, w.turn, j, y, Visits(w, j));
      ResolveLeft(w, i, j, y);
    }
  }

  lemma ResolveProductive(w: Work, i: nat, r: nat)
    requires Progress(w) && NextUp(w, i) && Productive(w.names, w.defs, w.turn, r)
    ensures Productive(w.names, w.defs, Resolve(w, i).turn, r)
  {
    hide Meaningful, OnTurn, Left, Held;
    var j: nat, y :| Refers(w.names, w.defs, j, y) && ReplacedIn(w.names, w.turn, j, y, r);
    assert ReplacedIn(w.names, Resolve(w, i).turn, j, y, r);
  }

  lemma ResolveLate(w: Work, i: nat, y: string)
    requires Progress(w) && NextUp(w, i) && y in Resolve(w, i).turn
    ensures 1 <= Resolve(w, i).turn[y] <= w.round
    ensures Resolve(w, i).turn[y] == w.round ==> y in w.names[..i + 1]
  {
    if y == w.names[i] {
      assert w.names[..i + 1][i] == y;
    } else if w.turn[y] == w.round {
      var k :| 0 <= k < w.next && w.names[k] == y;
      assert w.names[..i + 1][k] == y;
    }
  }

  lemma ResolveTimely(w: Work, i: nat)
    requires Progress(w) && NextUp(w, i) && Names(w.bodies[i]) == {}
    requires Shape(Resolve(w, i))
    ensures Timely(Resolve(w, i))
  {
    var w' := Resolve(w, i);
    forall j, y | j in w'.unresolved ensures Left(w', j, y) {
      ResolveLeft(w, i, j, y);
    }
    forall j | j in w'.unresolved ensures Held(w', j) {
      ResolveHeld(w, i, j);
    }
    forall j: nat | j < |w.names| && w.names[j] in w'.turn ensures OnTurn(w.names, w.defs, w'.turn, j) {
      if j == i {
        ResolvedOnTurn(w, i);
      } else {
        assert w.names[j] in w.turn;
        OnTurnKeeps(w.names, w.defs, w.turn, w.names[i], w.round, j);
      }
    }
    forall r | 1 <= r < w.round ensures Productive(w.names, w.defs, w'.turn, r) {
      ResolveProductive(w, i, r);
    }
    forall y | y in w'.turn
      ensures 1 <= w'.turn[y] <= w.round && (w'.turn[y] == w.round ==> y in w.names[..i + 1])
    {
      ResolveLate(w, i, y);
    }
  }

  lemma ResolveStep(w: Work, i: nat)
    requires Progress(w) && NextUp(w, i) && Names(w.bodies[i]) == {}
    ensures Progress(Resolve(w, i))
  {
    var w' := Resolve(w, i);
    WithoutIncreasing(w.unresolved, i);
    ResolveTimely(w, i);
    forall y | RefersTo(w.defs, w.names[i], y) ensures y in w.turn && w.turn[y] < w.round {
      assert Refers(w.names, w.defs, i, y) && Left(w, i, y);
    }
    GroundedGrows(w.defs, w.expanded, w.turn, w.names[i], w.bodies[i], w.round);
    forall j: nat | j < |w.names| ensures OnTheWay(w.bodies[j], w.defs[w.names[j]], w'.expanded) {
      OnTheWayExtends(w.bodies[j], w.defs[w.names[j]], w.expanded, w'.expanded);
    }
  }

  /* ----- rounds and their end ----- */

  /** Something was replaced in the current round so far. */
  ghost predicate Replacing(w: Work) {
    exists i: nat, y :: i < w.next && Refers(w.names, w.defs, i, y) && ReplacedIn(w.names, w.turn, i, y, w.round)
  }

  /** An expanded rule is not replaced in any more. */
  lemma ExpandedIsDone(w: Work, j: nat, y: string)
    requires Progress(w) && j < |w.names| && w.names[j] in w.turn && Refers(w.names, w.defs, j, y)
    ensures !ReplacedIn(w.names, w.turn, j, y, w.round)
  {
    assert OnTurn(w.names, w.defs, w.turn, j);
  }

  lemma RewriteReplacing(w: Work, i: nat)
    requires Progress(w) && NextUp(w, i)
    ensures Replacing(Rewrite(w, i)) <==> Replacing(w) || Replaces(w, i)
  {
    var w' := Rewrite(w, i);
    forall j: nat, y | w.next <= j < i && Refers(w.names, w.defs, j, y)
      ensures !ReplacedIn(w.names, w.turn, j, y, w.round)
    {
      ExpandedIsDone(w, j, y);
    }
    if Replacing(w) {
      var j: nat, y :| j < w.next && Refers(w.names, w.defs, j, y) && ReplacedIn(w.names, w.turn, j, y, w.round);
      assert j < w'.next;
    }
  }

  lemma ResolveReplacing(w: Work, i: nat)
    requires Progress(w) && NextUp(w, i) && Names(w.bodies[i]) == {}
    ensures Replacing(Resolve(w, i)) <==> Replacing(w)
  {
    hide Meaningful, OnTurn, Left, Held;
    var w' := Resolve(w, i);
    forall j: nat, y | w.next <= j < i && Refers(w.names, w.defs, j, y)
      ensures !ReplacedIn(w.names, w.turn, j, y, w.round)
    {
      ExpandedIsDone(w, j, y);
    }
    forall y | Refers(w.names, w.defs, i, y) ensures !ReplacedIn(w.names, w.turn, i, y, w.round) {
      ReplacedNow(w, i, y);
    }
    forall j: nat, y | j <= i && ReplacedIn(w.names, w'.turn, j, y, w.round)
      ensures ReplacedIn(w.names, w.turn, j, y, w.round)
    {
      assert w.names[i] !in w.names[..j];
    }
    if Replacing(w) {
      var j: nat, y :| j < w.next && Refers(w.names, w.defs, j, y) && ReplacedIn(w.names, w.turn, j, y, w.round);
      assert j < w'.next && ReplacedIn(w.names, w'.turn, j, y, w.round);
    }
  }

  /** The round has visited everything. */
  ghost predicate RoundOver(w: Work) {
    forall j :: j in w.unresolved ==> j < w.next
  }

  lemma ReplacingIsProductive(w: Work)
    requires Progress(w) && RoundOver(w)
    ensures Replacing(w) <==> Productive(w.names, w.defs, w.turn, w.round)
  {
    forall j: nat, y | w.next <= j && Refers(w.names, w.defs, j, y)
      ensures !ReplacedIn(w.names, w.turn, j, y, w.round)
    {
      ExpandedIsDone(w, j, y);
    }
  }

  ghost function NextRound(w: Work): Work {
    w.(round := w.round + 1, next := 0)
  }

  lemma NextRoundTimely(w: Work)
    requires Progress(w) && RoundOver(w) && Productive(w.names, w.defs, w.turn, w.round)
    ensures Timely(NextRound(w))
  {
    hide Meaningful, OnTurn, Grounded;
    var w' := NextRound(w);
    forall i, y | i in w.unresolved ensures Left(w', i, y) {
      assert Left(w, i, y);
    }
    forall i | i in w.unresolved ensures Held(w', i) {
      assert Held(w, i);
    }
  }

  lemma NextRoundStep(w: Work)
    requires Progress(w) && RoundOver(w) && Productive(w.names, w.defs, w.turn, w.round)
    ensures Progress(NextRound(w)) && !Replacing(NextRound(w))
  {
    NextRoundTimely(w);
  }

  /** When nothing is left over, the rounds in which rules were expanded are a schedule. */
  lemma FinishedSchedule(w: Work)
    requires Progress(w) && w.unresolved == [] && AllNamed(w.names, w.defs)
    ensures Expandable(w.names, w.defs)
  {
    forall round | round >= 1 && LaterProductive(w.names, w.defs, w.turn, round)
      ensures Productive(w.names, w.defs, w.turn, round)
    {
      var later :| later > round && Productive(w.names, w.defs, w.turn, later);
      var i: nat, y :| Refers(w.names, w.defs, i, y) && ReplacedIn(w.names, w.turn, i, y, later);
      assert OnTurn(w.names, w.defs, w.turn, i);
    }
    assert Schedule(w.names, w.defs, w.turn);
  }

  lemma TurnsAgree(names: seq<string>, defs: map<string, Rule>, turn: map<string, nat>, schedule: map<string, nat>,
                   i: nat)
    requires i < |names| && names[i] in turn && names[i] in schedule
    requires OnTurn(names, defs, turn, i) && OnTurn(names, defs, schedule, i)
    requires forall y :: Refers(names, defs, i, y) ==> y in turn && y in schedule && turn[y] == schedule[y] >= 1
    ensures turn[names[i]] == schedule[names[i]]
  {
    if turn[names[i]] > 1 {
      var y :| Refers(names, defs, i, y) && ReplacedIn(names, turn, i, y, turn[names[i]] - 1);
      assert ReplacedBefore(names, schedule, i, y, schedule[names[i]]);
    }
    if schedule[names[i]] > 1 {
      var y :| Refers(names, defs, i, y) && ReplacedIn(names, schedule, i, y, schedule[names[i]] - 1);
      assert ReplacedBefore(names, turn, i, y, turn[names[i]]);
    }
  }

  /** A name in a definition is replaced before the definition is expanded. */
  lemma ReferredEarlier(names: seq<string>, defs: map<string, Rule>, schedule: map<string, nat>, i: nat, y: string)
      returns (k: nat)
    requires Schedule(names, defs, schedule) && Refers(names, defs, i, y)
    ensures k < |names| && names[k] == y && y in schedule && 1 <= schedule[y] < schedule[names[i]]
    ensures When(names, schedule, i, y) < schedule[names[i]]
  {
    assert OnTurn(names, defs, schedule, i);
    assert ReplacedBefore(names, schedule, i, y, schedule[names[i]]);
    k :| 0 <= k < |names| && names[k] == y;
    assert OnTurn(names, defs, schedule, k);
  }

  /** What is expanded is expanded when the schedule says. */
  lemma {:induction false} ScheduleAgrees(w: Work, schedule: map<string, nat>, i: nat)
    requires Progress(w) && Schedule(w.names, w.defs, schedule) && i < |w.names| && w.names[i] in w.turn
    ensures schedule[w.names[i]] == w.turn[w.names[i]]
    decreases schedule[w.names[i]]
  {
    forall y | Refers(w.names, w.defs, i, y) ensures y in schedule && y in w.turn && w.turn[y] == schedule[y] >= 1 {
      var k := ReferredEarlier(w.names, w.defs, schedule, i, y);
      assert OnTurn(w.names, w.defs, w.turn, i);
      assert ReplacedBefore(w.names, w.turn, i, y, w.turn[w.names[i]]);
      ScheduleAgrees(w, schedule, k);
    }
    TurnsAgree(w.names, w.defs, w.turn, schedule, i);
  }

  /** What the schedule has expanded by now is expanded. */
  lemma {:induction false} ScheduleIsMet(w: Work, schedule: map<string, nat>, i: nat)
    requires Progress(w) && RoundOver(w) && Schedule(w.names, w.defs, schedule)
    requires i < |w.names| && schedule[w.names[i]] <= w.round
    ensures w.names[i] in w.turn && w.turn[w.names[i]] == schedule[w.names[i]]
    decreases schedule[w.names[i]]
  {
    forall y | Refers(w.names, w.defs, i, y) ensures ReplacedBefore(w.names, w.turn, i, y, w.round) {
      var k := ReferredEarlier(w.names, w.defs, schedule, i, y);
      ScheduleIsMet(w, schedule, k);
    }
    assert i in w.unresolved ==> Visits(w, i) == w.round && Held(w, i);
    ScheduleAgrees(w, schedule, i);
  }

  /** The replacements that the schedule has in this round were made. */
  lemma ScheduledIsReplaced(w: Work, schedule: map<string, nat>, i: nat, y: string)
    requires Progress(w) && RoundOver(w) && Schedule(w.names, w.defs, schedule)
    requires Refers(w.names, w.defs, i, y) && ReplacedIn(w.names, schedule, i, y, w.round)
    ensures ReplacedIn(w.names, w.turn, i, y, w.round)
  {
    var k := ReferredEarlier(w.names, w.defs, schedule, i, y);
    ScheduleIsMet(w, schedule, k);
  }

  /** A round without replacement that leaves rules over can only come about without a schedule,
      or with one that has an idle round. */
  lemma GivingUp(w: Work)
    requires Progress(w) && RoundOver(w) && w.unresolved != [] && !Productive(w.names, w.defs, w.turn, w.round)
    ensures !Expandable(w.names, w.defs)
  {
    forall schedule | Schedule(w.names, w.defs, schedule) ensures !NoIdleRound(w.names, w.defs, schedule) {
      var i := w.unresolved[0];
      assert i in w.unresolved && OnTurn(w.names, w.defs, schedule, i);
      if schedule[w.names[i]] <= w.round {
        ScheduleIsMet(w, schedule, i);
      }
      forall j: nat, y | Refers(w.names, w.defs, j, y) ensures !ReplacedIn(w.names, schedule, j, y, w.round) {
        if ReplacedIn(w.names, schedule, j, y, w.round) {
          ScheduledIsReplaced(w, schedule, j, y);
        }
      }
      assert Productive(w.names, w.defs, schedule, schedule[w.names[i]] - 1);
      assert LaterProductive(w.names, w.defs, schedule, w.round);
    }
  }

  /** Rules that only refer to rules in front of them are never given up on. */
  lemma InOrderNeverGivesUp(w: Work)
    requires Progress(w) && RoundOver(w) && w.unresolved != [] && DefinedBeforeUse(w.names, w.defs)
    ensures Productive(w.names, w.defs, w.turn, w.round)
  {
    var i := w.unresolved[0];
    assert i in w.unresolved && Held(w, i) && Visits(w, i) == w.round;
    var y :| Refers(w.names, w.defs, i, y) && !ReplacedBefore(w.names, w.turn, i, y, w.round);
    var k: nat :| k < i && w.names[k] == y;
    assert k !in w.unresolved;
    assert ReplacedIn(w.names, w.turn, i, y, w.round);
  }
}
