/** Deployment rules, what they mean, and the requirement lists they are lowered to. */
module RuleCompiler {

  datatype Predicate = Predicate(name: string, kwargs: map<string, string>)

  /** A rule after parsing; names of other rules are still possible. */
  datatype Rule =
    | Pred(p: Predicate)
    | Named(name: string)
    | And(left: Rule, right: Rule)
    | Or(left: Rule, right: Rule)
    | Not(rule: Rule)

  /** The predicates that hold for some runtime. */
  type Facts = iset<Predicate>

  /** What the rule says about a runtime. A name that is not expanded says nothing. */
  ghost predicate Sat(r: Rule, facts: Facts) {
    match r
    case Pred(p) => p in facts
    case Named(_) => false
    case And(left, right) => Sat(left, facts) && Sat(right, facts)
    case Or(left, right) => Sat(left, facts) || Sat(right, facts)
    case Not(rule) => !Sat(rule, facts)
  }

  /** A member of a union group: an alternative, or a list that was nested by mistake and
      is skipped when the group is matched. */
  datatype Member = Alternative(p: Predicate) | Nested

  datatype Requirement =
    | Simple(p: Predicate, positive: bool)
    | UnionGroup(members: seq<Member>)

  datatype Compiled = One(req: Requirement) | Many(reqs: seq<Requirement>) | Raised

  function AsList(c: Compiled): seq<Requirement>
    requires !c.Raised?
  {
    if c.One? then [c.req] else c.reqs
  }

  function AsMember(c: Compiled): Member
    requires !c.Raised?
  {
    if c.One? && c.req.Simple? then Alternative(c.req.p) else Nested
  }

  /** The members of a union: those of a union on its left are taken over, but only if its
      right side is a single predicate, and the sign of a negated member is dropped. */
  function Merge(left: Compiled, right: Compiled): seq<Member>
    requires !left.Raised? && !right.Raised?
  {
    if left.One? && left.req.UnionGroup? then
      if right.One? && right.req.Simple? then left.req.members + [AsMember(right)] else [Nested, Nested]
    else [AsMember(left), AsMember(right)]
  }

  function Mangle(r: Rule): Compiled {
    match r
    case Pred(p) => One(Simple(p, true))
    case Named(_) => Raised
    case And(left, right) =>
      var cl, cr := Mangle(left), Mangle(right);
      if cl.Raised? || cr.Raised? then Raised else Many(AsList(cl) + AsList(cr))
    case Or(left, right) =>
      var cl, cr := Mangle(left), Mangle(right);
      if cl.Raised? || cr.Raised? then Raised else One(UnionGroup(Merge(cl, cr)))
    case Not(rule) =>
      if rule.Pred? then One(Simple(rule.p, false)) else Raised
  }

  /** What a requirement asks of a runtime when it is matched. */
  ghost predicate Holds(req: Requirement, facts: Facts) {
    match req
    case Simple(p, positive) => p in facts <==> positive
    case UnionGroup(members) => AnyHolds(members, facts)
  }

  ghost predicate AnyHolds(members: seq<Member>, facts: Facts) {
    exists p :: Alternative(p) in members && p in facts
  }

  ghost predicate AllHold(reqs: seq<Requirement>, facts: Facts) {
    forall req :: req in reqs ==> Holds(req, facts)
  }

  /** A union of plain predicates, nested to the left. */
  predicate Alternatives(r: Rule) {
    r.Pred? || (r.Or? && Alternatives(r.left) && r.right.Pred?)
  }

  /** Conjunctions of predicates, negated predicates and left-nested unions of predicates. */
  predicate Plain(r: Rule) {
    || Alternatives(r)
    || (r.Not? && r.rule.Pred?)
    || (r.And? && Plain(r.left) && Plain(r.right))
  }

  /** Negation only of predicates, and all names expanded. */
  predicate NegatesPredicates(r: Rule) {
    match r
    case Pred(_) => true
    case Named(_) => false
    case And(left, right) => NegatesPredicates(left) && NegatesPredicates(right)
    case Or(left, right) => NegatesPredicates(left) && NegatesPredicates(right)
    case Not(rule) => rule.Pred?
  }

  /** Lowering fails on exactly the rules that negate more than a predicate or still name rules. */
  lemma {:induction false} MangleRaises(r: Rule)
    ensures Mangle(r).Raised? <==> !NegatesPredicates(r)
  {
    match r
    case Pred(_) =>
    case Named(_) =>
    case And(left, right) =>
      MangleRaises(left);
      MangleRaises(right);
    case Or(left, right) =>
      MangleRaises(left);
      MangleRaises(right);
    case Not(_) =>
  }

  ghost predicate Meaning(c: Compiled, facts: Facts) {
    !c.Raised? && AllHold(AsList(c), facts)
  }

  lemma AnyHoldsConcat(a: seq<Member>, b: seq<Member>, facts: Facts)
    ensures AnyHolds(a + b, facts) <==> AnyHolds(a, facts) || AnyHolds(b, facts)
  {
    if p :| Alternative(p) in a && p in facts {
      assert Alternative(p) in a + b;
    }
    if p :| Alternative(p) in b && p in facts {
      assert Alternative(p) in a + b;
    }
  }

  lemma AnyHoldsOne(p: Predicate, facts: Facts)
    ensures AnyHolds([Alternative(p)], facts) <==> p in facts
    ensures !AnyHolds([Nested], facts)
  {
    assert p in facts ==> Alternative(p) in [Alternative(p)];
  }

  lemma {:induction false} MangleAlternatives(r: Rule, facts: Facts)
    requires Alternatives(r)
    ensures Mangle(r).One? && (Sat(r, facts) <==> Holds(Mangle(r).req, facts))
    ensures r.Or? <==> Mangle(r).req.UnionGroup?
  {
    if r.Or? {
      MangleAlternatives(r.left, facts);
      assert Mangle(r.right) == One(Simple(r.right.p, true));
      var last := [Alternative(r.right.p)];
      AnyHoldsOne(r.right.p, facts);
      if r.left.Or? {
        AnyHoldsConcat(Mangle(r.left).req.members, last, facts);
      } else {
        var first := [Alternative(r.left.p)];
        AnyHoldsOne(r.left.p, facts);
        AnyHoldsConcat(first, last, facts);
        assert first + last == [Alternative(r.left.p), Alternative(r.right.p)];
      }
    }
  }

  lemma MeaningOne(req: Requirement, facts: Facts)
    ensures Meaning(One(req), facts) <==> Holds(req, facts)
  {
    assert AsList(One(req)) == [req];
  }

  lemma MeaningAnd(cl: Compiled, cr: Compiled, facts: Facts)
    requires !cl.Raised? && !cr.Raised?
    ensures Meaning(Many(AsList(cl) + AsList(cr)), facts) <==> Meaning(cl, facts) && Meaning(cr, facts)
  {
    assert forall req :: req in AsList(cl) + AsList(cr) <==> req in AsList(cl) || req in AsList(cr);
  }

  /** Lowering a plain rule keeps its meaning, for every runtime. */
  lemma {:induction false} MangleKeepsMeaning(r: Rule, facts: Facts)
    requires Plain(r)
    ensures !Mangle(r).Raised?
    ensures Sat(r, facts) <==> Meaning(Mangle(r), facts)
  {
    if Alternatives(r) {
      MangleAlternatives(r, facts);
      MeaningOne(Mangle(r).req, facts);
    } else if r.And? {
      MangleKeepsMeaning(r.left, facts);
      MangleKeepsMeaning(r.right, facts);
      MeaningAnd(Mangle(r.left), Mangle(r.right), facts);
    } else {
      MeaningOne(Mangle(r).req, facts);
    }
  }

  /* ----- what any rule means after lowering ----- */

  /** A member that is a predicate, negated or not, counts for the predicate; any other counts for nothing. */
  ghost predicate MemberIn(r: Rule, facts: Facts) {
    (r.Pred? && r.p in facts) || (r.Not? && r.rule.Pred? && r.rule.p in facts)
  }

  /** A union on the left of a predicate is continued; on the left of anything else it is lost. */
  ghost predicate UnionIn(r: Rule, facts: Facts)
    requires r.Or?
  {
    if r.left.Or? then (r.right.Pred? || r.right.Not?) && (UnionIn(r.left, facts) || MemberIn(r.right, facts))
    else MemberIn(r.left, facts) || MemberIn(r.right, facts)
  }

  ghost predicate LoweredSat(r: Rule, facts: Facts) {
    match r
    case Pred(p) => p in facts
    case Named(_) => false
    case And(left, right) => LoweredSat(left, facts) && LoweredSat(right, facts)
    case Or(_, _) => UnionIn(r, facts)
    case Not(rule) => rule.Pred? && rule.p !in facts
  }

  lemma MemberMeans(r: Rule, facts: Facts)
    requires NegatesPredicates(r)
    ensures !Mangle(r).Raised? && (AnyHolds([AsMember(Mangle(r))], facts) <==> MemberIn(r, facts))
  {
    MangleRaises(r);
    MangleShape(r);
    match AsMember(Mangle(r))
    case Alternative(p) => AnyHoldsOne(p, facts);
    case Nested => AnyHoldsOne(Predicate("", map[]), facts);
  }

  lemma {:induction false} UnionMeans(r: Rule, facts: Facts)
    requires r.Or? && NegatesPredicates(r)
    ensures Mangle(r).One? && Mangle(r).req.UnionGroup?
    ensures AnyHolds(Mangle(r).req.members, facts) <==> UnionIn(r, facts)
  {
    MangleRaises(r.left);
    MangleRaises(r.right);
    MangleShape(r.left);
    MangleShape(r.right);
    var cl, cr := Mangle(r.left), Mangle(r.right);
    MemberMeans(r.right, facts);
    if r.left.Or? {
      UnionMeans(r.left, facts);
      if cr.One? && cr.req.Simple? {
        AnyHoldsConcat(cl.req.members, [AsMember(cr)], facts);
      } else {
        assert Merge(cl, cr) == [Nested, Nested];
      }
    } else {
      MemberMeans(r.left, facts);
      AnyHoldsConcat([AsMember(cl)], [AsMember(cr)], facts);
      assert Merge(cl, cr) == [AsMember(cl)] + [AsMember(cr)];
    }
  }

  /** Whatever can be lowered means this afterwards. */
  lemma {:induction false} MangleMeansExactly(r: Rule, facts: Facts)
    requires NegatesPredicates(r)
    ensures Meaning(Mangle(r), facts) <==> LoweredSat(r, facts)
  {
    MangleRaises(r);
    match r
    case Pred(p) => MeaningOne(Simple(p, true), facts);
    case Named(_) =>
    case And(left, right) =>
      MangleRaises(left);
      MangleRaises(right);
      MangleMeansExactly(left, facts);
      MangleMeansExactly(right, facts);
      MeaningAnd(Mangle(left), Mangle(right), facts);
    case Or(_, _) =>
      UnionMeans(r, facts);
      MeaningOne(Mangle(r).req, facts);
    case Not(rule) => MeaningOne(Simple(rule.p, false), facts);
  }

  /* ----- which rules keep their meaning ----- */

  ghost function Preds(r: Rule): iset<Predicate> {
    match r
    case Pred(p) => iset{p}
    case Named(_) => iset{}
    case And(left, right) => Preds(left) + Preds(right)
    case Or(left, right) => Preds(left) + Preds(right)
    case Not(rule) => Preds(rule)
  }

  /** No predicate occurs twice. */
  ghost predicate Linear(r: Rule) {
    match r
    case Pred(_) => true
    case Named(_) => true
    case And(left, right) => Linear(left) && Linear(right) && Preds(left) !! Preds(right)
    case Or(left, right) => Linear(left) && Linear(right) && Preds(left) !! Preds(right)
    case Not(rule) => Linear(rule)
  }

  lemma {:induction false} SatLocal(r: Rule, f: Facts, g: Facts)
    requires f * Preds(r) == g * Preds(r)
    ensures Sat(r, f) == Sat(r, g)
  {
    assert forall p :: p in Preds(r) ==> (p in f * Preds(r) <==> p in f) && (p in g * Preds(r) <==> p in g);
    match r
    case Pred(_) =>
    case Named(_) =>
    case And(left, right) =>
      assert f * Preds(left) == g * Preds(left) && f * Preds(right) == g * Preds(right);
      SatLocal(left, f, g);
      SatLocal(right, f, g);
    case Or(left, right) =>
      assert f * Preds(left) == g * Preds(left) && f * Preds(right) == g * Preds(right);
      SatLocal(left, f, g);
      SatLocal(right, f, g);
    case Not(rule) =>
      SatLocal(rule, f, g);
  }

  /** The predicates a lowered rule looks at. */
  ghost predicate Mentions(req: Requirement, p: Predicate) {
    match req
    case Simple(q, _) => p == q
    case UnionGroup(members) => Alternative(p) in members
  }

  lemma {:induction false} MangleMentions(r: Rule, req: Requirement, p: Predicate)
    requires !Mangle(r).Raised? && req in AsList(Mangle(r)) && Mentions(req, p)
    ensures p in Preds(r)
  {
    match r
    case Pred(_) =>
    case Named(_) =>
    case And(left, right) =>
      if req in AsList(Mangle(left)) {
        MangleMentions(left, req, p);
      } else {
        MangleMentions(right, req, p);
      }
    case Or(left, right) =>
      var cl, cr := Mangle(left), Mangle(right);
      assert req == UnionGroup(Merge(cl, cr)) && Alternative(p) in Merge(cl, cr);
      if cl.One? && (cl.req == Simple(p, cl.req.Simple? && cl.req.positive) ||
                     (cl.req.UnionGroup? && Alternative(p) in cl.req.members)) {
        MangleMentions(left, cl.req, p);
      } else {
        MangleMentions(right, cr.req, p);
      }
    case Not(_) =>
  }

  lemma MeaningLocal(r: Rule, f: Facts, g: Facts)
    requires NegatesPredicates(r) && f * Preds(r) == g * Preds(r)
    ensures Meaning(Mangle(r), f) == Meaning(Mangle(r), g)
  {
    MangleRaises(r);
    forall req | req in AsList(Mangle(r)) ensures Holds(req, f) == Holds(req, g) {
      forall p | Mentions(req, p) ensures p in f <==> p in g {
        MangleMentions(r, req, p);
        assert p in f * Preds(r) <==> p in g * Preds(r);
      }
      match req
      case Simple(p, _) => assert Mentions(req, p);
      case UnionGroup(members) => assert forall p :: Alternative(p) in members ==> Mentions(req, p);
    }
  }

  /** f where the left part looks, g everywhere else. */
  ghost function Mix(left: Rule, f: Facts, g: Facts): Facts {
    (f * Preds(left)) + (g - Preds(left))
  }

  lemma MixAgrees(left: Rule, right: Rule, f: Facts, g: Facts)
    requires Preds(left) !! Preds(right)
    ensures Mix(left, f, g) * Preds(left) == f * Preds(left)
    ensures Mix(left, f, g) * Preds(right) == g * Preds(right)
  {
  }

  /** A rule without repeated predicates can be made true, and can be made false. */
  lemma {:induction false} Choose(r: Rule, want: bool) returns (facts: Facts)
    requires Linear(r) && NegatesPredicates(r)
    ensures Sat(r, facts) == want
  {
    match r
    case Pred(p) =>
      facts := if want then iset{p} else iset{};
    case Not(rule) =>
      facts := if want then iset{} else iset{rule.p};
    case And(left, right) =>
      var f := Choose(left, want);
      var g := Choose(right, want);
      facts := Mix(left, f, g);
      MixAgrees(left, right, f, g);
      SatLocal(left, facts, f);
      SatLocal(right, facts, g);
    case Or(left, right) =>
      var f := Choose(left, want);
      var g := Choose(right, want);
      facts := Mix(left, f, g);
      MixAgrees(left, right, f, g);
      SatLocal(left, facts, f);
      SatLocal(right, facts, g);
  }

  lemma {:induction false} Differs(r: Rule) returns (facts: Facts)
    requires Linear(r) && NegatesPredicates(r) && !Plain(r)
    ensures Sat(r, facts) != Meaning(Mangle(r), facts)
    decreases r, 1
  {
    MangleRaises(r);
    if r.Or? {
      facts := UnionDiffers(r);
    } else if Plain(r.left) {
      var f := Differs(r.right);
      facts := ConjunctionDiffers(r.right, r.left, f);
      MeaningAnd(Mangle(r.left), Mangle(r.right), facts);
    } else {
      var f := Differs(r.left);
      facts := ConjunctionDiffers(r.left, r.right, f);
      MeaningAnd(Mangle(r.left), Mangle(r.right), facts);
    }
  }

  /** If one conjunct is misunderstood at f, the conjunction is misunderstood somewhere. */
  lemma ConjunctionDiffers(bad: Rule, other: Rule, f: Facts) returns (facts: Facts)
    requires Linear(bad) && Linear(other) && Preds(bad) !! Preds(other)
    requires NegatesPredicates(bad) && NegatesPredicates(other)
    requires Sat(bad, f) != Meaning(Mangle(bad), f)
    ensures (Sat(bad, facts) && Sat(other, facts)) != (Meaning(Mangle(bad), facts) && Meaning(Mangle(other), facts))
  {
    var f', g := f, iset{};
    if Sat(bad, f) {
      g := Choose(other, true);
    } else if exists h :: Meaning(Mangle(other), h) {
      g :| Meaning(Mangle(other), g);
    } else {
      f' := Choose(bad, true);
      g := Choose(other, true);
    }
    facts := Mix(bad, f', g);
    MixAgrees(bad, other, f', g);
    SatLocal(bad, facts, f');
    SatLocal(other, facts, g);
    MeaningLocal(bad, facts, f');
    MeaningLocal(other, facts, g);
  }

  lemma MangleShape(r: Rule)
    requires NegatesPredicates(r)
    ensures match Mangle(r)
            case One(Simple(p, positive)) => r == if positive then Pred(p) else Not(Pred(p))
            case One(UnionGroup(_)) => r.Or?
            case Many(_) => r.And?
            case Raised => false
  {
    MangleRaises(r);
  }

  lemma {:induction false} UnionDiffers(r: Rule) returns (facts: Facts)
    requires r.Or? && Linear(r) && NegatesPredicates(r) && !Alternatives(r)
    ensures Sat(r, facts) != Meaning(Mangle(r), facts)
    decreases r, 0
  {
    MangleRaises(r.left);
    MangleRaises(r.right);
    var cl, cr := Mangle(r.left), Mangle(r.right);
    var members := Merge(cl, cr);
    MangleShape(r.left);
    MangleShape(r.right);
    assert r.left.Not? ==> Sat(r.left, iset{});
    assert r.right.Not? ==> Sat(r.right, iset{});
    facts := iset{};
    if !Sat(r, iset{}) {
      if cl.One? && cl.req.UnionGroup? && cr.One? && cr.req.Simple? {
        var f := Differs(r.left);
        facts := Mix(r.left, f, iset{});
        MixAgrees(r.left, r.right, f, iset{});
        SatLocal(r.left, facts, f);
        MeaningLocal(r.left, facts, f);
        MeaningOne(cl.req, facts);
        AnyHoldsOne(cr.req.p, facts);
        AnyHoldsConcat(cl.req.members, [AsMember(cr)], facts);
      } else {
        var f := Choose(if r.left.Pred? then r.right else r.left, true);
        facts := if r.left.Pred? then Mix(r.right, f, iset{}) else Mix(r.left, f, iset{});
        MixAgrees(r.right, r.left, f, iset{});
        MixAgrees(r.left, r.right, f, iset{});
        SatLocal(if r.left.Pred? then r.right else r.left, facts, f);
        assert forall p :: Alternative(p) in members ==> p !in facts;
      }
    }
    MeaningOne(UnionGroup(members), facts);
  }

  /** Of the rules that can be lowered and name no predicate twice, exactly the plain ones
      keep their meaning. */
  lemma PlainExactly(r: Rule)
    requires Linear(r) && NegatesPredicates(r)
    ensures Plain(r) <==> forall facts :: Sat(r, facts) <==> Meaning(Mangle(r), facts)
  {
    if Plain(r) {
      forall facts ensures Sat(r, facts) <==> Meaning(Mangle(r), facts) {
        MangleKeepsMeaning(r, facts);
      }
    } else {
      var facts := Differs(r);
    }
  }

  /** A negated member of a union is taken for the predicate itself. */
  lemma NegationIsLost(p: Predicate, q: Predicate)
    ensures var r := Or(Not(Pred(p)), Pred(q));
            Mangle(r) == One(UnionGroup([Alternative(p), Alternative(q)])) && Sat(r, iset{}) &&
              !Meaning(Mangle(r), iset{})
  {
    var r := Or(Not(Pred(p)), Pred(q));
    assert Mangle(r) == One(UnionGroup([Alternative(p), Alternative(q)]));
    MeaningOne(Mangle(r).req, iset{});
  }

  /** A union on the right of another is skipped. */
  lemma RightUnionIsLost(p: Predicate, q: Predicate, other: Predicate)
    requires p != q
    ensures var r := Or(Pred(p), Or(Pred(q), Pred(other)));
            Mangle(r) == One(UnionGroup([Alternative(p), Nested])) && Sat(r, iset{q}) && !Meaning(Mangle(r), iset{q})
  {
    var r := Or(Pred(p), Or(Pred(q), Pred(other)));
    assert Mangle(Or(Pred(q), Pred(other))) == One(UnionGroup([Alternative(q), Alternative(other)]));
    assert Mangle(r) == One(UnionGroup([Alternative(p), Nested]));
    MeaningOne(Mangle(r).req, iset{q});
  }
}
