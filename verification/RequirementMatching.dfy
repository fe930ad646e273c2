/** Finding the runtimes that meet a list of requirements, while the answers to the single
    predicates are still arriving. */
module RequirementMatching {
  import opened DynOps
  import opened RuleCompiler

  /** For which runtimes each predicate holds. */
  type World = Predicate -> set<string>

  ghost function FactsOf(world: World, x: string): Facts {
    iset p | x in world(p)
  }

  predicate Positive(req: Requirement) {
    req.UnionGroup? || req.positive
  }

  /** The predicates among the members of a union; what is not a predicate is skipped. */
  function Options(members: seq<Member>): seq<Predicate> {
    if members == [] then []
    else
      var last := members[|members| - 1];
      Options(members[..|members| - 1]) + if last.Alternative? then [last.p] else []
  }

  lemma {:induction false} OptionsAre(members: seq<Member>, p: Predicate)
    ensures p in Options(members) <==> Alternative(p) in members
  {
    if members != [] {
      var front := members[..|members| - 1];
      OptionsAre(front, p);
      assert members == front + [members[|members| - 1]];
    }
  }

  /** The predicates that a requirement asks about. */
  function Demands(req: Requirement): seq<Predicate> {
    match req
    case Simple(p, _) => [p]
    case UnionGroup(members) => Options(members)
  }

  /** The runtime is in the set expression of the operator. */
  ghost predicate In(op: DynOp, e: Elem)
    reads op, op.repr
  {
    op.Valid() && op.InAlgebra(e)
  }

  /** What a requirement asks about holds, whatever its sign. */
  ghost predicate Asks(req: Requirement, facts: Facts) {
    match req
    case Simple(p, _) => p in facts
    case UnionGroup(members) => AnyHolds(members, facts)
  }

  /** The List has the runtimes and no others. */
  ghost predicate Answers(leaf: DynOp, found: set<string>)
    reads leaf
  {
    forall e :: e in leaf.list <==> e.Node? && e.id in found
  }

  /** The operator combines the Lists of a requirement. */
  ghost predicate Fits(op: DynOp, req: Requirement, leaves: seq<DynOp>) {
    && |leaves| == |Demands(req)| && (forall k :: 0 <= k < |leaves| ==> leaves[k].kind == List)
    && if req.Simple? then leaves == [op] else op.kind == Union && op.iters == leaves
  }

  ghost predicate Complete(req: Requirement, leaves: seq<DynOp>, world: World)
    reads leaves
  {
    |leaves| == |Demands(req)| && forall k :: 0 <= k < |leaves| ==> Answers(leaves[k], world(Demands(req)[k]))
  }

  lemma LeafAlgebra(leaf: DynOp, p: Predicate, world: World)
    requires leaf.Valid() && leaf.kind == List && Answers(leaf, world(p))
    ensures forall x :: In(leaf, Node(x)) <==> p in FactsOf(world, x)
    ensures !In(leaf, Infinite)
  {
    forall x ensures In(leaf, Node(x)) <==> p in FactsOf(world, x) {
      assert Node(x) in leaf.list <==> x in world(p);
    }
  }

  lemma UnionAlgebra(op: DynOp, members: seq<Member>, world: World)
    requires op.Valid() && op.kind == Union && Complete(UnionGroup(members), op.iters, world)
    requires forall k :: 0 <= k < |op.iters| ==> op.iters[k].kind == List
    ensures forall x :: In(op, Node(x)) <==> AnyHolds(members, FactsOf(world, x))
    ensures !In(op, Infinite)
  {
    var options := Options(members);
    forall k | 0 <= k < |options|
      ensures op.iters[k].Valid() && !In(op.iters[k], Infinite)
      ensures forall x :: In(op.iters[k], Node(x)) <==> options[k] in FactsOf(world, x)
    {
      assert op.iters[k].Valid();
      LeafAlgebra(op.iters[k], options[k], world);
    }
    forall x ensures In(op, Node(x)) <==> AnyHolds(members, FactsOf(world, x)) {
      forall p ensures p in options <==> Alternative(p) in members {
        OptionsAre(members, p);
      }
      if p :| Alternative(p) in members && p in FactsOf(world, x) {
        var k :| 0 <= k < |options| && options[k] == p;
        assert In(op.iters[k], Node(x));
      }
      if In(op, Node(x)) {
        var k :| 0 <= k < |options| && In(op.iters[k], Node(x));
        assert Alternative(options[k]) in members;
      }
    }
  }

  /** An operator comes to the runtimes for which its requirement holds, signs aside. */
  lemma OpAlgebra(op: DynOp, req: Requirement, leaves: seq<DynOp>, world: World)
    requires op.Valid() && Fits(op, req, leaves) && Complete(req, leaves, world)
    ensures forall x :: In(op, Node(x)) <==> Asks(req, FactsOf(world, x))
    ensures !In(op, Infinite)
  {
    match req
    case Simple(p, _) =>
      assert leaves[0] == op && Demands(req)[0] == p;
      LeafAlgebra(op, p, world);
    case UnionGroup(members) =>
      UnionAlgebra(op, members, world);
  }

  /** The operators of the positive, or of the negative requirements, in order. */
  ghost function Picked(reqs: seq<Requirement>, ops: seq<DynOp>, positive: bool): seq<DynOp>
    requires |reqs| == |ops|
  {
    if reqs == [] then []
    else
      var n := |reqs| - 1;
      Picked(reqs[..n], ops[..n], positive) + if Positive(reqs[n]) == positive then [ops[n]] else []
  }

  ghost predicate PickedAt(reqs: seq<Requirement>, ops: seq<DynOp>, positive: bool, i: nat, op: DynOp) {
    i < |reqs| == |ops| && ops[i] == op && Positive(reqs[i]) == positive
  }

  ghost predicate ArePicked(picked: seq<DynOp>, reqs: seq<Requirement>, ops: seq<DynOp>, positive: bool) {
    && (forall op :: op in picked ==> exists i :: PickedAt(reqs, ops, positive, i, op))
    && (forall i :: 0 <= i < |ops| == |reqs| && Positive(reqs[i]) == positive ==> ops[i] in picked)
  }

  lemma {:induction false} PickedAre(reqs: seq<Requirement>, ops: seq<DynOp>, positive: bool)
    requires |reqs| == |ops|
    ensures ArePicked(Picked(reqs, ops, positive), reqs, ops, positive)
  {
    if reqs != [] {
      var n := |reqs| - 1;
      PickedAre(reqs[..n], ops[..n], positive);
      forall op | op in Picked(reqs, ops, positive) ensures exists i :: PickedAt(reqs, ops, positive, i, op) {
        if op in Picked(reqs[..n], ops[..n], positive) {
          var i: nat :| PickedAt(reqs[..n], ops[..n], positive, i, op);
          assert PickedAt(reqs, ops, positive, i, op);
        } else {
          assert PickedAt(reqs, ops, positive, n, op);
        }
      }
      forall i | 0 <= i < |ops| && Positive(reqs[i]) == positive ensures ops[i] in Picked(reqs, ops, positive) {
        if i < n {
          assert ops[..n][i] == ops[i] && reqs[..n][i] == reqs[i];
        }
      }
    }
  }

  /** All positive requirements together. */
  ghost predicate Joined(op: DynOp, positives: seq<DynOp>) {
    if positives == [] then op.kind == Everything else op.kind == Intersection && op.iters == positives
  }

  /** The tree over the operators of the requirements. */
  ghost predicate Root(root: DynOp, positives: seq<DynOp>, negatives: seq<DynOp>) {
    if negatives == [] then Joined(root, positives)
    else root.kind == Difference && |root.iters| > 0 && root.iters[1..] == negatives && Joined(root.iters[0], positives)
  }

  ghost predicate AllValid(ops: seq<DynOp>)
    reads set i, o | 0 <= i < |ops| && o in ops[i].repr :: o, ops
  {
    forall op :: op in ops ==> op.Valid()
  }

  lemma JoinedAlgebra(op: DynOp, positives: seq<DynOp>)
    requires op.Valid() && Joined(op, positives)
    ensures AllValid(positives)
    ensures positives != [] ==> forall e :: In(op, e) <==> forall p :: p in positives ==> In(p, e)
    ensures positives == [] ==> forall e :: In(op, e) <==> e == Infinite
  {
    if positives != [] {
      forall p | p in positives ensures p.Valid() {
        var i :| 0 <= i < |positives| && positives[i] == p;
        assert op.iters[i].Valid();
      }
      assert forall i :: 0 <= i < |op.iters| ==> op.iters[i] in positives;
    }
  }

  lemma DifferenceAlgebra(op: DynOp, e: Elem)
    requires op.Valid() && op.kind == Difference
    ensures In(op, e) <==> In(op.iters[0], e) && forall i :: 1 <= i < |op.iters| ==> !In(op.iters[i], e)
  {
    assert forall i :: 0 <= i < |op.iters| ==> op.iters[i].Valid();
  }

  lemma RootAlgebra(root: DynOp, positives: seq<DynOp>, negatives: seq<DynOp>)
    requires root.Valid() && Root(root, positives, negatives)
    ensures AllValid(positives) && AllValid(negatives)
    ensures positives != [] ==> forall e :: In(root, e) <==>
              (forall p :: p in positives ==> In(p, e)) && forall n :: n in negatives ==> !In(n, e)
    ensures positives == [] ==> forall e :: In(root, e) <==>
              e == Infinite && forall n :: n in negatives ==> !In(n, e)
  {
    if negatives == [] {
      JoinedAlgebra(root, positives);
    } else {
      assert root.iters[0].Valid();
      JoinedAlgebra(root.iters[0], positives);
      forall i | 1 <= i < |root.iters| ensures root.iters[i] in negatives && root.iters[i].Valid() {
        assert root.iters[i] == negatives[i - 1];
      }
      forall n | n in negatives ensures exists i :: 1 <= i < |root.iters| && root.iters[i] == n {
        var k :| 0 <= k < |negatives| && negatives[k] == n;
        assert root.iters[k + 1] == n;
      }
      forall e ensures In(root, e) <==> In(root.iters[0], e) && forall n :: n in negatives ==> !In(n, e) {
        DifferenceAlgebra(root, e);
      }
    }
  }

  /** The tree was built for the requirements. */
  ghost predicate Built(root: DynOp, reqs: seq<Requirement>, ops: seq<DynOp>, leaves: seq<seq<DynOp>>) {
    && |ops| == |leaves| == |reqs|
    && (forall i :: 0 <= i < |reqs| ==> Fits(ops[i], reqs[i], leaves[i]))
    && Root(root, Picked(reqs, ops, true), Picked(reqs, ops, false))
  }

  ghost predicate AllComplete(reqs: seq<Requirement>, leaves: seq<seq<DynOp>>, world: World)
    requires |leaves| == |reqs|
    reads set i, k | 0 <= i < |leaves| && 0 <= k < |leaves[i]| :: leaves[i][k]
  {
    forall i :: 0 <= i < |reqs| ==> Complete(reqs[i], leaves[i], world)
  }

  ghost predicate SomePositive(reqs: seq<Requirement>) {
    exists req :: req in reqs && Positive(req)
  }

  lemma PickedSome(reqs: seq<Requirement>, ops: seq<DynOp>, positives: seq<DynOp>)
    requires |reqs| == |ops| && ArePicked(positives, reqs, ops, true)
    ensures SomePositive(reqs) <==> positives != []
  {
    if req :| req in reqs && Positive(req) {
      var i :| 0 <= i < |reqs| && reqs[i] == req;
      assert ops[i] in positives;
    }
    if positives != [] {
      assert positives[0] in positives;
      var i: nat :| PickedAt(reqs, ops, true, i, positives[0]);
      assert reqs[i] in reqs;
    }
  }

  /** Being in all the positive operators and in none of the negative ones, by position. */
  lemma SignsAgree(reqs: seq<Requirement>, ops: seq<DynOp>, positives: seq<DynOp>, negatives: seq<DynOp>, e: Elem)
    requires |reqs| == |ops| && ArePicked(positives, reqs, ops, true) && ArePicked(negatives, reqs, ops, false)
    ensures (forall p :: p in positives ==> In(p, e)) && (forall n :: n in negatives ==> !In(n, e)) <==>
              forall i :: 0 <= i < |ops| ==> (In(ops[i], e) <==> Positive(reqs[i]))
  {
    assert forall i :: 0 <= i < |ops| ==> ops[i] in if Positive(reqs[i]) then positives else negatives;
    forall p | p in positives && forall i :: 0 <= i < |ops| ==> (In(ops[i], e) <==> Positive(reqs[i]))
      ensures In(p, e)
    {
      var i: nat :| PickedAt(reqs, ops, true, i, p);
    }
    forall n | n in negatives && forall i :: 0 <= i < |ops| ==> (In(ops[i], e) <==> Positive(reqs[i]))
      ensures !In(n, e)
    {
      var i: nat :| PickedAt(reqs, ops, false, i, n);
    }
  }

  lemma BuiltAlgebra(root: DynOp, reqs: seq<Requirement>, ops: seq<DynOp>, leaves: seq<seq<DynOp>>)
    requires root.Valid() && Built(root, reqs, ops, leaves)
    ensures forall i :: 0 <= i < |ops| ==> ops[i].Valid()
    ensures forall e :: In(root, e) <==>
              && (SomePositive(reqs) || e == Infinite)
              && forall i :: 0 <= i < |ops| ==> (In(ops[i], e) <==> Positive(reqs[i]))
  {
    hide Root, Fits, SomePositive, In;
    var positives, negatives := Picked(reqs, ops, true), Picked(reqs, ops, false);
    PickedAre(reqs, ops, true);
    PickedAre(reqs, ops, false);
    PickedSome(reqs, ops, positives);
    RootAlgebra(root, positives, negatives);
    forall i | 0 <= i < |ops| ensures ops[i].Valid() {
      assert ops[i] in if Positive(reqs[i]) then positives else negatives;
    }
    forall e ensures In(root, e) <==>
        (SomePositive(reqs) || e == Infinite) && forall i :: 0 <= i < |ops| ==> (In(ops[i], e) <==> Positive(reqs[i]))
    {
      SignsAgree(reqs, ops, positives, negatives, e);
    }
  }

  /** With something positive among the requirements, the value of the tree is the set of runtimes
      for which all of them hold; with nothing positive it is everything, whatever the others say. */
  lemma TreeMeetsRequirements(root: DynOp, reqs: seq<Requirement>, ops: seq<DynOp>, leaves: seq<seq<DynOp>>,
                              world: World)
    requires root.Valid() && Built(root, reqs, ops, leaves) && AllComplete(reqs, leaves, world)
    ensures SomePositive(reqs) ==>
              !In(root, Infinite) && forall x :: In(root, Node(x)) <==> AllHold(reqs, FactsOf(world, x))
    ensures !SomePositive(reqs) ==> In(root, Infinite) && forall x :: !In(root, Node(x))
  {
    hide Root, Fits, Asks, AnyHolds, Answers, Picked;
    BuiltAlgebra(root, reqs, ops, leaves);
    forall i | 0 <= i < |reqs|
      ensures ops[i].Valid() && !In(ops[i], Infinite)
      ensures forall x :: In(ops[i], Node(x)) <==> Asks(reqs[i], FactsOf(world, x))
    {
      assert Complete(reqs[i], leaves[i], world);
      OpAlgebra(ops[i], reqs[i], leaves[i], world);
    }
    if SomePositive(reqs) {
      var req :| req in reqs && Positive(req);
      var i :| 0 <= i < |reqs| && reqs[i] == req;
      assert !In(ops[i], Infinite);
    } else {
      assert forall i :: 0 <= i < |reqs| ==> reqs[i] in reqs && !Positive(reqs[i]);
    }
    forall x | SomePositive(reqs) ensures In(root, Node(x)) <==> AllHold(reqs, FactsOf(world, x)) {
      AllHoldSigned(reqs, FactsOf(world, x));
    }
  }

  lemma AllHoldSigned(reqs: seq<Requirement>, facts: Facts)
    ensures AllHold(reqs, facts) <==> forall i :: 0 <= i < |reqs| ==> (Asks(reqs[i], facts) <==> Positive(reqs[i]))
  {
    assert forall i :: 0 <= i < |reqs| ==> (Holds(reqs[i], facts) <==> (Asks(reqs[i], facts) <==> Positive(reqs[i])));
    assert forall i :: 0 <= i < |reqs| ==> reqs[i] in reqs;
  }

  /* ----- building the tree ----- */

  ghost predicate Unrelated(ops: seq<DynOp>) {
    forall i, j :: 0 <= i < j < |ops| ==> Apart(ops[i], ops[j])
  }

  /** Operators that nothing has been drawn from. */
  ghost predicate Unused(ops: seq<DynOp>)
    reads ops, set i, o | 0 <= i < |ops| && o in ops[i].repr :: o
  {
    forall i :: 0 <= i < |ops| ==> ops[i].Valid() && ops[i].view.out == []
  }

  ghost predicate Within(ops: seq<DynOp>, footprint: set<DynOp>) {
    forall i :: 0 <= i < |ops| ==> ops[i].repr <= footprint
  }

  /** Operators ready to be combined, and all that is below them. */
  ghost predicate Ready(ops: seq<DynOp>, footprint: set<DynOp>)
    reads ops, set i, o | 0 <= i < |ops| && o in ops[i].repr :: o
  {
    Unrelated(ops) && Unused(ops) && Within(ops, footprint)
  }

  /** One more operator that has nothing in common with the others. */
  lemma ReadyMore(ops: seq<DynOp>, footprint: set<DynOp>, op: DynOp)
    requires Ready(ops, footprint) && Ready([op], op.repr) && op.repr !! footprint
    ensures Ready(ops + [op], footprint + op.repr) && Ready([op] + ops, footprint + op.repr)
  {
    forall more | more == ops + [op] || more == [op] + ops ensures Ready(more, footprint + op.repr) {
      forall i | 0 <= i < |more| ensures more[i] == op || more[i] in ops {}
      assert [op][0] == op;
    }
  }

  /** The union over the predicates among its members; each starts with an empty List. */
  method BuildUnionMatch(members: seq<Member>) returns (op: DynOp)
    ensures fresh(op.repr) && op.Valid() && op.view.out == [] && Fits(op, UnionGroup(members), op.iters)
  {
    var leaves: seq<DynOp> := [];
    var k := 0;
    while k < |members|
      invariant k <= |members| && |leaves| == |Options(members[..k])|
      invariant Unrelated(leaves) && Unused(leaves)
      invariant forall i :: 0 <= i < |leaves| ==> leaves[i].kind == List && fresh(leaves[i].repr)
    {
      assert members[..k + 1][..k] == members[..k];
      if members[k].Alternative? {
        var leaf := new DynOp.MakeList([]);
        leaves := leaves + [leaf];
      }
      k := k + 1;
    }
    assert members[..k] == members;
    op := new DynOp.Combine(Union, leaves);
  }

  method BuildRequirement(req: Requirement) returns (op: DynOp, ghost leaves: seq<DynOp>)
    ensures fresh(op.repr) && Ready([op], op.repr) && Fits(op, req, leaves)
  {
    if req.UnionGroup? {
      op := BuildUnionMatch(req.members);
      leaves := op.iters;
    } else {
      op := new DynOp.MakeList([]);
      leaves := [op];
    }
  }

  ghost predicate BuiltSoFar(reqs: seq<Requirement>, ops: seq<DynOp>, leaves: seq<seq<DynOp>>, positives: seq<DynOp>,
                             negatives: seq<DynOp>) {
    && |ops| == |leaves| == |reqs|
    && (forall i :: 0 <= i < |reqs| ==> Fits(ops[i], reqs[i], leaves[i]))
    && positives == Picked(reqs, ops, true) && negatives == Picked(reqs, ops, false)
  }

  lemma BuiltMore(reqs: seq<Requirement>, i: nat, ops: seq<DynOp>, leaves: seq<seq<DynOp>>, positives: seq<DynOp>,
                  negatives: seq<DynOp>,
                  op: DynOp, ls: seq<DynOp>)
    requires i < |reqs| && BuiltSoFar(reqs[..i], ops, leaves, positives, negatives) && Fits(op, reqs[i], ls)
    ensures BuiltSoFar(reqs[..i + 1], ops + [op], leaves + [ls],
                       if Positive(reqs[i]) then positives + [op] else positives,
                       if Positive(reqs[i]) then negatives else negatives + [op])
  {
    hide Fits;
    assert reqs[..i + 1][..i] == reqs[..i] && (ops + [op])[..i] == ops;
  }

  /** All positive requirements together, without those that meet a negative one. */
  method BuildMatch(reqs: seq<Requirement>) returns (root: DynOp, ghost ops: seq<DynOp>, ghost leaves: seq<seq<DynOp>>)
    ensures fresh(root.repr) && root.Valid() && root.view.out == [] && Built(root, reqs, ops, leaves)
  {
    hide DynOp.Valid, Root, Ready, Fits, Picked;
    var positives: seq<DynOp>, negatives: seq<DynOp> := [], [];
    ghost var below: set<DynOp>, removed: set<DynOp> := {}, {};
    ops, leaves := [], [];
    NothingReady();
    var i := 0;
    while i < |reqs|
      invariant i <= |reqs| && BuiltSoFar(reqs[..i], ops, leaves, positives, negatives)
      invariant Ready(positives, below) && Ready(negatives, removed) && below !! removed && fresh(below)
      invariant fresh(removed)
    {
      var op: DynOp, ls := BuildRequirement(reqs[i]);
      BuiltMore(reqs, i, ops, leaves, positives, negatives, op, ls);
      ops, leaves := ops + [op], leaves + [ls];
      if Positive(reqs[i]) {
        ReadyMore(positives, below, op);
        positives, below := positives + [op], below + op.repr;
      } else {
        ReadyMore(negatives, removed, op);
        negatives, removed := negatives + [op], removed + op.repr;
      }
      i := i + 1;
    }
    assert reqs[..i] == reqs;
    root := BuildRoot(positives, negatives, below, removed);
  }

  lemma NothingReady()
    ensures Ready([], {}) && BuiltSoFar([], [], [], [], [])
  {
  }

  method BuildRoot(positives: seq<DynOp>, negatives: seq<DynOp>, ghost below: set<DynOp>, ghost removed: set<DynOp>)
      returns (root: DynOp)
    requires Ready(positives, below) && Ready(negatives, removed) && below !! removed
    ensures root.Valid() && root.view.out == [] && Root(root, positives, negatives)
    ensures fresh(root.repr - below - removed)
  {
    var joined: DynOp;
    if positives == [] {
      joined := new DynOp.MakeEverything();
    } else {
      joined := new DynOp.Combine(Intersection, positives);
    }
    root := joined;
    if negatives != [] {
      ReadyMore(negatives, removed, joined);
      root := new DynOp.Combine(Difference, [joined] + negatives);
    }
  }

  /* ----- collecting ----- */

  function Elems(out: seq<Elem>): set<Elem> {
    set e | e in out
  }

  /** What the callback is given: the placements, and whether there are any. */
  datatype Call = Call(placements: set<Elem>, found: bool)

  datatype Timer = Idle | Delayed(milliseconds: nat)

  function Nodes(ids: set<string>): set<Elem> {
    set id | id in ids :: Node(id)
  }

  class ReqMatch {
    const requirements: seq<Requirement>
    const replaceInfinite: bool
    const nodeIter: DynOp
    /** The operator of each requirement, and the Lists it combines. */
    ghost const ops: seq<DynOp>
    ghost const leaves: seq<seq<DynOp>>

    var possiblePlacements: set<Elem>
    var done: bool
    var counter: nat
    var lastValue: nat
    var timer: Timer
    /** The invocations of the callback. */
    var calls: seq<Call>
    /** The runtimes that were known when the matching was done. */
    ghost var knownIds: set<string>

    /** Everything but the first round of collecting. */
    constructor (requirements: seq<Requirement>, replaceInfinite: bool)
      ensures Valid() && fresh(nodeIter.repr) && !done && calls == [] && timer.Idle?
      ensures this.requirements == requirements && this.replaceInfinite == replaceInfinite
    {
      this.requirements, this.replaceInfinite := requirements, replaceInfinite;
      var root: DynOp, ops: seq<DynOp>, leaves: seq<seq<DynOp>> := BuildMatch(requirements);
      nodeIter, this.ops, this.leaves := root, ops, leaves;
      possiblePlacements, done, counter, lastValue, timer, calls := {}, false, 0, 0, Idle, [];
      knownIds := {};
    }

    ghost predicate Valid()
      reads this, nodeIter, nodeIter.repr
    {
      && nodeIter.Valid() && Built(nodeIter, requirements, ops, leaves)
      && (!done ==> calls == [] && possiblePlacements == Elems(nodeIter.view.out))
      && (done ==> Finished() && timer.Idle?)
    }

    /** Nothing more can come, and the callback was invoked once, with what there is. */
    ghost predicate Finished()
      reads this, nodeIter
    {
      && nodeIter.view.decided && Drained(nodeIter.view)
      && possiblePlacements == (if replaceInfinite && Infinite in nodeIter.view.out then Nodes(knownIds)
                                else Elems(nodeIter.view.out))
      && calls == [Call(possiblePlacements, possiblePlacements != {})]
    }

    /** Called when something may have arrived, and by the timer. */
    method CollectPlacements(known: set<string>)
      requires Valid()
      modifies this, nodeIter.repr
      ensures Valid()
      ensures old(done) ==> done && calls == old(calls) && possiblePlacements == old(possiblePlacements)
      ensures done <==> old(nodeIter.view.decided)
      ensures !done ==> Drained(nodeIter.view) && old(possiblePlacements) <= possiblePlacements
      ensures !done ==> timer == Delayed(if old(counter) > lastValue + 100 then 0 else 200)
      ensures !done ==> counter == old(counter) + 1
      ensures lastValue == old(lastValue)
      ensures !old(done) && done ==>
                && knownIds == known && calls == [Call(possiblePlacements, possiblePlacements != {})]
                && possiblePlacements == if replaceInfinite && Infinite in nodeIter.view.out
                                         then set id | id in known :: Node(id)
                                         else set e | e in nodeIter.view.out
      ensures !old(done) && done && requirements == [] && replaceInfinite ==>
                calls == [Call(set id | id in known :: Node(id), known != {})]
      ensures nodeIter.view.known == old(nodeIter.view.known) && nodeIter.view.decided == old(nodeIter.view.decided)
    {
      hide DynOp.Valid, Built, Drained;
      timer := Idle;
      if done {
        return;
      }
      while true
        invariant Valid() && !done && timer.Idle? && calls == []
        invariant counter == old(counter) && lastValue == old(lastValue)
        invariant nodeIter.view.known == old(nodeIter.view.known) && nodeIter.view.decided == old(nodeIter.view.decided)
        invariant old(possiblePlacements) <= possiblePlacements
        decreases nodeIter.view.left
      {
        var r := nodeIter.Next();
        match r {
          case Element(e) =>
            possiblePlacements := possiblePlacements + {e};
          case Pause =>
            var delay := if counter > lastValue + 100 then 0 else 200;
            counter := counter + 1;
            timer := Delayed(delay);
            return;
          case Stop =>
            NothingAsked();
            done := true;
            if replaceInfinite && Infinite in possiblePlacements {
              possiblePlacements := Nodes(known);
            }
            knownIds := known;
            calls := calls + [Call(possiblePlacements, possiblePlacements != {})];
            if known != {} {
              var id :| id in known;
              assert Node(id) in Nodes(known);
            }
            return;
        }
      }
    }

    /** Without requirements everything is answered. */
    lemma NothingAsked()
      requires Valid() && nodeIter.view.decided && Drained(nodeIter.view)
      ensures requirements == [] ==> Infinite in nodeIter.view.out
    {
      BuiltAlgebra(nodeIter, requirements, ops, leaves);
      nodeIter.StoppedIsAlgebra();
    }

    /** More runtimes, and perhaps the last ones, for one of the predicates. */
    method Arrive(path: seq<nat>, ids: seq<string>, last: bool)
      requires Valid() && nodeIter.IsPath(path)
      modifies nodeIter.repr
      ensures Valid() && Arrived(old(nodeIter.view), nodeIter.view)
    {
      nodeIter.Arrive(path, seq(|ids|, i requires 0 <= i < |ids| => Node(ids[i])), last);
    }

    /** When every predicate has all its answers, the next call is the last one. */
    lemma CompleteIsDecided()
      requires Valid()
      ensures nodeIter.view.decided <==> nodeIter.AllFinal()
    {
      nodeIter.DecidedWhenFinal();
    }

    /** The runtimes that are found are those that meet all requirements, if any of these is positive. */
    lemma FoundMeetRequirements(world: World)
      requires Valid() && done && AllComplete(requirements, leaves, world)
      ensures SomePositive(requirements) ==>
                && Infinite !in possiblePlacements
                && forall x :: Node(x) in possiblePlacements <==> AllHold(requirements, FactsOf(world, x))
      ensures !SomePositive(requirements) ==>
                possiblePlacements == if replaceInfinite then Nodes(knownIds) else {Infinite}
    {
      TreeMeetsRequirements(nodeIter, requirements, ops, leaves, world);
      nodeIter.StoppedIsAlgebra();
      if !SomePositive(requirements) {
        assert forall e: Elem :: e.Node? ==> e == Node(e.id);
        assert Elems(nodeIter.view.out) == {Infinite};
      }
    }

    /** If nothing positive is asked, the callback was given the runtimes that were known, and nothing else. */
    lemma AllKnownAreFound(world: World)
      requires Valid() && done && AllComplete(requirements, leaves, world)
      requires replaceInfinite && !SomePositive(requirements)
      ensures calls == [Call(set id | id in knownIds :: Node(id), knownIds != {})]
    {
      FoundMeetRequirements(world);
      if knownIds != {} {
        var id :| id in knownIds;
        assert Node(id) in Nodes(knownIds);
      }
    }

    /** The placements among the known runtimes are those that meet all requirements. */
    ghost predicate FoundRight(world: World)
      reads this
    {
      forall x :: x in knownIds ==> (Node(x) in possiblePlacements <==> AllHold(requirements, FactsOf(world, x)))
    }

    /** They are if some requirement is positive, or if no known runtime has anything that is to be
        excluded, and not otherwise. */
    lemma FoundRightExactly(world: World)
      requires Valid() && done && replaceInfinite && AllComplete(requirements, leaves, world)
      ensures FoundRight(world) <==> SomePositive(requirements) || NothingExcluded(requirements, world, knownIds)
    {
      hide Built, Finished, AllComplete, AllHold, NothingExcluded, DynOp.Valid;
      FoundMeetRequirements(world);
      if !SomePositive(requirements) {
        forall x ensures AllHold(requirements, FactsOf(world, x)) <==> NothingExcluded(requirements, world, {x}) {
          ExcludedOne(requirements, world, x);
        }
        ExcludedEach(requirements, world, knownIds);
      }
    }
  }

  /** No predicate that is asked about holds for any of the runtimes. */
  ghost predicate NothingExcluded(reqs: seq<Requirement>, world: World, ids: set<string>) {
    forall req, x :: req in reqs && x in ids ==> !Asks(req, FactsOf(world, x))
  }

  lemma ExcludedOne(reqs: seq<Requirement>, world: World, x: string)
    requires !SomePositive(reqs)
    ensures AllHold(reqs, FactsOf(world, x)) <==> NothingExcluded(reqs, world, {x})
  {
    assert forall req :: req in reqs ==>
             !Positive(req) && (Holds(req, FactsOf(world, x)) <==> !Asks(req, FactsOf(world, x)));
  }

  lemma ExcludedEach(reqs: seq<Requirement>, world: World, ids: set<string>)
    ensures NothingExcluded(reqs, world, ids) <==> forall x :: x in ids ==> NothingExcluded(reqs, world, {x})
  {
    if forall x :: x in ids ==> NothingExcluded(reqs, world, {x}) {
      forall req, x | req in reqs && x in ids ensures !Asks(req, FactsOf(world, x)) {
        assert NothingExcluded(reqs, world, {x});
      }
    }
  }

  /** A runtime is found although the only requirement excludes it. */
  lemma OnlyNegative(m: ReqMatch, p: Predicate, world: World, x: string)
    requires m.Valid() && m.done && m.replaceInfinite && m.requirements == [Simple(p, false)]
    requires AllComplete(m.requirements, m.leaves, world)
    requires x in m.knownIds && x in world(p)
    ensures Node(x) in m.possiblePlacements && !AllHold(m.requirements, FactsOf(world, x))
  {
    m.FoundMeetRequirements(world);
    assert !Holds(m.requirements[0], FactsOf(world, x));
  }

  /** Some part of the rule asks for runtimes instead of excluding them. */
  predicate Affirms(r: Rule) {
    match r
    case Pred(_) => true
    case Named(_) => false
    case And(left, right) => Affirms(left) || Affirms(right)
    case Or(_, _) => true
    case Not(_) => false
  }

  lemma {:induction false} AffirmsExactly(r: Rule)
    requires !Mangle(r).Raised?
    ensures Affirms(r) <==> SomePositive(AsList(Mangle(r)))
  {
    match r
    case Pred(p) => assert Simple(p, true) in AsList(Mangle(r));
    case Named(_) =>
    case And(left, right) =>
      AffirmsExactly(left);
      AffirmsExactly(right);
      var ls, rs := AsList(Mangle(left)), AsList(Mangle(right));
      assert forall req :: req in ls + rs <==> req in ls || req in rs;
    case Or(left, right) =>
      assert Mangle(r).req in AsList(Mangle(r));
    case Not(_) =>
  }

  /** From a rule to its runtimes: for plain rules that affirm something, matching finds exactly the
      runtimes of which the rule is true, whatever the order in which answers came in. */
  lemma FoundSatisfyRule(m: ReqMatch, r: Rule, world: World)
    requires Plain(r) && Affirms(r) && !Mangle(r).Raised? && m.requirements == AsList(Mangle(r))
    requires m.Valid() && m.done && AllComplete(m.requirements, m.leaves, world)
    ensures Infinite !in m.possiblePlacements
    ensures forall x :: Node(x) in m.possiblePlacements <==> Sat(r, FactsOf(world, x))
  {
    AffirmsExactly(r);
    m.FoundMeetRequirements(world);
    forall x ensures Node(x) in m.possiblePlacements <==> Sat(r, FactsOf(world, x)) {
      MangleKeepsMeaning(r, FactsOf(world, x));
    }
  }

  /** The same for every rule that can be lowered and affirms something: what is found are the runtimes of
      which the lowered rule is true. */
  lemma FoundSatisfyLowered(m: ReqMatch, r: Rule, world: World)
    requires NegatesPredicates(r) && Affirms(r) && !Mangle(r).Raised? && m.requirements == AsList(Mangle(r))
    requires m.Valid() && m.done && AllComplete(m.requirements, m.leaves, world)
    ensures Infinite !in m.possiblePlacements
    ensures forall x :: Node(x) in m.possiblePlacements <==> LoweredSat(r, FactsOf(world, x))
  {
    AffirmsExactly(r);
    m.FoundMeetRequirements(world);
    forall x ensures Node(x) in m.possiblePlacements <==> LoweredSat(r, FactsOf(world, x)) {
      MangleMeansExactly(r, FactsOf(world, x));
    }
  }
}
