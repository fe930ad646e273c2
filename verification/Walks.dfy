/** Connections as walks: from a real port over links, in and out of hull ports, to a real port. */
module Walks {
  import opened GraphSyntax
  import opened Connectivity
  import opened Splicing
  import opened LinkWeights
  import opened SpliceLevels
  import opened FlattenConnectivity
  import opened FlattenNames

  /** One link of a walk, in the nested block that the path of names leads to. */
  datatype Step = Step(path: seq<string>, link: Link)

  ghost predicate IsAt(b: Block, path: seq<string>, c: Block)
    decreases |path|
  {
    if path == [] then c == b else exists d :: d in b.blocks && d.ns == path[0] && IsAt(d, path[1..], c)
  }

  ghost predicate StepIn(b: Block, s: Step) {
    exists c :: IsAt(b, s.path, c) && s.link in c.links
  }

  /** From an inport of an instance to the inside of its hull. */
  predicate Enters(s: Step, t: Step) {
    s.link.inport.In? && t.path == s.path + [s.link.inport.actor] && t.link.outport == InternalOut(s.link.inport.port)
  }

  /** From the inside of a hull to an outport of the instance. */
  predicate Leaves(s: Step, t: Step) {
    s.link.inport.InternalIn? && s.path != [] && t.path == s.path[..|s.path| - 1] &&
    t.link.outport == Out(s.path[|s.path| - 1], s.link.inport.port)
  }

  predicate Follows(s: Step, t: Step) {
    Enters(s, t) || Leaves(s, t)
  }

  ghost predicate Walk(b: Block, w: seq<Step>) {
    && w != []
    && (forall i :: 0 <= i < |w| ==> StepIn(b, w[i]))
    && (forall i :: 0 <= i < |w| - 1 ==> Follows(w[i], w[i + 1]))
  }

  ghost predicate NoInstance(b: Block, name: string) {
    forall c :: c in b.blocks ==> c.ns != name
  }

  /** The step starts at a port of an actor, or at the hull of the whole block; seen from there, the port is out. */
  ghost predicate StartsAt(b: Block, s: Step, out: OutPort)
    decreases |s.path|
  {
    if s.path == [] then s.link.outport == out && (out.Out? ==> NoInstance(b, out.actor))
    else
      && s.link.outport.Out?
      && exists d, o ::
           d in b.blocks && d.ns == s.path[0] && StartsAt(d, Step(s.path[1..], s.link), o) && out == PromoteOut(d.ns, o)
  }

  ghost predicate EndsAt(b: Block, s: Step, end: InPort)
    decreases |s.path|
  {
    if s.path == [] then s.link.inport == end && (end.In? ==> NoInstance(b, end.actor))
    else
      && s.link.inport.In?
      && exists d, i ::
           d in b.blocks && d.ns == s.path[0] && EndsAt(d, Step(s.path[1..], s.link), i) && end == PromoteIn(d.ns, i)
  }

  /** The walk joins the two ends of x. */
  ghost predicate Connects(b: Block, w: seq<Step>, x: Link) {
    Walk(b, w) && StartsAt(b, w[0], x.outport) && EndsAt(b, w[|w| - 1], x.inport)
  }

  /* ----- what is resolved, exactly ----- */

  ghost predicate OutVia(b: Block, o: OutPort, out: OutPort) {
    || (out == o && (o.Out? ==> NoInstance(b, o.actor)))
    || (o.Out? && exists c, l :: c in b.blocks && c.ns == o.actor && l in Resolve(c) &&
                    l.inport == InternalIn(o.port) && out == PromoteOut(c.ns, l.outport))
  }

  ghost predicate InVia(b: Block, i: InPort, end: InPort) {
    || (end == i && (i.In? ==> NoInstance(b, i.actor)))
    || (i.In? && exists c, l :: c in b.blocks && c.ns == i.actor && l in Resolve(c) &&
                   l.outport == InternalOut(i.port) && end == PromoteIn(c.ns, l.inport))
  }

  lemma {:induction false} OutEndsOf(o: OutPort, blocks: seq<Block>, c: Block)
    requires o.Out? && DistinctNames(blocks) && c in blocks && c.ns == o.actor
    ensures OutEnds(o, blocks) == Sources(c.ns, o.port, Resolve(c))
    decreases blocks
  {
    if blocks[0].ns == o.actor {
      var i :| 0 <= i < |blocks| && blocks[i] == c;
      assert i == 0;
    } else {
      OutEndsOf(o, blocks[1..], c);
    }
  }

  lemma {:induction false} InEndsOf(i: InPort, blocks: seq<Block>, c: Block)
    requires i.In? && DistinctNames(blocks) && c in blocks && c.ns == i.actor
    ensures InEnds(i, blocks) == Sinks(c.ns, i.port, Resolve(c))
    decreases blocks
  {
    if blocks[0].ns == i.actor {
      var k :| 0 <= k < |blocks| && blocks[k] == c;
      assert k == 0;
    } else {
      InEndsOf(i, blocks[1..], c);
    }
  }

  lemma {:induction false} OutEndsOfReal(o: OutPort, blocks: seq<Block>)
    requires o.Out? ==> forall c :: c in blocks ==> c.ns != o.actor
    ensures OutEnds(o, blocks) == [o]
    decreases blocks
  {
    if o.Out? && blocks != [] {
      assert blocks[0] in blocks;
      OutEndsOfReal(o, blocks[1..]);
    }
  }

  lemma {:induction false} InEndsOfReal(i: InPort, blocks: seq<Block>)
    requires i.In? ==> forall c :: c in blocks ==> c.ns != i.actor
    ensures InEnds(i, blocks) == [i]
    decreases blocks
  {
    if i.In? && blocks != [] {
      assert blocks[0] in blocks;
      InEndsOfReal(i, blocks[1..]);
    }
  }

  lemma OutViaExactly(b: Block, o: OutPort, out: OutPort)
    requires DistinctNames(b.blocks)
    ensures out in OutEnds(o, b.blocks) <==> OutVia(b, o, out)
  {
    if o.Out? && !NoInstance(b, o.actor) {
      var c :| c in b.blocks && c.ns == o.actor;
      OutEndsOf(o, b.blocks, c);
      SourcesExactly(out, c.ns, o.port, Resolve(c));
      SameBlock(b.blocks, c);
    } else {
      OutEndsOfReal(o, b.blocks);
    }
  }

  lemma InViaExactly(b: Block, i: InPort, end: InPort)
    requires DistinctNames(b.blocks)
    ensures end in InEnds(i, b.blocks) <==> InVia(b, i, end)
  {
    if i.In? && !NoInstance(b, i.actor) {
      var c :| c in b.blocks && c.ns == i.actor;
      InEndsOf(i, b.blocks, c);
      SinksExactly(end, c.ns, i.port, Resolve(c));
      SameBlock(b.blocks, c);
    } else {
      InEndsOfReal(i, b.blocks);
    }
  }

  lemma SameBlock(blocks: seq<Block>, c: Block)
    requires DistinctNames(blocks) && c in blocks
    ensures forall d :: d in blocks && d.ns == c.ns ==> d == c
  {
    var i :| 0 <= i < |blocks| && blocks[i] == c;
    forall d | d in blocks && d.ns == c.ns ensures d == c {
      var j :| 0 <= j < |blocks| && blocks[j] == d;
    }
  }

  ghost predicate ResolvedInside(b: Block, x: Link) {
    exists c, l :: c in b.blocks && l in Resolve(c) && l.Crossing() && x == PromoteLink(c.ns, l)
  }

  ghost predicate ResolvedAcross(b: Block, l: Link, x: Link) {
    l in b.links && OutVia(b, l.outport, x.outport) && InVia(b, l.inport, x.inport)
  }

  lemma ResolveExactly(b: Block, x: Link)
    requires DistinctNames(b.blocks)
    ensures x in Resolve(b) <==> ResolvedInside(b, x) || exists l :: ResolvedAcross(b, l, x)
  {
    InChase(x, b.links, b.blocks);
    InInside(x, b.blocks);
    forall l | l in b.links
      ensures x.outport in OutEnds(l.outport, b.blocks) && x.inport in InEnds(l.inport, b.blocks) <==>
                ResolvedAcross(b, l, x)
    {
      OutViaExactly(b, l.outport, x.outport);
      InViaExactly(b, l.inport, x.inport);
    }
    if x in Chase(b.links, b.blocks) {
      var l :| l in b.links && x.outport in OutEnds(l.outport, b.blocks) && x.inport in InEnds(l.inport, b.blocks);
      assert ResolvedAcross(b, l, x);
    }
    if l :| ResolvedAcross(b, l, x) {
      assert l in b.links;
    }
  }

  /* ----- every resolved connection is a walk ----- */

  function LiftStep(ns: string, s: Step): Step {
    Step([ns] + s.path, s.link)
  }

  function Lift(ns: string, w: seq<Step>): seq<Step> {
    seq(|w|, i requires 0 <= i < |w| => LiftStep(ns, w[i]))
  }

  lemma LiftedStepIn(b: Block, c: Block, s: Step)
    requires c in b.blocks && StepIn(c, s)
    ensures StepIn(b, LiftStep(c.ns, s))
  {
    var d :| IsAt(c, s.path, d) && s.link in d.links;
    assert LiftStep(c.ns, s).path[1..] == s.path;
    assert IsAt(b, LiftStep(c.ns, s).path, d);
  }

  lemma LiftedFollows(ns: string, s: Step, t: Step)
    requires Follows(s, t)
    ensures Follows(LiftStep(ns, s), LiftStep(ns, t))
  {
    var s', t' := LiftStep(ns, s), LiftStep(ns, t);
    if Enters(s, t) {
      assert t'.path == s'.path + [s.link.inport.actor];
    } else {
      assert t'.path == s'.path[..|s'.path| - 1];
      assert s'.path[|s'.path| - 1] == s.path[|s.path| - 1];
    }
  }

  lemma LiftedWalk(b: Block, c: Block, w: seq<Step>)
    requires c in b.blocks && Walk(c, w)
    ensures Walk(b, Lift(c.ns, w))
  {
    var w' := Lift(c.ns, w);
    forall i | 0 <= i < |w'| ensures StepIn(b, w'[i]) {
      LiftedStepIn(b, c, w[i]);
    }
    forall i | 0 <= i < |w'| - 1 ensures Follows(w'[i], w'[i + 1]) {
      LiftedFollows(c.ns, w[i], w[i + 1]);
    }
  }

  lemma LiftedStart(b: Block, c: Block, s: Step, o: OutPort)
    requires c in b.blocks && StartsAt(c, s, o) && o.Out?
    ensures StartsAt(b, LiftStep(c.ns, s), PromoteOut(c.ns, o))
  {
    StartIsOut(c, s, o);
    assert LiftStep(c.ns, s).path[1..] == s.path && Step(s.path, s.link) == s;
  }

  lemma LiftedEnd(b: Block, c: Block, s: Step, i: InPort)
    requires c in b.blocks && EndsAt(c, s, i) && i.In?
    ensures EndsAt(b, LiftStep(c.ns, s), PromoteIn(c.ns, i))
  {
    EndIsIn(c, s, i);
    assert LiftStep(c.ns, s).path[1..] == s.path && Step(s.path, s.link) == s;
  }

  lemma {:induction false} StartIsOut(b: Block, s: Step, o: OutPort)
    requires StartsAt(b, s, o)
    ensures o.Out? <==> s.link.outport.Out?
    ensures !o.Out? ==> s.path == [] && s.link.outport == o
    decreases |s.path|
  {
    if s.path != [] {
      var d, o' :| d in b.blocks && d.ns == s.path[0] && StartsAt(d, Step(s.path[1..], s.link), o') &&
        o == PromoteOut(d.ns, o');
      StartIsOut(d, Step(s.path[1..], s.link), o');
    }
  }

  lemma {:induction false} EndIsIn(b: Block, s: Step, i: InPort)
    requires EndsAt(b, s, i)
    ensures i.In? <==> s.link.inport.In?
    ensures !i.In? ==> s.path == [] && s.link.inport == i
    decreases |s.path|
  {
    if s.path != [] {
      var d, i' :| d in b.blocks && d.ns == s.path[0] && EndsAt(d, Step(s.path[1..], s.link), i') &&
        i == PromoteIn(d.ns, i');
      EndIsIn(d, Step(s.path[1..], s.link), i');
    }
  }

  /** What leaves the block through its hull has come from a port of an actor, or from the hull by a link. */
  lemma OutViaKind(b: Block, o: OutPort, out: OutPort)
    requires OutVia(b, o, out) && forall c, l :: c in b.blocks && l in Resolve(c) ==> l.outport.Out? || l.inport.In?
    ensures o.Out? ==> out.Out?
  {
  }

  lemma InViaKind(b: Block, i: InPort, end: InPort)
    requires InVia(b, i, end) && forall c, l :: c in b.blocks && l in Resolve(c) ==> l.outport.Out? || l.inport.In?
    ensures i.In? ==> end.In?
  {
  }

  /** No connection passes straight through a block. */
  lemma {:induction false} ResolvedEndsReal(b: Block, x: Link)
    requires Consistent(b) && x in Resolve(b)
    ensures x.outport.Out? || x.inport.In?
    decreases b
  {
    ResolveExactly(b, x);
    forall c, l | c in b.blocks && l in Resolve(c) ensures l.outport.Out? || l.inport.In? {
      ResolvedEndsReal(c, l);
    }
    if l :| ResolvedAcross(b, l, x) {
      OutViaKind(b, l.outport, x.outport);
      InViaKind(b, l.inport, x.inport);
      assert NoPassthrough(b.links);
    }
  }

  lemma WalkConcat(b: Block, v: seq<Step>, w: seq<Step>)
    requires Walk(b, v) && Walk(b, w) && Follows(v[|v| - 1], w[0])
    ensures Walk(b, v + w)
  {
    var u := v + w;
    forall i | 0 <= i < |u| - 1 ensures Follows(u[i], u[i + 1]) {
      if i < |v| - 1 {
        assert u[i] == v[i] && u[i + 1] == v[i + 1];
      } else if i == |v| - 1 {
        assert u[i] == v[|v| - 1] && u[i + 1] == w[0];
      } else {
        assert u[i] == w[i - |v|] && u[i + 1] == w[i + 1 - |v|];
      }
    }
  }

  lemma WalkIsNonEmpty(b: Block, w: seq<Step>)
    requires Walk(b, w)
    ensures w != []
  {
  }

  lemma SingleStep(b: Block, l: Link)
    requires l in b.links
    ensures Walk(b, [Step([], l)])
  {
    assert IsAt(b, [], b);
  }

  /** The walk up to a link of the block itself. */
  lemma WalkBefore(b: Block, l: Link, out: OutPort) returns (w: seq<Step>)
    requires Consistent(b) && l in b.links && OutVia(b, l.outport, out)
    ensures Walk(b, w) && StartsAt(b, w[0], out) && w[|w| - 1] == Step([], l)
    decreases b, 0
  {
    var mid := Step([], l);
    SingleStep(b, l);
    if out == l.outport && (out.Out? ==> NoInstance(b, out.actor)) {
      w := [mid];
    } else {
      var c, l' :| c in b.blocks && c.ns == l.outport.actor && l' in Resolve(c) &&
        l'.inport == InternalIn(l.outport.port) && out == PromoteOut(c.ns, l'.outport);
      ResolvedEndsReal(c, l');
      var v := ResolvedIsWalk(c, l');
      w := LeaveWalk(b, l, c, v, l');
    }
  }

  /** The walk on from a link of the block itself. */
  lemma WalkAfter(b: Block, l: Link, end: InPort) returns (w: seq<Step>)
    requires Consistent(b) && l in b.links && InVia(b, l.inport, end)
    ensures Walk(b, w) && w[0] == Step([], l) && EndsAt(b, w[|w| - 1], end)
    decreases b, 0
  {
    var mid := Step([], l);
    SingleStep(b, l);
    if end == l.inport && (end.In? ==> NoInstance(b, end.actor)) {
      w := [mid];
    } else {
      var c, l' :| c in b.blocks && c.ns == l.inport.actor && l' in Resolve(c) &&
        l'.outport == InternalOut(l.inport.port) && end == PromoteIn(c.ns, l'.inport);
      ResolvedEndsReal(c, l');
      var v := ResolvedIsWalk(c, l');
      w := EnterWalk(b, l, c, v, l');
    }
  }

  lemma EnterWalk(b: Block, l: Link, c: Block, v: seq<Step>, x: Link) returns (w: seq<Step>)
    requires l in b.links && l.inport.In? && c in b.blocks && c.ns == l.inport.actor && Connects(c, v, x)
    requires x.outport == InternalOut(l.inport.port) && x.inport.In?
    ensures Walk(b, w) && w[0] == Step([], l) && EndsAt(b, w[|w| - 1], PromoteIn(c.ns, x.inport))
  {
    hide Walk, StartsAt, EndsAt;
    var mid := Step([], l);
    SingleStep(b, l);
    LiftedWalk(b, c, v);
    LiftedEnd(b, c, v[|v| - 1], x.inport);
    StartIsOut(c, v[0], x.outport);
    var v' := Lift(c.ns, v);
    assert v'[0] == Step([c.ns], v[0].link);
    assert mid.path + [c.ns] == [c.ns];
    assert Enters(mid, v'[0]);
    WalkConcat(b, [mid], v');
    w := [mid] + v';
  }

  lemma LeaveWalk(b: Block, l: Link, c: Block, v: seq<Step>, x: Link) returns (w: seq<Step>)
    requires l in b.links && l.outport.Out? && c in b.blocks && c.ns == l.outport.actor && Connects(c, v, x)
    requires x.inport == InternalIn(l.outport.port) && x.outport.Out?
    ensures Walk(b, w) && StartsAt(b, w[0], PromoteOut(c.ns, x.outport)) && w[|w| - 1] == Step([], l)
  {
    hide Walk, StartsAt, EndsAt;
    var mid := Step([], l);
    SingleStep(b, l);
    LiftedWalk(b, c, v);
    LiftedStart(b, c, v[0], x.outport);
    EndIsIn(c, v[|v| - 1], x.inport);
    var v' := Lift(c.ns, v);
    assert v'[|v'| - 1] == Step([c.ns], v[|v| - 1].link);
    assert [c.ns][..0] == [];
    assert Leaves(v'[|v'| - 1], mid);
    WalkConcat(b, v', [mid]);
    w := v' + [mid];
  }

  lemma {:induction false} ResolvedIsWalk(b: Block, x: Link) returns (w: seq<Step>)
    requires Consistent(b) && x in Resolve(b)
    ensures Connects(b, w, x)
    decreases b, 1
  {
    ResolveExactly(b, x);
    if ResolvedInside(b, x) {
      var c, l :| c in b.blocks && l in Resolve(c) && l.Crossing() && x == PromoteLink(c.ns, l);
      var v := ResolvedIsWalk(c, l);
      LiftedWalk(b, c, v);
      LiftedStart(b, c, v[0], l.outport);
      LiftedEnd(b, c, v[|v| - 1], l.inport);
      w := Lift(c.ns, v);
    } else {
      var l :| ResolvedAcross(b, l, x);
      var u := WalkBefore(b, l, x.outport);
      var v := WalkAfter(b, l, x.inport);
      w := u[..|u| - 1] + v;
      JoinAtMiddle(b, u, v);
    }
  }

  /** Two walks that meet in a step. */
  lemma JoinAtMiddle(b: Block, u: seq<Step>, v: seq<Step>)
    requires Walk(b, u) && Walk(b, v) && u[|u| - 1] == v[0]
    ensures var w := u[..|u| - 1] + v; Walk(b, w) && w[0] == u[0] && w[|w| - 1] == v[|v| - 1]
  {
    if |u| == 1 {
      assert u[..0] + v == v;
    } else {
      var front := u[..|u| - 1];
      assert Walk(b, front);
      assert Follows(u[|u| - 2], u[|u| - 1]);
      WalkConcat(b, front, v);
    }
  }

  /* ----- every walk is a resolved connection ----- */

  /** No link of a consistent block passes straight through. */
  lemma {:induction false} StepIsReal(b: Block, s: Step)
    requires Consistent(b) && StepIn(b, s)
    ensures s.link.outport.Out? || s.link.inport.In?
    decreases |s.path|
  {
    var c :| IsAt(b, s.path, c) && s.link in c.links;
    if s.path == [] {
      assert NoPassthrough(b.links);
    } else {
      var d :| d in b.blocks && d.ns == s.path[0] && IsAt(d, s.path[1..], c);
      assert StepIn(d, Step(s.path[1..], s.link));
      StepIsReal(d, Step(s.path[1..], s.link));
    }
  }

  /** After entering a hull a walk can only go further in. */
  lemma {:induction false} EntersOn(b: Block, w: seq<Step>, i: nat, j: nat)
    requires Consistent(b) && Walk(b, w) && i <= j < |w| - 1 && Enters(w[i], w[i + 1])
    ensures Enters(w[j], w[j + 1])
    decreases j - i
  {
    if i < j {
      StepIsReal(b, w[i + 1]);
      assert Follows(w[i + 1], w[i + 2]);
      EntersOn(b, w, i + 1, j);
    }
  }

  predicate BelowAll(w: seq<Step>, ns: string) {
    forall i :: 0 <= i < |w| ==> w[i].path != [] && w[i].path[0] == ns
  }

  /** From a link of the block itself a walk goes into one instance and stays there. */
  lemma {:induction false} DownPaths(b: Block, w: seq<Step>, j: nat)
    requires Consistent(b) && Walk(b, w) && w[0].path == [] && 0 < j < |w|
    ensures w[0].link.inport.In? && w[j].path != [] && w[j].path[0] == w[0].link.inport.actor
  {
    assert Follows(w[0], w[1]);
    if j > 1 {
      DownPaths(b, w, j - 1);
      EntersOn(b, w, 0, j - 1);
    }
  }

  /** A walk to a link of the block itself never enters a hull. */
  lemma NeverEnters(b: Block, w: seq<Step>, j: nat)
    requires Consistent(b) && Walk(b, w) && j < |w| - 1 && Enters(w[j], w[j + 1])
    ensures w[|w| - 1].path != []
  {
    EntersOn(b, w, j, |w| - 2);
  }

  /** A walk to a link of the block itself comes out of one instance, and was there from its start. */
  lemma {:induction false} UpPaths(b: Block, w: seq<Step>, j: nat)
    requires Consistent(b) && Walk(b, w) && w[|w| - 1].path == [] && j < |w| - 1
    ensures Leaves(w[j], w[j + 1]) && w[|w| - 1].link.outport.Out?
    ensures w[j].path != [] && w[j].path[0] == w[|w| - 1].link.outport.actor
    decreases |w| - j
  {
    assert Follows(w[j], w[j + 1]);
    if Enters(w[j], w[j + 1]) {
      NeverEnters(b, w, j);
      assert false;
    }
    if j < |w| - 2 {
      UpPaths(b, w, j + 1);
    }
  }

  /** A walk that has no link of the block itself stays in one instance. */
  lemma {:induction false} StaysBelow(b: Block, w: seq<Step>, j: nat)
    requires Walk(b, w) && j < |w| && forall i :: 0 <= i < |w| ==> w[i].path != []
    ensures w[j].path[0] == w[0].path[0]
  {
    if j > 0 {
      StaysBelow(b, w, j - 1);
      assert Follows(w[j - 1], w[j]);
    }
  }

  function DropStep(s: Step): Step
    requires s.path != []
  {
    Step(s.path[1..], s.link)
  }

  function Drop(w: seq<Step>, ns: string): seq<Step>
    requires BelowAll(w, ns)
  {
    seq(|w|, i requires 0 <= i < |w| => DropStep(w[i]))
  }

  lemma DroppedFollows(s: Step, t: Step)
    requires Follows(s, t) && s.path != [] && t.path != []
    ensures Follows(DropStep(s), DropStep(t))
  {
    var s', t' := DropStep(s), DropStep(t);
    if Enters(s, t) {
      assert t'.path == s'.path + [s.link.inport.actor];
    } else {
      assert t'.path == s'.path[..|s'.path| - 1];
    }
  }

  lemma DroppedStepIn(b: Block, c: Block, s: Step)
    requires DistinctNames(b.blocks) && c in b.blocks && StepIn(b, s) && s.path != [] && s.path[0] == c.ns
    ensures StepIn(c, DropStep(s))
  {
    var e :| IsAt(b, s.path, e) && s.link in e.links;
    SameBlock(b.blocks, c);
    assert IsAt(c, DropStep(s).path, e);
  }

  ghost predicate Consecutive(w: seq<Step>) {
    forall i :: 0 <= i < |w| - 1 ==> Follows(w[i], w[i + 1])
  }

  lemma DroppedWalk(b: Block, c: Block, w: seq<Step>)
    requires DistinctNames(b.blocks) && c in b.blocks && BelowAll(w, c.ns) && w != []
    requires Consecutive(w) && forall i :: 0 <= i < |w| ==> StepIn(b, w[i])
    ensures Walk(c, Drop(w, c.ns))
  {
    var w' := Drop(w, c.ns);
    forall i | 0 <= i < |w'| ensures StepIn(c, w'[i]) {
      DroppedStepIn(b, c, w[i]);
    }
    forall i | 0 <= i < |w'| - 1 ensures Follows(w'[i], w'[i + 1]) {
      DroppedFollows(w[i], w[i + 1]);
    }
  }

  lemma DroppedStart(b: Block, c: Block, s: Step, out: OutPort) returns (o: OutPort)
    requires DistinctNames(b.blocks) && c in b.blocks && s.path != [] && s.path[0] == c.ns && StartsAt(b, s, out)
    ensures StartsAt(c, DropStep(s), o) && out == PromoteOut(c.ns, o) && o.Out?
  {
    var d, o' :| d in b.blocks && d.ns == s.path[0] && StartsAt(d, Step(s.path[1..], s.link), o') &&
      out == PromoteOut(d.ns, o');
    SameBlock(b.blocks, c);
    o := o';
    StartIsOut(c, DropStep(s), o);
  }

  lemma DroppedEnd(b: Block, c: Block, s: Step, end: InPort) returns (i: InPort)
    requires DistinctNames(b.blocks) && c in b.blocks && s.path != [] && s.path[0] == c.ns && EndsAt(b, s, end)
    ensures EndsAt(c, DropStep(s), i) && end == PromoteIn(c.ns, i) && i.In?
  {
    var d, i' :| d in b.blocks && d.ns == s.path[0] && EndsAt(d, Step(s.path[1..], s.link), i') &&
      end == PromoteIn(d.ns, i');
    SameBlock(b.blocks, c);
    i := i';
    EndIsIn(c, DropStep(s), i);
  }

  lemma BlockOfStep(b: Block, s: Step) returns (c: Block)
    requires StepIn(b, s) && s.path != []
    ensures c in b.blocks && c.ns == s.path[0]
  {
    var e :| IsAt(b, s.path, e) && s.link in e.links;
    c :| c in b.blocks && c.ns == s.path[0] && IsAt(c, s.path[1..], e);
  }

  lemma SubWalk(b: Block, w: seq<Step>, i: nat, j: nat)
    requires Walk(b, w) && i < j <= |w|
    ensures Walk(b, w[i..j]) && Consecutive(w[i..j])
  {
    var v := w[i..j];
    forall k | 0 <= k < |v| - 1 ensures Follows(v[k], v[k + 1]) {
      assert v[k] == w[i + k] && v[k + 1] == w[i + k + 1];
    }
  }

  /** A walk inside one instance, seen from that instance. */
  lemma InsideOne(b: Block, c: Block, w: seq<Step>)
    requires DistinctNames(b.blocks) && c in b.blocks && Walk(b, w) && BelowAll(w, c.ns)
    ensures var v := Drop(w, c.ns); Walk(c, v) && v[0] == DropStep(w[0]) && v[|v| - 1] == DropStep(w[|w| - 1])
  {
    hide StepIn, Follows;
    DroppedWalk(b, c, w);
  }

  lemma BelowBefore(b: Block, w: seq<Step>) returns (c: Block)
    requires Consistent(b) && Walk(b, w) && |w| > 1 && w[|w| - 1].path == []
    ensures var n := |w| - 1; var l := w[n].link;
            && c in b.blocks && l.outport.Out? && c.ns == l.outport.actor
            && Walk(b, w[..n]) && BelowAll(w[..n], c.ns) && Leaves(w[n - 1], w[n])
  {
    hide StepIn, Follows, Leaves, Consistent;
    var n := |w| - 1;
    UpPaths(b, w, n - 1);
    c := BlockOfStep(b, w[n - 1]);
    SubWalk(b, w, 0, n);
    assert w[..n] == w[0..n];
    forall j | 0 <= j < n ensures w[..n][j].path != [] && w[..n][j].path[0] == c.ns {
      UpPaths(b, w, j);
    }
  }

  lemma BelowAfter(b: Block, w: seq<Step>) returns (c: Block)
    requires Consistent(b) && Walk(b, w) && |w| > 1 && w[0].path == []
    ensures var l := w[0].link;
            && c in b.blocks && l.inport.In? && c.ns == l.inport.actor
            && Walk(b, w[1..]) && BelowAll(w[1..], c.ns) && Enters(w[0], w[1])
  {
    hide StepIn, Leaves, Consistent;
    DownPaths(b, w, 1);
    assert Follows(w[0], w[1]);
    assert !Leaves(w[0], w[1]) by { LeavesFromInside(w[0], w[1]); }
    c := BlockOfStep(b, w[1]);
    SubWalk(b, w, 1, |w|);
    assert w[1..] == w[1..|w|];
    forall j | 0 <= j < |w| - 1 ensures w[1..][j].path != [] && w[1..][j].path[0] == c.ns {
      DownPaths(b, w, j + 1);
    }
  }

  lemma LeavesFromInside(s: Step, t: Step)
    ensures Leaves(s, t) ==> s.path != []
  {
  }

  /** Up to a link of the block itself. */
  lemma {:induction false} BeforeIsVia(b: Block, w: seq<Step>, out: OutPort)
    requires Consistent(b) && Walk(b, w) && w[|w| - 1].path == [] && StartsAt(b, w[0], out)
    ensures OutVia(b, w[|w| - 1].link.outport, out)
    decreases b, 0
  {
    hide Walk, StepIn, Consecutive, BelowAll;
    WalkIsNonEmpty(b, w);
    var n := |w| - 1;
    if n > 0 {
      var l := w[n].link;
      var c := BelowBefore(b, w);
      InsideOne(b, c, w[..n]);
      assert BelowAll(w[..n], c.ns) ==> w[0].path != [] && w[0].path[0] == c.ns by { FirstBelow(w[..n], c.ns); }
      var o := DroppedStart(b, c, w[0], out);
      var v := Drop(w[..n], c.ns);
      EndsInside(b, c, w[n - 1], w[n]);
      WalkIsResolved(c, v, Link(o, InternalIn(l.outport.port)));
      var x := Link(o, InternalIn(l.outport.port));
      assert c in b.blocks && c.ns == l.outport.actor && x in Resolve(c) && x.inport == InternalIn(l.outport.port);
      assert out == PromoteOut(c.ns, x.outport);
    }
  }

  lemma FirstBelow(w: seq<Step>, ns: string)
    requires BelowAll(w, ns) && w != []
    ensures w[0].path != [] && w[0].path[0] == ns
    ensures w[|w| - 1].path != [] && w[|w| - 1].path[0] == ns
  {
  }

  lemma EndsInside(b: Block, c: Block, s: Step, t: Step)
    requires Leaves(s, t) && t.path == []
    ensures EndsAt(c, DropStep(s), InternalIn(t.link.outport.port))
  {
  }

  lemma StartsInside(b: Block, c: Block, s: Step, t: Step)
    requires Enters(s, t) && s.path == []
    ensures StartsAt(c, DropStep(t), InternalOut(s.link.inport.port))
  {
  }

  /** On from a link of the block itself. */
  lemma {:induction false} AfterIsVia(b: Block, w: seq<Step>, end: InPort)
    requires Consistent(b) && Walk(b, w) && w[0].path == [] && EndsAt(b, w[|w| - 1], end)
    ensures InVia(b, w[0].link.inport, end)
    decreases b, 0
  {
    hide Walk, StepIn, Consecutive, BelowAll;
    WalkIsNonEmpty(b, w);
    var n := |w| - 1;
    if n > 0 {
      var l := w[0].link;
      var c := BelowAfter(b, w);
      InsideOne(b, c, w[1..]);
      FirstBelow(w[1..], c.ns);
      assert w[1..][n - 1] == w[n];
      var i := DroppedEnd(b, c, w[n], end);
      var v := Drop(w[1..], c.ns);
      StartsInside(b, c, w[0], w[1]);
      WalkIsResolved(c, v, Link(InternalOut(l.inport.port), i));
      var x := Link(InternalOut(l.inport.port), i);
      assert c in b.blocks && c.ns == l.inport.actor && x in Resolve(c) && x.outport == InternalOut(l.inport.port);
      assert end == PromoteIn(c.ns, x.inport);
    }
  }

  lemma {:induction false} AcrossIsResolved(b: Block, w: seq<Step>, x: Link, k: nat)
    requires Consistent(b) && Connects(b, w, x) && k < |w| && w[k].path == []
    ensures ResolvedAcross(b, w[k].link, x)
    decreases b, 1
  {
    hide StartsAt, EndsAt, OutVia, InVia, Follows;
    SubWalk(b, w, 0, k + 1);
    SubWalk(b, w, k, |w|);
    BeforeIsVia(b, w[0..k + 1], x.outport);
    AfterIsVia(b, w[k..|w|], x.inport);
    assert StepIn(b, w[k]);
  }

  lemma {:induction false} InsideIsResolved(b: Block, w: seq<Step>, x: Link)
    requires Consistent(b) && Connects(b, w, x) && forall i :: 0 <= i < |w| ==> w[i].path != []
    ensures ResolvedInside(b, x)
    decreases b, 1
  {
    hide StartsAt, EndsAt, StepIn, Follows;
    assert StepIn(b, w[0]);
    var c := BlockOfStep(b, w[0]);
    forall j | 0 <= j < |w| ensures w[j].path != [] && w[j].path[0] == c.ns {
      StaysBelow(b, w, j);
    }
    InsideOne(b, c, w);
    var o := DroppedStart(b, c, w[0], x.outport);
    var i := DroppedEnd(b, c, w[|w| - 1], x.inport);
    var l := Link(o, i);
    WalkIsResolved(c, Drop(w, c.ns), l);
    assert c in b.blocks && l in Resolve(c) && l.Crossing() && x == PromoteLink(c.ns, l);
  }

  lemma {:induction false} WalkIsResolved(b: Block, w: seq<Step>, x: Link)
    requires Consistent(b) && Connects(b, w, x)
    ensures x in Resolve(b)
    decreases b, 2
  {
    hide Connects, ResolvedInside;
    ResolveExactly(b, x);
    if k: nat :| k < |w| && w[k].path == [] {
      AcrossIsResolved(b, w, x, k);
    } else {
      InsideIsResolved(b, w, x);
    }
  }

  /** The resolved connections are those joined by a walk through hull ports, and no others. */
  lemma ResolveIsReachability(b: Block, x: Link)
    requires Consistent(b)
    ensures x in Resolve(b) <==> exists w :: Connects(b, w, x)
  {
    if x in Resolve(b) {
      var w := ResolvedIsWalk(b, x);
    }
    if w :| Connects(b, w, x) {
      WalkIsResolved(b, w, x);
    }
  }

  ghost predicate Reachable(b: Block, x: Link) {
    exists w :: Connects(b, w, x)
  }

  /** Flattening joins two ports exactly when a walk does, unless some instance is linked
      straight back to itself: then some link of the result joins what no walk joins. */
  lemma FlatLinksAreWalks(b: Block)
    requires Consistent(b) && Scripted(b)
    ensures (forall x :: x in FlatLinks(b) <==> Reachable(b, x)) <==> SelfLinkFree(b)
  {
    if SelfLinkFree(b) {
      FlatIsResolve(b);
      forall x ensures x in FlatLinks(b) <==> Reachable(b, x) {
        assert x in FlatLinks(b) <==> x in multiset(FlatLinks(b));
        assert x in Resolve(b) <==> x in multiset(Resolve(b));
        ResolveIsReachability(b, x);
      }
    } else {
      SelfLinkLeaves(b.links, b.blocks);
      var x :| x in FlatLinks(b) && x.outport.Out? && NamesInstance(b.blocks, x.outport.actor);
      ResolveIsReachability(b, x);
      if x in Resolve(b) {
        ResolvedFromActors(b, x);
      }
      assert !Reachable(b, x);
    }
  }
}
