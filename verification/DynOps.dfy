/** Set operators over streams that are still being filled: each call of Next answers an
    element, that it has to wait, or that it is done. */
module DynOps {

  /** An element, or the one answer of an Intersection over nothing, which stands for all. */
  datatype Elem = Node(id: string) | Infinite

  /** Everything is an Intersection that was given no inputs. */
  datatype Kind = List | Everything | Union | Intersection | Difference

  datatype Answer = Element(e: Elem) | Pause | Stop

  /** What can be said about an operator from outside: everything it has answered, the
      value of its set expression as far as it can be told now, whether no arrival can
      change that any more, and how many elements it can still answer before the next one. */
  datatype View = View(out: seq<Elem>, known: set<Elem>, decided: bool, left: nat)

  ghost predicate Distinct(s: seq<Elem>) {
    forall i, j :: 0 <= i < j < |s| ==> s[i] != s[j]
  }

  ghost predicate AllDecided(ins: seq<View>) {
    forall i :: 0 <= i < |ins| ==> ins[i].decided
  }

  /** Input i can tell that e is one of its elements. */
  ghost predicate Knows(ins: seq<View>, i: int, e: Elem) {
    0 <= i < |ins| && e in ins[i].known
  }

  /** Input i has answered e. */
  ghost predicate Has(ins: seq<View>, i: int, e: Elem) {
    0 <= i < |ins| && e in ins[i].out
  }

  ghost predicate Drawn(drawn: seq<set<Elem>>, i: int, e: Elem) {
    0 <= i < |drawn| && e in drawn[i]
  }

  ghost predicate InAll(ins: seq<View>, e: Elem) {
    forall i :: 0 <= i < |ins| ==> Has(ins, i, e)
  }

  ghost predicate Known(known: set<Elem>, e: Elem) {
    e in known
  }

  ghost predicate Out(out: seq<Elem>, e: Elem) {
    e in out
  }

  /** Set algebra, except that a Difference tells nothing before all that is to be removed
      is decided. */
  ghost predicate InValue(kind: Kind, ins: seq<View>, e: Elem) {
    match kind
    case List => false
    case Everything => e == Infinite
    case Union => exists i :: Knows(ins, i, e)
    case Intersection => forall i :: 0 <= i < |ins| ==> Knows(ins, i, e)
    case Difference =>
      && (forall i :: 1 <= i < |ins| ==> ins[i].decided)
      && Knows(ins, 0, e) && forall i :: 1 <= i < |ins| ==> !Knows(ins, i, e)
  }

  ghost predicate KnownOk(known: set<Elem>, kind: Kind, ins: seq<View>) {
    forall e {:trigger Known(known, e)} :: Known(known, e) <==> InValue(kind, ins, e)
  }

  /** Everything known has been answered. */
  ghost predicate Drained(v: View) {
    forall e :: Known(v.known, e) ==> Out(v.out, e)
  }

  ghost function Rest(known: set<Elem>, out: seq<Elem>): nat {
    if |out| <= |known| then |known| - |out| else 0
  }

  /** What one call of Next does, seen from outside. */
  ghost predicate Answered(v: View, v': View, r: Answer) {
    match r
    case Element(e) => v' == v.(out := v.out + [e], left := v'.left) && e in v.known && v'.left < v.left
    case Pause => v' == v && Drained(v) && !v.decided
    case Stop => v' == v && Drained(v) && v.decided
  }

  /* ----- what the fields of an operator say about the answers of its inputs ----- */

  ghost predicate Sound(ins: seq<View>) {
    forall i, e :: Has(ins, i, e) ==> Knows(ins, i, e)
  }

  ghost predicate UnionOk(out: seq<Elem>, ins: seq<View>) {
    && Distinct(out)
    && (forall e :: Out(out, e) ==> exists i :: Has(ins, i, e))
    && (forall i, e :: Has(ins, i, e) ==> Out(out, e))
  }

  ghost predicate FinalOk(final: seq<bool>, ins: seq<View>, from: nat) {
    |final| == |ins| && forall i :: from <= i < |ins| && final[i] ==> ins[i].decided && Drained(ins[i])
  }

  /** In the middle of a round of draws. */
  ghost predicate RoundOk(out: seq<Elem>, emitted: set<Elem>, candidates: set<Elem>, drawn: seq<set<Elem>>,
                          ins: seq<View>) {
    && |drawn| == |ins| && ins != [] && Distinct(out)
    && (forall e :: Known(emitted, e) <==> Out(out, e))
    && (forall e :: Known(candidates, e) ==> !Out(out, e))
    && (forall i, e :: Drawn(drawn, i, e) ==> Has(ins, i, e))
    && (forall i, e :: Has(ins, i, e) ==> Drawn(drawn, i, e) || Out(out, e) || Known(candidates, e))
    && (forall e :: Out(out, e) ==> InAll(ins, e))
    && (forall e :: Known(candidates, e) ==> InAll(ins, e))
  }

  /** No element has been drawn from every input and is still waiting to be matched. */
  ghost predicate Unmatched(drawn: seq<set<Elem>>) {
    forall e :: Drawn(drawn, 0, e) ==> exists i :: 0 <= i < |drawn| && !Drawn(drawn, i, e)
  }

  /** No input has anything more for now: it has stopped, or else it is paused. */
  ghost predicate AllDrained(ins: seq<View>, final: seq<bool>) {
    |final| == |ins| && forall i :: 0 <= i < |ins| ==> Drained(ins[i]) && (final[i] <==> ins[i].decided)
  }

  /** Answered is exactly what every input has ever answered. */
  ghost predicate AnsweredAll(out: seq<Elem>, ins: seq<View>) {
    forall e :: Out(out, e) <==> InAll(ins, e)
  }

  ghost predicate DifferenceOk(out: seq<Elem>, remove: set<Elem>, final: seq<bool>, ins: seq<View>) {
    && ins != [] && |final| == |ins| && Distinct(out)
    && (forall e :: Known(remove, e) ==> Out(out, e) || exists i :: 1 <= i && Has(ins, i, e))
    && (forall i, e :: 1 <= i && Has(ins, i, e) ==> Known(remove, e) && !Out(out, e))
    && (forall e :: Out(out, e) ==> Known(remove, e) && Has(ins, 0, e))
    && (forall e :: Has(ins, 0, e) ==> Known(remove, e))
    && ((exists i :: 1 <= i < |ins| && !final[i]) ==> out == [] && ins[0].out == [])
  }

  /** The inputs have moved on, but nothing has arrived at them. */
  ghost predicate SameValues(ins: seq<View>, ins': seq<View>) {
    |ins| == |ins'| && forall i :: 0 <= i < |ins| ==> ins'[i].known == ins[i].known && ins'[i].decided == ins[i].decided
  }

  /** Input i, and no other, has moved on, and nothing has arrived. */
  ghost predicate OnlyMoved(i: nat, ins: seq<View>, ins': seq<View>) {
    && i < |ins| == |ins'| && ins' == ins[i := ins'[i]]
    && ins'[i].known == ins[i].known && ins'[i].decided == ins[i].decided
  }

  lemma ValueStays(known: set<Elem>, kind: Kind, ins: seq<View>, ins': seq<View>)
    requires KnownOk(known, kind, ins) && SameValues(ins, ins')
    ensures KnownOk(known, kind, ins') && AllDecided(ins) == AllDecided(ins')
  {
    assert forall i, e :: Knows(ins, i, e) <==> Knows(ins', i, e);
    forall e ensures InValue(kind, ins, e) <==> InValue(kind, ins', e) {}
  }

  /** Input i has answered e, and no other input has answered anything. */
  ghost predicate Moved(before: seq<View>, after: seq<View>, i: nat, e: Elem) {
    i < |before| == |after| && after == before[i := after[i]] && after[i].out == before[i].out + [e]
  }

  lemma MovedHas(before: seq<View>, after: seq<View>, i: nat, e: Elem)
    requires Moved(before, after, i, e)
    ensures forall j, x :: Has(after, j, x) <==> Has(before, j, x) || (j == i && x == e)
  {
  }

  lemma OneMore(out: seq<Elem>, e: Elem)
    ensures forall x :: Out(out + [e], x) <==> Out(out, x) || x == e
    ensures Distinct(out) && e !in out ==> Distinct(out + [e])
  {
  }

  /** A new element for the outside. */
  lemma {:induction false} LessLeft(known: set<Elem>, out: seq<Elem>, e: Elem)
    requires Distinct(out) && (forall x :: Out(out, x) ==> Known(known, x))
    requires e in known && e !in out
    ensures Rest(known, out + [e]) < Rest(known, out)
  {
    var answered := set x | x in out;
    DistinctSize(out, answered);
    assert answered < known by {
      assert forall x :: x in out ==> Out(out, x) && Known(known, x);
    }
    assert |known - answered| == |known| - |answered|;
    assert e in known - answered;
  }

  lemma {:induction false} DistinctSize(out: seq<Elem>, s: set<Elem>)
    requires Distinct(out) && s == set x | x in out
    ensures |s| == |out|
  {
    if out != [] {
      var last, rest := out[|out| - 1], out[..|out| - 1];
      assert forall x :: x in out <==> x in rest || x == last;
      assert s - {last} == set x | x in rest;
      DistinctSize(rest, s - {last});
    }
  }

  /* ----- Union ----- */

  lemma UnionStep(out: seq<Elem>, before: seq<View>, after: seq<View>, i: nat, e: Elem)
    requires UnionOk(out, before) && Moved(before, after, i, e)
    ensures e in out ==> UnionOk(out, after)
    ensures e !in out ==> UnionOk(out + [e], after)
  {
    MovedHas(before, after, i, e);
    OneMore(out, e);
    assert Has(after, i, e) && (Out(out, e) <==> e in out);
    forall x | Out(out, x) ensures exists j :: Has(after, j, x) {
      var j :| Has(before, j, x);
      assert Has(after, j, x);
    }
  }

  lemma UnionValue(out: seq<Elem>, known: set<Elem>, ins: seq<View>)
    requires UnionOk(out, ins) && Sound(ins) && KnownOk(known, Union, ins)
    ensures forall e :: Out(out, e) ==> Known(known, e)
    ensures (forall i :: 0 <= i < |ins| ==> Drained(ins[i])) ==> forall e :: Known(known, e) ==> Out(out, e)
  {
    forall e | Out(out, e) ensures Known(known, e) {
      var i :| Has(ins, i, e);
      assert Knows(ins, i, e);
    }
    forall e | Known(known, e) && (forall i :: 0 <= i < |ins| ==> Drained(ins[i])) ensures Out(out, e) {
      var i :| Knows(ins, i, e);
      assert Known(ins[i].known, e) && Out(ins[i].out, e);
      assert Has(ins, i, e);
    }
  }

  /* ----- Intersection ----- */

  ghost function Total(ins: seq<View>): nat {
    if ins == [] then 0 else ins[0].left + Total(ins[1..])
  }

  lemma {:induction false} TotalDrops(ins: seq<View>, ins': seq<View>, i: nat)
    requires i < |ins| == |ins'| && ins' == ins[i := ins'[i]] && ins'[i].left < ins[i].left
    ensures Total(ins') < Total(ins)
  {
    if i == 0 {
      assert ins'[1..] == ins[1..];
    } else {
      assert ins'[1..] == ins[1..][i - 1 := ins'[i]];
      TotalDrops(ins[1..], ins'[1..], i - 1);
    }
  }

  lemma RoundStep(out: seq<Elem>, emitted: set<Elem>, drawn: seq<set<Elem>>, before: seq<View>, after: seq<View>,
                  i: nat, e: Elem)
    requires RoundOk(out, emitted, {}, drawn, before) && Moved(before, after, i, e)
    ensures RoundOk(out, emitted, {}, drawn[i := drawn[i] + {e}], after)
  {
    MovedHas(before, after, i, e);
    var drawn' := drawn[i := drawn[i] + {e}];
    assert forall j, x :: Drawn(drawn', j, x) <==> Drawn(drawn, j, x) || (j == i && x == e);
    assert forall x :: !Known({}, x);
    forall x | Out(out, x) ensures InAll(after, x) {
      assert InAll(before, x);
    }
  }

  /** What has been drawn from every input. */
  function Common(drawn: seq<set<Elem>>): set<Elem>
    requires drawn != []
  {
    set e | e in drawn[0] && forall i :: 0 <= i < |drawn| ==> e in drawn[i]
  }

  function Without(drawn: seq<set<Elem>>, common: set<Elem>): seq<set<Elem>> {
    seq(|drawn|, i requires 0 <= i < |drawn| => drawn[i] - common)
  }

  lemma MatchStep(out: seq<Elem>, emitted: set<Elem>, drawn: seq<set<Elem>>, ins: seq<View>)
    requires RoundOk(out, emitted, {}, drawn, ins)
    ensures RoundOk(out, emitted, Common(drawn) - emitted, Without(drawn, Common(drawn)), ins)
    ensures Unmatched(Without(drawn, Common(drawn)))
  {
    var common, rest := Common(drawn), Without(drawn, Common(drawn));
    assert forall i, e :: Drawn(rest, i, e) <==> Drawn(drawn, i, e) && e !in common;
    assert forall e :: Known(common - emitted, e) <==> e in common && !Known(emitted, e);
    assert forall e :: !Known({}, e);
    forall e | e in common ensures InAll(ins, e) {
      forall i | 0 <= i < |ins| ensures Has(ins, i, e) {
        assert Drawn(drawn, i, e);
      }
    }
    forall e | Drawn(rest, 0, e) ensures exists i :: 0 <= i < |rest| && !Drawn(rest, i, e) {
      var i :| 0 <= i < |drawn| && e !in drawn[i];
      assert !Drawn(rest, i, e);
    }
  }

  lemma PopStep(out: seq<Elem>, emitted: set<Elem>, candidates: set<Elem>, drawn: seq<set<Elem>>, ins: seq<View>,
                e: Elem)
    requires RoundOk(out, emitted, candidates, drawn, ins) && e in candidates
    ensures RoundOk(out + [e], emitted + {e}, candidates - {e}, drawn, ins)
    ensures e !in out
  {
    OneMore(out, e);
    assert Known(candidates, e) && (Out(out, e) <==> e in out);
    assert forall x :: Known(emitted + {e}, x) <==> Known(emitted, x) || x == e;
    assert forall x :: Known(candidates - {e}, x) <==> Known(candidates, x) && x != e;
  }

  ghost function NotDrawn(drawn: seq<set<Elem>>, e: Elem): (i: nat)
    requires Unmatched(drawn) && Drawn(drawn, 0, e)
    ensures i < |drawn| && !Drawn(drawn, i, e)
  {
    var i :| 0 <= i < |drawn| && !Drawn(drawn, i, e); i
  }

  /** Although matched elements are taken out of the sets of what was drawn, none is lost. */
  lemma NoneLeft(out: seq<Elem>, emitted: set<Elem>, drawn: seq<set<Elem>>, ins: seq<View>)
    requires RoundOk(out, emitted, {}, drawn, ins) && Unmatched(drawn)
    ensures AnsweredAll(out, ins)
  {
    assert forall e :: !Known({}, e);
    forall e ensures Out(out, e) <==> InAll(ins, e) {
      if !Out(out, e) {
        var i := if Drawn(drawn, 0, e) then NotDrawn(drawn, e) else 0;
        assert !Has(ins, i, e);
      }
    }
  }

  lemma IntersectionValue(out: seq<Elem>, known: set<Elem>, emitted: set<Elem>, candidates: set<Elem>,
                          drawn: seq<set<Elem>>, ins: seq<View>)
    requires RoundOk(out, emitted, candidates, drawn, ins) && Sound(ins) && KnownOk(known, Intersection, ins)
    ensures forall e :: Out(out, e) || Known(candidates, e) ==> Known(known, e)
    ensures Unmatched(drawn) && candidates == {} && (forall i :: 0 <= i < |ins| ==> Drained(ins[i])) ==>
              forall e :: Known(known, e) ==> Out(out, e)
  {
    forall e | Out(out, e) || Known(candidates, e) ensures Known(known, e) {
      assert InAll(ins, e);
      forall i | 0 <= i < |ins| ensures Knows(ins, i, e) {
        assert Has(ins, i, e);
      }
    }
    if Unmatched(drawn) && candidates == {} && forall i :: 0 <= i < |ins| ==> Drained(ins[i]) {
      assert forall e :: !Known({}, e);
      forall e | Known(known, e) ensures Out(out, e) {
        forall i | 0 <= i < |ins| ensures Has(ins, i, e) {
          assert Knows(ins, i, e);
          assert Known(ins[i].known, e) && Out(ins[i].out, e);
        }
        assert !Out(out, e) ==> Drawn(drawn, 0, e);
      }
    }
  }

  /* ----- Difference ----- */

  lemma FinalStep(final: seq<bool>, before: seq<View>, after: seq<View>, i: nat, from: nat, r: Answer)
    requires FinalOk(final, before, from) && i < |before| == |after|
    requires after == before[i := after[i]] && Answered(before[i], after[i], r)
    ensures FinalOk(final, after, from)
  {
    if Drained(before[i]) && r.Element? {
      OneMore(before[i].out, r.e);
    }
  }

  /** One more element to remove. */
  lemma RemoveStep(remove: set<Elem>, final: seq<bool>, before: seq<View>, after: seq<View>, i: nat, e: Elem)
    requires 1 <= i && DifferenceOk([], remove, final, before) && before[0].out == [] && Moved(before, after, i, e)
    ensures DifferenceOk([], remove + {e}, final, after) && after[0].out == []
  {
    MovedHas(before, after, i, e);
    assert Has(after, i, e);
    assert forall x :: !Out([], x);
    assert forall x :: Known(remove + {e}, x) <==> Known(remove, x) || x == e;
    forall x | Known(remove, x) ensures exists j :: 1 <= j && Has(after, j, x) {
      var j :| 1 <= j && Has(before, j, x);
      assert Has(after, j, x);
    }
  }

  /** One more element of the first input; removed or answered before, it is dropped. */
  lemma FilterStep(out: seq<Elem>, remove: set<Elem>, final: seq<bool>, before: seq<View>, after: seq<View>, e: Elem)
    requires DifferenceOk(out, remove, final, before) && forall i :: 1 <= i < |final| ==> final[i]
    requires Moved(before, after, 0, e)
    ensures e in remove ==> DifferenceOk(out, remove, final, after)
    ensures e !in remove ==> e !in out && DifferenceOk(out + [e], remove + {e}, final, after)
  {
    MovedHas(before, after, 0, e);
    OneMore(out, e);
    assert (Known(remove, e) <==> e in remove) && (Out(out, e) <==> e in out);
    assert forall x :: Known(remove + {e}, x) <==> Known(remove, x) || x == e;
    forall x | Known(remove, x) && !Out(out, x) ensures exists j :: 1 <= j && Has(after, j, x) {
      var j :| 1 <= j && Has(before, j, x);
      assert Has(after, j, x);
    }
  }

  lemma DifferenceValue(out: seq<Elem>, known: set<Elem>, remove: set<Elem>, final: seq<bool>, ins: seq<View>)
    requires DifferenceOk(out, remove, final, ins) && FinalOk(final, ins, 1) && Sound(ins)
    requires KnownOk(known, Difference, ins)
    ensures forall e :: Out(out, e) ==> Known(known, e)
    ensures (exists i :: 1 <= i < |ins| && !ins[i].decided) ==> forall e :: Known(known, e) ==> Out(out, e)
    ensures (forall i :: 1 <= i < |ins| ==> final[i]) && Drained(ins[0]) ==> forall e :: Known(known, e) ==> Out(out, e)
  {
    if forall i :: 1 <= i < |ins| ==> final[i] {
      forall i, e | 1 <= i < |ins| ensures Knows(ins, i, e) <==> Has(ins, i, e) {
        assert Drained(ins[i]) && (Known(ins[i].known, e) ==> Out(ins[i].out, e));
      }
      forall e | Known(known, e) && Drained(ins[0]) ensures Out(out, e) {
        assert Known(ins[0].known, e) && Out(ins[0].out, e);
        assert Has(ins, 0, e);
      }
    } else {
      assert forall e :: !Out([], e);
    }
  }

  /* ----- arrivals ----- */

  /** What an arrival somewhere below can change about an operator. */
  ghost predicate Arrived(v: View, v': View) {
    && v'.out == v.out && v.known <= v'.known
    && (v.decided ==> v'.decided && v'.known == v.known)
  }

  ghost function ValueSet(kind: Kind, ins: seq<View>): set<Elem> {
    set i, e | 0 <= i < |ins| && e in ins[i].known && InValue(kind, ins, e) :: e
  }

  lemma ValueSetOk(kind: Kind, ins: seq<View>)
    requires kind != List && kind != Everything && (kind != Union ==> ins != [])
    ensures KnownOk(ValueSet(kind, ins), kind, ins)
  {
    forall e | InValue(kind, ins, e) ensures e in ValueSet(kind, ins) {
      if kind == Union {
        var i :| Knows(ins, i, e);
        assert e in ins[i].known;
      } else {
        assert Knows(ins, 0, e);
        assert e in ins[0].known;
      }
    }
  }

  lemma ArrivalValue(kind: Kind, known: set<Elem>, ins: seq<View>, known': set<Elem>, ins': seq<View>, k: nat)
    requires k < |ins| == |ins'| && ins' == ins[k := ins'[k]] && Arrived(ins[k], ins'[k])
    requires KnownOk(known, kind, ins) && KnownOk(known', kind, ins')
    ensures known <= known'
    ensures AllDecided(ins) ==> AllDecided(ins') && known' == known
  {
    assert forall i, e :: Knows(ins, i, e) ==> Knows(ins', i, e);
    assert forall i, e :: 0 <= i < |ins| && ins[i].decided ==>
             ins'[i].decided && (Knows(ins', i, e) <==> Knows(ins, i, e));
    forall e | e in known ensures e in known' {
      assert Known(known, e);
      assert Known(known', e);
    }
    forall e | e in known' && AllDecided(ins) ensures e in known {
      assert Known(known', e);
      assert Known(known, e);
    }
  }

  lemma ArrivalKeepsFields(ins: seq<View>, ins': seq<View>, k: nat)
    requires k < |ins| == |ins'| && ins' == ins[k := ins'[k]] && Arrived(ins[k], ins'[k])
    ensures forall i, e :: Has(ins', i, e) <==> Has(ins, i, e)
    ensures forall out :: UnionOk(out, ins) ==> UnionOk(out, ins')
    ensures forall out, emitted, candidates, drawn ::
              RoundOk(out, emitted, candidates, drawn, ins) ==> RoundOk(out, emitted, candidates, drawn, ins')
    ensures forall out, remove, final :: DifferenceOk(out, remove, final, ins) ==>
              DifferenceOk(out, remove, final, ins')
    ensures forall final, from :: FinalOk(final, ins, from) ==> FinalOk(final, ins', from)
  {
    assert forall i, e :: Has(ins', i, e) <==> Has(ins, i, e);
    forall out, emitted, candidates, drawn | RoundOk(out, emitted, candidates, drawn, ins)
      ensures RoundOk(out, emitted, candidates, drawn, ins')
    {
      forall e | InAll(ins, e) ensures InAll(ins', e) {}
    }
  }

  lemma StartOk(ins: seq<View>, drawn: seq<set<Elem>>, final: seq<bool>)
    requires forall i :: 0 <= i < |ins| ==> ins[i].out == []
    requires |drawn| == |final| == |ins| && forall i :: 0 <= i < |ins| ==> drawn[i] == {} && !final[i]
    ensures UnionOk([], ins) && FinalOk(final, ins, 0) && FinalOk(final, ins, 1)
    ensures ins != [] ==> RoundOk([], {}, {}, drawn, ins) && Unmatched(drawn) && DifferenceOk([], {}, final, ins)
  {
    assert forall i, e :: !Has(ins, i, e) && !Drawn(drawn, i, e);
    assert forall e :: !Known({}, e) && !Out([], e);
  }

  ghost function MaxHeight(ops: seq<DynOp>): nat {
    if ops == [] then 0 else if ops[0].height < MaxHeight(ops[1..]) then MaxHeight(ops[1..]) else ops[0].height
  }

  lemma {:induction false} MaxHeightIsMax(ops: seq<DynOp>)
    ensures forall i :: 0 <= i < |ops| ==> ops[i].height <= MaxHeight(ops)
  {
    if ops != [] {
      MaxHeightIsMax(ops[1..]);
      assert forall i :: 1 <= i < |ops| ==> ops[i] == ops[1..][i - 1];
    }
  }

  ghost predicate Apart(a: DynOp, b: DynOp) {
    a.repr !! b.repr
  }

  lemma ValidIsShaped(ops: seq<DynOp>)
    requires forall i :: 0 <= i < |ops| ==> ops[i].Valid()
    ensures forall i :: 0 <= i < |ops| ==> ops[i] in ops[i].repr
  {
  }

  class DynOp {
    const kind: Kind
    /** The inputs; of a Difference the first one is what the others are removed from. */
    const iters: seq<DynOp>
    ghost const repr: set<DynOp>
    ghost const height: nat
    ghost var view: View

    // List
    var list: seq<Elem>
    var isFinal: bool
    var index: nat
    // Everything
    var infiniteSent: bool
    // Union
    var seen: seq<Elem>
    // Intersection
    var emitted: set<Elem>
    var candidates: set<Elem>
    var drawn: seq<set<Elem>>
    // Intersection and Difference: which inputs have stopped (of a Difference, from position 1 on)
    var final: seq<bool>
    // Difference
    var remove: set<Elem>

    /** An unshared tree; none of this ever changes. */
    ghost predicate Shape() {
      && this in repr
      && (kind == List || kind == Everything ==> iters == [])
      && (kind == Intersection || kind == Difference ==> iters != [])
      && (forall i :: 0 <= i < |iters| ==>
           iters[i] in iters[i].repr && iters[i].repr <= repr && this !in iters[i].repr && iters[i].height < height)
      && (forall i, j :: 0 <= i < j < |iters| ==> Apart(iters[i], iters[j]))
    }

    ghost function Inputs(): (ins: seq<View>)
      requires Shape()
      reads repr - {this}
      ensures |ins| == |iters|
    {
      seq(|iters|, i requires 0 <= i < |iters| reads repr - {this} => iters[i].view)
    }

    ghost function ListView(): View
      reads this
    {
      View(list[..if index <= |list| then index else 0], (set e | e in list), isFinal,
           if index <= |list| then |list| - index else 0)
    }

    ghost function EverythingView(): View
      reads this
    {
      View(if infiniteSent then [Infinite] else [], {Infinite}, true, if infiniteSent then 0 else 1)
    }

    ghost predicate ViewOk()
      requires Shape() && kind != List
      reads this, repr
    {
      && KnownOk(view.known, kind, Inputs()) && view.decided == AllDecided(Inputs())
      && view.left == Rest(view.known, view.out)
    }

    ghost predicate InputsValid()
      requires Shape()
      reads repr - {this}
      decreases height, 0
    {
      forall i {:trigger iters[i].Valid()} :: 0 <= i < |iters| ==>
        iters[i].repr <= repr && this !in iters[i].repr && iters[i].height < height && iters[i].Valid()
    }

    /** The view is right, and the fields fit what the inputs have answered. */
    ghost predicate Valid()
      reads this, repr
      decreases height, 1
    {
      && Shape() && InputsValid()
      && match kind
         case List => index <= |list| && view == ListView()
         case Everything => view == EverythingView()
         case Union => ViewOk() && seen == view.out && UnionOk(view.out, Inputs())
         case Intersection =>
           && ViewOk() && RoundOk(view.out, emitted, candidates, drawn, Inputs()) && Unmatched(drawn)
           && FinalOk(final, Inputs(), 0)
         case Difference =>
           && ViewOk() && DifferenceOk(view.out, remove, final, Inputs()) && FinalOk(final, Inputs(), 1)
    }

    /** Nothing is ever answered that is not in the value. */
    lemma {:induction false} OutIsKnown()
      requires Valid()
      ensures forall e :: Out(view.out, e) ==> Known(view.known, e)
      decreases height
    {
      InputsAreSound();
      match kind
      case List =>
      case Everything =>
      case Union => UnionValue(view.out, view.known, Inputs());
      case Intersection => IntersectionValue(view.out, view.known, emitted, candidates, drawn, Inputs());
      case Difference => DifferenceValue(view.out, view.known, remove, final, Inputs());
    }

    lemma {:induction false} InputsAreSound()
      requires Shape() && InputsValid()
      ensures Sound(Inputs())
      decreases height, 0
    {
      forall i, e | Has(Inputs(), i, e) ensures Knows(Inputs(), i, e) {
        assert iters[i].Valid();
        iters[i].OutIsKnown();
        assert Out(iters[i].view.out, e) && Known(iters[i].view.known, e);
      }
    }

    /** One more element of input i. */
    method Draw(i: nat) returns (r: Answer)
      requires Shape() && i < |iters| && InputsValid()
      modifies iters[i].repr
      ensures InputsValid()
      ensures Answered(old(Inputs())[i], Inputs()[i], r)
      ensures Inputs() == old(Inputs())[i := Inputs()[i]]
      ensures kind != List && old(ViewOk()) ==> ViewOk()
      decreases height, 0
    {
      assert iters[i].Valid();
      forall j | 0 <= j < |iters| && j != i ensures iters[j].Valid() && iters[j].repr !! iters[i].repr {
        assert if j < i then Apart(iters[j], iters[i]) else Apart(iters[i], iters[j]);
      }
      r := iters[i].Next();
      forall j | 0 <= j < |iters| ensures iters[j].Valid() && (j != i ==> iters[j].view == old(iters[j].view)) {}
      if kind != List {
        if old(ViewOk()) {
          ValueStays(view.known, kind, old(Inputs()), Inputs());
        }
      }
    }

    method Next() returns (r: Answer)
      requires Valid()
      modifies repr
      ensures Valid() && Answered(old(view), view, r)
      ensures r.Element? && kind != List ==> r.e !in old(view.out)
      decreases height, 4
    {
      match kind {
        case List => r := ListOp();
        case Everything => r := EverythingOp();
        case Union => r := UnionOp();
        case Intersection => r := IntersectionOp();
        case Difference => r := DifferenceOp();
      }
    }

    /** Answer a new element. */
    ghost method Emit(e: Elem)
      requires Shape() && kind != List && ViewOk() && e in view.known && e !in view.out
      requires Distinct(view.out) && forall x :: Out(view.out, x) ==> Known(view.known, x)
      modifies this`view
      ensures ViewOk() && Answered(old(view), view, Element(e))
    {
      LessLeft(view.known, view.out, e);
      view := view.(out := view.out + [e], left := Rest(view.known, view.out + [e]));
    }

    method ListOp() returns (r: Answer)
      requires Valid() && kind == List
      modifies this`index, this`view
      ensures Valid() && Answered(old(view), view, r)
    {
      if index < |list| {
        r := Element(list[index]);
        index := index + 1;
        view := ListView();
      } else {
        assert view.out == list && forall e :: Known(view.known, e) <==> Out(view.out, e);
        r := if isFinal then Stop else Pause;
      }
    }

    /** Without inputs there is nothing to wait for. */
    method EverythingOp() returns (r: Answer)
      requires Valid() && kind == Everything
      modifies this`infiniteSent, this`view
      ensures Valid() && Answered(old(view), view, r)
      ensures r.Element? ==> r.e !in old(view.out)
    {
      if infiniteSent {
        assert forall e :: Known(view.known, e) <==> Out(view.out, e);
        r := Stop;
      } else {
        infiniteSent := true;
        view := EverythingView();
        r := Element(Infinite);
      }
    }

    /* ----- Union ----- */

    lemma UnionKnows(i: nat, e: Elem)
      requires Shape() && kind == Union && InputsValid() && ViewOk() && i < |iters| && e in Inputs()[i].out
      ensures e in view.known
    {
      InputsAreSound();
      assert Has(Inputs(), i, e);
      assert Knows(Inputs(), i, e);
      assert Known(view.known, e);
    }

    lemma UnionIsDrained()
      requires Valid() && kind == Union && forall i :: 0 <= i < |iters| ==> Drained(Inputs()[i])
      ensures Drained(view) && (view.decided <==> AllDecided(Inputs()))
    {
      InputsAreSound();
      UnionValue(view.out, view.known, Inputs());
    }

    /** Draw from input i until it answers something new or has nothing more. */
    method DrawNew(i: nat) returns (r: Answer)
      requires Valid() && kind == Union && i < |iters|
      modifies this`seen, this`view, iters[i].repr
      ensures Valid() && OnlyMoved(i, old(Inputs()), Inputs())
      ensures if r.Element? then Answered(old(view), view, r) && r.e !in old(view.out)
              else view == old(view) && Drained(Inputs()[i]) && (r.Stop? <==> Inputs()[i].decided)
      decreases height, 1
    {
      ghost var ins := Inputs();
      OutIsKnown();
      while true
        invariant Valid() && OnlyMoved(i, ins, Inputs()) && view == old(view)
        decreases Inputs()[i].left
      {
        ghost var before := Inputs();
        r := Draw(i);
        if !r.Element? {
          assert Inputs() == before;
          return;
        }
        UnionStep(view.out, before, Inputs(), i, r.e);
        if r.e !in seen {
          seen := seen + [r.e];
          UnionKnows(i, r.e);
          Emit(r.e);
          return;
        }
      }
    }

    method UnionOp() returns (r: Answer)
      requires Valid() && kind == Union
      modifies repr
      ensures Valid() && Answered(old(view), view, r)
      ensures r.Element? ==> r.e !in old(view.out)
      decreases height, 2
    {
      var paused, i := false, 0;
      while i < |iters|
        invariant 0 <= i <= |iters| && Valid() && view == old(view)
        invariant forall j :: 0 <= j < i ==> Drained(Inputs()[j])
        invariant !paused ==> forall j :: 0 <= j < i ==> Inputs()[j].decided
        invariant paused ==> !AllDecided(Inputs())
      {
        ghost var before := Inputs();
        r := DrawNew(i);
        if r.Element? {
          return;
        }
        assert forall j :: 0 <= j < i ==> Inputs()[j] == before[j];
        paused := paused || r.Pause?;
        i := i + 1;
      }
      UnionIsDrained();
      r := if paused then Pause else Stop;
    }

    /* ----- Intersection ----- */

    lemma CandidatesAreKnown()
      requires Valid() && kind == Intersection
      ensures forall e :: Out(view.out, e) || e in candidates ==> Known(view.known, e)
      ensures candidates == {} && (forall i :: 0 <= i < |iters| ==> Drained(Inputs()[i])) ==> Drained(view)
    {
      InputsAreSound();
      IntersectionValue(view.out, view.known, emitted, candidates, drawn, Inputs());
      forall e | e in candidates ensures Known(view.known, e) {
        assert Known(candidates, e);
      }
    }

    /** Hand out one of the elements that are known to be in all inputs. */
    method PopCandidate() returns (r: Answer)
      requires Valid() && kind == Intersection && candidates != {}
      modifies this`candidates, this`emitted, this`view
      ensures Valid() && r.Element? && r.e !in old(view.out) && Answered(old(view), view, r)
    {
      var e :| e in candidates;
      CandidatesAreKnown();
      PopStep(view.out, emitted, candidates, drawn, Inputs(), e);
      candidates := candidates - {e};
      emitted := emitted + {e};
      Emit(e);
      r := Element(e);
    }

    ghost predicate InRound()
      reads this, repr
    {
      && Shape() && kind == Intersection && InputsValid() && ViewOk() && candidates == {}
      && RoundOk(view.out, emitted, {}, drawn, Inputs()) && FinalOk(final, Inputs(), 0)
    }

    /** Draw once from input i unless it has stopped. */
    method DrawOnce(i: nat) returns (drew: bool)
      requires InRound() && i < |iters|
      modifies this`drawn, this`final, iters[i].repr
      ensures InRound() && OnlyMoved(i, old(Inputs()), Inputs())
      ensures final == old(final)[i := final[i]]
      ensures if drew then !final[i] && Total(Inputs()) < Total(old(Inputs()))
              else Inputs() == old(Inputs()) && Drained(Inputs()[i]) && (final[i] <==> Inputs()[i].decided)
      decreases height, 1
    {
      drew := false;
      if !final[i] {
        ghost var before := Inputs();
        var n := Draw(i);
        match n {
          case Element(e) =>
            RoundStep(view.out, emitted, drawn, before, Inputs(), i, e);
            TotalDrops(before, Inputs(), i);
            drawn := drawn[i := drawn[i] + {e}];
            drew := true;
          case Pause =>
            assert Inputs() == before;
          case Stop =>
            assert Inputs() == before;
            final := final[i := true];
        }
      }
    }

    /** Draw once from every input that has not stopped. */
    method Round() returns (active: bool)
      requires InRound()
      modifies this`drawn, this`final, repr - {this}
      ensures InRound()
      ensures if active then Total(Inputs()) < Total(old(Inputs())) && exists j :: 0 <= j < |iters| && !final[j]
              else forall j :: 0 <= j < |iters| ==> Drained(Inputs()[j]) && (final[j] <==> Inputs()[j].decided)
      decreases height, 2
    {
      active := false;
      ghost var ins := Inputs();
      var i := 0;
      while i < |iters|
        invariant 0 <= i <= |iters| && InRound()
        invariant if active then Total(Inputs()) < Total(ins) && exists j :: 0 <= j < i && !final[j]
                  else
                    && Inputs() == ins
                    && forall j :: 0 <= j < i ==> Drained(Inputs()[j]) && (final[j] <==> Inputs()[j].decided)
      {
        ghost var before := final;
        var drew := DrawOnce(i);
        assert forall j :: 0 <= j < i ==> final[j] == before[j];
        active := active || drew;
        i := i + 1;
      }
    }

    /** What has been drawn from every input becomes a candidate, once. */
    method Match()
      requires InRound()
      modifies this`drawn, this`candidates
      ensures Valid()
    {
      MatchStep(view.out, emitted, drawn, Inputs());
      var common := Common(drawn);
      drawn := Without(drawn, common);
      candidates := common - emitted;
    }

    method IntersectionOp() returns (r: Answer)
      requires Valid() && kind == Intersection
      modifies repr
      ensures Valid() && Answered(old(view), view, r)
      ensures r.Element? ==> r.e !in old(view.out)
      ensures !r.Element? ==> AllDrained(Inputs(), final) && AnsweredAll(view.out, Inputs())
      decreases height, 3
    {
      if candidates != {} {
        r := PopCandidate();
        return;
      }
      while true
        invariant Valid() && view == old(view) && candidates == {}
        decreases Total(Inputs())
      {
        var active := Round();
        Match();
        if candidates != {} {
          r := PopCandidate();
          return;
        }
        var stopped := forall i :: 0 <= i < |final| ==> final[i];
        if !active || stopped {
          r := if stopped then Stop else Pause;
          CandidatesAreKnown();
          NoneLeft(view.out, emitted, drawn, Inputs());
          return;
        }
      }
    }

    /* ----- Difference ----- */

    ghost predicate AllCollected()
      reads this
    {
      forall i :: 1 <= i < |final| ==> final[i]
    }

    /** Let through what the first input answers and is not to be removed. */
    method FilterFirst() returns (r: Answer)
      requires Valid() && kind == Difference && AllCollected()
      modifies this`view, this`remove, iters[0].repr
      ensures Valid() && Answered(old(view), view, r)
      ensures r.Element? ==> r.e !in old(view.out)
      decreases height, 2
    {
      while true
        invariant Valid() && view == old(view)
        decreases Inputs()[0].left
      {
        ghost var before := Inputs();
        r := Draw(0);
        InputsAreSound();
        FinalStep(final, before, Inputs(), 0, 1, r);
        if !r.Element? {
          assert Inputs() == before;
          DifferenceValue(view.out, view.known, remove, final, Inputs());
          return;
        }
        FilterStep(view.out, remove, final, before, Inputs(), r.e);
        if r.e !in remove {
          remove := remove + {r.e};
          DifferenceValue(view.out + [r.e], view.known, remove, final, Inputs());
          OneMore(view.out, r.e);
          assert Known(view.known, r.e);
          Emit(r.e);
          return;
        }
      }
    }

    /** Collect everything there is now from the removed input i. */
    method CollectRemoved(i: nat) returns (paused: bool)
      requires Valid() && kind == Difference && 1 <= i < |iters| && view.out == [] && Inputs()[0].out == []
      modifies this`remove, this`final, iters[i].repr
      ensures Valid() && OnlyMoved(i, old(Inputs()), Inputs())
      ensures if paused then final == old(final) && !Inputs()[i].decided else final == old(final)[i := true]
      decreases height, 1
    {
      ghost var ins := Inputs();
      while true
        invariant Valid() && OnlyMoved(i, ins, Inputs()) && final == old(final)
        decreases Inputs()[i].left
      {
        ghost var before := Inputs();
        var n := Draw(i);
        FinalStep(final, before, Inputs(), i, 1, n);
        match n {
          case Element(e) =>
            RemoveStep(remove, final, before, Inputs(), i, e);
            remove := remove + {e};
          case Pause =>
            assert Inputs() == before;
            return true;
          case Stop =>
            assert Inputs() == before;
            final := final[i := true];
            return false;
        }
      }
    }
  
    method DifferenceOp() returns (r: Answer)
      requires Valid() && kind == Difference
      modifies repr
      ensures Valid() && Answered(old(view), view, r)
      ensures r.Element? ==> r.e !in old(view.out)
      decreases height, 3, if AllCollected() then 0 else 1
    {
      if forall i :: 1 <= i < |final| ==> final[i] {
        r := FilterFirst();
        return;
      }
      var paused, i := false, 1;
      while i < |iters|
        invariant 1 <= i <= |iters| && Valid() && view == old(view) && view.out == [] && Inputs()[0].out == []
        invariant !paused ==> forall j :: 1 <= j < i ==> final[j]
        invariant paused ==> exists j :: 1 <= j < |iters| && !Inputs()[j].decided
      {
        ghost var before, ins := final, Inputs();
        var p := CollectRemoved(i);
        assert forall j :: 1 <= j < i ==> final[j] == before[j];
        assert forall j :: 1 <= j < |iters| ==> Inputs()[j].decided == ins[j].decided;
        paused := paused || p;
        i := i + 1;
      }
      if paused {
        r := Pause;
        InputsAreSound();
        DifferenceValue(view.out, view.known, remove, final, Inputs());
      } else {
        r := DifferenceOp();
      }
    }
  
    /* ----- building a tree, and arrivals at its leaves ----- */

    constructor MakeList(elems: seq<Elem>)
      ensures Valid() && fresh(repr) && kind == List && list == elems && !isFinal && view.out == []
    {
      kind, iters, repr, height := List, [], {this}, 0;
      list, isFinal, index, infiniteSent := elems, false, 0, false;
      seen, emitted, candidates, drawn, final, remove := [], {}, {}, [], [], {};
      view := View([], set e | e in elems, false, |elems|);
    }

    /** An Intersection over nothing. */
    constructor MakeEverything()
      ensures Valid() && fresh(repr) && kind == Everything && view.out == []
    {
      kind, iters, repr, height := Everything, [], {this}, 0;
      list, isFinal, index, infiniteSent := [], false, 0, false;
      seen, emitted, candidates, drawn, final, remove := [], {}, {}, [], [], {};
      view := View([], {Infinite}, true, 1);
    }

    lemma StartIsValid()
      requires Shape() && InputsValid() && kind != List && kind != Everything && (kind != Union ==> iters != [])
      requires view == View([], ValueSet(kind, Inputs()), AllDecided(Inputs()), Rest(ValueSet(kind, Inputs()), []))
      requires forall i :: 0 <= i < |iters| ==> iters[i].view.out == []
      requires |drawn| == |final| == |iters| && forall i :: 0 <= i < |iters| ==> drawn[i] == {} && !final[i]
      requires seen == [] && emitted == {} && candidates == {} && remove == {}
      ensures Valid()
    {
      hide UnionOk, RoundOk, DifferenceOk, FinalOk, KnownOk, Unmatched, InValue;
      hide ValueSet, AllDecided, Rest, Distinct, Has, Knows;
      ValueSetOk(kind, Inputs());
      StartOk(Inputs(), drawn, final);
    }

    /** An operator over inputs that nothing has been drawn from yet. */
    constructor Combine(k: Kind, ops: seq<DynOp>)
      requires k != List && k != Everything && (k != Union ==> ops != [])
      requires forall i :: 0 <= i < |ops| ==> ops[i].Valid() && ops[i].view.out == []
      requires forall i, j :: 0 <= i < j < |ops| ==> Apart(ops[i], ops[j])
      ensures Valid() && kind == k && iters == ops && view.out == []
      ensures this in repr && fresh(this)
      ensures forall o :: o in repr ==> o == this || exists i :: 0 <= i < |ops| && o in ops[i].repr
    {
      hide Valid, KnownOk, InValue, ValueSet, AllDecided, Rest;
      ValidIsShaped(ops);
      kind, iters := k, ops;
      repr := {this} + set i, o | 0 <= i < |ops| && o in ops[i].repr :: o;
      height := MaxHeight(ops) + 1;
      list, isFinal, index, infiniteSent := [], false, 0, false;
      seen, emitted, candidates, remove := [], {}, {}, {};
      drawn := seq(|ops|, i => {});
      final := seq(|ops|, i => false);
      new;
      MaxHeightIsMax(ops);
      ghost var known := ValueSet(k, Inputs());
      view := View([], known, AllDecided(Inputs()), Rest(known, []));
      StartIsValid();
    }
  
    /** The path leads from this operator down to a List. */
    ghost predicate IsPath(path: seq<nat>)
      decreases |path|
    {
      if path == [] then kind == List
      else kind != List && path[0] < |iters| && iters[path[0]].IsPath(path[1..])
    }

    function Leaf(path: seq<nat>): DynOp
      requires IsPath(path)
      decreases |path|
    {
      if path == [] then this else iters[path[0]].Leaf(path[1..])
    }

    /** The List at the end of the path is extended, and perhaps declared final; the way
        back up is the one its trigger takes. */
    method Arrive(path: seq<nat>, elems: seq<Elem>, last: bool)
      requires Valid() && IsPath(path)
      modifies repr
      ensures Valid() && Arrived(old(view), view)
      ensures Leaf(path).isFinal == (last || old(Leaf(path).isFinal))
      ensures Leaf(path).list == old(Leaf(path).list) + (if old(Leaf(path).isFinal) then [] else elems)
      decreases height
    {
      if path == [] {
        if !isFinal {
          list := list + elems;
        }
        isFinal := isFinal || last;
        view := ListView();
      } else {
        var k := path[0];
        ghost var ins, known := Inputs(), view.known;
        ArriveAtInput(k, path[1..], elems, last);
        ghost var known' := ValueSet(kind, Inputs());
        ValueSetOk(kind, Inputs());
        ArrivalValue(kind, known, ins, known', Inputs(), k);
        ArrivalKeepsFields(ins, Inputs(), k);
        view := View(view.out, known', AllDecided(Inputs()), Rest(known', view.out));
      }
    }

    method ArriveAtInput(k: nat, path: seq<nat>, elems: seq<Elem>, last: bool)
      requires Shape() && InputsValid() && k < |iters| && iters[k].IsPath(path)
      modifies iters[k].repr
      ensures InputsValid() && Inputs() == old(Inputs())[k := Inputs()[k]] && Arrived(old(Inputs())[k], Inputs()[k])
      ensures iters[k].Leaf(path).isFinal == (last || old(iters[k].Leaf(path).isFinal))
      ensures iters[k].Leaf(path).list ==
                old(iters[k].Leaf(path).list) + (if old(iters[k].Leaf(path).isFinal) then [] else elems)
      decreases height, 0
    {
      assert iters[k].Valid();
      forall j | 0 <= j < |iters| && j != k ensures iters[j].Valid() && iters[j].repr !! iters[k].repr {
        assert if j < k then Apart(iters[j], iters[k]) else Apart(iters[k], iters[j]);
      }
      iters[k].Arrive(path, elems, last);
      forall j | 0 <= j < |iters| ensures iters[j].Valid() && (j != k ==> iters[j].view == old(iters[j].view)) {}
    }

    /* ----- what it all comes to ----- */

    /** Plain set algebra on the contents of the Lists. */
    ghost predicate InAlgebra(e: Elem)
      requires Shape() && InputsValid()
      reads this, repr
      decreases height
    {
      match kind
      case List => e in list
      case Everything => e == Infinite
      case Union => exists i :: 0 <= i < |iters| && iters[i].Valid() && iters[i].InAlgebra(e)
      case Intersection => forall i :: 0 <= i < |iters| ==> iters[i].Valid() && iters[i].InAlgebra(e)
      case Difference =>
        && iters[0].Valid() && iters[0].InAlgebra(e)
        && forall i :: 1 <= i < |iters| ==> iters[i].Valid() && !iters[i].InAlgebra(e)
    }

    ghost predicate AllFinal()
      requires Shape() && InputsValid()
      reads this, repr
      decreases height
    {
      if kind == List then isFinal else forall i :: 0 <= i < |iters| ==> iters[i].Valid() && iters[i].AllFinal()
    }

    /** Decided means that every List is final. */
    lemma {:induction false} DecidedWhenFinal()
      requires Valid()
      ensures view.decided <==> AllFinal()
      decreases height
    {
      forall i | 0 <= i < |iters| ensures iters[i].Valid() && (Inputs()[i].decided <==> iters[i].AllFinal()) {
        assert iters[i].Valid();
        iters[i].DecidedWhenFinal();
      }
    }

    /** Once decided, the value is that of the set expression. */
    lemma {:induction false} DecidedIsAlgebra(e: Elem)
      requires Valid() && view.decided
      ensures e in view.known <==> InAlgebra(e)
      decreases height
    {
      if kind != List {
        assert Known(view.known, e) <==> InValue(kind, Inputs(), e);
        forall i | 0 <= i < |iters| ensures iters[i].Valid() && (Knows(Inputs(), i, e) <==> iters[i].InAlgebra(e)) {
          assert iters[i].Valid() && Inputs()[i].decided;
          iters[i].DecidedIsAlgebra(e);
        }
      }
    }

    /** What an operator has answered when it stops is the value of its expression. */
    lemma StoppedIsAlgebra()
      requires Valid() && Drained(view) && view.decided
      ensures forall e :: e in view.out <==> InAlgebra(e)
    {
      OutIsKnown();
      forall e ensures e in view.out <==> InAlgebra(e) {
        DecidedIsAlgebra(e);
        assert Known(view.known, e) <==> Out(view.out, e);
      }
    }

    /** A Difference says nothing while something could still be removed. */
    lemma NothingBeforeAllRemoved(i: nat)
      requires Valid() && kind == Difference && 1 <= i < |iters| && !Inputs()[i].decided
      ensures view.out == [] && Inputs()[0].out == []
    {
      assert !final[i];
    }
  }
}
