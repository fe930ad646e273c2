/** Giving constants their values, and replacing their names in arguments. */
module Constants {
  import opened Options
  import opened Sequences
  import opened GraphSyntax
  import opened Scoping

  /** A constant is defined by a literal or by the name of another constant. */
  datatype Constant = Constant(ident: string, arg: Arg)

  /** The messages name the constant, or the name that its definition uses. */
  datatype Issue = CircularReference(ident: string) | Undefined(ident: string)

  ghost predicate DistinctConstants(constants: seq<Constant>) {
    forall i, j :: 0 <= i < j < |constants| ==> constants[i].ident != constants[j].ident
  }

  ghost function Definitions(constants: seq<Constant>): (defs: map<string, Arg>)
    requires DistinctConstants(constants)
    ensures forall i :: 0 <= i < |constants| ==>
              constants[i].ident in defs && defs[constants[i].ident] == constants[i].arg
  {
    map i | 0 <= i < |constants| :: constants[i].ident := constants[i].arg
  }

  /** The literal at the end of a chain of references of at most the given length. */
  function Follow(defs: map<string, Arg>, ident: string, length: nat): Option<Literal>
    decreases length
  {
    if ident !in defs then None
    else match defs[ident]
         case Value(v) => Some(v)
         case Id(next) => if length == 0 then None else Follow(defs, next, length - 1)
  }

  lemma {:induction false} FollowFurther(defs: map<string, Arg>, ident: string, length: nat, more: nat)
    requires Follow(defs, ident, length).Some? && length <= more
    ensures Follow(defs, ident, more) == Follow(defs, ident, length)
    decreases length
  {
    if defs[ident].Id? {
      FollowFurther(defs, defs[ident].ident, length - 1, more - 1);
    }
  }

  ghost predicate Reaches(defs: map<string, Arg>, ident: string, v: Literal) {
    exists length: nat :: Follow(defs, ident, length) == Some(v)
  }

  lemma ReachesOne(defs: map<string, Arg>, ident: string, v: Literal, w: Literal)
    requires Reaches(defs, ident, v) && Reaches(defs, ident, w)
    ensures v == w
  {
    var a: nat :| Follow(defs, ident, a) == Some(v);
    var b: nat :| Follow(defs, ident, b) == Some(w);
    FollowFurther(defs, ident, a, a + b);
    FollowFurther(defs, ident, b, a + b);
  }

  /** A constant reaches what the constant that it refers to reaches. */
  lemma ReachesThrough(defs: map<string, Arg>, ident: string, next: string, v: Literal)
    requires ident in defs && defs[ident] == Id(next) && Reaches(defs, next, v)
    ensures Reaches(defs, ident, v)
  {
    var length: nat :| Follow(defs, next, length) == Some(v);
    assert Follow(defs, ident, length + 1) == Some(v);
  }

  /* ----- where chains of references end ----- */

  /** The name that n references lead to. */
  function Nth(defs: map<string, Arg>, ident: string, n: nat): Option<string>
    decreases n
  {
    if n == 0 then Some(ident)
    else if ident in defs && defs[ident].Id? then Nth(defs, defs[ident].ident, n - 1)
    else None
  }

  ghost predicate EndsUndefined(defs: map<string, Arg>, ident: string) {
    exists n: nat :: Nth(defs, ident, n).Some? && Nth(defs, ident, n).value !in defs
  }

  /** The chain comes back to a name that it has passed. */
  ghost predicate Circular(defs: map<string, Arg>, ident: string) {
    exists m: nat, n: nat :: m < n && Nth(defs, ident, m).Some? && Nth(defs, ident, m) == Nth(defs, ident, n)
  }

  lemma {:induction false} NthConcat(defs: map<string, Arg>, ident: string, m: nat, n: nat)
    ensures var there := Nth(defs, ident, m);
            Nth(defs, ident, m + n) == if there.None? then None else Nth(defs, there.value, n)
    decreases m
  {
    if m > 0 && ident in defs && defs[ident].Id? {
      NthConcat(defs, defs[ident].ident, m - 1, n);
    }
  }

  lemma {:induction false} FollowNth(defs: map<string, Arg>, ident: string, n: nat)
    requires Nth(defs, ident, n).Some?
    ensures var end := Nth(defs, ident, n).value;
            end in defs && defs[end].Value? ==> Follow(defs, ident, n) == Some(defs[end].value)
    decreases n
  {
    if n > 0 {
      FollowNth(defs, defs[ident].ident, n - 1);
    }
  }

  lemma {:induction false} NthOfFollow(defs: map<string, Arg>, ident: string, length: nat) returns (n: nat)
    requires Follow(defs, ident, length).Some?
    ensures Nth(defs, ident, n).Some?
    ensures var end := Nth(defs, ident, n).value; end in defs && defs[end] == Value(Follow(defs, ident, length).value)
    decreases length
  {
    if defs[ident].Value? {
      n := 0;
    } else {
      var k := NthOfFollow(defs, defs[ident].ident, length - 1);
      n := k + 1;
    }
  }

  /** A chain that comes back never ends. */
  lemma {:induction false} CircleGoesOn(defs: map<string, Arg>, ident: string, m: nat, n: nat, k: nat)
    requires m < n && Nth(defs, ident, m).Some? && Nth(defs, ident, m) == Nth(defs, ident, n)
    ensures Nth(defs, ident, k).Some?
    decreases k
  {
    if k <= n {
      NthConcat(defs, ident, k, n - k);
    } else {
      NthConcat(defs, ident, n, k - n);
      NthConcat(defs, ident, m, k - n);
      CircleGoesOn(defs, ident, m, n, m + (k - n));
    }
  }

  lemma EndIsNoCircle(defs: map<string, Arg>, ident: string, n: nat)
    requires Nth(defs, ident, n).Some?
    requires var end := Nth(defs, ident, n).value; end in defs ==> defs[end].Value?
    ensures !Circular(defs, ident)
  {
    NthConcat(defs, ident, n, 1);
    if m: nat, k: nat :| m < k && Nth(defs, ident, m).Some? && Nth(defs, ident, m) == Nth(defs, ident, k) {
      CircleGoesOn(defs, ident, m, k, n + 1);
    }
  }

  ghost function Passed(defs: map<string, Arg>, ident: string, n: nat): set<string> {
    set i | 0 <= i < n && Nth(defs, ident, i).Some? :: Nth(defs, ident, i).value
  }

  lemma {:induction false} PassedSize(defs: map<string, Arg>, ident: string, n: nat)
    requires !Circular(defs, ident) && forall i: nat :: i < n ==> Nth(defs, ident, i).Some?
    ensures |Passed(defs, ident, n)| == n
  {
    if n > 0 {
      PassedSize(defs, ident, n - 1);
      assert Passed(defs, ident, n) == Passed(defs, ident, n - 1) + {Nth(defs, ident, n - 1).value};
    }
  }

  lemma SubsetSize(a: set<string>, b: set<string>)
    requires a <= b
    ensures |a| <= |b|
  {
    assert b == a + (b - a);
  }

  lemma {:induction false} EndOrOn(defs: map<string, Arg>, ident: string, n: nat) returns (k: nat)
    requires Nth(defs, ident, n).None?
    ensures Nth(defs, ident, k).Some? && (Nth(defs, ident, k).value in defs ==> defs[Nth(defs, ident, k).value].Value?)
    decreases n
  {
    NthConcat(defs, ident, n - 1, 1);
    if Nth(defs, ident, n - 1).Some? {
      k := n - 1;
    } else {
      k := EndOrOn(defs, ident, n - 1);
    }
  }

  /** A chain reaches a literal, or ends at an undefined name, or comes back: exactly one of these. */
  lemma ThreeEnds(defs: map<string, Arg>, ident: string)
    ensures Circular(defs, ident) <==> !EndsUndefined(defs, ident) && forall v :: !Reaches(defs, ident, v)
    ensures EndsUndefined(defs, ident) ==> forall v :: !Reaches(defs, ident, v)
  {
    forall v | Reaches(defs, ident, v) ensures !Circular(defs, ident) && !EndsUndefined(defs, ident) {
      var length: nat :| Follow(defs, ident, length) == Some(v);
      var n := NthOfFollow(defs, ident, length);
      EndIsNoCircle(defs, ident, n);
      if m: nat :| Nth(defs, ident, m).Some? && Nth(defs, ident, m).value !in defs {
        NthConcat(defs, ident, n, 1);
        NthConcat(defs, ident, m, 1);
        if m < n {
          NthConcat(defs, ident, m + 1, n - m - 1);
        } else if n < m {
          NthConcat(defs, ident, n + 1, m - n - 1);
        }
      }
    }
    if n: nat :| Nth(defs, ident, n).Some? && Nth(defs, ident, n).value !in defs {
      EndIsNoCircle(defs, ident, n);
    }
    if !Circular(defs, ident) {
      var n := NotEndless(defs, ident);
      var k := EndOrOn(defs, ident, n);
      FollowNth(defs, ident, k);
      var end := Nth(defs, ident, k).value;
      assert end in defs ==> Reaches(defs, ident, defs[end].value);
      assert end !in defs ==> EndsUndefined(defs, ident);
    }
  }

  /** Among more names than there are definitions, one comes twice. */
  lemma NotEndless(defs: map<string, Arg>, ident: string) returns (n: nat)
    requires !Circular(defs, ident)
    ensures Nth(defs, ident, n).None?
  {
    n := |defs| + 2;
    if Nth(defs, ident, n).Some? {
      forall i: nat | i < n ensures Nth(defs, ident, i).Some? && Nth(defs, ident, i).value in defs {
        NthConcat(defs, ident, i, n - i);
      }
      PassedSize(defs, ident, n);
      SubsetSize(Passed(defs, ident, n), defs.Keys);
    }
  }

  /* ----- values ----- */

  /** A set of values that holds all literals and is closed under references holds everything that
      reaches a literal. */
  lemma {:induction false} ClosedIsComplete(defs: map<string, Arg>, defined: map<string, Literal>, ident: string,
                                            length: nat)
    requires forall x :: x in defs && defs[x].Value? ==> x in defined
    requires forall x :: x in defs && defs[x].Id? && defs[x].ident in defined ==> x in defined
    requires Follow(defs, ident, length).Some?
    ensures ident in defined
    decreases length
  {
    if defs[ident].Id? {
      ClosedIsComplete(defs, defined, defs[ident].ident, length - 1);
    }
  }

  /** Some constant of that name is a reference. */
  predicate IsReference(constants: seq<Constant>, ident: string) {
    exists i :: 0 <= i < |constants| && constants[i].arg.Id? && constants[i].ident == ident
  }

  /** A constant that refers to another reference is called circular, whether it is or not. */
  function IssueOf(constants: seq<Constant>, c: Constant): Issue
    requires c.arg.Id?
  {
    if IsReference(constants, c.arg.ident) then CircularReference(c.ident) else Undefined(c.arg.ident)
  }

  /** The constant is defined by a name that is not. */
  ghost predicate Dangles(defs: map<string, Arg>, ident: string) {
    ident in defs && defs[ident].Id? && defs[ident].ident !in defs
  }

  /** Some constant refers to one that dangles. */
  ghost predicate RefersToDangling(defs: map<string, Arg>) {
    exists x :: x in defs && defs[x].Id? && Dangles(defs, defs[x].ident)
  }

  /** The constant is called circular although its chain ends at an undefined name. */
  ghost predicate Misreported(constants: seq<Constant>, c: Constant)
    requires DistinctConstants(constants)
  {
    c.arg.Id? && IssueOf(constants, c).CircularReference? && EndsUndefined(Definitions(constants), c.ident)
  }

  /** A constant that refers to a reference has a chain that ends at an undefined name. */
  ghost predicate Disguised(defs: map<string, Arg>, ident: string) {
    ident in defs && defs[ident].Id? && defs[ident].ident in defs && defs[defs[ident].ident].Id? &&
      EndsUndefined(defs, ident)
  }

  /** Of such a chain, only the last constant dangles, and the one before refers to it. */
  lemma DisguisedExactly(defs: map<string, Arg>)
    ensures (exists x :: Disguised(defs, x)) <==> RefersToDangling(defs)
  {
    if x :| Disguised(defs, x) {
      var n: nat :| Nth(defs, x, n).Some? && Nth(defs, x, n).value !in defs;
      assert n != 0 && Nth(defs, x, 1) == Some(defs[x].ident);
      NthConcat(defs, x, n - 2, 1);
      NthConcat(defs, x, n - 1, 1);
      assert Dangles(defs, Nth(defs, x, n - 1).value);
    }
    if x :| x in defs && defs[x].Id? && Dangles(defs, defs[x].ident) {
      var y := defs[x].ident;
      assert Nth(defs, y, 1) == Some(defs[y].ident);
      assert Nth(defs, x, 2) == Some(defs[y].ident);
      assert Disguised(defs, x);
    }
  }

  lemma DefinedOnce(constants: seq<Constant>, x: string)
    requires DistinctConstants(constants)
    ensures x in Definitions(constants) <==> exists c :: c in constants && c.ident == x
    ensures forall c :: c in constants && c.ident == x ==> Definitions(constants)[x] == c.arg
    ensures IsReference(constants, x) <==> x in Definitions(constants) && Definitions(constants)[x].Id?
  {
    if x in Definitions(constants) {
      var i :| 0 <= i < |constants| && constants[i].ident == x;
      assert constants[i] in constants;
    }
    forall c | c in constants && c.ident == x
      ensures x in Definitions(constants) && Definitions(constants)[x] == c.arg
    {
      var i :| 0 <= i < |constants| && constants[i] == c;
    }
  }

  lemma MisreportedIsDisguised(constants: seq<Constant>, c: Constant)
    requires DistinctConstants(constants) && c in constants
    ensures Misreported(constants, c) <==> Disguised(Definitions(constants), c.ident)
  {
    hide Definitions, EndsUndefined, IsReference;
    DefinedOnce(constants, c.ident);
    if c.arg.Id? {
      DefinedOnce(constants, c.arg.ident);
    }
  }

  /** The message that a constant is circular is wrong for some constant if and only if some constant
      refers to one that is defined by an undefined name. */
  lemma MisreportedExactly(constants: seq<Constant>)
    requires DistinctConstants(constants)
    ensures (exists c :: c in constants && Misreported(constants, c)) <==> RefersToDangling(Definitions(constants))
  {
    hide Definitions, Misreported, DistinctConstants, RefersToDangling;
    DisguisedExactly(Definitions(constants));
    if c :| c in constants && Misreported(constants, c) {
      MisreportedIsDisguised(constants, c);
    }
    if x :| Disguised(Definitions(constants), x) {
      DefinedOnce(constants, x);
      var c :| c in constants && c.ident == x;
      MisreportedIsDisguised(constants, c);
    }
  }

  lemma LiteralIsReached(defs: map<string, Arg>, ident: string, next: string)
    requires ident in defs && defs[ident] == Id(next)
    ensures next in defs && defs[next].Value? ==> Reaches(defs, ident, defs[next].value)
  {
    assert Nth(defs, ident, 1) == Some(next);
    FollowNth(defs, ident, 1);
  }

  /** The message that a name is undefined is right, and whatever is circular is called so. */
  lemma MessageIsRight(constants: seq<Constant>, c: Constant)
    requires DistinctConstants(constants) && c in constants && c.arg.Id?
    requires forall v :: !Reaches(Definitions(constants), c.ident, v)
    ensures IssueOf(constants, c).Undefined? ==>
              IssueOf(constants, c) == Undefined(c.arg.ident) && c.arg.ident !in Definitions(constants)
    ensures Circular(Definitions(constants), c.ident) ==> IssueOf(constants, c) == CircularReference(c.ident)
  {
    hide Definitions, DistinctConstants, IsReference;
    var defs := Definitions(constants);
    DefinedOnce(constants, c.ident);
    DefinedOnce(constants, c.arg.ident);
    assert Nth(defs, c.ident, 1) == Some(c.arg.ident);
    LiteralIsReached(defs, c.ident, c.arg.ident);
    if c.arg.ident !in defs {
      EndIsNoCircle(defs, c.ident, 1);
    }
  }

  ghost predicate Sound(defs: map<string, Arg>, defined: map<string, Literal>) {
    forall x :: x in defined ==> Reaches(defs, x, defined[x])
  }

  /** The constants without value so far are references, and the others have values. */
  ghost predicate Progress(constants: seq<Constant>, defined: map<string, Literal>, unresolved: seq<Constant>) {
    && (forall c :: c in unresolved ==> c in constants && c.arg.Id? && c.ident !in defined)
    && (forall c :: c in constants && c.ident !in defined ==> c in unresolved)
    && DistinctConstants(unresolved)
  }

  lemma {:induction false} RemoveRemoves(s: seq<Constant>, c: Constant)
    requires DistinctConstants(s)
    ensures forall x :: x in RemoveFirst(s, c) <==> x in s && x != c
    ensures DistinctConstants(RemoveFirst(s, c)) && |RemoveFirst(s, c)| == if c in s then |s| - 1 else |s|
  {
    if s != [] {
      RemoveRemoves(s[1..], c);
      assert forall x :: x in s <==> x == s[0] || x in s[1..];
      assert s[0] !in s[1..];
      if s[0] != c {
        var rest := RemoveFirst(s[1..], c);
        forall j | 0 <= j < |rest| ensures s[0].ident != rest[j].ident {
          assert rest[j] in rest && rest[j] in s[1..];
        }
      }
    }
  }

  lemma ResolveStep(constants: seq<Constant>, defined: map<string, Literal>, unresolved: seq<Constant>, c: Constant)
    requires DistinctConstants(constants) && Progress(constants, defined, unresolved)
    requires Sound(Definitions(constants), defined)
    requires c in unresolved && c.arg.ident in defined
    ensures Progress(constants, defined[c.ident := defined[c.arg.ident]], RemoveFirst(unresolved, c))
    ensures Sound(Definitions(constants), defined[c.ident := defined[c.arg.ident]])
    ensures |RemoveFirst(unresolved, c)| < |unresolved|
  {
    RemoveRemoves(unresolved, c);
    var i :| 0 <= i < |constants| && constants[i] == c;
    ReachesThrough(Definitions(constants), c.ident, c.arg.ident, defined[c.arg.ident]);
    forall x | x in unresolved && x.ident == c.ident ensures x == c {
      var a :| 0 <= a < |unresolved| && unresolved[a] == x;
      var b :| 0 <= b < |unresolved| && unresolved[b] == c;
    }
  }

  /** The first k constants have been sorted. */
  ghost predicate Started(constants: seq<Constant>, k: nat, defined: map<string, Literal>, unresolved: seq<Constant>,
                          seen: set<string>) {
    && k <= |constants|
    && (forall x :: x in defined <==> exists i :: 0 <= i < k && constants[i].ident == x && constants[i].arg.Value?)
    && (forall i :: 0 <= i < k && constants[i].arg.Value? ==>
         constants[i].ident in defined && defined[constants[i].ident] == constants[i].arg.value)
    && (forall c :: c in unresolved <==> exists i :: 0 <= i < k && constants[i] == c && c.arg.Id?)
    && (forall x :: x in seen <==> exists i :: 0 <= i < k && constants[i].ident == x && constants[i].arg.Id?)
    && DistinctConstants(unresolved)
  }

  lemma NothingStarted(constants: seq<Constant>)
    ensures Started(constants, 0, map[], [], {})
  {
  }

  lemma LiteralStep(constants: seq<Constant>, k: nat, defined: map<string, Literal>, unresolved: seq<Constant>,
                    seen: set<string>)
    requires DistinctConstants(constants) && k < |constants| && Started(constants, k, defined, unresolved, seen)
    requires constants[k].arg.Value?
    ensures Started(constants, k + 1, defined[constants[k].ident := constants[k].arg.value], unresolved, seen)
  {
  }

  lemma ReferenceStep(constants: seq<Constant>, k: nat, defined: map<string, Literal>, unresolved: seq<Constant>,
                      seen: set<string>)
    requires DistinctConstants(constants) && k < |constants| && Started(constants, k, defined, unresolved, seen)
    requires constants[k].arg.Id?
    ensures Started(constants, k + 1, defined, unresolved + [constants[k]], seen + {constants[k].ident})
  {
    forall j | 0 <= j < |unresolved| ensures unresolved[j].ident != constants[k].ident {
      assert unresolved[j] in unresolved;
    }
  }

  lemma StartDone(constants: seq<Constant>, defined: map<string, Literal>, unresolved: seq<Constant>, seen: set<string>)
    requires DistinctConstants(constants) && Started(constants, |constants|, defined, unresolved, seen)
    ensures Progress(constants, defined, unresolved) && Sound(Definitions(constants), defined)
    ensures forall x :: x in seen <==> IsReference(constants, x)
  {
    var defs := Definitions(constants);
    forall x | x in defined ensures Reaches(defs, x, defined[x]) {
      var i :| 0 <= i < |constants| && constants[i].ident == x && constants[i].arg.Value?;
      assert Follow(defs, x, 0) == Some(defined[x]);
    }
    forall c | c in constants && c.ident !in defined ensures c in unresolved {
      var i :| 0 <= i < |constants| && constants[i] == c;
    }
    forall c | c in unresolved ensures c in constants && c.ident !in defined {
      var i :| 0 <= i < |constants| && constants[i] == c && c.arg.Id?;
    }
  }

  /** An undefined name is named, and a circle is called one. */
  ghost predicate Told(defs: map<string, Arg>, c: Constant, issue: Issue) {
    && (issue == CircularReference(c.ident) || (c.arg.Id? && issue == Undefined(c.arg.ident) && c.arg.ident !in defs))
    && (Circular(defs, c.ident) ==> issue == CircularReference(c.ident))
    && (Circular(defs, c.ident) || EndsUndefined(defs, c.ident))
  }

  /** A chain that ends at an undefined name is called circular. */
  ghost predicate Wrong(defs: map<string, Arg>, c: Constant, issue: Issue) {
    issue.CircularReference? && EndsUndefined(defs, c.ident)
  }

  lemma AllTold(constants: seq<Constant>, defined: map<string, Literal>, unresolved: seq<Constant>, issues: seq<Issue>)
    requires DistinctConstants(constants) && |issues| == |unresolved|
    requires forall x, v :: x in defined && defined[x] == v <==> Reaches(Definitions(constants), x, v)
    requires forall c :: c in unresolved <==> c in constants && c.ident !in defined
    requires forall i :: 0 <= i < |issues| ==> unresolved[i].arg.Id? && issues[i] == IssueOf(constants, unresolved[i])
    ensures forall i :: 0 <= i < |issues| ==> Told(Definitions(constants), unresolved[i], issues[i])
    ensures (exists i :: 0 <= i < |issues| && Wrong(Definitions(constants), unresolved[i], issues[i])) <==>
              RefersToDangling(Definitions(constants))
  {
    hide Definitions, DistinctConstants, IssueOf, EndsUndefined, Circular, Reaches, RefersToDangling;
    var defs := Definitions(constants);
    forall i | 0 <= i < |issues| ensures Told(defs, unresolved[i], issues[i]) {
      assert unresolved[i] in unresolved;
      OneTold(constants, unresolved[i]);
    }
    MisreportedExactly(constants);
    forall x | x in defined ensures Reaches(defs, x, defined[x]) {
    }
    if i :| 0 <= i < |issues| && Wrong(defs, unresolved[i], issues[i]) {
      assert unresolved[i] in unresolved && Misreported(constants, unresolved[i]);
    }
    if c :| c in constants && Misreported(constants, c) {
      ThreeEnds(defs, c.ident);
      assert c in unresolved;
      var i :| 0 <= i < |unresolved| && unresolved[i] == c;
      assert Wrong(defs, unresolved[i], issues[i]);
    }
  }

  lemma OneTold(constants: seq<Constant>, c: Constant)
    requires DistinctConstants(constants) && c in constants && c.arg.Id?
    requires forall v :: !Reaches(Definitions(constants), c.ident, v)
    ensures Told(Definitions(constants), c, IssueOf(constants, c))
  {
    hide Definitions, EndsUndefined, Circular, Reaches;
    ThreeEnds(Definitions(constants), c.ident);
    MessageIsRight(constants, c);
  }

  class ReplaceConstants {
    var defined: map<string, Literal>
    var unresolved: seq<Constant>
    var issues: seq<Issue>

    constructor ()
      ensures defined == map[] && unresolved == [] && issues == []
    {
      defined, unresolved, issues := map[], [], [];
    }

    /** Literals first, then references to what has a value, until a round finds none. */
    method Resolve(constants: seq<Constant>)
      requires DistinctConstants(constants)
      modifies this
      ensures forall x, v :: x in defined && defined[x] == v <==> Reaches(Definitions(constants), x, v)
      ensures forall c :: c in unresolved <==> c in constants && c.ident !in defined
      ensures |issues| == |unresolved|
      ensures forall i :: 0 <= i < |issues| ==> Told(Definitions(constants), unresolved[i], issues[i])
      ensures (exists i :: 0 <= i < |issues| && Wrong(Definitions(constants), unresolved[i], issues[i])) <==>
                RefersToDangling(Definitions(constants))
    {
      ghost var defs := Definitions(constants);
      var seen := Literals(constants);
      while true
        invariant Progress(constants, defined, unresolved) && Sound(defs, defined)
        decreases |unresolved|
      {
        var replaced := Round(constants);
        if !replaced {
          break;
        }
      }
      Complete(constants, defined, unresolved);
      Report(constants, seen);
      AllTold(constants, defined, unresolved, issues);
    }

    method Report(constants: seq<Constant>, seen: set<string>)
      requires forall c :: c in unresolved ==> c.arg.Id?
      requires forall x :: x in seen <==> IsReference(constants, x)
      modifies this`issues
      ensures |issues| == |unresolved|
      ensures forall i :: 0 <= i < |issues| ==> unresolved[i].arg.Id? && issues[i] == IssueOf(constants, unresolved[i])
    {
      issues := [];
      var k := 0;
      while k < |unresolved|
        invariant k <= |unresolved| && |issues| == k
        invariant forall i :: 0 <= i < k ==> unresolved[i].arg.Id? && issues[i] == IssueOf(constants, unresolved[i])
      {
        var c := unresolved[k];
        issues := issues + [if c.arg.ident in seen then CircularReference(c.ident) else Undefined(c.arg.ident)];
        k := k + 1;
      }
    }

    /** The constants that are literals get their values; the others are left. */
    method Literals(constants: seq<Constant>) returns (seen: set<string>)
      requires DistinctConstants(constants)
      modifies this`defined, this`unresolved
      ensures Progress(constants, defined, unresolved) && Sound(Definitions(constants), defined)
      ensures forall x :: x in seen <==> IsReference(constants, x)
    {
      hide Started, Progress, Sound, DistinctConstants;
      defined, unresolved, seen := map[], [], {};
      NothingStarted(constants);
      var k := 0;
      while k < |constants|
        invariant k <= |constants| && Started(constants, k, defined, unresolved, seen)
      {
        var c := constants[k];
        if c.arg.Value? {
          LiteralStep(constants, k, defined, unresolved, seen);
          defined := defined[c.ident := c.arg.value];
        } else {
          ReferenceStep(constants, k, defined, unresolved, seen);
          unresolved := unresolved + [c];
          seen := seen + {c.ident};
        }
        k := k + 1;
      }
      StartDone(constants, defined, unresolved, seen);
    }

    /** Look once at every constant without value. */
    method Round(constants: seq<Constant>) returns (replaced: bool)
      requires DistinctConstants(constants) && Progress(constants, defined, unresolved)
      requires Sound(Definitions(constants), defined)
      modifies this`defined, this`unresolved
      ensures Progress(constants, defined, unresolved) && Sound(Definitions(constants), defined)
      ensures if replaced then |unresolved| < |old(unresolved)|
              else unresolved == old(unresolved) && forall c :: c in unresolved ==> c.arg.ident !in defined
    {
      hide Sound, Definitions;
      var todo, k := unresolved, 0;
      replaced := false;
      while k < |todo|
        invariant k <= |todo| && Progress(constants, defined, unresolved) && Sound(Definitions(constants), defined)
        invariant forall i :: k <= i < |todo| ==> todo[i] in unresolved
        invariant DistinctConstants(todo)
        invariant if replaced then |unresolved| < |todo|
                  else
                    && unresolved == todo && defined == old(defined)
                    && forall i :: 0 <= i < k ==> todo[i].arg.ident !in defined
      {
        var c := todo[k];
        if c.arg.ident in defined {
          ResolveStep(constants, defined, unresolved, c);
          RemoveRemoves(unresolved, c);
          defined := defined[c.ident := defined[c.arg.ident]];
          unresolved := RemoveFirst(unresolved, c);
          replaced := true;
        }
        k := k + 1;
      }
    }
  }

  lemma Complete(constants: seq<Constant>, defined: map<string, Literal>, unresolved: seq<Constant>)
    requires DistinctConstants(constants) && Progress(constants, defined, unresolved)
    requires Sound(Definitions(constants), defined)
    requires forall c :: c in unresolved ==> c.arg.ident !in defined
    ensures forall x, v :: x in defined && defined[x] == v <==> Reaches(Definitions(constants), x, v)
  {
    var defs := Definitions(constants);
    forall x | x in defs ensures exists c :: c in constants && c.ident == x && c.arg == defs[x] {
      var i :| 0 <= i < |constants| && constants[i].ident == x;
      assert constants[i] in constants;
    }
    forall x, v | Reaches(defs, x, v) ensures x in defined && defined[x] == v {
      var length: nat :| Follow(defs, x, length) == Some(v);
      ClosedIsComplete(defs, defined, x, length);
      ReachesOne(defs, x, v, defined[x]);
    }
  }

  /** The shortest case of a wrong message. */
  lemma NotCircular()
    ensures var constants := [Constant("a", Id("b")), Constant("b", Id("c"))];
            Misreported(constants, constants[0]) && !Misreported(constants, constants[1])
  {
    var constants := [Constant("a", Id("b")), Constant("b", Id("c"))];
    var defs := Definitions(constants);
    assert IsReference(constants, "b") by {
      assert constants[1].arg.Id? && constants[1].ident == "b";
    }
    assert constants[0] in constants && constants[1] in constants;
    DefinedOnce(constants, "a");
    DefinedOnce(constants, "b");
    assert defs["b"] == Id("c") && "c" !in defs;
    assert Nth(defs, "b", 1) == Some("c");
    assert Nth(defs, "a", 2) == Some("c");
  }

  /* ----- replacing names in arguments ----- */

  function ReplaceArg(a: Arg, defined: map<string, Literal>): Arg {
    if a.Id? && a.ident in defined then Value(defined[a.ident]) else a
  }

  function ReplaceInEnv(env: map<string, Arg>, defined: map<string, Literal>): map<string, Arg> {
    map x | x in env :: ReplaceArg(env[x], defined)
  }

  function ReplaceInScopes(scopes: seq<Scope>, defined: map<string, Literal>): seq<Scope> {
    seq(|scopes|, i requires 0 <= i < |scopes| => Scope(scopes[i].ns, ReplaceInEnv(scopes[i].env, defined)))
  }

  /** The constants as the outermost scope. */
  function ConstantScope(defined: map<string, Literal>): Scope {
    Scope("", map x | x in defined :: Value(defined[x]))
  }

  /** Replacing names of constants in a block at any level, and in the arguments around it, is looking
      them up outside of everything. */
  ghost predicate Outermost(scopes: seq<Scope>, defined: map<string, Literal>) {
    forall k, a :: 0 <= k <= |scopes| ==> SameValue(a, scopes[k..], defined)
  }

  ghost predicate SameValue(a: Arg, scopes: seq<Scope>, defined: map<string, Literal>) {
    Eval(ReplaceArg(a, defined), ReplaceInScopes(scopes, defined)) == Eval(a, scopes + [ConstantScope(defined)])
  }

  /** A parameter with the name of a constant has the value of the constant. */
  ghost predicate Harmless(scopes: seq<Scope>, defined: map<string, Literal>) {
    forall k, x :: 0 <= k < |scopes| && x in scopes[k].env && x in defined ==>
      Eval(scopes[k].env[x], scopes[k + 1..] + [ConstantScope(defined)]) == Value(defined[x])
  }

  lemma {:induction false} OutermostIfHarmless(a: Arg, scopes: seq<Scope>, defined: map<string, Literal>)
    requires Harmless(scopes, defined)
    ensures SameValue(a, scopes, defined)
    decreases |scopes|
  {
    var constants := [ConstantScope(defined)];
    var outer := scopes + constants;
    if scopes == [] {
      assert outer[1..] == [];
    } else {
      assert outer[1..] == scopes[1..] + constants;
      assert ReplaceInScopes(scopes, defined)[1..] == ReplaceInScopes(scopes[1..], defined);
      assert Harmless(scopes[1..], defined) by {
        assert forall k :: 0 <= k < |scopes[1..]| ==>
                 scopes[1..][k] == scopes[k + 1] && scopes[1..][k + 1..] == scopes[k + 2..];
      }
      if a.Id? && a.ident in scopes[0].env {
        OutermostIfHarmless(scopes[0].env[a.ident], scopes[1..], defined);
      } else {
        OutermostIfHarmless(a, scopes[1..], defined);
      }
    }
  }

  /** Replacing names of constants is looking them up outermost, at every level, if and only if every
      parameter with the name of a constant has its value. */
  lemma ConstantsAreOutermost(scopes: seq<Scope>, defined: map<string, Literal>)
    ensures Outermost(scopes, defined) <==> Harmless(scopes, defined)
  {
    var constants := [ConstantScope(defined)];
    if Harmless(scopes, defined) {
      forall k, a | 0 <= k <= |scopes| ensures SameValue(a, scopes[k..], defined) {
        assert Harmless(scopes[k..], defined) by {
          assert forall i :: 0 <= i < |scopes[k..]| ==>
                   scopes[k..][i] == scopes[k + i] && scopes[k..][i + 1..] == scopes[k + i + 1..];
        }
        OutermostIfHarmless(a, scopes[k..], defined);
      }
    }
    if Outermost(scopes, defined) {
      forall k, x | 0 <= k < |scopes| && x in scopes[k].env && x in defined
        ensures Eval(scopes[k].env[x], scopes[k + 1..] + constants) == Value(defined[x])
      {
        assert SameValue(Id(x), scopes[k..], defined);
        assert (scopes[k..] + constants)[1..] == scopes[k + 1..] + constants;
      }
    }
  }

  /** A parameter with another value is hidden by the constant. */
  lemma ConstantHidesParameter(v: Literal, w: Literal)
    ensures Harmless([Scope("c", map["x" := Value(v)])], map["x" := w]) <==> v == w
    ensures SameValue(Id("x"), [Scope("c", map["x" := Value(v)])], map["x" := w]) <==> v == w
  {
    var scopes, defined := [Scope("c", map["x" := Value(v)])], map["x" := w];
    assert "x" in scopes[0].env && scopes[0].env["x"] == Value(v) && "x" in defined;
    assert Eval(scopes[0].env["x"], scopes[0 + 1..] + [ConstantScope(defined)]) == Value(v);
    assert scopes[1..] + [ConstantScope(defined)] == [ConstantScope(defined)];
    assert (scopes + [ConstantScope(defined)])[1..] == [ConstantScope(defined)];
  }
}
