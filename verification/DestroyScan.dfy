/** Where the actors of an application are, while the registry is still being asked. */
module DestroyScan {
  import opened Options
  import opened Sequences

  type Id = string
  type NodeId = string

  /** The actors on one node; those on no node could not be found. */
  datatype Bucket = Bucket(node: Option<NodeId>, ids: seq<Id>)

  /** A question to the registry about one actor. Those about replicas do not ask for further replicas. */
  datatype Lookup = Lookup(id: Id, retries: nat, checkReplica: bool)

  /** A question about the replicas of an actor, the original. */
  datatype Query = Query(replicationId: string, original: Id)

  /** What the registry knows about an actor. */
  datatype Known = Known(node: NodeId, replicationId: Option<string>)

  const MAX_RETRIES := 10

  /* ----- the buckets ----- */

  function Update(info: seq<Bucket>, node: Option<NodeId>, id: Id): seq<Bucket> {
    if info == [] then [Bucket(node, [id])]
    else if info[0].node == node then [Bucket(node, info[0].ids + [id])] + info[1..]
    else [info[0]] + Update(info[1..], node, id)
  }

  /** The first bucket of the node is the one that is extended. */
  lemma {:induction false} UpdateAt(info: seq<Bucket>, node: Option<NodeId>, id: Id, i: nat)
    requires i <= |info| && forall j :: 0 <= j < i ==> info[j].node != node
    requires i < |info| ==> info[i].node == node
    ensures Update(info, node, id) ==
              if i < |info| then info[i := Bucket(node, info[i].ids + [id])] else info + [Bucket(node, [id])]
  {
    if info != [] && i > 0 {
      UpdateAt(info[1..], node, id, i - 1);
    }
  }

  function TotalIds(info: seq<Bucket>): nat {
    if info == [] then 0 else |info[0].ids| + TotalIds(info[1..])
  }

  ghost function Placed(info: seq<Bucket>): multiset<Id> {
    if info == [] then multiset{} else multiset(info[0].ids) + Placed(info[1..])
  }

  ghost predicate InBucket(info: seq<Bucket>, node: Option<NodeId>, id: Id) {
    exists i :: 0 <= i < |info| && info[i].node == node && id in info[i].ids
  }

  ghost predicate DistinctNodes(info: seq<Bucket>) {
    forall i, j :: 0 <= i < j < |info| ==> NodesOf(info)[i] != NodesOf(info)[j]
  }

  ghost predicate NoneEmpty(info: seq<Bucket>) {
    forall i :: 0 <= i < |info| ==> info[i].ids != []
  }

  /** Every actor that was found is in the bucket of its node, in no other, and there only once. */
  ghost predicate Partition(info: seq<Bucket>, found: map<Id, Option<NodeId>>) {
    && Placed(info) == multiset(found.Keys)
    && DistinctNodes(info) && NoneEmpty(info)
    && (forall node, id :: InBucket(info, node, id) <==> id in found && found[id] == node)
  }

  lemma {:induction false} UpdatePlaces(info: seq<Bucket>, node: Option<NodeId>, id: Id)
    ensures Placed(Update(info, node, id)) == Placed(info) + multiset{id}
  {
    if info != [] {
      var info' := Update(info, node, id);
      if info[0].node == node {
        assert info'[1..] == info[1..];
        assert multiset(info[0].ids + [id]) == multiset(info[0].ids) + multiset{id};
      } else {
        UpdatePlaces(info[1..], node, id);
        assert info'[1..] == Update(info[1..], node, id);
      }
    }
  }

  lemma {:induction false} UpdateBuckets(info: seq<Bucket>, node: Option<NodeId>, id: Id)
    ensures forall n, x :: InBucket(Update(info, node, id), n, x) <==> InBucket(info, n, x) || (n == node && x == id)
  {
    var info' := Update(info, node, id);
    BucketSplit(info');
    if info != [] {
      BucketSplit(info);
      if info[0].node == node {
        assert info'[1..] == info[1..];
        assert forall x :: x in info'[0].ids <==> x in info[0].ids || x == id;
      } else {
        UpdateBuckets(info[1..], node, id);
        assert info'[1..] == Update(info[1..], node, id);
      }
    }
  }

  /** The nodes of the buckets, in order. */
  ghost function NodesOf(info: seq<Bucket>): seq<Option<NodeId>> {
    seq(|info|, i requires 0 <= i < |info| => info[i].node)
  }

  lemma {:induction false} UpdateNodes(info: seq<Bucket>, node: Option<NodeId>, id: Id)
    ensures NodesOf(Update(info, node, id)) == if node in NodesOf(info) then NodesOf(info) else NodesOf(info) + [node]
  {
    var info' := Update(info, node, id);
    if info != [] {
      assert NodesOf(info) == [info[0].node] + NodesOf(info[1..]);
      if info[0].node != node {
        UpdateNodes(info[1..], node, id);
        assert NodesOf(info') == [info[0].node] + NodesOf(Update(info[1..], node, id));
      } else {
        assert NodesOf(info') == NodesOf(info);
      }
    }
  }

  lemma BucketSplit(info: seq<Bucket>)
    requires info != []
    ensures forall n, x :: InBucket(info, n, x) <==>
              (info[0].node == n && x in info[0].ids) || InBucket(info[1..], n, x)
  {
    forall n, x | InBucket(info, n, x) && !(info[0].node == n && x in info[0].ids) ensures InBucket(info[1..], n, x) {
      var i :| 0 <= i < |info| && info[i].node == n && x in info[i].ids;
      assert info[1..][i - 1] == info[i];
    }
    forall n, x | InBucket(info[1..], n, x) ensures InBucket(info, n, x) {
      var i :| 0 <= i < |info[1..]| && info[1..][i].node == n && x in info[1..][i].ids;
      assert info[i + 1] == info[1..][i];
    }
  }

  lemma UpdateKeepsDistinct(info: seq<Bucket>, node: Option<NodeId>, id: Id)
    requires DistinctNodes(info)
    ensures DistinctNodes(Update(info, node, id))
  {
    hide Update, InBucket;
    UpdateNodes(info, node, id);
    var nodes, nodes' := NodesOf(info), NodesOf(Update(info, node, id));
    assert nodes' != nodes ==> nodes' == nodes + [node] && node !in nodes;
  }

  lemma {:induction false} UpdateKeepsNoneEmpty(info: seq<Bucket>, node: Option<NodeId>, id: Id)
    requires NoneEmpty(info)
    ensures NoneEmpty(Update(info, node, id))
  {
    if info != [] {
      UpdateKeepsNoneEmpty(info[1..], node, id);
    }
  }

  lemma UpdateKeepsPartition(info: seq<Bucket>, found: map<Id, Option<NodeId>>, node: Option<NodeId>, id: Id)
    requires Partition(info, found) && id !in found
    ensures Partition(Update(info, node, id), found[id := node])
  {
    hide Update, DistinctNodes, NoneEmpty, InBucket, Placed;
    UpdateKeepsNoneEmpty(info, node, id);
    UpdatePlaces(info, node, id);
    UpdateBuckets(info, node, id);
    UpdateKeepsDistinct(info, node, id);
    assert found[id := node].Keys == found.Keys + {id};
    assert multiset(found.Keys + {id}) == multiset(found.Keys) + multiset{id};
  }

  lemma {:induction false} TotalIsPlaced(info: seq<Bucket>)
    ensures TotalIds(info) == |Placed(info)|
  {
    if info != [] {
      TotalIsPlaced(info[1..]);
    }
  }

  lemma {:induction false} MultisetSize(s: set<Id>)
    ensures |multiset(s)| == |s|
  {
    if s != {} {
      var x :| x in s;
      MultisetSize(s - {x});
      assert multiset(s) == multiset(s - {x}) + multiset{x};
    }
  }

  /* ----- how often something is in a list ----- */

  ghost function Times<T(!new)>(s: seq<T>, x: T): nat {
    if s == [] then 0 else Times(s[..|s| - 1], x) + if s[|s| - 1] == x then 1 else 0
  }

  lemma {:induction false} TimesConcat<T(!new)>(s: seq<T>, t: seq<T>, x: T)
    ensures Times(s + t, x) == Times(s, x) + Times(t, x)
  {
    if t == [] {
      assert s + t == s;
    } else {
      TimesConcat(s, t[..|t| - 1], x);
      assert (s + t)[..|s + t| - 1] == s + t[..|t| - 1];
    }
  }

  lemma TimesOne<T(!new)>(y: T, x: T)
    ensures Times([y], x) == if y == x then 1 else 0
  {
    assert [y][..0] == [];
  }

  lemma TimesMore<T(!new)>(s: seq<T>, y: T)
    ensures forall x :: Times(s + [y], x) == Times(s, x) + if y == x then 1 else 0
  {
    forall x ensures Times(s + [y], x) == Times(s, x) + if y == x then 1 else 0 {
      TimesConcat(s, [y], x);
      TimesOne(y, x);
    }
  }

  lemma {:induction false} TimesIn<T(!new)>(s: seq<T>, x: T)
    ensures x in s <==> Times(s, x) > 0
  {
    if s != [] {
      TimesIn(s[..|s| - 1], x);
      assert s == s[..|s| - 1] + [s[|s| - 1]];
    }
  }

  /** There is no other before any. */
  lemma {:induction false} TimesOnce<T(!new)>(s: seq<T>, x: T)
    ensures Times(s, x) <= 1 <==> forall i :: 0 <= i < |s| && s[i] == x ==> x !in s[..i]
  {
    if s != [] {
      var front := s[..|s| - 1];
      TimesOnce(front, x);
      TimesIn(front, x);
      assert forall i :: 0 <= i < |front| ==> front[i] == s[i] && front[..i] == s[..i];
    }
  }

  lemma {:induction false} TimesRemove<T(!new)>(s: seq<T>, y: T)
    ensures forall x :: Times(RemoveFirst(s, y), x) == Times(s, x) - if x == y && Times(s, y) > 0 then 1 else 0
  {
    if s != [] {
      TimesRemove(s[1..], y);
      forall x ensures Times(RemoveFirst(s, y), x) == Times(s, x) - if x == y && Times(s, y) > 0 then 1 else 0 {
        assert s == [s[0]] + s[1..];
        TimesConcat([s[0]], s[1..], x);
        TimesOne(s[0], x);
        TimesConcat([s[0]], RemoveFirst(s[1..], y), x);
      }
    }
  }

  /** How often an actor is being looked up. */
  ghost function LookedUp(lookups: seq<Lookup>, a: Id): nat {
    if lookups == [] then 0 else LookedUp(lookups[..|lookups| - 1], a) + if lookups[|lookups| - 1].id == a then 1 else 0
  }

  predicate IsReplica(q: Lookup, a: Id) {
    q.id == a && !q.checkReplica
  }

  /** How often it is being looked up as a replica. */
  ghost function AsReplica(lookups: seq<Lookup>, a: Id): nat {
    if lookups == [] then 0
    else AsReplica(lookups[..|lookups| - 1], a) + if IsReplica(lookups[|lookups| - 1], a) then 1 else 0
  }

  lemma {:induction false} LookupsConcat(s: seq<Lookup>, t: seq<Lookup>, a: Id)
    ensures LookedUp(s + t, a) == LookedUp(s, a) + LookedUp(t, a)
    ensures AsReplica(s + t, a) == AsReplica(s, a) + AsReplica(t, a)
  {
    if t == [] {
      assert s + t == s;
    } else {
      LookupsConcat(s, t[..|t| - 1], a);
      assert (s + t)[..|s + t| - 1] == s + t[..|t| - 1];
    }
  }

  lemma LookupsOne(q: Lookup, a: Id)
    ensures LookedUp([q], a) == (if q.id == a then 1 else 0) && AsReplica([q], a) == if IsReplica(q, a) then 1 else 0
  {
    assert [q][..0] == [];
  }

  lemma LookupsMore(lookups: seq<Lookup>, q: Lookup)
    ensures forall a :: LookedUp(lookups + [q], a) == LookedUp(lookups, a) + if q.id == a then 1 else 0
    ensures forall a :: AsReplica(lookups + [q], a) == AsReplica(lookups, a) + if IsReplica(q, a) then 1 else 0
  {
    forall a
      ensures LookedUp(lookups + [q], a) == LookedUp(lookups, a) + if q.id == a then 1 else 0
      ensures AsReplica(lookups + [q], a) == AsReplica(lookups, a) + if IsReplica(q, a) then 1 else 0
    {
      LookupsConcat(lookups, [q], a);
      LookupsOne(q, a);
    }
  }

  lemma {:induction false} RemoveLookup(lookups: seq<Lookup>, q: Lookup)
    requires q in lookups
    ensures forall a :: LookedUp(lookups, a) == LookedUp(RemoveFirst(lookups, q), a) + if q.id == a then 1 else 0
    ensures forall a ::
              AsReplica(lookups, a) == AsReplica(RemoveFirst(lookups, q), a) + if IsReplica(q, a) then 1 else 0
  {
    var first, rest := lookups[0], lookups[1..];
    assert lookups == [first] + rest;
    if first != q {
      RemoveLookup(rest, q);
    }
    forall a
      ensures LookedUp(lookups, a) == LookedUp(RemoveFirst(lookups, q), a) + if q.id == a then 1 else 0
      ensures AsReplica(lookups, a) == AsReplica(RemoveFirst(lookups, q), a) + if IsReplica(q, a) then 1 else 0
    {
      LookupsConcat([first], rest, a);
      LookupsOne(first, a);
      LookupsConcat([first], RemoveFirst(rest, q), a);
    }
  }

  /** How often the replicas of a replication are being asked for. */
  ghost function AskedFor(queries: seq<Query>, r: string): nat {
    if queries == [] then 0
    else AskedFor(queries[..|queries| - 1], r) + if queries[|queries| - 1].replicationId == r then 1 else 0
  }

  lemma {:induction false} QueriesConcat(s: seq<Query>, t: seq<Query>, r: string)
    ensures AskedFor(s + t, r) == AskedFor(s, r) + AskedFor(t, r)
  {
    if t == [] {
      assert s + t == s;
    } else {
      QueriesConcat(s, t[..|t| - 1], r);
      assert (s + t)[..|s + t| - 1] == s + t[..|t| - 1];
    }
  }

  lemma QueriesOne(q: Query, r: string)
    ensures AskedFor([q], r) == if q.replicationId == r then 1 else 0
  {
    assert [q][..0] == [];
  }

  lemma QueriesMore(queries: seq<Query>, q: Query)
    ensures forall r :: AskedFor(queries + [q], r) == AskedFor(queries, r) + if q.replicationId == r then 1 else 0
  {
    forall r ensures AskedFor(queries + [q], r) == AskedFor(queries, r) + if q.replicationId == r then 1 else 0 {
      QueriesConcat(queries, [q], r);
      QueriesOne(q, r);
    }
  }

  lemma {:induction false} RemoveQuery(queries: seq<Query>, q: Query)
    requires q in queries
    ensures forall r ::
              AskedFor(queries, r) == AskedFor(RemoveFirst(queries, q), r) + if q.replicationId == r then 1 else 0
  {
    var first, rest := queries[0], queries[1..];
    assert queries == [first] + rest;
    if first != q {
      RemoveQuery(rest, q);
    }
    forall r
      ensures AskedFor(queries, r) == AskedFor(RemoveFirst(queries, q), r) + if q.replicationId == r then 1 else 0
    {
      QueriesConcat([first], rest, r);
      QueriesOne(first, r);
      QueriesConcat([first], RemoveFirst(rest, q), r);
    }
  }

  /* ----- the state of the scan ----- */

  /** The dictionaries and lists of an application while it is being destroyed, the questions that
      are open, the actors that have not been scanned yet, and what is known about the others:
      on which node they were found, which replicas were given up, which actors turned out to be replicated,
      and for which of them the replicas have been named. */
  datatype Scan = Scan(
    actors: set<Id>, info: seq<Bucket>, replicas: seq<Id>, replicationIds: seq<string>,
    unscanned: set<Id>, lookups: seq<Lookup>, queries: seq<Query>,
    found: map<Id, Option<NodeId>>, lost: seq<Id>, known: seq<Query>, answered: seq<Query>)

  ghost function AtNodes(info: seq<Bucket>, a: Id): nat {
    Placed(info)[a]
  }

  /** How often an actor is found, being looked up, or still to be scanned. */
  ghost function Copies(s: Scan, a: Id): nat {
    AtNodes(s.info, a) + LookedUp(s.lookups, a) + if a in s.unscanned then 1 else 0
  }

  /** Every actor is one of these, and once; nothing else is any. */
  ghost predicate OneWay(s: Scan, a: Id) {
    Copies(s, a) == if a in s.actors then 1 else 0
  }

  ghost predicate Listed(s: Scan, rest: seq<Id>, a: Id) {
    Times(s.replicas, a) == AsReplica(s.lookups, a) + Times(s.lost, a) + Times(rest, a)
  }

  ghost predicate Asked(s: Scan, r: string) {
    Times(s.replicationIds, r) == AskedFor(s.queries, r)
  }

  /** The replicas of every actor that turned out to be replicated are being asked for, or have been named. */
  ghost predicate Followed(s: Scan, q: Query) {
    Times(s.known, q) == Times(s.queries, q) + Times(s.answered, q)
  }

  /** What all events keep; `rest` are the replicas that a reply has named and that are still
      to be gone through. */
  ghost predicate Inv(s: Scan, rest: seq<Id>) {
    && (forall a :: OneWay(s, a)) && (forall a :: Listed(s, rest, a)) && (forall r :: Asked(s, r))
    && (forall q :: Followed(s, q))
    && Partition(s.info, s.found)
    && (forall a :: a in s.lost ==> a in s.found && s.found[a] == None)
  }

  /** The test that all actors have been placed. */
  predicate AllPlaced(s: Scan) {
    TotalIds(s.info) == |s.actors|
  }

  ghost function LookupIds(lookups: seq<Lookup>): multiset<Id> {
    if lookups == [] then multiset{} else LookupIds(lookups[..|lookups| - 1]) + multiset{lookups[|lookups| - 1].id}
  }

  lemma {:induction false} LookupsSize(lookups: seq<Lookup>)
    ensures |LookupIds(lookups)| == |lookups| && forall a :: LookupIds(lookups)[a] == LookedUp(lookups, a)
  {
    if lookups != [] {
      LookupsSize(lookups[..|lookups| - 1]);
    }
  }

  ghost function AllCopies(s: Scan): multiset<Id> {
    Placed(s.info) + LookupIds(s.lookups) + multiset(s.unscanned)
  }

  lemma AllCopiesSize(s: Scan)
    ensures |AllCopies(s)| == TotalIds(s.info) + |s.lookups| + |s.unscanned|
    ensures forall a :: AllCopies(s)[a] == Copies(s, a)
  {
    TotalIsPlaced(s.info);
    LookupsSize(s.lookups);
    MultisetSize(s.unscanned);
  }

  /** It is the test that no actor is left to be looked up. */
  lemma CompleteMeansNothingOpen(s: Scan)
    requires Inv(s, [])
    ensures AllPlaced(s) <==> s.lookups == [] && s.unscanned == {}
  {
    AllCopiesSize(s);
    MultisetSize(s.actors);
    hide Copies;
    assert AllCopies(s) == multiset(s.actors) by {
      assert forall a :: OneWay(s, a) ==> AllCopies(s)[a] == multiset(s.actors)[a];
    }
  }

  /** Some actor is counted more often than it should be, and none less. */
  ghost predicate Surplus(s: Scan) {
    && (forall a :: a in s.actors ==> Copies(s, a) >= 1)
    && exists a :: Copies(s, a) > if a in s.actors then 1 else 0
  }

  /** With a surplus, all actors seem to have been placed only while something is still open. */
  lemma SurplusIsNeverDone(s: Scan)
    requires Surplus(s)
    ensures AllPlaced(s) ==> s.lookups != [] || s.unscanned != {}
  {
    AllCopiesSize(s);
    MultisetSize(s.actors);
    var a :| Copies(s, a) > if a in s.actors then 1 else 0;
    hide Copies;
    var more := AllCopies(s) - multiset(s.actors);
    assert AllCopies(s) == multiset(s.actors) + more;
    assert a in more;
  }

  /* ----- events ----- */

  ghost function Place(s: Scan, node: Option<NodeId>, a: Id): Scan {
    s.(info := Update(s.info, node, a), found := s.found[a := node])
  }

  lemma PlaceCounts(info: seq<Bucket>, node: Option<NodeId>, a: Id)
    ensures forall x :: AtNodes(Update(info, node, a), x) == AtNodes(info, x) + if x == a then 1 else 0
  {
    UpdatePlaces(info, node, a);
  }

  lemma PlaceKeeps(s: Scan, node: Option<NodeId>, a: Id)
    requires Partition(s.info, s.found) && AtNodes(s.info, a) == 0
    ensures Partition(Place(s, node, a).info, Place(s, node, a).found) && a !in s.found
  {
    hide Update;
    assert a !in multiset(s.found.Keys);
    UpdateKeepsPartition(s.info, s.found, node, a);
  }

  /** An actor of this node is placed at once. */
  ghost function ScanHere(s: Scan, node: NodeId, a: Id): Scan {
    Place(s, Some(node), a).(unscanned := s.unscanned - {a})
  }

  lemma ScanHereKeeps(s: Scan, node: NodeId, a: Id)
    requires Inv(s, []) && a in s.unscanned
    ensures Inv(ScanHere(s, node, a), [])
  {
    hide Partition, Update, AtNodes, Times, AsReplica, LookedUp;
    var s' := ScanHere(s, node, a);
    assert OneWay(s, a);
    PlaceKeeps(s, Some(node), a);
    PlaceCounts(s.info, Some(node), a);
    forall x ensures OneWay(s', x) { assert OneWay(s, x); }
    forall x ensures Listed(s', [], x) { assert Listed(s, [], x); }
    forall r ensures Asked(s', r) { assert Asked(s, r); }
    forall q ensures Followed(s', q) { assert Followed(s, q); }
  }

  /** The registry is asked for any other actor. */
  ghost function ScanAway(s: Scan, a: Id): Scan {
    s.(unscanned := s.unscanned - {a}, lookups := s.lookups + [Lookup(a, 0, true)])
  }

  lemma ScanAwayKeeps(s: Scan, a: Id)
    requires Inv(s, []) && a in s.unscanned
    ensures Inv(ScanAway(s, a), [])
  {
    hide Partition, AtNodes, Times, AsReplica, LookedUp;
    var s' := ScanAway(s, a);
    LookupsMore(s.lookups, Lookup(a, 0, true));
    forall x ensures OneWay(s', x) { assert OneWay(s, x); }
    forall x ensures Listed(s', [], x) { assert Listed(s, [], x); }
    forall r ensures Asked(s', r) { assert Asked(s, r); }
    forall q ensures Followed(s', q) { assert Followed(s, q); }
  }

  /** The registry is asked for the replicas of an actor that has been placed. */
  ghost function Ask(s: Scan, q: Query): Scan {
    s.(replicationIds := s.replicationIds + [q.replicationId], queries := s.queries + [q], known := s.known + [q])
  }

  lemma AskKeeps(s: Scan, q: Query)
    requires Inv(s, [])
    ensures Inv(Ask(s, q), [])
  {
    hide Partition, AtNodes, Times, AsReplica, LookedUp, AskedFor;
    var s' := Ask(s, q);
    QueriesMore(s.queries, q);
    TimesMore(s.replicationIds, q.replicationId);
    TimesMore(s.queries, q);
    TimesMore(s.known, q);
    forall x ensures OneWay(s', x) { assert OneWay(s, x); }
    forall x ensures Listed(s', [], x) { assert Listed(s, [], x); }
    forall r ensures Asked(s', r) { assert Asked(s, r); }
    forall q ensures Followed(s', q) { assert Followed(s, q); }
  }

  /** The registry knows the node of an actor. */
  ghost function FoundAt(s: Scan, q: Lookup, node: NodeId): Scan {
    Place(s, Some(node), q.id).(lookups := RemoveFirst(s.lookups, q), replicas := RemoveFirst(s.replicas, q.id))
  }

  /** What is looked up is not placed, and not given up; if it is a replica it is listed once. */
  lemma OpenIsOnce(s: Scan, q: Lookup)
    requires Inv(s, []) && q in s.lookups
    ensures AtNodes(s.info, q.id) == 0 && q.id in s.actors && q.id !in s.found && Times(s.lost, q.id) == 0
    ensures Times(s.replicas, q.id) == if q.checkReplica then 0 else 1
  {
    hide Update;
    RemoveLookup(s.lookups, q);
    assert OneWay(s, q.id) && Listed(s, [], q.id);
    ReplicasAreLookups(RemoveFirst(s.lookups, q), q.id);
    assert q.id !in multiset(s.found.Keys);
    TimesIn(s.lost, q.id);
  }

  lemma {:induction false} ReplicasAreLookups(lookups: seq<Lookup>, a: Id)
    ensures AsReplica(lookups, a) <= LookedUp(lookups, a)
  {
    if lookups != [] {
      ReplicasAreLookups(lookups[..|lookups| - 1], a);
    }
  }

  lemma FoundAtKeeps(s: Scan, q: Lookup, node: NodeId)
    requires Inv(s, []) && q in s.lookups
    ensures Inv(FoundAt(s, q, node), [])
  {
    hide Partition, Update, RemoveFirst, AtNodes, Times, AsReplica, LookedUp;
    var s' := FoundAt(s, q, node);
    OpenIsOnce(s, q);
    RemoveLookup(s.lookups, q);
    TimesRemove(s.replicas, q.id);
    PlaceKeeps(s, Some(node), q.id);
    PlaceCounts(s.info, Some(node), q.id);
    forall x ensures OneWay(s', x) { assert OneWay(s, x); }
    forall x ensures Listed(s', [], x) { assert Listed(s, [], x); }
    forall r ensures Asked(s', r) { assert Asked(s, r); }
    forall q ensures Followed(s', q) { assert Followed(s, q); }
  }

  /** The registry does not know an actor, and is asked again. */
  ghost function Retry(s: Scan, q: Lookup): Scan {
    s.(lookups := RemoveFirst(s.lookups, q) + [q.(retries := q.retries + 1)])
  }

  lemma RetryKeeps(s: Scan, q: Lookup)
    requires Inv(s, []) && q in s.lookups
    ensures Inv(Retry(s, q), [])
  {
    hide Partition, RemoveFirst, AtNodes, Times, AsReplica, LookedUp;
    var s' := Retry(s, q);
    RemoveLookup(s.lookups, q);
    LookupsMore(RemoveFirst(s.lookups, q), q.(retries := q.retries + 1));
    forall x ensures OneWay(s', x) { assert OneWay(s, x); }
    forall x ensures Listed(s', [], x) { assert Listed(s, [], x); }
    forall r ensures Asked(s', r) { assert Asked(s, r); }
    forall q ensures Followed(s', q) { assert Followed(s, q); }
  }

  /** An actor is given up; if it was a replica, it stays in the list of replicas. */
  ghost function GiveUp(s: Scan, q: Lookup): Scan {
    Place(s, None, q.id).(lookups := RemoveFirst(s.lookups, q),
                          lost := if q.checkReplica then s.lost else s.lost + [q.id])
  }

  lemma GiveUpKeeps(s: Scan, q: Lookup)
    requires Inv(s, []) && q in s.lookups
    ensures Inv(GiveUp(s, q), [])
  {
    hide Partition, Update, RemoveFirst, AtNodes, Times, AsReplica, LookedUp;
    var s' := GiveUp(s, q);
    OpenIsOnce(s, q);
    RemoveLookup(s.lookups, q);
    TimesMore(s.lost, q.id);
    PlaceKeeps(s, None, q.id);
    PlaceCounts(s.info, None, q.id);
    forall x ensures OneWay(s', x) { assert OneWay(s, x); }
    forall x ensures Listed(s', [], x) { assert Listed(s, [], x); }
    forall r ensures Asked(s', r) { assert Asked(s, r); }
    forall q ensures Followed(s', q) { assert Followed(s, q); }
  }

  /** An answer about one actor; replicas are asked for unless it is one itself. */
  ghost function Told(s: Scan, q: Lookup, value: Option<Known>): Scan {
    match value
    case Some(Known(node, Some(replicationId))) =>
      if q.checkReplica then Ask(FoundAt(s, q, node), Query(replicationId, q.id)) else FoundAt(s, q, node)
    case Some(Known(node, None)) => FoundAt(s, q, node)
    case None => if q.retries < MAX_RETRIES then Retry(s, q) else GiveUp(s, q)
  }

  /** One element less. */
  ghost predicate Removed<T>(s: seq<T>, s': seq<T>, x: T) {
    multiset(s') == multiset(s) - multiset{x}
  }

  /** The same question, once more. */
  ghost predicate Again(lookups: seq<Lookup>, lookups': seq<Lookup>, q: Lookup) {
    multiset(lookups') == multiset(lookups) - multiset{q} + multiset{Lookup(q.id, q.retries + 1, q.checkReplica)}
  }

  /** What an answer about one actor changes: a question is asked eleven times at most, and an actor is found
      where the registry says, or nowhere. If it turns out to be replicated, and was not asked about as a replica
      itself, then its replicas are asked for. */
  ghost predicate Heard(s: Scan, s': Scan, q: Lookup, value: Option<Known>) {
    && s'.actors == s.actors && s'.answered == s.answered
    && (value.None? && q.retries < 10 ==>
         Again(s.lookups, s'.lookups, q) && s'.found == s.found && s'.replicas == s.replicas && s'.info == s.info)
    && (value.None? && q.retries >= 10 ==>
         Removed(s.lookups, s'.lookups, q) && s'.found == s.found[q.id := None] && s'.replicas == s.replicas)
    && (value.Some? ==>
         && Removed(s.lookups, s'.lookups, q) && s'.found == s.found[q.id := Some(value.value.node)]
         && Removed(s.replicas, s'.replicas, q.id))
    && (if value.Some? && value.value.replicationId.Some? && q.checkReplica then
          && s'.queries == s.queries + [Query(value.value.replicationId.value, q.id)]
          && s'.known == s.known + [Query(value.value.replicationId.value, q.id)]
          && s'.replicationIds == s.replicationIds + [value.value.replicationId.value]
        else s'.queries == s.queries && s'.known == s.known && s'.replicationIds == s.replicationIds)
    && s'.lost == (if value.None? && q.retries >= 10 && !q.checkReplica then s.lost + [q.id] else s.lost)
  }

  lemma ToldExactly(s: Scan, q: Lookup, value: Option<Known>)
    requires q in s.lookups
    ensures Heard(s, Told(s, q, value), q, value)
  {
    hide Update, RemoveFirst, Removed, Again;
    RemovedOne(s.lookups, q);
    if value.Some? {
      RemovedOne(s.replicas, q.id);
    } else if q.retries < 10 {
      AskedAgain(s.lookups, q);
    }
  }

  lemma RemovedOne<T>(s: seq<T>, x: T)
    ensures Removed(s, RemoveFirst(s, x), x)
  {
    RemoveFirstCounts(s, x);
  }

  lemma AskedAgain(lookups: seq<Lookup>, q: Lookup)
    ensures Again(lookups, RemoveFirst(lookups, q) + [q.(retries := q.retries + 1)], q)
  {
    RemoveFirstCounts(lookups, q);
  }

  lemma AnswerKeeps(s: Scan, q: Lookup, value: Option<Known>)
    requires Inv(s, []) && q in s.lookups
    ensures Inv(Told(s, q, value), [])
  {
    hide Inv, FoundAt, Retry, GiveUp, Ask;
    if value.Some? {
      FoundAtKeeps(s, q, value.value.node);
      if value.value.replicationId.Some? {
        AskKeeps(FoundAt(s, q, value.value.node), Query(value.value.replicationId.value, q.id));
      }
    } else if q.retries < MAX_RETRIES {
      RetryKeeps(s, q);
    } else {
      GiveUpKeeps(s, q);
    }
  }

  /** An answer moves an actor from the open questions to the nodes, or leaves it where it is. */
  lemma AnswerCopies(s: Scan, q: Lookup, value: Option<Known>)
    requires q in s.lookups
    ensures Told(s, q, value).actors == s.actors && forall a :: Copies(Told(s, q, value), a) == Copies(s, a)
  {
    hide Update, RemoveFirst, AtNodes, LookedUp;
    RemoveLookup(s.lookups, q);
    LookupsMore(RemoveFirst(s.lookups, q), q.(retries := q.retries + 1));
    PlaceCounts(s.info, None, q.id);
    if value.Some? {
      PlaceCounts(s.info, Some(value.value.node), q.id);
    }
  }

  /* ----- replicas ----- */

  /** The replicas that the registry names for an original. */
  ghost function Named(s: Scan, q: Query, value: seq<Id>): Scan {
    s.(replicationIds := RemoveFirst(s.replicationIds, q.replicationId), queries := RemoveFirst(s.queries, q),
       replicas := s.replicas + value, answered := s.answered + [q])
  }

  lemma NamedKeeps(s: Scan, q: Query, value: seq<Id>)
    requires Inv(s, []) && q in s.queries
    ensures Inv(Named(s, q, value), value)
  {
    hide Partition, RemoveFirst, AtNodes, Times, AsReplica, LookedUp, AskedFor;
    var s' := Named(s, q, value);
    RemoveQuery(s.queries, q);
    TimesRemove(s.replicationIds, q.replicationId);
    forall x ensures OneWay(s', x) { assert OneWay(s, x); }
    forall x ensures Listed(s', value, x) {
      assert Listed(s, [], x);
      TimesConcat(s.replicas, value, x);
      TimesEmpty(x);
    }
    forall r ensures Asked(s', r) { assert Asked(s, r) && Asked(s, q.replicationId); }
    TimesRemove(s.queries, q);
    TimesMore(s.answered, q);
    TimesIn(s.queries, q);
    forall x ensures Followed(s', x) { assert Followed(s, x); }
  }

  lemma TimesEmpty(x: Id)
    ensures Times([], x) == 0
  {
  }

  /** One of them: the original itself is skipped, one on this node is placed, and the registry is
      asked about any other. */
  ghost function NameOne(s: Scan, original: Id, a: Id, here: NodeId, local: set<Id>): Scan {
    if a == original then s.(replicas := RemoveFirst(s.replicas, a))
    else if a in local then Place(s, Some(here), a).(actors := s.actors + {a}, replicas := RemoveFirst(s.replicas, a))
    else s.(actors := s.actors + {a}, lookups := s.lookups + [Lookup(a, 0, false)])
  }

  lemma NameOneCopies(s: Scan, original: Id, a: Id, here: NodeId, local: set<Id>)
    ensures forall x ::
              Copies(NameOne(s, original, a, here, local), x) == Copies(s, x) + if x == a && a != original then 1 else 0
    ensures NameOne(s, original, a, here, local).actors == s.actors + if a == original then {} else {a}
  {
    hide Update, RemoveFirst, AtNodes, LookedUp;
    PlaceCounts(s.info, Some(here), a);
    LookupsMore(s.lookups, Lookup(a, 0, false));
  }

  lemma NameOneKeeps(s: Scan, rest: seq<Id>, original: Id, a: Id, here: NodeId, local: set<Id>)
    requires Inv(s, [a] + rest) && (a == original || a !in s.actors)
    ensures Inv(NameOne(s, original, a, here, local), rest)
  {
    hide Partition, Update, RemoveFirst, AtNodes, Times, AsReplica, LookedUp, Copies;
    var s' := NameOne(s, original, a, here, local);
    NameOneCopies(s, original, a, here, local);
    TimesRemove(s.replicas, a);
    LookupsMore(s.lookups, Lookup(a, 0, false));
    assert OneWay(s, a);
    if a != original && a in local {
      assert AtNodes(s.info, a) == 0 by { NotCopied(s, a); }
      PlaceKeeps(s, Some(here), a);
    }
    forall x ensures OneWay(s', x) { assert OneWay(s, x); }
    forall x ensures Listed(s', rest, x) {
      assert Listed(s, [a] + rest, x) && Listed(s, [a] + rest, a);
      TimesConcat([a], rest, x);
      TimesConcat([a], rest, a);
      TimesOne(a, x);
      TimesOne(a, a);
    }
    forall r ensures Asked(s', r) { assert Asked(s, r); }
    forall q ensures Followed(s', q) { assert Followed(s, q); }
  }

  lemma NotCopied(s: Scan, a: Id)
    requires Copies(s, a) == 0
    ensures AtNodes(s.info, a) == 0
  {
  }

  ghost function NameAll(s: Scan, original: Id, value: seq<Id>, here: NodeId, local: set<Id>): Scan {
    if value == [] then s
    else NameOne(NameAll(s, original, value[..|value| - 1], here, local), original, value[|value| - 1], here, local)
  }

  /** A whole reply. */
  ghost function Reply(s: Scan, q: Query, value: seq<Id>, here: NodeId, local: set<Id>): Scan {
    NameAll(Named(s, q, value), q.original, value, here, local)
  }

  /** Besides the original, the reply names every replica once, and none that is an actor already. */
  predicate NewReplicas(actors: set<Id>, original: Id, value: seq<Id>) {
    forall i :: 0 <= i < |value| && value[i] != original ==> value[i] !in actors && value[i] !in value[..i]
  }

  ghost function Others(original: Id, value: seq<Id>): set<Id> {
    set a | a in value && a != original
  }

  lemma {:induction false} NameAllCopies(s: Scan, original: Id, value: seq<Id>, here: NodeId, local: set<Id>)
    ensures forall x ::
              Copies(NameAll(s, original, value, here, local), x) ==
              Copies(s, x) + if x == original then 0 else Times(value, x)
    ensures NameAll(s, original, value, here, local).actors == s.actors + Others(original, value)
  {
    hide Copies, NameOne;
    if value != [] {
      var front, last := value[..|value| - 1], value[|value| - 1];
      NameAllCopies(s, original, front, here, local);
      NameOneCopies(NameAll(s, original, front, here, local), original, last, here, local);
      assert value == front + [last];
    }
  }

  lemma {:induction false} NameAllKeeps(s: Scan, original: Id, value: seq<Id>, k: nat, here: NodeId, local: set<Id>)
    requires k <= |value| && Inv(s, value) && NewReplicas(s.actors, original, value)
    ensures Inv(NameAll(s, original, value[..k], here, local), value[k..])
  {
    hide Inv, NameOne;
    if k == 0 {
      assert value[..0] == [] && value[0..] == value;
    } else {
      NameAllKeeps(s, original, value, k - 1, here, local);
      NameAllCopies(s, original, value[..k - 1], here, local);
      assert value[..k][..k - 1] == value[..k - 1] && value[k - 1..] == [value[k - 1]] + value[k..];
      NameOneKeeps(NameAll(s, original, value[..k - 1], here, local), value[k..], original, value[k - 1], here, local);
    }
  }

  ghost predicate NewOnce(actors: set<Id>, original: Id, value: seq<Id>, x: Id) {
    x != original ==> Times(value, x) <= 1 && (Times(value, x) > 0 ==> x !in actors)
  }

  lemma NewReplicasCount(actors: set<Id>, original: Id, value: seq<Id>)
    ensures NewReplicas(actors, original, value) <==> forall x :: NewOnce(actors, original, value, x)
  {
    hide Times;
    forall x ensures x in value <==> Times(value, x) > 0 {
      TimesIn(value, x);
    }
    if NewReplicas(actors, original, value) {
      forall x ensures NewOnce(actors, original, value, x) {
        TimesOnce(value, x);
      }
    } else {
      var i :| 0 <= i < |value| && value[i] != original && !(value[i] !in actors && value[i] !in value[..i]);
      TimesOnce(value, value[i]);
      assert !NewOnce(actors, original, value, value[i]);
    }
  }

  lemma ReplyCounts(s: Scan, q: Query, value: seq<Id>, here: NodeId, local: set<Id>)
    ensures var s' := Reply(s, q, value, here, local);
      && (forall x :: Copies(s', x) == Copies(s, x) + if x == q.original then 0 else Times(value, x))
      && (forall x :: x in s'.actors <==> x in s.actors || (x != q.original && Times(value, x) > 0))
  {
    hide NameOne, RemoveFirst, NameAll, Times;
    NameAllCopies(Named(s, q, value), q.original, value, here, local);
    assert forall x :: Copies(Named(s, q, value), x) == Copies(s, x);
    hide Copies;
    forall x ensures x in value <==> Times(value, x) > 0 {
      TimesIn(value, x);
    }
  }

  /** A reply keeps every actor in one place exactly if it names only new replicas, each once. Any
      other reply leaves a surplus. */
  lemma ReplyKeepsExactly(s: Scan, q: Query, value: seq<Id>, here: NodeId, local: set<Id>)
    requires Inv(s, []) && q in s.queries
    ensures Inv(Reply(s, q, value, here, local), []) <==> NewReplicas(s.actors, q.original, value)
    ensures Surplus(Reply(s, q, value, here, local)) <==> !NewReplicas(s.actors, q.original, value)
  {
    hide Partition, NameOne, RemoveFirst, NameAll, Copies, Times, NewReplicas;
    var s' := Reply(s, q, value, here, local);
    NewReplicasCount(s.actors, q.original, value);
    ReplyCounts(s, q, value, here, local);
    assert forall x :: OneWay(s, x);
    hide Reply;
    if NewReplicas(s.actors, q.original, value) {
      NewReplyKeeps(s, q, value, here, local);
      forall x ensures Copies(s', x) == if x in s'.actors then 1 else 0 {
        assert OneWay(s', x);
      }
    } else {
      var x :| !NewOnce(s.actors, q.original, value, x);
      assert OneWay(s, x) && Copies(s', x) > 1 && !OneWay(s', x);
      forall a | a in s'.actors ensures Copies(s', a) >= 1 {
        assert OneWay(s, a);
      }
    }
  }

  lemma NewReplyKeeps(s: Scan, q: Query, value: seq<Id>, here: NodeId, local: set<Id>)
    requires Inv(s, []) && q in s.queries && NewReplicas(s.actors, q.original, value)
    ensures Inv(Reply(s, q, value, here, local), [])
  {
    hide Inv, NameAll, NewReplicas;
    NamedKeeps(s, q, value);
    NameAllKeeps(Named(s, q, value), q.original, value, |value|, here, local);
    assert value[..|value|] == value && value[|value|..] == [];
  }

  ghost predicate SameQueries(s: Scan, s': Scan) {
    && s'.queries == s.queries && s'.replicationIds == s.replicationIds && s'.known == s.known
    && s'.answered == s.answered && s'.lost == s.lost && s'.unscanned == s.unscanned
  }

  /** The registry is asked about a replica that is not on this node. */
  ghost predicate Sought(q: Lookup, original: Id, local: set<Id>) {
    q == Lookup(q.id, 0, false) && q.id != original && q.id !in local
  }

  lemma NameOneExactly(s: Scan, original: Id, a: Id, here: NodeId, local: set<Id>)
    ensures var s' := NameOne(s, original, a, here, local);
      && s'.found == (if a != original && a in local then s.found[a := Some(here)] else s.found)
      && (forall q :: q in s'.lookups <==> q in s.lookups || (q.id == a && Sought(q, original, local)))
      && SameQueries(s, s')
  {
    hide Update, RemoveFirst;
  }

  ghost function FoundHere(original: Id, value: seq<Id>, here: NodeId, local: set<Id>): map<Id, Option<NodeId>> {
    map a | a in value && a != original && a in local :: Some(here)
  }

  /** What a reply does to what has been found, and to the open questions. */
  lemma {:induction false} NameAllExactly(s: Scan, original: Id, value: seq<Id>, here: NodeId, local: set<Id>)
    ensures var s' := NameAll(s, original, value, here, local);
      && s'.found == s.found + FoundHere(original, value, here, local)
      && (forall q :: q in s'.lookups <==> q in s.lookups || (q.id in value && Sought(q, original, local)))
      && SameQueries(s, s')
  {
    hide NameOne, Sought;
    if value == [] {
      assert FoundHere(original, value, here, local) == map[];
    } else {
      var front, last := value[..|value| - 1], value[|value| - 1];
      NameAllExactly(s, original, front, here, local);
      NameOneExactly(NameAll(s, original, front, here, local), original, last, here, local);
      assert value == front + [last];
      assert FoundHere(original, value, here, local) ==
             if last != original && last in local then FoundHere(original, front, here, local)[last := Some(here)]
             else FoundHere(original, front, here, local);
    }
  }

  /** What an answer about replicas changes: the new ones are actors, found if they are here and looked up, as
      replicas, if they are not. */
  ghost predicate Listened(s: Scan, s': Scan, q: Query, value: seq<Id>, here: NodeId, local: set<Id>) {
    && s'.actors == s.actors + (set a | a in value && a != q.original)
    && s'.found == s.found + (map a | a in value && a != q.original && a in local :: Some(here))
    && (forall l :: l in s'.lookups <==>
         l in s.lookups || (l == Lookup(l.id, 0, false) && l.id in value && l.id != q.original && l.id !in local))
    && Removed(s.queries, s'.queries, q) && s'.answered == s.answered + [q] && s'.known == s.known
  }

  lemma ReplyExactly(s: Scan, q: Query, value: seq<Id>, here: NodeId, local: set<Id>)
    ensures Listened(s, Reply(s, q, value, here, local), q, value, here, local)
  {
    hide NameAll, RemoveFirst;
    NameAllExactly(Named(s, q, value), q.original, value, here, local);
    NameAllCopies(Named(s, q, value), q.original, value, here, local);
    RemoveFirstCounts(s.queries, q);
  }

  /** A surplus never goes away. */
  lemma SurplusStays(s: Scan, q: Lookup, value: Option<Known>)
    requires Surplus(s) && q in s.lookups
    ensures Surplus(Told(s, q, value))
  {
    AnswerCopies(s, q, value);
    hide Copies, Told;
    var a :| Copies(s, a) > if a in s.actors then 1 else 0;
    assert Copies(Told(s, q, value), a) == Copies(s, a);
  }

  lemma SurplusStaysNamed(s: Scan, q: Query, value: seq<Id>, here: NodeId, local: set<Id>)
    requires Surplus(s)
    ensures Surplus(Reply(s, q, value, here, local))
  {
    ReplyCounts(s, q, value, here, local);
    hide Copies, Times, Reply;
    var a :| Copies(s, a) > if a in s.actors then 1 else 0;
    assert Copies(Reply(s, q, value, here, local), a) > if a in Reply(s, q, value, here, local).actors then 1 else 0;
  }
}
