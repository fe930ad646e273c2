/** Destroying an application whose actors, and replicas of actors, are on several nodes. */
module AppDestroy {
  import opened Options
  import opened Sequences
  import opened DestroyScan

  /** Who has to answer before the application is known to be destroyed: a node, or the nodes
      of actors that could not be found, or this manager itself. */
  datatype Key = Peer(node: Option<NodeId>) | Manager

  datatype Answer = Answer(ok: bool, data: Option<seq<Id>>)

  datatype Entry = Entry(key: Key, answer: Option<Answer>)

  /** What the callback of the whole destruction is given. */
  datatype Outcome = Outcome(ok: bool, missing: seq<Id>)

  /** A request to another node to destroy its actors. */
  datatype Request = Request(node: NodeId, ids: seq<Id>)

  function SetAnswer(entries: seq<Entry>, key: Key, answer: Answer): seq<Entry> {
    if entries == [] then [Entry(key, Some(answer))]
    else if entries[0].key == key then [Entry(key, Some(answer))] + entries[1..]
    else [entries[0]] + SetAnswer(entries[1..], key, answer)
  }

  predicate AllAnswered(entries: seq<Entry>) {
    forall i :: 0 <= i < |entries| ==> entries[i].answer.Some?
  }

  predicate AllOk(entries: seq<Entry>) {
    forall i :: 0 <= i < |entries| ==> entries[i].answer.Some? && entries[i].answer.value.ok
  }

  /** The nodes that were asked have succeeded. */
  predicate NodesOk(entries: seq<Entry>) {
    forall i :: 0 <= i < |entries| && entries[i].key.Peer? && entries[i].key.node.Some? ==>
      entries[i].answer.Some? && entries[i].answer.value.ok
  }

  /** The actors reported missing, in the order of the entries. */
  function Missing(entries: seq<Entry>): seq<Id> {
    if entries == [] then []
    else (match entries[0].answer case Some(Answer(_, Some(ids))) => ids case _ => []) + Missing(entries[1..])
  }

  /** The outcome when everyone has answered. */
  function OutcomeOf(entries: seq<Entry>): Outcome {
    if AllOk(entries) then Outcome(true, []) else Outcome(false, Missing(entries))
  }

  ghost predicate Awaited(entries: seq<Entry>, key: Key) {
    exists i :: 0 <= i < |entries| && entries[i] == Entry(key, None)
  }

  lemma {:induction false} SetAnswerAt(entries: seq<Entry>, key: Key, answer: Answer, i: nat)
    requires i <= |entries| && forall j :: 0 <= j < i ==> entries[j].key != key
    requires i < |entries| ==> entries[i].key == key
    ensures SetAnswer(entries, key, answer) ==
            if i < |entries| then entries[i := Entry(key, Some(answer))] else entries + [Entry(key, Some(answer))]
  {
    if entries != [] && i > 0 {
      SetAnswerAt(entries[1..], key, answer, i - 1);
    }
  }

  lemma {:induction false} MissingHas(entries: seq<Entry>, i: nat, id: Id)
    requires i < |entries| && entries[i].answer.Some? && entries[i].answer.value.data.Some?
    requires id in entries[i].answer.value.data.value
    ensures id in Missing(entries)
  {
    if i > 0 {
      MissingHas(entries[1..], i - 1, id);
    }
  }

  /** What is known about a node before it has been asked: the actors that were not found are
      missing, and this node has destroyed its own. */
  function FirstAnswer(b: Bucket, here: NodeId): Option<Answer> {
    match b.node
    case None => Some(Answer(false, Some(b.ids)))
    case Some(node) => if node == here then Some(Answer(true, None)) else None
  }

  ghost function FirstEntries(info: seq<Bucket>, here: NodeId): seq<Entry> {
    seq(|info|, i requires 0 <= i < |info| => Entry(Peer(info[i].node), FirstAnswer(info[i], here)))
  }

  /** Every other node is asked to destroy the actors in its bucket. */
  function RequestsFor(info: seq<Bucket>, here: NodeId): seq<Request> {
    if info == [] then []
    else
      var last := info[|info| - 1];
      RequestsFor(info[..|info| - 1], here) +
      if last.node.Some? && last.node.value != here then [Request(last.node.value, last.ids)] else []
  }

  /** Another node is asked to destroy exactly the actors that were found there. */
  ghost predicate AsksNode(info: seq<Bucket>, here: NodeId, r: Request) {
    r.node != here && exists i :: 0 <= i < |info| && info[i] == Bucket(Some(r.node), r.ids)
  }

  ghost predicate OneEach(requests: seq<Request>) {
    forall i, j :: 0 <= i < j < |requests| ==> requests[i].node != requests[j].node
  }

  /** Every other node on which an actor was found is asked, once, and nobody else. */
  lemma {:induction false} RequestsExactly(info: seq<Bucket>, here: NodeId)
    requires DistinctNodes(info)
    ensures forall r :: r in RequestsFor(info, here) <==> AsksNode(info, here, r)
    ensures OneEach(RequestsFor(info, here))
  {
    if info != [] {
      var n := |info| - 1;
      var front, last := info[..n], info[n];
      assert DistinctNodes(front) by {
        assert NodesOf(front) == NodesOf(info)[..n];
      }
      RequestsExactly(front, here);
      var before := RequestsFor(front, here);
      forall r ensures r in RequestsFor(info, here) <==> AsksNode(info, here, r) {
        if AsksNode(front, here, r) {
          var i :| 0 <= i < n && front[i] == Bucket(Some(r.node), r.ids);
          assert info[i] == front[i];
        }
        if AsksNode(info, here, r) {
          var i :| 0 <= i < |info| && info[i] == Bucket(Some(r.node), r.ids);
          assert i < n ==> front[i] == info[i];
        }
      }
      forall i | 0 <= i < |before| ensures last.node != Some(before[i].node) {
        assert AsksNode(front, here, before[i]);
        var k :| 0 <= k < n && front[k] == Bucket(Some(before[i].node), before[i].ids);
        assert NodesOf(info)[k] != NodesOf(info)[n];
      }
    }
  }

  /** What is reported missing is what some answer lists. */
  lemma {:induction false} MissingExactly(entries: seq<Entry>, id: Id)
    ensures id in Missing(entries) <==> exists i :: 0 <= i < |entries| && Lists(entries[i], id)
  {
    if entries != [] {
      MissingExactly(entries[1..], id);
      if i :| 0 <= i < |entries[1..]| && Lists(entries[1..][i], id) {
        assert Lists(entries[i + 1], id);
      }
      if i :| 0 <= i < |entries| && Lists(entries[i], id) {
        assert i > 0 ==> Lists(entries[1..][i - 1], id);
      }
    }
  }

  predicate Lists(e: Entry, id: Id) {
    e.answer.Some? && e.answer.value.data.Some? && id in e.answer.value.data.value
  }

  /** One entry for every bucket, and one for the manager. */
  ghost predicate EntriesFor(entries: seq<Entry>, info: seq<Bucket>, here: NodeId) {
    && |entries| == |info| + 1 && entries[|info|] == Entry(Manager, Some(Answer(true, None)))
    && (forall i :: 0 <= i < |info| ==> entries[i].key == Peer(info[i].node))
    && (forall i :: 0 <= i < |info| && FirstAnswer(info[i], here).Some? ==>
         entries[i].answer == FirstAnswer(info[i], here))
  }

  lemma AwaitedIsElsewhere(entries: seq<Entry>, info: seq<Bucket>, here: NodeId, node: NodeId, i: nat)
    requires EntriesFor(entries, info, here) && i < |entries| && entries[i] == Entry(Peer(Some(node)), None)
    ensures i < |info| && info[i].node == Some(node) && node != here
  {
  }

  /** An answer from another node. */
  lemma AnswerStep(entries: seq<Entry>, info: seq<Bucket>, here: NodeId, node: NodeId, answer: Answer) returns (i: nat)
    requires EntriesFor(entries, info, here) && DistinctNodes(info) && Awaited(entries, Peer(Some(node)))
    ensures i < |entries| && entries[i] == Entry(Peer(Some(node)), None)
    ensures SetAnswer(entries, Peer(Some(node)), answer) == entries[i := Entry(Peer(Some(node)), Some(answer))]
    ensures EntriesFor(SetAnswer(entries, Peer(Some(node)), answer), info, here)
  {
    i :| 0 <= i < |entries| && entries[i] == Entry(Peer(Some(node)), None);
    AwaitedIsElsewhere(entries, info, here, node, i);
    forall j | 0 <= j < i ensures entries[j].key != Peer(Some(node)) {
      assert NodesOf(info)[j] != NodesOf(info)[i];
    }
    SetAnswerAt(entries, Peer(Some(node)), answer, i);
  }

  class Application {
    const id: string
    const originNode: NodeId
    var actors: map<Id, string>
    var nodeInfo: seq<Bucket>
    var actorReplicas: seq<Id>
    var replicationIds: seq<string>
    /** The answers of all nodes; there are none before the final destruction. */
    var destroyNodeIds: Option<seq<Entry>>
    /** The requests sent to other nodes, and the invocations of the callback. */
    var requests: seq<Request>
    var calls: seq<Outcome>
    /** What is going on in the registry, and what is known from it. */
    ghost var unscanned: set<Id>
    ghost var lookups: seq<Lookup>
    ghost var queries: seq<Query>
    ghost var found: map<Id, Option<NodeId>>
    ghost var lost: seq<Id>
    ghost var known: seq<Query>
    ghost var answered: seq<Query>
    /** The last event was the answer about a single actor. */
    ghost var actorLast: bool

    constructor (id: string, originNode: NodeId, actors: map<Id, string>)
      ensures this.id == id && this.originNode == originNode && this.actors == actors
      ensures State() == Scan(actors.Keys, [], [], [], actors.Keys, [], [], map[], [], [], [])
      ensures Valid() && destroyNodeIds.None? && requests == [] && calls == [] && !actorLast
    {
      this.id, this.originNode, this.actors := id, originNode, actors;
      nodeInfo, actorReplicas, replicationIds, destroyNodeIds, requests, calls := [], [], [], None, [], [];
      unscanned, lookups, queries, found, lost, actorLast := actors.Keys, [], [], map[], [], false;
      known, answered := [], [];
    }

    ghost function State(): Scan
      reads this
    {
      Scan(actors.Keys, nodeInfo, actorReplicas, replicationIds, unscanned, lookups, queries, found, lost, known,
           answered)
    }

    /** The buckets are a dictionary. */
    ghost predicate Valid()
      reads this
    {
      DistinctNodes(nodeInfo) && (destroyNodeIds.None? ==> requests == [] && calls == [])
    }

    /** No answer of the registry is outstanding. */
    ghost predicate Quiet()
      reads this
    {
      lookups == [] && queries == [] && unscanned == {}
    }

    /** The final destruction has not been reached. */
    ghost predicate Scanning()
      reads this
    {
      Inv(State(), []) && destroyNodeIds.None? && requests == [] && calls == []
    }

    /** The final destruction was reached with everything known; the callback is invoked with
        the last answer. */
    ghost predicate Destroyed(here: NodeId)
      reads this
    {
      && Inv(State(), []) && Quiet() && destroyNodeIds.Some?
      && EntriesFor(destroyNodeIds.value, nodeInfo, here)
      && calls == if AllAnswered(destroyNodeIds.value) then [OutcomeOf(destroyNodeIds.value)] else []
    }

    /** The destruction is carried out as soon as nothing is outstanding, unless a replica was given up
        and the last event was the answer about a single actor. */
    ghost predicate Concluded()
      reads this
    {
      destroyNodeIds.Some? <==> Quiet() && (lost == [] || !actorLast)
    }

    /** The destruction was carried out with nothing outstanding. */
    ghost predicate DoneQuietly()
      reads this
    {
      destroyNodeIds.Some? && lookups == [] && unscanned == {}
    }

    /** Every actor is in one place, and the destruction was carried out when it should be. */
    ghost predicate InOrder(here: NodeId)
      reads this
    {
      (Scanning() || Destroyed(here)) && Concluded()
    }

    /** When the application is destroyed, its actors, replicas included, are divided among the nodes
        on which they were found, no question is open, and of every actor that turned out to be replicated the
        replicas have been named. */
    lemma AllArePlaced(here: NodeId)
      requires Destroyed(here)
      ensures found.Keys == actors.Keys && Partition(nodeInfo, found)
      ensures lookups == [] && queries == [] && replicationIds == []
      ensures forall q :: q in known <==> q in answered
    {
      NoQuestions(State());
      forall q ensures q in known <==> q in answered {
        assert Followed(State(), q);
        TimesIn(known, q);
        TimesIn(answered, q);
      }
      forall a ensures a in found <==> a in actors {
        assert OneWay(State(), a);
        assert a in found <==> a in multiset(found.Keys);
      }
    }

    /** Once all nodes have answered, the callback has been invoked exactly once, with success exactly
        if every actor was found and every node succeeded; actors that were not found are reported. */
    lemma Reported(here: NodeId)
      requires Destroyed(here) && AllAnswered(destroyNodeIds.value)
      ensures |calls| == 1
      ensures calls[0].ok <==> (forall a :: a in found ==> found[a].Some?) && NodesOk(destroyNodeIds.value)
      ensures !calls[0].ok ==> forall a :: a in found && found[a] == None ==> a in calls[0].missing
      ensures !calls[0].ok ==> forall a :: a in calls[0].missing <==>
                exists i :: 0 <= i < |destroyNodeIds.value| && Lists(destroyNodeIds.value[i], a)
      ensures calls[0].ok ==> calls[0].missing == []
    {
      AllArePlaced(here);
      forall a ensures a in Missing(destroyNodeIds.value) <==>
        exists i :: 0 <= i < |destroyNodeIds.value| && Lists(destroyNodeIds.value[i], a)
      {
        MissingExactly(destroyNodeIds.value, a);
      }
      var entries := destroyNodeIds.value;
      forall a | a in actors && found[a] == None ensures !AllOk(entries) && a in Missing(entries) {
        assert InBucket(nodeInfo, None, a);
        var i :| 0 <= i < |nodeInfo| && nodeInfo[i].node == None && a in nodeInfo[i].ids;
        assert entries[i].answer == FirstAnswer(nodeInfo[i], here);
        MissingHas(entries, i, a);
      }
      if forall a :: a in actors ==> found[a].Some? {
        forall i | 0 <= i < |nodeInfo| ensures nodeInfo[i].node.Some? {
          assert InBucket(nodeInfo, nodeInfo[i].node, nodeInfo[i].ids[0]);
        }
      }
    }

    method UpdateNodeInfo(node: Option<NodeId>, id: Id)
      modifies this`nodeInfo, this`found
      ensures nodeInfo == Update(old(nodeInfo), node, id) && found == old(found)[id := node]
    {
      var i := 0;
      while i < |nodeInfo| && nodeInfo[i].node != node
        invariant i <= |nodeInfo| && forall j :: 0 <= j < i ==> nodeInfo[j].node != node
      {
        i := i + 1;
      }
      UpdateAt(nodeInfo, node, id, i);
      found := found[id := node];
      if i < |nodeInfo| {
        nodeInfo := nodeInfo[i := nodeInfo[i].(ids := nodeInfo[i].ids + [id])];
      } else {
        nodeInfo := nodeInfo + [Bucket(node, [id])];
      }
    }

    method CompleteNodeInfo() returns (complete: bool)
      ensures complete <==> AllPlaced(State())
    {
      var sum, i := 0, 0;
      while i < |nodeInfo|
        invariant i <= |nodeInfo| && TotalIds(nodeInfo) == sum + TotalIds(nodeInfo[i..])
      {
        assert nodeInfo[i..][1..] == nodeInfo[i + 1..];
        sum := sum + |nodeInfo[i].ids|;
        i := i + 1;
      }
      complete := sum == |actors|;
      assert actors.Keys == State().actors && |actors| == |actors.Keys|;
    }
  }

  lemma NoQuestions(s: Scan)
    requires Inv(s, [])
    ensures s.replicationIds == [] <==> s.queries == []
    ensures s.lookups == [] ==> (s.replicas == [] <==> s.lost == [])
  {
    if s.replicationIds != [] {
      TimesIn(s.replicationIds, s.replicationIds[0]);
      assert Asked(s, s.replicationIds[0]);
    }
    if s.queries != [] {
      assert Asked(s, s.queries[|s.queries| - 1].replicationId);
    }
    if s.replicas != [] {
      TimesIn(s.replicas, s.replicas[0]);
      assert Listed(s, [], s.replicas[0]);
    }
    if s.lost != [] {
      TimesIn(s.lost, s.lost[0]);
      assert Listed(s, [], s.lost[0]);
    }
  }

  /** The entry of a bucket is the one in the same place. */
  lemma EntryOfBucket(info: seq<Bucket>, entries: seq<Entry>, i: nat, answer: Answer)
    requires DistinctNodes(info) && i < |info| == |entries|
    requires forall j :: 0 <= j < |info| ==> entries[j].key == Peer(info[j].node)
    ensures SetAnswer(entries, Peer(info[i].node), answer) == entries[i := Entry(Peer(info[i].node), Some(answer))]
  {
    forall j | 0 <= j < i ensures entries[j].key != Peer(info[i].node) {
      assert NodesOf(info)[j] != NodesOf(info)[i];
    }
    SetAnswerAt(entries, Peer(info[i].node), answer, i);
  }

  lemma InvHasDistinctNodes(s: Scan)
    requires Inv(s, [])
    ensures DistinctNodes(s.info)
  {
  }

  lemma OneLessAwaited(entries: seq<Entry>, i: nat, answer: Answer, info: seq<Bucket>, here: NodeId)
    requires EntriesFor(entries, info, here) && DistinctNodes(info) && i < |entries| && entries[i].answer.None?
    ensures forall key :: Awaited(entries[i := Entry(entries[i].key, Some(answer))], key) <==>
              key != entries[i].key && Awaited(entries, key)
  {
    var entries' := entries[i := Entry(entries[i].key, Some(answer))];
    forall key ensures Awaited(entries', key) <==> key != entries[i].key && Awaited(entries, key) {
      if j :| 0 <= j < |entries'| && entries'[j] == Entry(key, None) {
        assert entries[j] == Entry(key, None) && NodesOf(info)[i] != NodesOf(info)[j];
      }
      if j :| 0 <= j < |entries| && entries[j] == Entry(key, None) && key != entries[i].key {
        assert entries'[j] == Entry(key, None);
      }
    }
  }

  lemma NoBucket(info: seq<Bucket>, here: NodeId)
    ensures RequestsFor(info[..0], here) == [] && forall node, id :: !InBucket(info[..0], node, id)
  {
  }

  lemma ManagerEntry(info: seq<Bucket>, entries: seq<Entry>, here: NodeId)
    requires |info| == |entries|
    requires forall j :: 0 <= j < |info| ==> entries[j] == Entry(Peer(info[j].node), FirstAnswer(info[j], here))
    ensures SetAnswer(entries, Manager, Answer(true, None)) ==
              FirstEntries(info, here) + [Entry(Manager, Some(Answer(true, None)))]
    ensures EntriesFor(SetAnswer(entries, Manager, Answer(true, None)), info, here)
  {
    SetAnswerAt(entries, Manager, Answer(true, None), |entries|);
    assert entries == FirstEntries(info, here);
  }

  lemma NextBucket(info: seq<Bucket>, i: nat, here: NodeId)
    requires i < |info|
    ensures RequestsFor(info[..i + 1], here) == RequestsFor(info[..i], here) +
              if info[i].node.Some? && info[i].node.value != here
              then [Request(info[i].node.value, info[i].ids)] else []
    ensures forall node, id :: InBucket(info[..i + 1], node, id) <==>
              InBucket(info[..i], node, id) || (info[i].node == node && id in info[i].ids)
  {
    assert info[..i + 1][..i] == info[..i];
    forall node, id
      ensures InBucket(info[..i + 1], node, id) <==>
                InBucket(info[..i], node, id) || (info[i].node == node && id in info[i].ids)
    {
      if InBucket(info[..i], node, id) {
        var k :| 0 <= k < i && info[..i][k].node == node && id in info[..i][k].ids;
        assert info[..i + 1][k] == info[..i][k];
      }
      if info[i].node == node && id in info[i].ids {
        assert info[..i + 1][i] == info[i];
      }
      if InBucket(info[..i + 1], node, id) {
        var k :| 0 <= k < i + 1 && info[..i + 1][k].node == node && id in info[..i + 1][k].ids;
        assert k < i ==> info[..i][k] == info[..i + 1][k];
      }
    }
  }

  predicate HasNode(info: seq<Bucket>, node: NodeId) {
    exists i :: 0 <= i < |info| && info[i].node == Some(node)
  }

  /** All requests, with one to the origin of the application if it has no actors. */
  lemma AllRequests(info: seq<Bucket>, here: NodeId, origin: NodeId, extra: bool)
    requires DistinctNodes(info) && (extra ==> !HasNode(info, origin))
    ensures var requests := RequestsFor(info, here) + if extra then [Request(origin, [])] else [];
      && OneEach(requests)
      && forall r :: r in requests <==> AsksNode(info, here, r) || (extra && r == Request(origin, []))
  {
    hide DistinctNodes;
    RequestsExactly(info, here);
    var before := RequestsFor(info, here);
    forall i | 0 <= i < |before| && extra ensures before[i].node != origin {
      assert AsksNode(info, here, before[i]);
    }
  }

  class AppManager {
    const node: NodeId
    /** The actors on this node, with the replication that each belongs to and its original. */
    var local: map<Id, Option<Query>>
    var applications: set<string>

    constructor (node: NodeId, local: map<Id, Option<Query>>, applications: set<string>)
      ensures this.node == node && this.local == local && this.applications == applications
    {
      this.node, this.local, this.applications := node, local, applications;
    }

    /** Start anew; place the local actors, and ask the registry for the others and for replicas. */
    method Destroy(app: Application)
      requires app.lookups == [] && app.queries == []
      modifies this, app
      ensures app.Valid() && app.InOrder(node) && app.unscanned == {} && app.lost == []
      ensures app.destroyNodeIds.None? ==> local == old(local) && applications == old(applications)
      ensures app.actors == old(app.actors)
      ensures forall q :: q in app.lookups <==> q.id in app.actors && q.id !in old(local) && q == Lookup(q.id, 0, true)
      ensures forall q :: q in app.queries <==>
                exists a :: a in app.actors && a in old(local) && old(local)[a] == Some(q)
      ensures |app.queries| == |Replicated(app.actors.Keys, old(local))|
    {
      hide Inv;
      app.nodeInfo, app.actorReplicas, app.replicationIds, app.destroyNodeIds := [], [], [], None;
      app.requests, app.calls := [], [];
      app.unscanned, app.found, app.lost, app.known, app.answered := app.actors.Keys, map[], [], [], [];
      StartInv(app.State());
      ScanAll(app);
      InvHasDistinctNodes(app.State());
      Conclude(app, false);
    }

    /** The local actors that are replicated. */
    static ghost function Replicated(ids: set<Id>, local: map<Id, Option<Query>>): set<Id> {
      set a | a in ids && a in local && local[a].Some?
    }

    static ghost predicate LookupsFor(lookups: seq<Lookup>, ids: set<Id>, local: map<Id, Option<Query>>) {
      forall q :: q in lookups <==> q.id in ids && q.id !in local && q == Lookup(q.id, 0, true)
    }

    static ghost predicate QueriesFor(queries: seq<Query>, ids: set<Id>, local: map<Id, Option<Query>>) {
      && |queries| == |Replicated(ids, local)|
      && forall q :: q in queries <==> exists a :: a in ids && a in local && local[a] == Some(q)
    }

    static lemma ReplicatedMore(ids: set<Id>, a: Id, local: map<Id, Option<Query>>, queries: seq<Query>)
      requires a !in ids && QueriesFor(queries, ids, local)
      ensures QueriesFor(queries + if a in local && local[a].Some? then [local[a].value] else [], ids + {a}, local)
    {
      if a in local && local[a].Some? {
        assert Replicated(ids + {a}, local) == Replicated(ids, local) + {a};
        assert forall b :: b in ids + {a} <==> b in ids || b == a;
      } else {
        assert Replicated(ids + {a}, local) == Replicated(ids, local);
        assert queries + [] == queries;
      }
    }

    method ScanAll(app: Application)
      requires app.Scanning() && app.unscanned == app.actors.Keys && app.queries == [] && app.lookups == []
      modifies app`nodeInfo, app`found, app`unscanned, app`lookups, app`queries, app`replicationIds, app`known
      ensures app.Scanning() && app.unscanned == {}
      ensures LookupsFor(app.lookups, app.actors.Keys, local) && QueriesFor(app.queries, app.actors.Keys, local)
    {
      hide Inv, QueriesFor;
      var todo := app.actors.Keys;
      assert app.actors.Keys - todo == {};
      NoneReplicated(local);
      while todo != {}
        invariant app.Scanning() && app.unscanned == todo <= app.actors.Keys
        invariant LookupsFor(app.lookups, app.actors.Keys - todo, local)
        invariant QueriesFor(app.queries, app.actors.Keys - todo, local)
      {
        var a :| a in todo;
        ReplicatedMore(app.actors.Keys - todo, a, local, app.queries);
        ScanActor(app, a);
        assert app.actors.Keys - (todo - {a}) == app.actors.Keys - todo + {a};
        todo := todo - {a};
      }
      assert app.actors.Keys - todo == app.actors.Keys;
    }

    static lemma NoneReplicated(local: map<Id, Option<Query>>)
      ensures QueriesFor([], {}, local)
    {
      assert Replicated({}, local) == {};
    }

    method ScanActor(app: Application, a: Id)
      requires app.Scanning() && a in app.unscanned
      modifies app`nodeInfo, app`found, app`unscanned, app`lookups, app`queries, app`replicationIds, app`known
      ensures app.Scanning() && app.unscanned == old(app.unscanned) - {a}
      ensures app.nodeInfo == if a in local then Update(old(app.nodeInfo), Some(node), a) else old(app.nodeInfo)
      ensures app.replicationIds ==
                old(app.replicationIds) + if a in local && local[a].Some? then [local[a].value.replicationId] else []
      ensures app.queries == old(app.queries) + if a in local && local[a].Some? then [local[a].value] else []
      ensures app.known == old(app.known) + if a in local && local[a].Some? then [local[a].value] else []
      ensures app.found == if a in local then old(app.found)[a := Some(node)] else old(app.found)
      ensures app.lookups == old(app.lookups) + if a in local then [] else [Lookup(a, 0, true)]
    {
      hide Inv, Update;
      ghost var s := app.State();
      app.unscanned := app.unscanned - {a};
      if a in local {
        ScanHereKeeps(s, node, a);
        app.UpdateNodeInfo(Some(node), a);
        assert app.State() == ScanHere(s, node, a);
        if local[a].Some? {
          AskKeeps(ScanHere(s, node, a), local[a].value);
          app.replicationIds := app.replicationIds + [local[a].value.replicationId];
          app.queries, app.known := app.queries + [local[a].value], app.known + [local[a].value];
          assert app.State() == Ask(ScanHere(s, node, a), local[a].value);
        }
      } else {
        ScanAwayKeeps(s, a);
        app.lookups := app.lookups + [Lookup(a, 0, true)];
        assert app.State() == ScanAway(s, a);
      }
    }

    /** Carry out the destruction if all actors have been placed and no list is left to work on; the
        list of replicas is looked at only after an answer about a single actor. */
    method Conclude(app: Application, single: bool)
      requires app.Valid()
      modifies this, app`actorLast, app`destroyNodeIds, app`requests, app`calls
      ensures app.Valid() && app.actorLast == single
      ensures app.destroyNodeIds.Some? <==> old(app.destroyNodeIds).Some? || Goes(app, single)
      ensures app.destroyNodeIds.None? || old(app.destroyNodeIds).Some? ==>
                local == old(local) && applications == old(applications) &&
                  app.destroyNodeIds == old(app.destroyNodeIds) &&
                app.requests == old(app.requests) && app.calls == old(app.calls)
      ensures old(app.Scanning()) ==> app.InOrder(node)
      ensures Surplus(app.State()) && old(app.destroyNodeIds).None? && app.destroyNodeIds.Some? ==>
                app.lookups != [] || app.unscanned != {}
    {
      hide Inv, EntriesFor, OutcomeOf, DistinctNodes, Surplus;
      app.actorLast := single;
      var complete := app.CompleteNodeInfo();
      if app.Scanning() {
        NoQuestions(app.State());
        CompleteMeansNothingOpen(app.State());
      }
      if Surplus(app.State()) {
        SurplusIsNeverDone(app.State());
      }
      if complete && app.replicationIds == [] && (!single || app.actorReplicas == []) {
        DestroyFinal(app);
      }
    }

    static ghost predicate Goes(app: Application, single: bool)
      reads app
    {
      AllPlaced(app.State()) && app.replicationIds == [] && (!single || app.actorReplicas == [])
    }

    static lemma AskedIsOpen(s: Scan, s': Scan, q: Lookup, value: Option<Known>)
      requires Heard(s, s', q, value)
      ensures value.Some? && value.value.replicationId.Some? && q.checkReplica ==> s'.replicationIds != []
    {
    }

    /** The registry has answered about one actor. */
    method DestroyActorCb(app: Application, key: Id, value: Option<Known>, retries: nat, checkReplica: bool)
      requires app.Valid() && Lookup(key, retries, checkReplica) in app.lookups
      modifies this, app
      ensures app.Valid() && app.State() == Told(old(app.State()), Lookup(key, retries, checkReplica), value)
      ensures app.actors == old(app.actors) && app.actorLast
      ensures app.destroyNodeIds.Some? <==> old(app.destroyNodeIds).Some? || Goes(app, true)
      ensures app.destroyNodeIds.None? ==> local == old(local) && applications == old(applications)
      ensures old(app.Scanning()) ==> app.InOrder(node)
      ensures old(Surplus(app.State())) ==>
                Surplus(app.State()) && (old(app.destroyNodeIds).Some? || !app.DoneQuietly())
      ensures Heard(old(app.State()), app.State(), Lookup(key, retries, checkReplica), value)
      ensures value.Some? && value.value.replicationId.Some? && checkReplica && old(app.destroyNodeIds).None? ==>
                app.destroyNodeIds.None?
    {
      hide Inv, Told, Surplus, Heard;
      ToldExactly(app.State(), Lookup(key, retries, checkReplica), value);
      ghost var s := app.State();
      if Surplus(app.State()) {
        SurplusStays(app.State(), Lookup(key, retries, checkReplica), value);
      }
      PlaceAnswer(app, key, value, retries, checkReplica);
      AskedIsOpen(s, app.State(), Lookup(key, retries, checkReplica), value);
      Conclude(app, true);
    }

    method PlaceAnswer(app: Application, key: Id, value: Option<Known>, retries: nat, checkReplica: bool)
      requires app.Valid() && Lookup(key, retries, checkReplica) in app.lookups
      modifies app`nodeInfo, app`found, app`lookups, app`queries, app`replicationIds, app`actorReplicas, app`lost
      modifies app`known
      ensures app.Valid() && app.State() == Told(old(app.State()), Lookup(key, retries, checkReplica), value)
      ensures old(app.Scanning()) ==> app.Scanning()
    {
      hide Inv, Update, RemoveFirst, DistinctNodes;
      ghost var s, q := app.State(), Lookup(key, retries, checkReplica);
      if app.Scanning() {
        AnswerKeeps(s, q, value);
      }
      if value.Some? {
        PlaceFound(app, key, value.value, retries, checkReplica);
      } else if retries < MAX_RETRIES {
        app.lookups := RemoveFirst(app.lookups, q) + [q.(retries := retries + 1)];
        assert app.State() == Retry(s, q);
      } else {
        GiveUpActor(app, key, retries, checkReplica);
      }
    }

    /** The actor is on a node; if it is replicated, its replicas are asked for. */
    method PlaceFound(app: Application, key: Id, known: Known, retries: nat, checkReplica: bool)
      requires app.Valid()
      modifies app`nodeInfo, app`found, app`lookups, app`queries, app`replicationIds, app`actorReplicas, app`known
      ensures app.Valid()
      ensures app.State() == Told(old(app.State()), Lookup(key, retries, checkReplica), Some(known))
    {
      hide Update, RemoveFirst, DistinctNodes;
      ghost var s, q := app.State(), Lookup(key, retries, checkReplica);
      UpdateKeepsDistinct(s.info, Some(known.node), key);
      app.UpdateNodeInfo(Some(known.node), key);
      app.actorReplicas := RemoveFirst(app.actorReplicas, key);
      app.lookups := RemoveFirst(app.lookups, q);
      assert app.State() == FoundAt(s, q, known.node);
      if known.replicationId.Some? && checkReplica {
        app.replicationIds := app.replicationIds + [known.replicationId.value];
        app.queries := app.queries + [Query(known.replicationId.value, key)];
        app.known := app.known + [Query(known.replicationId.value, key)];
        assert app.State() == Ask(FoundAt(s, q, known.node), Query(known.replicationId.value, key));
      }
    }

    method GiveUpActor(app: Application, key: Id, retries: nat, checkReplica: bool)
      requires app.Valid()
      modifies app`nodeInfo, app`found, app`lookups, app`lost
      ensures app.Valid() && app.State() == GiveUp(old(app.State()), Lookup(key, retries, checkReplica))
    {
      hide Update, RemoveFirst, DistinctNodes;
      ghost var s, q := app.State(), Lookup(key, retries, checkReplica);
      UpdateKeepsDistinct(s.info, None, key);
      app.UpdateNodeInfo(None, key);
      app.lookups := RemoveFirst(app.lookups, q);
      app.lost := if checkReplica then app.lost else app.lost + [key];
    }

    /** The registry has answered which replicas there are. Every actor stays in one place exactly if the
        answer names only new replicas. */
    method ReplicasCb(app: Application, value: seq<Id>, replicationId: string, masterId: Id)
      requires app.Valid() && Query(replicationId, masterId) in app.queries
      modifies this, app
      ensures app.Valid()
      ensures app.State() == Reply(old(app.State()), Query(replicationId, masterId), value, node, old(local.Keys))
      ensures !app.actorLast
      ensures app.destroyNodeIds.Some? <==> old(app.destroyNodeIds).Some? || Goes(app, false)
      ensures app.destroyNodeIds.None? ==> local == old(local) && applications == old(applications)
      ensures old(app.Scanning()) ==> (Inv(app.State(), []) <==> NewReplicas(old(app.actors.Keys), masterId, value))
      ensures old(app.Scanning()) && NewReplicas(old(app.actors.Keys), masterId, value) ==> app.InOrder(node)
      ensures old(app.Scanning()) && !NewReplicas(old(app.actors.Keys), masterId, value) ==> Surplus(app.State())
      ensures old(Surplus(app.State())) ==> Surplus(app.State())
      ensures Surplus(app.State()) ==> old(app.destroyNodeIds).Some? || !app.DoneQuietly()
      ensures Listened(old(app.State()), app.State(), Query(replicationId, masterId), value, node, old(local.Keys))
    {
      hide Inv, NameAll, Named, NewReplicas, Surplus, Listened;
      ReplyExactly(app.State(), Query(replicationId, masterId), value, node, local.Keys);
      if Surplus(app.State()) {
        SurplusStaysNamed(app.State(), Query(replicationId, masterId), value, node, local.Keys);
      }
      ghost var s, q := app.State(), Query(replicationId, masterId);
      ghost var scanning := app.Scanning();
      if scanning {
        ReplyKeepsExactly(s, q, value, node, local.Keys);
      }
      NameAllOf(app, value, replicationId, masterId);
      Conclude(app, false);
    }

    method NameAllOf(app: Application, value: seq<Id>, replicationId: string, masterId: Id)
      requires app.Valid() && Query(replicationId, masterId) in app.queries
      modifies app`replicationIds, app`queries, app`actorReplicas, app`nodeInfo, app`found, app`actors, app`lookups
      modifies app`answered
      ensures app.Valid()
      ensures app.State() == Reply(old(app.State()), Query(replicationId, masterId), value, node, local.Keys)
    {
      hide RemoveFirst, NameOne, DistinctNodes;
      ghost var s, q := app.State(), Query(replicationId, masterId);
      app.replicationIds := RemoveFirst(app.replicationIds, replicationId);
      app.queries := RemoveFirst(app.queries, q);
      app.actorReplicas := app.actorReplicas + value;
      app.answered := app.answered + [q];
      ghost var s0 := app.State();
      assert s0 == Named(s, q, value);
      var i := 0;
      while i < |value|
        invariant i <= |value| && app.Valid() && app.State() == NameAll(s0, masterId, value[..i], node, local.Keys)
      {
        assert value[..i + 1][..i] == value[..i];
        NameOneOf(app, value[i], masterId);
        i := i + 1;
      }
      assert value[..i] == value;
    }

    /** Go through one of the replicas: the original is known already, one on this node is placed,
        and the registry is asked about any other. */
    method NameOneOf(app: Application, a: Id, masterId: Id)
      requires app.Valid()
      modifies app`nodeInfo, app`found, app`actors, app`lookups, app`actorReplicas
      ensures app.Valid() && app.State() == NameOne(old(app.State()), masterId, a, node, local.Keys)
    {
      hide RemoveFirst, Update, DistinctNodes;
      if a == masterId {
        app.actorReplicas := RemoveFirst(app.actorReplicas, a);
        return;
      }
      ghost var before := app.actors.Keys;
      app.actors := app.actors[a := "noname"];
      assert app.actors.Keys == before + {a};
      if a in local {
        UpdateKeepsDistinct(app.nodeInfo, Some(node), a);
        app.actorReplicas := RemoveFirst(app.actorReplicas, a);
        app.UpdateNodeInfo(Some(node), a);
      } else {
        app.lookups := app.lookups + [Lookup(a, 0, false)];
      }
    }

    /** Destroy the actors on this node, and ask every other node to destroy its own; a second time nothing
        happens. */
    method DestroyFinal(app: Application)
      requires app.Valid()
      modifies this, app`destroyNodeIds, app`requests, app`calls
      ensures app.Valid() && app.destroyNodeIds.Some?
      ensures old(app.destroyNodeIds).Some? ==>
                app.destroyNodeIds == old(app.destroyNodeIds) && app.requests == old(app.requests) &&
                  app.calls == old(app.calls) &&
                local == old(local) && applications == old(applications)
      ensures old(app.destroyNodeIds).None? ==>
        && EntriesFor(app.destroyNodeIds.value, app.nodeInfo, node)
        && app.destroyNodeIds == Some(FirstEntries(app.nodeInfo, node) + [Entry(Manager, Some(Answer(true, None)))])
        && app.requests == RequestsFor(app.nodeInfo, node) +
             (if app.id !in old(applications) && app.originNode != node && !HasNode(app.nodeInfo, app.originNode)
              then [Request(app.originNode, [])] else [])
        && app.calls == (if AllAnswered(app.destroyNodeIds.value) then [OutcomeOf(app.destroyNodeIds.value)] else [])
        && applications == old(applications) - {app.id}
        && local == map a | a in old(local) && !InBucket(app.nodeInfo, Some(node), a) :: old(local)[a]
      ensures old(app.destroyNodeIds).None? ==>
        && OneEach(app.requests)
        && forall r :: r in app.requests <==>
             AsksNode(app.nodeInfo, node, r) ||
             (r == Request(app.originNode, []) && app.id !in old(applications) && app.originNode != node &&
              forall i :: 0 <= i < |app.nodeInfo| ==> app.nodeInfo[i].node != Some(app.originNode))
    {
      ghost var extra := app.id !in applications && app.originNode != node && !HasNode(app.nodeInfo, app.originNode);
      AllRequests(app.nodeInfo, node, app.originNode, extra);
      hide OneEach, AsksNode, DistinctNodes;
      hide EntriesFor, FirstAnswer, OutcomeOf, SetAnswer, InBucket, RequestsFor, FirstEntries;
      if app.destroyNodeIds.Some? {
        return;
      }
      var entries := DestroyNodes(app);
      if app.id in applications {
        applications := applications - {app.id};
      } else if !HasNode(app.nodeInfo, app.originNode) && app.originNode != node {
        app.requests := app.requests + [Request(app.originNode, [])];
      }
      ManagerEntry(app.nodeInfo, entries, node);
      app.destroyNodeIds := Some(entries);
      DestroyFinalCb(app, Manager, Answer(true, None));
    }

    method DestroyNodes(app: Application) returns (entries: seq<Entry>)
      requires DistinctNodes(app.nodeInfo) && app.requests == []
      modifies this`local, app`requests
      ensures |entries| == |app.nodeInfo|
      ensures forall j :: 0 <= j < |app.nodeInfo| ==>
                entries[j] == Entry(Peer(app.nodeInfo[j].node), FirstAnswer(app.nodeInfo[j], node))
      ensures app.requests == RequestsFor(app.nodeInfo, node)
      ensures local == map a | a in old(local) && !InBucket(app.nodeInfo, Some(node), a) :: old(local)[a]
    {
      hide SetAnswer, RequestsFor, DistinctNodes, InBucket;
      var info := app.nodeInfo;
      entries := seq(|info|, i requires 0 <= i < |info| => Entry(Peer(info[i].node), None));
      NoBucket(info, node);
      var i := 0;
      while i < |info|
        invariant i <= |info| == |entries|
        invariant forall j :: 0 <= j < |info| ==>
                    entries[j] == Entry(Peer(info[j].node), if j < i then FirstAnswer(info[j], node) else None)
        invariant app.requests == RequestsFor(info[..i], node)
        invariant local == map a | a in old(local) && !InBucket(info[..i], Some(node), a) :: old(local)[a]
      {
        NextBucket(info, i, node);
        if info[i].node == None {
          EntryOfBucket(info, entries, i, Answer(false, Some(info[i].ids)));
          entries := SetAnswer(entries, Peer(None), Answer(false, Some(info[i].ids)));
        } else if info[i].node.value == node {
          EntryOfBucket(info, entries, i, Answer(true, None));
          DestroyLocal(info[i].ids);
          entries := SetAnswer(entries, Peer(info[i].node), Answer(true, None));
        } else {
          app.requests := app.requests + [Request(info[i].node.value, info[i].ids)];
        }
        i := i + 1;
      }
      assert info[..i] == info;
    }

    /** One more answer; with the last one the callback is invoked. */
    method DestroyFinalCb(app: Application, key: Key, answer: Answer)
      requires app.destroyNodeIds.Some?
      modifies app`destroyNodeIds, app`calls
      ensures app.destroyNodeIds == Some(SetAnswer(old(app.destroyNodeIds).value, key, answer))
      ensures app.calls == old(app.calls) +
                if AllAnswered(app.destroyNodeIds.value) then [OutcomeOf(app.destroyNodeIds.value)] else []
    {
      var entries := SetAnswer(app.destroyNodeIds.value, key, answer);
      app.destroyNodeIds := Some(entries);
      if exists i :: 0 <= i < |entries| && entries[i].answer.None? {
        return;
      }
      if AllOk(entries) {
        app.calls := app.calls + [Outcome(true, [])];
      } else {
        app.calls := app.calls + [Outcome(false, Missing(entries))];
      }
    }

    /** Another node has answered the request to destroy its part. */
    method DestroyReply(app: Application, peer: NodeId, answer: Answer)
      requires app.Destroyed(node) && Awaited(app.destroyNodeIds.value, Peer(Some(peer)))
      modifies app`destroyNodeIds, app`calls
      ensures app.Destroyed(node)
      ensures !Awaited(app.destroyNodeIds.value, Peer(Some(peer)))
      ensures Entry(Peer(Some(peer)), Some(answer)) in app.destroyNodeIds.value
      ensures forall key :: key != Peer(Some(peer)) ==>
                Awaited(app.destroyNodeIds.value, key) == old(Awaited(app.destroyNodeIds.value, key))
    {
      hide Inv, EntriesFor, FirstAnswer, OutcomeOf, SetAnswer;
      ghost var entries := app.destroyNodeIds.value;
      InvHasDistinctNodes(app.State());
      ghost var i := AnswerStep(entries, app.nodeInfo, node, peer, answer);
      assert SetAnswer(entries, Peer(Some(peer)), answer)[i] == Entry(Peer(Some(peer)), Some(answer));
      assert !AllAnswered(entries);
      OneLessAwaited(entries, i, answer, app.nodeInfo, node);
      DestroyFinalCb(app, Peer(Some(peer)), answer);
    }

    method DestroyLocal(ids: seq<Id>)
      modifies this`local
      ensures local == map a | a in old(local) && a !in ids :: old(local)[a]
    {
      var k := 0;
      while k < |ids|
        invariant k <= |ids| && local == map a | a in old(local) && a !in ids[..k] :: old(local)[a]
      {
        local := local - {ids[k]};
        k := k + 1;
      }
    }
  }

  /* ----- where it goes wrong ----- */

  lemma SomethingIn(lookups: seq<Lookup>)
    ensures lookups != [] ==> exists q :: q in lookups
  {
    if lookups != [] {
      assert lookups[0] in lookups;
    }
  }

  /** An application of one replicated actor: its replicas are asked for. */
  method OneReplicated() returns (manager: AppManager, app: Application)
    ensures fresh(manager) && fresh(app) && manager.node == "here" && manager.local.Keys == {"master"}
    ensures app.Valid() && app.Scanning() && app.lost == [] && app.actors.Keys == {"master"}
    ensures app.unscanned == {} && app.lookups == [] && app.queries == [Query("replication", "master")]
  {
    hide Inv;
    var q := Query("replication", "master");
    manager := new AppManager("here", map["master" := Some(q)], {"app"});
    app := new Application("app", "here", map["master" := "name"]);
    assert AppManager.Replicated(app.actors.Keys, manager.local) == {"master"};
    manager.Destroy(app);
    assert |app.queries| == 1 && app.queries[0] in app.queries;
    SomethingIn(app.lookups);
  }

  /** If the registry never finds its only replica, then after the retries nothing is outstanding,
      and still the application is not destroyed. */
  method LostReplica() returns (app: Application)
    ensures app.Quiet() && app.destroyNodeIds.None? && app.calls == []
  {
    hide Inv, Partition;
    var manager: AppManager;
    manager, app := OneReplicated();
    OneReply(app.State());
    manager.ReplicasCb(app, ["replica"], "replication", "master");
    LoseReplica(manager, app);
  }

  lemma OneReply(s: Scan)
    requires s.lookups == [] && s.queries == [Query("replication", "master")]
    ensures var s' := Reply(s, Query("replication", "master"), ["replica"], "here", {"master"});
            s'.lookups == [Lookup("replica", 0, false)] && s'.queries == [] && s'.unscanned == s.unscanned &&
              s'.lost == s.lost
  {
    assert ["replica"][..0] == [];
    assert NameAll(Named(s, Query("replication", "master"), ["replica"]), "master", [], "here", {"master"}) ==
           Named(s, Query("replication", "master"), ["replica"]);
  }

  /** The registry never finds the replica. */
  method LoseReplica(manager: AppManager, app: Application)
    requires app.Valid() && app.Scanning() && app.unscanned == {} && app.queries == [] && app.lost == []
    requires app.lookups == [Lookup("replica", 0, false)]
    modifies manager, app
    ensures app.Quiet() && app.destroyNodeIds.None? && app.calls == []
  {
    hide Inv, OutcomeOf, EntriesFor, Partition;
    var retries := 0;
    while retries < MAX_RETRIES
      invariant app.Valid() && app.Scanning() && app.unscanned == {} && app.queries == [] && app.lost == []
      invariant retries <= MAX_RETRIES && app.lookups == [Lookup("replica", retries, false)]
    {
      manager.DestroyActorCb(app, "replica", None, retries, false);
      retries := retries + 1;
    }
    manager.DestroyActorCb(app, "replica", None, retries, false);
  }

  /** An answer that names an actor of the application as a replica: the destruction is carried out while
      another actor is still being looked for, which is left out. */
  method NamedTwice() returns (app: Application)
    ensures app.destroyNodeIds.Some? && app.lookups == [Lookup("z", 0, true)]
    ensures forall i :: 0 <= i < |app.nodeInfo| ==> "z" !in app.nodeInfo[i].ids
  {
    hide Inv, Told, Reply, Surplus, NewReplicas, EntriesFor, RemoveFirst, Partition, Heard, Listened;
    var manager: AppManager;
    manager, app := ScannedInOrder();
    NamedAgain(app.State());
    manager.ReplicasCb(app, ["x"], "r", "m");
    FoundOnce(app.State());
    manager.DestroyActorCb(app, "x", Some(Known("there", None)), 0, true);
    FoundTwice(app.State());
    manager.DestroyActorCb(app, "x", Some(Known("there", None)), 0, false);
  }

  /** A local actor with a replication, and two others that are being looked for. */
  method ScannedInOrder() returns (manager: AppManager, app: Application)
    ensures fresh(manager) && fresh(app) && manager.node == "here" && manager.local.Keys == {"m"} && app.Valid()
    ensures app.destroyNodeIds.None?
    ensures app.actors.Keys == {"m", "x", "z"} && app.nodeInfo == [Bucket(Some("here"), ["m"])]
    ensures app.actorReplicas == []
    ensures app.lookups == [Lookup("x", 0, true), Lookup("z", 0, true)]
    ensures app.queries == [Query("r", "m")] && app.replicationIds == ["r"] && app.unscanned == {}
  {
    hide Inv;
    manager := new AppManager("here", map["m" := Some(Query("r", "m"))], {"app"});
    app := new Application("app", "here", map["m" := "m", "x" := "x", "z" := "z"]);
    StartInv(app.State());
    manager.ScanActor(app, "m");
    manager.ScanActor(app, "x");
    manager.ScanActor(app, "z");
    InvHasDistinctNodes(app.State());
  }

  lemma FoundOnce(s: Scan)
    requires s.info == [Bucket(Some("here"), ["m"])] && s.replicas == ["x"]
    requires s.lookups == [Lookup("x", 0, true), Lookup("z", 0, true), Lookup("x", 0, false)]
    ensures var s' := Told(s, Lookup("x", 0, true), Some(Known("there", None)));
            && s'.info == [Bucket(Some("here"), ["m"]), Bucket(Some("there"), ["x"])]
            && s'.lookups == [Lookup("z", 0, true), Lookup("x", 0, false)] && s'.replicas == []
            && s'.replicationIds == s.replicationIds && s'.actors == s.actors
  {
    UpdateAt(s.info, Some("there"), "x", 1);
  }

  lemma FoundTwice(s: Scan)
    requires s.info == [Bucket(Some("here"), ["m"]), Bucket(Some("there"), ["x"])] && s.replicas == []
    requires s.lookups == [Lookup("z", 0, true), Lookup("x", 0, false)]
    ensures var s' := Told(s, Lookup("x", 0, false), Some(Known("there", None)));
            && s'.info == [Bucket(Some("here"), ["m"]), Bucket(Some("there"), ["x", "x"])] && TotalIds(s'.info) == 3
            && s'.lookups == [Lookup("z", 0, true)] && s'.replicas == [] && s'.replicationIds == s.replicationIds
            && s'.actors == s.actors
  {
    UpdateAt(s.info, Some("there"), "x", 1);
    var info := [Bucket(Some("here"), ["m"]), Bucket(Some("there"), ["x", "x"])];
    assert info[1..] == [Bucket(Some("there"), ["x", "x"])] && info[1..][1..] == [];
    assert ["x"] + ["x"] == ["x", "x"];
    var q := Lookup("x", 0, false);
    assert s.lookups[1..] == [q] && RemoveFirst([q], q) == [];
    assert RemoveFirst(s.lookups, q) == [Lookup("z", 0, true)] + RemoveFirst([q], q);
  }

  lemma NamedAgain(s: Scan)
    requires s.queries == [Query("r", "m")] && s.replicationIds == ["r"] && s.replicas == []
    requires s.actors == {"m", "x", "z"}
    ensures var s' := Reply(s, Query("r", "m"), ["x"], "here", {"m"});
            s' == s.(queries := [], replicationIds := [], replicas := ["x"], answered := s.answered + [Query("r", "m")],
                     lookups := s.lookups + [Lookup("x", 0, false)])
  {
    var s0 := Named(s, Query("r", "m"), ["x"]);
    assert ["x"][..0] == [] && NameAll(s0, "m", [], "here", {"m"}) == s0;
    assert s.actors + {"x"} == s.actors;
  }

  lemma StartInv(s: Scan)
    requires s == Scan(s.actors, [], [], [], s.actors, [], [], map[], [], [], [])
    ensures Inv(s, [])
  {
    assert multiset(s.found.Keys) == multiset{};
  }
}
