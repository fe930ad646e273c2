/** Links to other nodes: the requests that wait for replies, and the connections being set up. */
module CalvinNetworking {
  import opened Options
  import opened JoinCallbacks
  import opened SimultaneousJoin

  type MsgId = nat
  type Transport = nat

  /** How a request ended. */
  datatype Reply = Answered(value: string) | Timeout

  datatype Invocation = Invocation(callback: nat, reply: Reply)

  datatype Msg = Msg(id: Option<MsgId>, content: string, source: NodeId, destination: NodeId)

  datatype Packet = Packet(transport: Transport, msg: Msg)

  ghost predicate OnceCalled(called: seq<(MsgId, Invocation)>) {
    forall i, j :: 0 <= i < j < |called| ==> called[i].0 != called[j].0
  }

  ghost predicate WasCalled(called: seq<(MsgId, Invocation)>, id: MsgId) {
    exists i :: 0 <= i < |called| && called[i].0 == id
  }

  /** The two dictionaries of requests without reply; a link that replaces another shares them. */
  class ReplyTable {
    var replies: map<MsgId, nat>
    /** The requests whose timer is running. */
    var repliesTimeout: set<MsgId>
    /** The invocations so far, and every request there has been. */
    var called: seq<(MsgId, Invocation)>
    ghost var asked: map<MsgId, nat>

    constructor ()
      ensures Valid() && replies == map[] && called == [] && asked == map[]
    {
      replies, repliesTimeout, called, asked := map[], {}, [], map[];
    }

    /** Timers run for exactly the requests without reply; every request there has been is one of
        them, or its own callback has been invoked exactly once. */
    ghost predicate Valid()
      reads this
    {
      && repliesTimeout == replies.Keys
      && OnceCalled(called)
      && (forall id :: id in asked <==> id in replies || WasCalled(called, id))
      && (forall id :: !(id in replies && WasCalled(called, id)))
      && (forall id :: id in replies ==> replies[id] == asked[id])
      && (forall i :: 0 <= i < |called| ==> called[i].0 in asked && called[i].1.callback == asked[called[i].0])
    }

    lemma OneMoreCalled(before: seq<(MsgId, Invocation)>, id: MsgId, invocation: Invocation)
      ensures forall x :: WasCalled(before + [(id, invocation)], x) <==> WasCalled(before, x) || x == id
      ensures OnceCalled(before) && !WasCalled(before, id) ==> OnceCalled(before + [(id, invocation)])
    {
      var after := before + [(id, invocation)];
      forall x ensures WasCalled(after, x) <==> WasCalled(before, x) || x == id {
        if WasCalled(before, x) {
          var i :| 0 <= i < |before| && before[i].0 == x;
          assert after[i].0 == x;
        }
        assert after[|before|].0 == id;
      }
    }

    method Register(id: MsgId, callback: nat)
      requires Valid() && id !in asked
      modifies this
      ensures Valid() && asked == old(asked)[id := callback] && replies == old(replies)[id := callback]
      ensures called == old(called)
    {
      replies := replies[id := callback];
      repliesTimeout := repliesTimeout + {id};
      asked := asked[id := callback];
    }

    /** Whether by reply or by timeout: the first one invokes the callback, any other finds nothing. */
    method Settle(id: MsgId, reply: Reply)
      requires Valid()
      modifies this`replies, this`repliesTimeout, this`called
      ensures Valid() && asked == old(asked) && replies == old(replies) - {id}
      ensures called == old(called) + if id in old(replies) then [(id, Invocation(old(replies)[id], reply))] else []
    {
      repliesTimeout := repliesTimeout - {id};
      if id in replies {
        OneMoreCalled(called, id, Invocation(replies[id], reply));
        called := called + [(id, Invocation(replies[id], reply))];
        replies := replies - {id};
      }
    }
  }

  class CalvinLink {
    const rtId: NodeId
    const peerId: NodeId
    const table: ReplyTable
    var transport: Transport
    var peerIsSleeping: bool
    var bufferedMsgs: seq<Msg>
    /** What was handed to the transports. */
    var sent: seq<Packet>

    constructor (rtId: NodeId, peerId: NodeId, transport: Transport, oldTable: ReplyTable?)
      ensures this.rtId == rtId && this.peerId == peerId && this.transport == transport
      ensures !peerIsSleeping && bufferedMsgs == [] && sent == []
      ensures if oldTable != null then table == oldTable
              else fresh(table) && table.Valid() && table.replies == map[] && table.asked == map[]
    {
      this.rtId, this.peerId, this.transport := rtId, peerId, transport;
      peerIsSleeping, bufferedMsgs, sent := false, [], [];
      if oldTable == null {
        var t := new ReplyTable();
        table := t;
      } else {
        table := oldTable;
      }
    }

    /** Send at once, or keep for when the peer wakes up. */
    method Send(msg: Msg, destPeerId: Option<NodeId>)
      modifies this`sent, this`bufferedMsgs
      ensures var addressed := msg.(source := rtId,
                                    destination := if destPeerId.Some? then destPeerId.value else peerId);
              if peerIsSleeping then sent == old(sent) && bufferedMsgs == old(bufferedMsgs) + [addressed]
              else sent == old(sent) + [Packet(transport, addressed)] && bufferedMsgs == old(bufferedMsgs)
    {
      var addressed := msg.(source := rtId, destination := if destPeerId.Some? then destPeerId.value else peerId);
      if !peerIsSleeping {
        sent := sent + [Packet(transport, addressed)];
      } else {
        bufferedMsgs := bufferedMsgs + [addressed];
      }
    }

    /** Send a request; its callback is registered before it is sent. */
    method SendWithReply(callback: nat, msg: Msg, msgId: MsgId, destPeerId: Option<NodeId>)
      requires table.Valid() && msgId !in table.asked
      modifies table, this`sent, this`bufferedMsgs
      ensures table.Valid() && table.asked == old(table.asked)[msgId := callback] && msgId in table.replies
      ensures table.called == old(table.called) && table.replies == old(table.replies)[msgId := callback]
      ensures var request := Msg(Some(msgId), msg.content, rtId, if destPeerId.Some? then destPeerId.value else peerId);
              if peerIsSleeping then sent == old(sent) && bufferedMsgs == old(bufferedMsgs) + [request]
              else sent == old(sent) + [Packet(transport, request)] && bufferedMsgs == old(bufferedMsgs)
    {
      table.Register(msgId, callback);
      Send(msg.(id := Some(msgId)), destPeerId);
    }

    method ReplyHandler(msgId: MsgId, value: string)
      requires table.Valid()
      modifies table`replies, table`repliesTimeout, table`called
      ensures table.Valid() && msgId !in table.replies && table.asked == old(table.asked)
      ensures table.called == old(table.called) +
                if msgId in old(table.replies) then [(msgId, Invocation(old(table.replies)[msgId], Answered(value)))]
                  else []
    {
      table.Settle(msgId, Answered(value));
    }

    method ReplyTimeout(msgId: MsgId)
      requires table.Valid()
      modifies table`replies, table`repliesTimeout, table`called
      ensures table.Valid() && msgId !in table.replies && table.asked == old(table.asked)
      ensures table.called == old(table.called) +
                if msgId in old(table.replies) then [(msgId, Invocation(old(table.replies)[msgId], Timeout))] else []
    {
      table.Settle(msgId, Timeout);
    }

    /** Hand over everything that was kept, in order; nothing is lost and nothing is sent twice. */
    method FlushBufferedMsgs()
      requires !peerIsSleeping
      modifies this`sent, this`bufferedMsgs
      ensures bufferedMsgs == [] && |sent| == |old(sent)| + |old(bufferedMsgs)|
      ensures forall i :: 0 <= i < |old(sent)| ==> sent[i] == old(sent)[i]
      ensures forall i :: 0 <= i < |old(bufferedMsgs)| ==>
                sent[|old(sent)| + i] == Packet(transport, old(bufferedMsgs)[i].(source := rtId, destination := peerId))
    {
      var k := 0;
      while k < |bufferedMsgs|
        invariant k <= |bufferedMsgs| && bufferedMsgs == old(bufferedMsgs) && |sent| == |old(sent)| + k
        invariant forall i :: 0 <= i < |old(sent)| ==> sent[i] == old(sent)[i]
        invariant forall i :: 0 <= i < k ==>
                    sent[|old(sent)| + i] == Packet(transport, bufferedMsgs[i].(source := rtId, destination := peerId))
      {
        Send(bufferedMsgs[k], None);
        k := k + 1;
      }
      bufferedMsgs := [];
    }
  }

  /** A join that was asked for: a uri, and the peer expected there. */
  datatype Target = Target(uri: string, peerId: Option<NodeId>)

  /** What stands before the first colon, or everything. */
  function Schema(uri: string): (schema: string)
    ensures schema <= uri && ':' !in schema && (|schema| < |uri| ==> uri[|schema|] == ':')
  {
    if uri == "" || uri[0] == ':' then "" else [uri[0]] + Schema(uri[1..])
  }

  class CalvinNetwork {
    const nodeId: NodeId
    /** The uri schemas that there are transports for. */
    const schemas: set<string>
    var links: map<NodeId, CalvinLink>
    var pendingJoins: Pending
    var pendingJoinsById: map<NodeId, string>
    /** What was asked of the transports: to connect to a uri, and to close a connection. */
    var joins: seq<string>
    var disconnects: seq<Transport>
    /** Links that are closed after a while. */
    var closing: seq<CalvinLink>
    var calls: seq<Call>
    /** The callbacks registered so far are numbered; some are never invoked. */
    var nextCallback: nat
    ghost var dropped: set<nat>

    constructor (nodeId: NodeId, schemas: set<string>)
      ensures Valid() && this.nodeId == nodeId && this.schemas == schemas && links == map[] && nextCallback == 0
      ensures closing == [] && disconnects == [] && calls == []
    {
      this.nodeId, this.schemas := nodeId, schemas;
      links, pendingJoins, pendingJoinsById, joins, disconnects, closing, calls := map[], map[], map[], [], [], [], [];
      nextCallback, dropped := 0, {};
      StartAccounted();
    }

    /** Every callback is accounted for, and every link to a peer leads there and has its requests in order. */
    ghost predicate Valid()
      reads this, links.Values, set p | p in links :: links[p].table
    {
      && Accounted(pendingJoins, calls, dropped, nextCallback)
      && forall p :: p in links ==> links[p].rtId == nodeId && links[p].peerId == p && links[p].table.Valid()
    }

    /** There is a link to the peer already. */
    predicate Linked(peerId: Option<NodeId>)
      reads this
    {
      peerId.Some? && peerId.value in links
    }

    static predicate Expected(peerId: Option<NodeId>, byId: map<NodeId, string>) {
      peerId.Some? && peerId.value in byId
    }

    /** Nothing is on its way to the uri or the peer, and there is a transport to use. */
    predicate Connects(uri: string, peerId: Option<NodeId>, pending: Pending, byId: map<NodeId, string>)
      reads this
    {
      uri !in pending && !Expected(peerId, byId) && !Linked(peerId) && Schema(uri) in schemas
    }

    /** Connect to the uris, unless a connection to the same uri or peer is there or on its way. */
    method Join(targets: seq<Target>, hasCallback: bool)
      requires Valid()
      modifies this`pendingJoins, this`pendingJoinsById, this`joins, this`calls, this`nextCallback, this`dropped
      ensures Valid() && nextCallback == old(nextCallback) + if hasCallback then |targets| else 0
      ensures old(calls) <= calls && old(joins) <= joins
      ensures forall i :: |old(calls)| <= i < |calls| ==> calls[i].ok
    {
      var k := 0;
      while k < |targets|
        invariant k <= |targets| && Valid() && nextCallback == old(nextCallback) + if hasCallback then k else 0
        invariant old(calls) <= calls && old(joins) <= joins
        invariant forall i :: |old(calls)| <= i < |calls| ==> calls[i].ok
      {
        JoinOne(targets[k].uri, targets[k].peerId, hasCallback);
        k := k + 1;
      }
    }

    method JoinOne(uri: string, peerId: Option<NodeId>, hasCallback: bool)
      requires Valid()
      modifies this`pendingJoins, this`pendingJoinsById, this`joins, this`calls, this`nextCallback, this`dropped
      ensures Valid() && nextCallback == old(nextCallback) + if hasCallback then 1 else 0
      ensures joins ==
                old(joins) + if Connects(uri, peerId, old(pendingJoins), old(pendingJoinsById)) then [uri] else []
      ensures pendingJoinsById == if Connects(uri, peerId, old(pendingJoins), old(pendingJoinsById)) && peerId.Some?
                                  then old(pendingJoinsById)[peerId.value := uri] else old(pendingJoinsById)
      ensures calls == old(calls) + if hasCallback && Linked(peerId) then [Call(old(nextCallback), true, uri)] else []
      ensures pendingJoins ==
              if hasCallback && !Linked(peerId) &&
                (uri in old(pendingJoins) || Expected(peerId, old(pendingJoinsById)) || Schema(uri) in schemas)
              then old(pendingJoins)[uri := Line(old(pendingJoins), uri) + [old(nextCallback)]] else old(pendingJoins)
    {
      hide Accounted;
      var callback := nextCallback;
      if uri in pendingJoins || Expected(peerId, pendingJoinsById) || Linked(peerId) {
        if hasCallback {
          nextCallback := nextCallback + 1;
          if Linked(peerId) {
            CallStep(pendingJoins, calls, dropped, callback, true, uri);
            calls := calls + [Call(callback, true, uri)];
          } else {
            EnqueueStep(pendingJoins, calls, dropped, callback, uri);
            pendingJoins := Enqueue(pendingJoins, uri, callback);
          }
        }
      } else if Schema(uri) in schemas {
        if peerId.Some? {
          pendingJoinsById := pendingJoinsById[peerId.value := uri];
        }
        if hasCallback {
          nextCallback := nextCallback + 1;
          EnqueueStep(pendingJoins, calls, dropped, callback, uri);
          assert [] + [callback] == [callback];
          pendingJoins := pendingJoins[uri := [callback]];
        }
        joins := joins + [uri];
      } else if hasCallback {
        DropStep(pendingJoins, calls, dropped, callback);
        nextCallback, dropped := nextCallback + 1, dropped + {callback};
      }
    }

    /** Invoke everything in line for the uri. */
    method CallBack(uri: string, ok: bool)
      requires Valid()
      modifies this`pendingJoins, this`calls
      ensures Valid() && pendingJoins == old(pendingJoins) - {uri}
      ensures calls == old(calls) + CalledOff(old(pendingJoins), uri, ok)
      ensures |calls| == |old(calls)| + |Line(old(pendingJoins), uri)| && old(calls) <= calls
      ensures forall i :: 0 <= i < |Line(old(pendingJoins), uri)| ==>
                calls[|old(calls)| + i] == Call(Line(old(pendingJoins), uri)[i], ok, uri)
      ensures forall i :: |old(calls)| <= i < |calls| ==> calls[i].ok == ok
    {
      if uri in pendingJoins {
        PopStep(pendingJoins, calls, dropped, nextCallback, uri, ok);
        var callbacks := pendingJoins[uri];
        pendingJoins := pendingJoins - {uri};
        calls := calls + CallsFor(callbacks, ok, uri);
      }
    }

    /** A connection is there, whoever asked for it; or it could not be made. Those in line for the
        uri are told which, and with a connection also those in line for the uri of the peer. */
    method JoinFinished(tpLink: Option<Transport>, peerId: NodeId, uri: string, isOriginator: bool)
      requires Valid()
      modifies this, if peerId in links then {links[peerId]} else {}
      ensures Valid() && nextCallback == old(nextCallback)
      ensures tpLink == None ==>
                links == old(links) && pendingJoinsById == old(pendingJoinsById) && disconnects == old(disconnects)
      ensures tpLink == None ==> pendingJoins == old(pendingJoins) - {uri}
      ensures tpLink.Some? ==> Reached(old(pendingJoins), old(pendingJoinsById), old(calls), peerId, uri)
      ensures old(calls) <= calls && forall i :: |old(calls)| <= i < |calls| ==> calls[i].ok == tpLink.Some?
      ensures tpLink == None ==>
                && |calls| == |old(calls)| + |Line(old(pendingJoins), uri)|
                && forall i :: 0 <= i < |Line(old(pendingJoins), uri)| ==>
                     calls[|old(calls)| + i] == Call(Line(old(pendingJoins), uri)[i], false, uri)
      ensures tpLink.Some? ==> peerId in links && links == old(links)[peerId := links[peerId]]
      ensures tpLink.Some? ==>
                Chosen(old(ChoiceFor(peerId, isOriginator)),
                       tpLink.value, peerId, old(links), links, old(disconnects), disconnects, old(closing), closing)
      ensures fresh(links.Values - old(links.Values))
      ensures peerId in old(links) && !old(links[peerId].peerIsSleeping) ==> unchanged(old(links)[peerId])
    {
      hide Accounted, Chosen, Reached, Choose, ReplyTable.Valid;
      if tpLink == None {
        CallBack(uri, false);
      } else {
        PlaceLink(tpLink.value, peerId, isOriginator);
        CallBacks(peerId, uri);
      }
    }

    /** The link to the peer uses the connection, and its peer is awake. */
    predicate Uses(peerId: NodeId, transport: Transport)
      reads this, links.Values
    {
      peerId in links && links[peerId].transport == transport && !links[peerId].peerIsSleeping
    }

    /** What to do with a connection to the peer that is there. */
    function ChoiceFor(peerId: NodeId, isOriginator: bool): Choice
      reads this, links.Values
    {
      Choose(nodeId, peerId, peerId in links, peerId in links && links[peerId].peerIsSleeping, isOriginator)
    }

    /** What becomes of the links, and of the connections to close now and later. */
    static ghost predicate Chosen(choice: Choice, tpLink: Transport, peerId: NodeId,
                                  links: map<NodeId, CalvinLink>, links': map<NodeId, CalvinLink>,
                                  closed: seq<Transport>, closed': seq<Transport>,
                                  later: seq<CalvinLink>, later': seq<CalvinLink>)
      reads links'.Values
    {
      && (choice.Drop? || choice.DropOriginator? || choice.Ignore? || choice.Wake? ==> links' == links)
      && (choice.Insert? || choice.Wake? || choice.Replace? || choice.ReplaceOriginator? ==>
           peerId in links' && links'[peerId].transport == tpLink && !links'[peerId].peerIsSleeping)
      && (choice.Insert? ==> peerId !in links)
      && (choice.Replace? || choice.ReplaceOriginator? ==> peerId in links && links'[peerId] != links[peerId])
      && closed' == (if choice.Drop? || choice.DropOriginator? then closed + [tpLink] else closed)
      && later' == (if choice.Replace? && peerId in links then later + [links[peerId]] else later)
    }

    /** Those that wait for the uri of the peer have been told of success, in order, and then those that wait
        for the uri. */
    ghost predicate Reached(pending: Pending, byId: map<NodeId, string>, before: seq<Call>, peerId: NodeId, uri: string)
      reads this
    {
      var first := if peerId in byId then Line(pending, byId[peerId]) else [];
      var second := if peerId in byId && byId[peerId] == uri then [] else Line(pending, uri);
      && pendingJoinsById == byId - {peerId}
      && pendingJoins == pending - (if peerId in byId then {byId[peerId]} else {}) - {uri}
      && before <= calls && |calls| == |before| + |first| + |second|
      && (forall i :: 0 <= i < |first| ==> calls[|before| + i] == Call(first[i], true, byId[peerId]))
      && (forall i :: 0 <= i < |second| ==> calls[|before| + |first| + i] == Call(second[i], true, uri))
    }

    method CallBacks(peerId: NodeId, uri: string)
      requires Valid()
      modifies this`pendingJoins, this`pendingJoinsById, this`calls
      ensures Valid() && Reached(old(pendingJoins), old(pendingJoinsById), old(calls), peerId, uri)
      ensures old(calls) <= calls && forall i :: |old(calls)| <= i < |calls| ==> calls[i].ok
    {
      hide Accounted, CalledOff;
      if peerId in pendingJoinsById {
        var peerUri := pendingJoinsById[peerId];
        pendingJoinsById := pendingJoinsById - {peerId};
        CallBack(peerUri, true);
        ghost var n := |calls|;
        CallBack(uri, true);
        assert forall i :: |old(calls)| <= i < n ==> calls[i] == calls[..n][i];
      } else {
        CallBack(uri, true);
      }
    }

    /** One link for each peer: keep the one there is, or take the new connection. */
    method PlaceLink(tpLink: Transport, peerId: NodeId, isOriginator: bool)
      requires Valid()
      modifies this`links, this`disconnects, this`closing, if peerId in links then {links[peerId]} else {}
      ensures links.Keys == old(links.Keys) + {peerId} && links == old(links)[peerId := links[peerId]]
      ensures Chosen(old(ChoiceFor(peerId, isOriginator)),
                     tpLink, peerId, old(links), links, old(disconnects), disconnects, old(closing), closing)
      ensures match old(ChoiceFor(peerId, isOriginator))
        case Insert => NewLink(links[peerId], tpLink) && fresh(links[peerId].table)
        case Wake => links[peerId].bufferedMsgs == [] &&
          |links[peerId].sent| == old(|links[peerId].sent|) + old(|links[peerId].bufferedMsgs|)
        case ReplaceOriginator => NewLink(links[peerId], tpLink) && fresh(links[peerId].table)
        case Replace => NewLink(links[peerId], tpLink) && links[peerId].table == old(links)[peerId].table
        case _ => true
      ensures Valid() && fresh(links.Values - old(links.Values))
      ensures peerId in old(links) && !old(links[peerId].peerIsSleeping) ==> unchanged(old(links)[peerId])
      ensures peerId in old(links) && old(links[peerId].peerIsSleeping) ==>
                && links == old(links) && Uses(peerId, tpLink)
                && disconnects == old(disconnects) && closing == old(closing)
      ensures peerId !in old(links) ==>
                Uses(peerId, tpLink) && disconnects == old(disconnects) && closing == old(closing)
      ensures peerId in old(links) && !old(links[peerId].peerIsSleeping) && nodeId != peerId ==>
                if isOriginator <==> nodeId > peerId
                then Uses(peerId, tpLink) && disconnects == old(disconnects)
                else links == old(links) && disconnects == old(disconnects) + [tpLink]
    {
      hide Accounted, ReplyTable.Valid;
      if peerId in links {
        if links[peerId].peerIsSleeping {
          links[peerId].peerIsSleeping := false;
          links[peerId].transport := tpLink;
          links[peerId].FlushBufferedMsgs();
        } else if isOriginator && nodeId > peerId {
          var link := new CalvinLink(nodeId, peerId, tpLink, null);
          links := links[peerId := link];
        } else if isOriginator && nodeId < peerId {
          disconnects := disconnects + [tpLink];
        } else if !isOriginator && nodeId > peerId {
          disconnects := disconnects + [tpLink];
        } else if !isOriginator && nodeId < peerId {
          closing := closing + [links[peerId]];
          var link := new CalvinLink(nodeId, peerId, tpLink, links[peerId].table);
          links := links[peerId := link];
        }
      } else {
        var link := new CalvinLink(nodeId, peerId, tpLink, null);
        links := links[peerId := link];
      }
    }

    /** A new link with nothing sent on it yet. */
    static predicate NewLink(link: CalvinLink, transport: Transport)
      reads link
    {
      link.transport == transport && !link.peerIsSleeping && link.sent == [] && link.bufferedMsgs == []
    }

    /** The transport could not connect; without anything in line for the uri this is an error. */
    method JoinFailed(uri: string) returns (known: bool)
      requires Valid()
      modifies this`pendingJoins, this`calls
      ensures Valid() && known == (uri in old(pendingJoins)) && pendingJoins == old(pendingJoins) - {uri}
      ensures |calls| == |old(calls)| + |Line(old(pendingJoins), uri)| && old(calls) <= calls
      ensures forall i :: 0 <= i < |Line(old(pendingJoins), uri)| ==>
                calls[|old(calls)| + i] == Call(Line(old(pendingJoins), uri)[i], false, uri)
    {
      known := uri in pendingJoins;
      CallBack(uri, false);
    }

    /** Only the connection that the link uses takes the link with it, and not while the peer sleeps. */
    method PeerDisconnected(transport: Transport, peerId: NodeId)
      requires Valid()
      modifies this`links
      ensures Valid() && !Uses(peerId, transport)
      ensures links == if old(Uses(peerId, transport)) then old(links) - {peerId} else old(links)
    {
      if peerId in links && links[peerId].transport == transport {
        if !links[peerId].peerIsSleeping {
          links := links - {peerId};
        }
      }
    }

    /** A link that was replaced is closed after a while. */
    method CloseOld(i: nat)
      requires i < |closing|
      modifies this`closing, this`disconnects
      ensures closing == old(closing)[..i] + old(closing)[i + 1..]
      ensures disconnects == old(disconnects) + [old(closing)[i].transport]
    {
      disconnects := disconnects + [closing[i].transport];
      closing := closing[..i] + closing[i + 1..];
    }

    /** A callback is never invoked twice. */
    lemma AtMostOnce(i: nat, j: nat)
      requires Valid() && i < |calls| && j < |calls| && calls[i].callback == calls[j].callback
      ensures i == j && calls[i].callback < nextCallback && !Waits(pendingJoins, calls[i].callback)
    {
      assert CalledAt(calls, i, calls[i].callback) && CalledAt(calls, j, calls[i].callback);
      assert Called(calls, calls[i].callback);
    }
  }
}
