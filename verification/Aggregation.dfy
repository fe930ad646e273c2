/** One callback for many replies. */
module Aggregation {
  import opened Sequences

  type Id = string

  /** The ports of one actor being connected: success is reported after the last reply, and failure with
      the first failed one. */
  class ActorConnect {
    var peerPortIds: seq<Id>
    var migrationConnected: bool
    const hasCallback: bool
    /** The invocations of the callback. */
    var calls: seq<bool>
    /** The replies that are still to come, and whether one of those before was a failure. */
    ghost var expected: seq<Id>
    ghost var failed: bool
    ghost var replies: nat

    constructor (peerPortIds: seq<Id>, hasCallback: bool)
      ensures Valid() && this.hasCallback == hasCallback && expected == peerPortIds && !failed && replies == 0
    {
      this.peerPortIds, this.hasCallback, migrationConnected, calls := peerPortIds, hasCallback, false, [];
      expected, failed, replies := peerPortIds, false, 0;
    }

    ghost predicate Valid()
      reads this
    {
      && (failed && hasCallback ==> peerPortIds == [] && calls == [false] && replies > 0)
      && (!(failed && hasCallback) ==> peerPortIds == expected)
      && (!failed ==> calls == if hasCallback && expected == [] && replies > 0 then [true] else [])
      && (!hasCallback ==> calls == [])
      && (migrationConnected <==> failed || (expected == [] && replies > 0))
    }

    method ActorConnected(status: bool, peerPortId: Id)
      requires Valid() && peerPortId in expected
      modifies this
      ensures Valid() && expected == RemoveFirst(old(expected), peerPortId) && failed == (old(failed) || !status)
      ensures replies == old(replies) + 1
      ensures old(calls) <= calls
      ensures hasCallback ==> calls == if failed then [false] else if expected == [] then [true] else []
    {
      if !status && peerPortIds != [] {
        migrationConnected := true;
        if hasCallback {
          peerPortIds := [];
          calls := calls + [false];
        }
      }
      if peerPortId in peerPortIds {
        peerPortIds := RemoveFirst(peerPortIds, peerPortId);
        if peerPortIds == [] {
          migrationConnected := true;
          if hasCallback {
            calls := calls + [true];
          }
        }
      }
      expected, failed, replies := RemoveFirst(expected, peerPortId), failed || !status, replies + 1;
    }
  }

  /** The actors of an application being destroyed on request: those that are missing are collected. */
  class DestroyRequest {
    var actorIds: seq<Id>
    var missing: seq<Id>
    /** What the callback was given: nothing if no actor is missing. */
    var calls: seq<seq<Id>>
    ghost var failures: seq<Id>
    ghost var replies: nat

    constructor (actorIds: seq<Id>)
      ensures Valid() && this.actorIds == actorIds && failures == [] && replies == 0
    {
      this.actorIds, missing, calls, failures, replies := actorIds, [], [], [], 0;
    }

    ghost predicate Valid()
      reads this
    {
      missing == failures && calls == if actorIds == [] && replies > 0 then [missing] else []
    }

    method ActorDestroyed(status: bool, actorId: Id)
      requires Valid() && actorId in actorIds
      modifies this
      ensures Valid() && multiset(actorIds) == multiset(old(actorIds)) - multiset{actorId}
      ensures replies == old(replies) + 1
      ensures failures == old(failures) + if status then [] else [actorId]
      ensures calls == if actorIds == [] then [failures] else []
    {
      RemoveFirstCounts(actorIds, actorId);
      actorIds := RemoveFirst(actorIds, actorId);
      if !status {
        missing := missing + [actorId];
      }
      failures, replies := failures + (if status then [] else [actorId]), replies + 1;
      if actorIds != [] {
        return;
      }
      calls := calls + [missing];
    }
  }

  datatype Status = Open | Ok | Failed

  /** The actors of an application being migrated, each with its status. */
  class Migration {
    var migratedActors: map<Id, Status>
    var calls: seq<bool>

    constructor (actors: set<Id>)
      ensures Valid() && migratedActors == (map a | a in actors :: Open) && calls == []
    {
      migratedActors, calls := map a | a in actors :: Open, [];
    }

    ghost predicate Valid()
      reads this
    {
      calls == if migratedActors.Keys != {} && forall a :: a in migratedActors ==> !migratedActors[a].Open?
               then [forall a :: a in migratedActors ==> migratedActors[a].Ok?] else []
    }

    method MigratedCb(ok: bool, actorId: Id)
      requires Valid() && actorId in migratedActors && migratedActors[actorId].Open?
      modifies this
      ensures Valid() && migratedActors == old(migratedActors)[actorId := if ok then Ok else Failed]
      ensures calls == if exists a :: a in migratedActors && migratedActors[a].Open? then []
                       else [forall a :: a in migratedActors ==> migratedActors[a].Ok?]
    {
      assert calls == [] by {
        assert migratedActors[actorId].Open?;
      }
      migratedActors := migratedActors[actorId := if ok then Ok else Failed];
      assert actorId in migratedActors.Keys;
      if exists a :: a in migratedActors && migratedActors[a].Open? {
        return;
      }
      calls := calls + [forall a :: a in migratedActors ==> migratedActors[a].Ok?];
    }
  }
}
