/** The callbacks that wait for connections: where each of them is. */
module JoinCallbacks {

  /** An invocation of a callback; every registration of a callback has its own number. */
  datatype Call = Call(callback: nat, ok: bool, uri: string)

  type Pending = map<string, seq<nat>>

  ghost predicate WaitsAt(pending: Pending, uri: string, k: nat, callback: nat) {
    uri in pending && k < |pending[uri]| && pending[uri][k] == callback
  }

  ghost predicate CalledAt(calls: seq<Call>, k: nat, callback: nat) {
    k < |calls| && calls[k].callback == callback
  }

  ghost predicate Waits(pending: Pending, callback: nat) {
    exists uri, k :: WaitsAt(pending, uri, k, callback)
  }

  ghost predicate Called(calls: seq<Call>, callback: nat) {
    exists k :: CalledAt(calls, k, callback)
  }

  /** Every callback that was registered waits for exactly one uri, in one place, or has been invoked
      exactly once, or was dropped because nothing can connect to its uri. */
  ghost predicate Accounted(pending: Pending, calls: seq<Call>, dropped: set<nat>, next: nat) {
    && (forall c: nat :: Waits(pending, c) || Called(calls, c) || c in dropped <==> c < next)
    && (forall c :: !(Waits(pending, c) && Called(calls, c)))
    && (forall c :: c in dropped ==> !Waits(pending, c) && !Called(calls, c))
    && (forall u, k, u', k', c :: WaitsAt(pending, u, k, c) && WaitsAt(pending, u', k', c) ==> u == u' && k == k')
    && (forall k, k', c :: CalledAt(calls, k, c) && CalledAt(calls, k', c) ==> k == k')
  }

  lemma {:induction false} StartAccounted()
    ensures Accounted(map[], [], {}, 0)
  {
    var pending: Pending, calls: seq<Call> := map[], [];
    assert forall u, k: nat, c: nat :: !WaitsAt(pending, u, k, c);
    assert forall k: nat, c: nat :: !CalledAt(calls, k, c);
    assert forall c: nat :: !Waits(pending, c) && !Called(calls, c);
  }

  /** A callback is put in line for its uri. */
  function Enqueue(pending: Pending, uri: string, callback: nat): Pending {
    pending[uri := (if uri in pending then pending[uri] else []) + [callback]]
  }

  lemma EnqueueWaits(pending: Pending, uri: string, callback: nat)
    ensures forall u, k, c :: WaitsAt(Enqueue(pending, uri, callback), u, k, c) <==>
              WaitsAt(pending, u, k, c) || (u == uri && k == (if uri in pending then |pending[uri]| else 0) &&
                                            c == callback)
  {
  }

  lemma EnqueueStep(pending: Pending, calls: seq<Call>, dropped: set<nat>, next: nat, uri: string)
    requires Accounted(pending, calls, dropped, next)
    ensures Accounted(Enqueue(pending, uri, next), calls, dropped, next + 1)
  {
    hide WaitsAt, CalledAt;
    var pending' := Enqueue(pending, uri, next);
    EnqueueWaits(pending, uri, next);
    forall c ensures Waits(pending', c) <==> Waits(pending, c) || c == next {
      if Waits(pending, c) {
        var u, k: nat :| WaitsAt(pending, u, k, c);
        assert WaitsAt(pending', u, k, c);
      }
      assert WaitsAt(pending', uri, if uri in pending then |pending[uri]| else 0, next);
    }
    assert forall u, k: nat, c: nat :: WaitsAt(pending, u, k, c) ==> Waits(pending, c);
  }

  /** A callback is invoked without waiting. */
  lemma CallStep(pending: Pending, calls: seq<Call>, dropped: set<nat>, next: nat, ok: bool, uri: string)
    requires Accounted(pending, calls, dropped, next)
    ensures Accounted(pending, calls + [Call(next, ok, uri)], dropped, next + 1)
  {
    hide WaitsAt;
    var calls' := calls + [Call(next, ok, uri)];
    CalledMore(calls, [Call(next, ok, uri)]);
    assert forall k: nat, c: nat :: CalledAt(calls, k, c) ==> Called(calls, c);
    assert CalledAt(calls', |calls|, next);
  }

  lemma CalledMore(calls: seq<Call>, more: seq<Call>)
    ensures forall k: nat, c :: CalledAt(calls + more, k, c) <==>
              CalledAt(calls, k, c) || (k >= |calls| && CalledAt(more, k - |calls|, c))
    ensures forall c :: Called(calls + more, c) <==> Called(calls, c) || Called(more, c)
  {
    forall c | Called(more, c) ensures Called(calls + more, c) {
      var k: nat :| CalledAt(more, k, c);
      assert CalledAt(calls + more, k + |calls|, c);
    }
    forall c | Called(calls, c) ensures Called(calls + more, c) {
      var k: nat :| CalledAt(calls, k, c);
      assert CalledAt(calls + more, k, c);
    }
    forall c | Called(calls + more, c) ensures Called(calls, c) || Called(more, c) {
      var k: nat :| CalledAt(calls + more, k, c);
      if k < |calls| {
        assert CalledAt(calls, k, c);
      } else {
        assert CalledAt(more, k - |calls|, c);
      }
    }
  }

  lemma DropStep(pending: Pending, calls: seq<Call>, dropped: set<nat>, next: nat)
    requires Accounted(pending, calls, dropped, next)
    ensures Accounted(pending, calls, dropped + {next}, next + 1)
  {
    hide WaitsAt, CalledAt;
  }

  /** The callbacks that wait for a uri, in order. */
  function Line(pending: Pending, uri: string): seq<nat> {
    if uri in pending then pending[uri] else []
  }

  /** All callbacks in line are invoked, in order. */
  function CallsFor(callbacks: seq<nat>, ok: bool, uri: string): seq<Call> {
    seq(|callbacks|, i requires 0 <= i < |callbacks| => Call(callbacks[i], ok, uri))
  }

  /** What is invoked for a uri, which may have nothing in line. */
  function CalledOff(pending: Pending, uri: string, ok: bool): seq<Call> {
    if uri in pending then CallsFor(pending[uri], ok, uri) else []
  }

  lemma PopStep(pending: Pending, calls: seq<Call>, dropped: set<nat>, next: nat, uri: string, ok: bool)
    requires Accounted(pending, calls, dropped, next) && uri in pending
    ensures Accounted(pending - {uri}, calls + CallsFor(pending[uri], ok, uri), dropped, next)
  {
    var pending', more := pending - {uri}, CallsFor(pending[uri], ok, uri);
    assert forall u, k, c :: WaitsAt(pending', u, k, c) <==> WaitsAt(pending, u, k, c) && u != uri;
    assert forall k, c :: CalledAt(more, k, c) <==> WaitsAt(pending, uri, k, c);
    CalledMore(calls, more);
    hide WaitsAt, CalledAt;
    forall c ensures Waits(pending, c) <==> Waits(pending', c) || Called(more, c) {
      if Waits(pending, c) {
        var u, k: nat :| WaitsAt(pending, u, k, c);
        if u == uri {
          assert CalledAt(more, k, c);
        } else {
          assert WaitsAt(pending', u, k, c);
        }
      }
      if Waits(pending', c) {
        var u, k: nat :| WaitsAt(pending', u, k, c);
        assert WaitsAt(pending, u, k, c);
      }
      if Called(more, c) {
        var k: nat :| CalledAt(more, k, c);
        assert WaitsAt(pending, uri, k, c);
      }
    }
    forall c | Called(more, c) ensures !Waits(pending', c) && !Called(calls, c) {
      var k: nat :| CalledAt(more, k, c);
      assert WaitsAt(pending, uri, k, c) && Waits(pending, c);
    }
    assert forall k: nat, c: nat :: CalledAt(calls, k, c) ==> Called(calls, c);
    assert forall k: nat, c: nat :: CalledAt(more, k, c) ==> Called(more, c);
  }
}
