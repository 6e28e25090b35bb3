/** The requests that a client sends to Connect, Postgres and Kafka, what each may do and
    answer, and what sequences of them lead to.

    A step is labelled with its request and its reply. Between any two requests the
    environment may take any number of steps. A request may fail without effect, and its reply
    may be lost after it took effect.
 */
module ConnectRequests {
  import opened Results
  import opened ConnectProtocol

  /** A request with the reply that the client got; `Raised` when it got none. */
  datatype Request =
    | GetConnectorRequest(status: Result<nat>)
    | StopRequest(status: Result<nat>)
    | StateRequest(state: Result<Option<Connector>>)
    | OffsetsRequest(status: Result<nat>)
    | DeleteRequest(status: Result<nat>)
    | SlotRequest(present: Result<bool>)
    | DropSlotRequest(done: Result<()>)
    | TableRequest(done: Result<()>)
    | TopicRequest(done: Result<()>)

  predicate Fails(status: Result<nat>) {
    status == Raised || status == Ok(500)
  }

  /** Raised or one of two statuses. */
  predicate LostOr(status: Result<nat>, a: nat, b: nat) {
    status == Raised || status == Ok(a) || status == Ok(b)
  }

  /** Connect clears the offsets of such a connector only. */
  predicate CanClear(w: World) {
    w.connector.Stopped? && !w.tasks
  }

  function AfterStop(w: World): World {
    if w.connector.Running? || w.connector.Failed? then w.(connector := Stopping) else w
  }

  /** The servers' rules: in `w`, the request may get this reply and leave `w'`. */
  predicate Serves(w: World, r: Request, w': World) {
    match r
    case GetConnectorRequest(status) =>
      w' == w && (Fails(status) || status == Ok(if w.connector.Absent? then 404 else 200))
    case StopRequest(status) =>
      || (w' == w && Fails(status))
      || (w' == AfterStop(w) && (status == Raised || status == Ok(if w.connector.Absent? then 404 else 202)))
    case StateRequest(state) =>
      w' == w && (state == Raised || state == Ok(None) || (!w.connector.Absent? && state == Ok(Some(w.connector))))
    case OffsetsRequest(status) =>
      || (w' == w && Fails(status))
      || (w' == w && !CanClear(w) && status == Ok(if w.connector.Absent? then 404 else 400))
      || (w' == w.(offsets := false) && CanClear(w) && LostOr(status, 200, 204))
    case DeleteRequest(status) =>
      || (w' == w && (Fails(status) || status == Ok(409)))
      || (w' == w && w.connector.Absent? && status == Ok(404))
      || (w' == w.(connector := Absent) && !w.connector.Absent? && (status == Raised || status == Ok(204)))
    case SlotRequest(present) =>
      w' == w && (present == Raised || present == Ok(!w.slot.Gone?))
    case DropSlotRequest(done) =>
      || (w' == w && done == Raised)
      || (w' == w.(slot := Gone) && w.slot.Idle?)
    case TableRequest(done) =>
      || (w' == w && done == Raised)
      || w' == w.(table := false)
    case TopicRequest(done) =>
      w' == w || w' == w.(topic := false)
  }

  /** The environment moves on, then the request is served. */
  ghost predicate Next(w: World, r: Request, w': World) {
    exists m :: Waits(w, m) && Serves(m, r, w')
  }

  function Front(requests: seq<Request>): seq<Request>
    requires requests != []
  {
    requests[..|requests| - 1]
  }

  function Last(requests: seq<Request>): Request
    requires requests != []
  {
    requests[|requests| - 1]
  }

  /** Exactly these requests, with these replies and in this order, can lead from one world
      to the other. */
  ghost predicate Leads(w: World, requests: seq<Request>, w': World) {
    if requests == [] then w' == w
    else exists m :: Leads(w, Front(requests), m) && Next(m, Last(requests), w')
  }

  // ----- Composition -----

  lemma LeadsOn(w: World, requests: seq<Request>, m: World, r: Request, w': World)
    requires Leads(w, requests, m) && Next(m, r, w')
    ensures Leads(w, requests + [r], w')
  {
    assert Front(requests + [r]) == requests;
  }

  /** One more request, served at once or after waiting. */
  lemma ServeOn(w: World, requests: seq<Request>, m: World, at: World, r: Request, w': World)
    requires Leads(w, requests, m) && (m == at || Waits(m, at)) && Serves(at, r, w')
    ensures Leads(w, requests + [r], w')
  {
    WaitsOn(m, m, m);
    LeadsOn(w, requests, m, r, w');
  }

  lemma Serve(w: World, r: Request, w': World)
    requires Serves(w, r, w')
    ensures Next(w, r, w') && Leads(w, [r], w')
  {
    WaitsOn(w, w, w);
    LeadsOne(w, r, w');
  }

  /** Waiting first makes no difference. */
  lemma {:induction false} WaitsFirst(w: World, m: World, requests: seq<Request>, w': World)
    requires Waits(w, m) && Leads(m, requests, w') && requests != []
    ensures Leads(w, requests, w')
    decreases |requests|
  {
    var n :| Leads(m, Front(requests), n) && Next(n, Last(requests), w');
    if |requests| == 1 {
      var at :| Waits(m, at) && Serves(at, Last(requests), w');
      WaitsConcat(w, m, at);
      assert Leads(w, Front(requests), w);
    } else {
      WaitsFirst(w, m, Front(requests), n);
    }
  }

  lemma {:induction false} LeadsConcat(w: World, a: seq<Request>, m: World, b: seq<Request>, w': World)
    requires Leads(w, a, m) && Leads(m, b, w')
    ensures Leads(w, a + b, w')
    decreases |b|
  {
    if b == [] {
      assert a + b == a;
    } else {
      var n :| Leads(m, Front(b), n) && Next(n, Last(b), w');
      LeadsConcat(w, a, m, Front(b), n);
      LeadsOn(w, a + Front(b), n, Last(b), w');
      assert a + Front(b) + [Last(b)] == a + b;
    }
  }

  lemma {:induction false} LeadsSplit(w: World, a: seq<Request>, b: seq<Request>, w': World) returns (m: World)
    requires Leads(w, a + b, w')
    ensures Leads(w, a, m) && Leads(m, b, w')
    decreases |b|
  {
    if b == [] {
      assert a + b == a;
      m := w';
    } else {
      assert Front(a + b) == a + Front(b);
      var n :| Leads(w, a + Front(b), n) && Next(n, Last(b), w');
      m := LeadsSplit(w, a, Front(b), n);
    }
  }

  lemma LeadsOne(w: World, r: Request, w': World)
    ensures Leads(w, [r], w') <==> Next(w, r, w')
  {
    assert Front([r]) == [];
    if Next(w, r, w') {
      assert Leads(w, [], w);
    }
  }

  /** The last request, and the world that it is served in. */
  lemma LeadsLast(w: World, requests: seq<Request>, w': World) returns (m: World, at: World)
    requires Leads(w, requests, w') && requests != []
    ensures Leads(w, Front(requests), m) && Waits(m, at) && Serves(at, Last(requests), w')
  {
    m :| Leads(w, Front(requests), m) && Next(m, Last(requests), w');
    at :| Waits(m, at) && Serves(at, Last(requests), w');
  }

  // ----- What any requests keep -----

  /** The request may have cleared the stored offsets. */
  predicate MayClear(r: Request) {
    r.OffsetsRequest? && LostOr(r.status, 200, 204)
  }

  lemma ServesKeeps(w: World, r: Request, w': World)
    requires Serves(w, r, w')
    ensures Keeps(w, w')
    ensures w.offsets && !MayClear(r) ==> w'.offsets
    ensures CanClear(w) && !r.DeleteRequest? ==> CanClear(w')
    ensures StopsCleanly(w) ==> StopsCleanly(w')
  {
  }

  lemma KeepsOn(w: World, m: World, w': World)
    requires Keeps(w, m) && Keeps(m, w')
    ensures Keeps(w, w')
  {
  }

  lemma NextKeeps(w: World, r: Request, w': World)
    requires Next(w, r, w')
    ensures Keeps(w, w')
    ensures w.offsets && !MayClear(r) ==> w'.offsets
    ensures CanClear(w) && !r.DeleteRequest? ==> CanClear(w')
    ensures StopsCleanly(w) ==> StopsCleanly(w')
  {
    var at :| Waits(w, at) && Serves(at, r, w');
    WaitingKeeps(w, at);
    ServesKeeps(at, r, w');
    KeepsOn(w, at, w');
  }

  /** Whatever is requested, and whatever the servers and the environment do. */
  lemma {:induction false} LeadsKeeps(w: World, requests: seq<Request>, w': World)
    requires Leads(w, requests, w')
    ensures Keeps(w, w')
    ensures StopsCleanly(w) ==> StopsCleanly(w')
    decreases |requests|
  {
    if requests != [] {
      var m :| Leads(w, Front(requests), m) && Next(m, Last(requests), w');
      LeadsKeeps(w, Front(requests), m);
      NextKeeps(m, Last(requests), w');
      KeepsOn(w, m, w');
    }
  }

  /** Offsets stay unless a request may have cleared them. */
  lemma {:induction false} OffsetsStay(w: World, requests: seq<Request>, w': World)
    requires Leads(w, requests, w') && w.offsets
    requires forall r | r in requests :: !MayClear(r)
    ensures w'.offsets
    decreases |requests|
  {
    if requests != [] {
      var m :| Leads(w, Front(requests), m) && Next(m, Last(requests), w');
      OffsetsStay(w, Front(requests), m);
      NextKeeps(m, Last(requests), w');
    }
  }

  /** A connector that can be cleared stays so until it is deleted. */
  lemma {:induction false} ClearableStays(w: World, requests: seq<Request>, w': World)
    requires Leads(w, requests, w') && CanClear(w)
    requires forall r | r in requests :: !r.DeleteRequest?
    ensures CanClear(w')
    decreases |requests|
  {
    if requests != [] {
      var m :| Leads(w, Front(requests), m) && Next(m, Last(requests), w');
      ClearableStays(w, Front(requests), m);
      NextKeeps(m, Last(requests), w');
    }
  }

  /** The requests can lead to `w'` such that the one at `i` is served in `at`. */
  ghost predicate Passes(w: World, requests: seq<Request>, i: nat, at: World, w': World)
    requires i < |requests|
  {
    exists before, after ::
      && Leads(w, requests[..i], before) && Waits(before, at)
      && Serves(at, requests[i], after) && Leads(after, requests[i + 1..], w')
  }

  lemma PassesLast(w: World, requests: seq<Request>, m: World, at: World, w': World)
    requires requests != [] && Leads(w, Front(requests), m) && Waits(m, at) && Serves(at, Last(requests), w')
    ensures Passes(w, requests, |requests| - 1, at, w')
  {
    assert requests[|requests|..] == [];
    assert Leads(w', requests[|requests|..], w');
  }

  lemma PassesOn(w: World, requests: seq<Request>, i: nat, at: World, m: World, w': World)
    requires i + 1 < |requests| && Passes(w, Front(requests), i, at, m) && Next(m, Last(requests), w')
    ensures Passes(w, requests, i, at, w')
  {
    var init := Front(requests);
    var before, after :| Leads(w, init[..i], before) && Waits(before, at)
                         && Serves(at, init[i], after) && Leads(after, init[i + 1..], m);
    LeadsOn(after, init[i + 1..], m, Last(requests), w');
    assert init[i + 1..] + [Last(requests)] == requests[i + 1..];
    assert init[..i] == requests[..i];
  }

  ghost predicate ClearsOnTheWay(w: World, requests: seq<Request>, w': World) {
    exists i: nat, at: World | i < |requests| ::
      requests[i].OffsetsRequest? && CanClear(at) && Passes(w, requests, i, at, w')
  }

  ghost predicate DropsOnTheWay(w: World, requests: seq<Request>, w': World) {
    exists i: nat, at: World | i < |requests| ::
      requests[i].DropSlotRequest? && at.slot.Idle? && Passes(w, requests, i, at, w')
  }

  /** Stored offsets do not vanish: when they are gone, a request has cleared them, over a
      stopped connector without a task. */
  lemma {:induction false} OffsetsAreCleared(w: World, requests: seq<Request>, w': World)
    requires Leads(w, requests, w') && w.offsets && !w'.offsets
    ensures ClearsOnTheWay(w, requests, w')
    decreases |requests|
  {
    var init := Front(requests);
    var m :| Leads(w, init, m) && Next(m, Last(requests), w');
    if m.offsets {
      var at :| Waits(m, at) && Serves(at, Last(requests), w');
      WaitingKeeps(m, at);
      PassesLast(w, requests, m, at, w');
    } else {
      OffsetsAreCleared(w, init, m);
      var i: nat, at: World :| i < |init| && init[i].OffsetsRequest? && CanClear(at) && Passes(w, init, i, at, m);
      PassesOn(w, requests, i, at, m, w');
    }
  }

  /** A slot does not vanish either: a request has dropped it while it was inactive. */
  lemma {:induction false} SlotIsDropped(w: World, requests: seq<Request>, w': World)
    requires Leads(w, requests, w') && !w.slot.Gone? && w'.slot.Gone?
    ensures DropsOnTheWay(w, requests, w')
    decreases |requests|
  {
    var init := Front(requests);
    var m :| Leads(w, init, m) && Next(m, Last(requests), w');
    if !m.slot.Gone? {
      var at :| Waits(m, at) && Serves(at, Last(requests), w');
      WaitingKeeps(m, at);
      PassesLast(w, requests, m, at, w');
    } else {
      SlotIsDropped(w, init, m);
      var i: nat, at: World :| i < |init| && init[i].DropSlotRequest? && at.slot.Idle? && Passes(w, init, i, at, m);
      PassesOn(w, requests, i, at, m, w');
    }
  }

  // ----- The next registration -----

  /** Whatever is requested and however long it takes before somebody registers in `initial`
      mode: a new snapshot is taken. */
  ghost predicate RestartsLater(w: World) {
    forall requests, m, before | Leads(w, requests, m) && Waits(m, before) :: Restarts(before)
  }

  /** Whatever is requested and however long it takes before somebody registers in `initial`
      mode: no new snapshot is taken. */
  ghost predicate NeverRestarts(w: World) {
    forall requests, m, before, run: seq<World> | Leads(w, requests, m) && Waits(m, before) && Starts(before, run) ::
      run[|run| - 1].snapshots == before.snapshots
  }

  lemma LeadsNowhere(w: World)
    ensures Leads(w, [], w) && Waits(w, w)
  {
    WaitsOn(w, w, w);
  }

  lemma LaterKeeps(w: World, requests: seq<Request>, m: World, before: World)
    requires Leads(w, requests, m) && Waits(m, before)
    ensures Keeps(w, before)
  {
    LeadsKeeps(w, requests, m);
    WaitingKeeps(m, before);
    KeepsOn(w, m, before);
  }

  /** In every world: the snapshot is certain exactly when the connector is absent, without a
      task left over and without stored offsets. */
  lemma RestartsLaterIff(w: World)
    ensures RestartsLater(w) <==> w.connector.Absent? && !w.tasks && !w.offsets
  {
    forall requests, m, before | Leads(w, requests, m) && Waits(m, before)
      ensures w.connector.Absent? && !w.tasks && !w.offsets ==> Restarts(before)
    {
      LaterKeeps(w, requests, m, before);
      RestartsIff(before);
    }
    LeadsNowhere(w);
    RestartsIff(w);
    if !w.connector.Absent? {
      var stopped := AfterStop(w);
      Serve(w, StopRequest(Ok(202)), stopped);
      LeadsNowhere(stopped);
      RestartsIff(stopped);
    }
  }

  /** A stopped connector's task ends, and the stop completes. */
  lemma StopCompletes(w: World)
    requires w.connector.Stopping? || w.connector.Stopped?
    ensures Waits(w, w.(tasks := false, connector := Stopped))
  {
    var ended := w.(tasks := false);
    WaitsOn(w, w, ended);
    WaitsOn(w, ended, ended.(connector := Stopped));
  }

  /** Stopped, waited for, cleared and deleted. */
  lemma CanBeCleared(w: World) returns (requests: seq<Request>, m: World, before: World)
    requires !(w.connector.Absent? && w.offsets)
    ensures Leads(w, requests, m) && Waits(m, before)
    ensures before.connector.Absent? && !before.tasks && !before.offsets
  {
    if w.connector.Absent? {
      requests, m, before := [], w, w.(tasks := false);
      WaitsOn(w, w, before);
    } else {
      var stopped := AfterStop(w).(tasks := false, connector := Stopped);
      var clear := stopped.(offsets := false);
      StopCompletes(AfterStop(w));
      Serve(w, StopRequest(Ok(202)), AfterStop(w));
      requests := [StopRequest(Ok(202))];
      ServeOn(w, requests, AfterStop(w), stopped, OffsetsRequest(Ok(204)), clear);
      requests := requests + [OffsetsRequest(Ok(204))];
      m := clear.(connector := Absent);
      before := m;
      ServeOn(w, requests, clear, clear, DeleteRequest(Ok(204)), m);
      requests := requests + [DeleteRequest(Ok(204))];
      WaitsOn(m, m, m);
    }
  }

  /** In every world: the snapshot is lost for good exactly when the connector is absent and
      its offsets are stored, because there is nothing left to reset. */
  lemma NeverRestartsIff(w: World)
    ensures NeverRestarts(w) <==> w.connector.Absent? && w.offsets
  {
    forall requests, m, before, run: seq<World> | Leads(w, requests, m) && Waits(m, before) && Starts(before, run)
      ensures w.connector.Absent? && w.offsets ==> run[|run| - 1].snapshots == before.snapshots
    {
      LaterKeeps(w, requests, m, before);
      InitialSnapshots(before, run, |run| - 1);
    }
    if !(w.connector.Absent? && w.offsets) {
      var requests, m, before := CanBeCleared(w);
      RestartsIff(before);
      var run: seq<World> :| Starts(before, run);
      assert run[|run| - 1].snapshots > before.snapshots;
    }
  }

  /** What a complete teardown leaves stays so until somebody registers, and an `initial`
      registration then snapshots anew. */
  lemma ClearedRestarts(w: World)
    requires Cleared(w)
    ensures RestartsLater(w)
    ensures forall requests, m | Leads(w, requests, m) :: Cleared(m)
  {
    RestartsLaterIff(w);
    forall requests, m | Leads(w, requests, m) ensures Cleared(m) {
      LeadsKeeps(w, requests, m);
    }
  }
}
