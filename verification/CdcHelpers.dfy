/** The teardown helpers, running against the world of `ConnectProtocol` under the server rules
    of `ConnectRequests`.

    Every method hands out its requests, with their replies, as a ghost result, and its contract
    ties them to the worlds before and after the call.
 */
module CdcHelpers {
  import opened Results
  import opened ConnectProtocol
  import opened ConnectRequests
  import opened TeardownRuns

  /** A request that raises in its caller; `drop_slot` catches what a drop raises. */
  predicate Raises(r: Request) {
    || r == GetConnectorRequest(Raised) || r == StopRequest(Raised) || r == StateRequest(Raised)
    || r == OffsetsRequest(Raised) || r == DeleteRequest(Raised) || r == SlotRequest(Raised)
    || r == TableRequest(Raised) || r == TopicRequest(Raised)
  }

  predicate RaisesLast(requests: seq<Request>) {
    requests != [] && Raises(Last(requests))
  }

  /** The requests of two calls, one after the other. */
  lemma Then(w: World, a: seq<Request>, m: World, b: seq<Request>, w': World)
    requires Leads(w, a, m) && Leads(m, b, w')
    ensures Leads(w, a + b, w') && (RaisesLast(b) ==> RaisesLast(a + b))
  {
    LeadsConcat(w, a, m, b, w');
  }

  lemma Regroup(reset: seq<Request>, delete: Request, drop: seq<Request>, cleanup: seq<Request>)
    ensures reset + ([delete] + drop) + cleanup == reset + [delete] + drop + cleanup
  {
  }

  class Cluster {
    var world: World

    constructor (world: World)
      ensures this.world == world
    {
      this.world := world;
    }

    /** Any number of steps of the environment. */
    method Environment()
      modifies this
      ensures Waits(old(world), world)
    {
      var steps: nat :| true;
      WaitsOn(world, world, world);
      for i := 0 to steps
        invariant Waits(old(world), world)
      {
        ghost var here := world;
        if {
          case true =>
          case world.connector.Running? && !world.tasks => world := Started(world);
          case world.tasks => world := world.(tasks := false);
          case world.tasks => world := world.(offsets := true);
          case world.tasks => world := world.(topic := true);
          case world.tasks => world := world.(slot := Held);
          case world.slot.Held? => world := world.(slot := Idle);
          case world.connector.Running? => world := world.(connector := Failed);
          case world.connector.Stopping? && !world.tasks => world := world.(connector := Stopped);
        }
        WaitsOn(old(world), here, world);
      }
    }

    // ----- Requests: the environment moves, then the server may act and may answer -----

    method GetConnector() returns (status: Result<nat>)
      modifies this
      ensures Next(old(world), GetConnectorRequest(status), world)
    {
      Environment();
      if
      case true => return Raised;
      case true => return Ok(500);
      case true => return Ok(if world.connector.Absent? then 404 else 200);
    }

    /** The state in a status reply; an error body has none. */
    method GetState() returns (state: Result<Option<Connector>>)
      modifies this
      ensures Next(old(world), StateRequest(state), world)
    {
      Environment();
      if
      case true => return Raised;
      case true => return Ok(None);
      case !world.connector.Absent? => return Ok(Some(world.connector));
    }

    method PutStop() returns (status: Result<nat>)
      modifies this
      ensures Next(old(world), StopRequest(status), world)
    {
      Environment();
      if
      case true => return Raised;
      case true => return Ok(500);
      case true =>
        ghost var before := world;
        status := Ok(if world.connector.Absent? then 404 else 202);
        if world.connector.Running? || world.connector.Failed? {
          world := world.(connector := Stopping);
        }
        if * {
          status := Raised;
        }
        assert Serves(before, StopRequest(status), world);
    }

    /** Connect refuses unless the connector is stopped and its task gone. */
    method DeleteOffsets() returns (status: Result<nat>)
      modifies this
      ensures Next(old(world), OffsetsRequest(status), world)
    {
      Environment();
      if
      case true => return Raised;
      case true => return Ok(500);
      case !CanClear(world) => return Ok(if world.connector.Absent? then 404 else 400);
      case CanClear(world) =>
        world := world.(offsets := false);
        if
        case true => return Ok(200);
        case true => return Ok(204);
        case true => return Raised;
    }

    method DeleteConnector() returns (status: Result<nat>)
      modifies this
      ensures Next(old(world), DeleteRequest(status), world)
    {
      Environment();
      if
      case true => return Raised;
      case true => return Ok(409);
      case true => return Ok(500);
      case world.connector.Absent? => return Ok(404);
      case !world.connector.Absent? =>
        world := world.(connector := Absent);
        if
        case true => return Ok(204);
        case true => return Raised;
    }

    method SlotPresent() returns (present: Result<bool>)
      modifies this
      ensures Next(old(world), SlotRequest(present), world)
      ensures present == Ok(false) ==> world.slot.Gone?
    {
      Environment();
      if
      case true => return Raised;
      case true => return Ok(!world.slot.Gone?);
    }

    /** `pg_drop_replication_slot` raises on a slot that is active or has vanished meanwhile. */
    method PgDropSlot() returns (done: Result<()>)
      modifies this
      ensures Next(old(world), DropSlotRequest(done), world)
      ensures done == Ok(()) ==> world.slot.Gone?
    {
      Environment();
      if
      case true => return Raised;
      case world.slot.Idle? =>
        world := world.(slot := Gone);
        if
        case true => return Ok(());
        case true => return Raised;
    }

    method DropTable() returns (done: Result<()>)
      modifies this
      ensures Next(old(world), TableRequest(done), world)
    {
      Environment();
      if
      case true => return Raised;
      case true =>
        world := world.(table := false);
        if
        case true => return Ok(());
        case true => return Raised;
    }

    /** Creating the admin client may raise; what the deletion itself raises is swallowed. */
    method DeleteDataTopic() returns (done: Result<()>)
      modifies this
      ensures Next(old(world), TopicRequest(done), world)
    {
      Environment();
      if
      case true => return Raised;
      case true => return Ok(());
      case true =>
        world := world.(topic := false);
        return Ok(());
    }

    // ----- The helpers -----

    /** One round of the retry loop: whether the slot is gone now. */
    method AttemptDrop() returns (gone: Result<bool>, ghost attempt: seq<Request>)
      modifies this
      ensures Leads(old(world), attempt, world)
      ensures gone.Raised? ==> attempt == [SlotRequest(Raised)]
      ensures gone.Ok? ==> if gone.value then IsLastAttempt(attempt) && world.slot.Gone? else attempt == FAILED_ATTEMPT
    {
      var present := SlotPresent();
      attempt := [SlotRequest(present)];
      LeadsOne(old(world), SlotRequest(present), world);
      if present != Ok(true) {
        gone := if present.Ok? then Ok(true) else Raised;
      } else {
        ghost var before := world;
        var done := PgDropSlot();
        LeadsOn(old(world), attempt, before, DropSlotRequest(done), world);
        attempt := attempt + [DropSlotRequest(done)];
        assert done.Ok? ==> done.value == ();
        gone := Ok(done.Ok?);
      }
    }

    /** True only when the slot is gone; False only after every attempt was used up. */
    method DropSlot(retries: nat) returns (gone: Result<bool>, ghost requests: seq<Request>)
      modifies this
      ensures Leads(old(world), requests, world) && |requests| <= 2 * retries
      ensures (gone.Ok? && IsDrop(requests, retries, gone.value)) || (gone.Raised? && RaisesLast(requests))
      ensures gone.Raised? || DropSent(requests, 0, |requests|, retries, gone.value)
      ensures gone == Ok(true) ==> world.slot.Gone?
    {
      for i := 0 to retries
        invariant Leads(old(world), Attempts(i), world)
      {
        ghost var before, attempt := world, [];
        gone, attempt := AttemptDrop();
        Then(old(world), Attempts(i), before, attempt, world);
        if gone.Raised? || gone.value {
          DropEndsSent(i, attempt, retries);
          return gone, Attempts(i) + attempt;
        }
        AttemptFails(i);
      }
      AllFailSent(retries);
      return Ok(false), Attempts(retries);
    }

    /** Ten polls at most; the caller goes on whether or not STOPPED was seen. */
    method AwaitStopped() returns (seen: Result<bool>, ghost polls: seq<Request>)
      modifies this
      ensures Leads(old(world), polls, world) && |polls| <= 10
      ensures (seen.Ok? && IsPolling(polls)) || (seen.Raised? && RaisesLast(polls))
      ensures seen.Ok? ==> (seen.value <==> Last(polls) == STOPPED_SEEN)
    {
      polls := [];
      for i := 0 to 10
        invariant Leads(old(world), polls, world) && |polls| == i
        invariant forall r | r in polls :: r.StateRequest? && r.state.Ok? && r != STOPPED_SEEN
      {
        ghost var here := world;
        var state := GetState();
        LeadsOn(old(world), polls, here, StateRequest(state), world);
        polls := polls + [StateRequest(state)];
        if state.Raised? {
          return Raised, polls;
        }
        if state.value == Some(Stopped) {
          return Ok(true), polls;
        }
      }
      return Ok(false), polls;
    }

    /** True only when the offsets are gone and the connector is stopped without a task;
        after False, stored offsets are still there. */
    method ResetOffsets() returns (cleared: Result<bool>, ghost requests: seq<Request>)
      modifies this
      ensures Leads(old(world), requests, world) && |requests| <= 13
      ensures (cleared.Ok? && IsReset(requests, cleared.value)) || (cleared.Raised? && RaisesLast(requests))
      ensures cleared.Raised? || ResetSent(requests, |requests|, cleared.value)
      ensures cleared == Ok(true) ==> CanClear(world) && !world.offsets && !old(world.connector.Absent?)
      ensures cleared == Ok(false) && old(world.offsets) ==> world.offsets
    {
      var status := GetConnector();
      requests := [GetConnectorRequest(status)];
      LeadsOne(old(world), GetConnectorRequest(status), world);
      if status.Raised? {
        return Raised, requests;
      }
      if status.value != 200 {
        ResetIsSent(requests, false);
        ResetOutcome(old(world), requests, false, world);
        return Ok(false), requests;
      }
      ghost var here := world;
      status := PutStop();
      LeadsOn(old(world), requests, here, StopRequest(status), world);
      requests := requests + [StopRequest(status)];
      if status.Raised? {
        return Raised, requests;
      }
      here := world;
      var seen, polls := AwaitStopped();
      Then(old(world), requests, here, polls, world);
      requests := requests + polls;
      if seen.Raised? {
        return Raised, requests;
      }
      here := world;
      status := DeleteOffsets();
      LeadsOn(old(world), requests, here, OffsetsRequest(status), world);
      requests := requests + [OffsetsRequest(status)];
      assert requests[2..|requests| - 1] == polls;
      if status.Raised? {
        return Raised, requests;
      }
      cleared := Ok(status.value == 200 || status.value == 204);
      ResetIsSent(requests, cleared.value);
      ResetOutcome(old(world), requests, cleared.value, world);
    }

    /** The last part of a teardown: the table, and its topic with it. */
    method DropData(dropTable: bool, dropTopic: bool) returns (done: Result<()>, ghost requests: seq<Request>)
      modifies this
      ensures Leads(old(world), requests, world) && |requests| <= 2
      ensures (done.Ok? && requests == Cleanup(dropTable, dropTopic)) || (done.Raised? && RaisesLast(requests))
    {
      done, requests := Ok(()), [];
      if dropTable {
        done := DropTable();
        requests := [TableRequest(done)];
        LeadsOne(old(world), TableRequest(done), world);
        assert done.Ok? ==> done.value == ();
        if done.Ok? && dropTopic {
          ghost var here := world;
          done := DeleteDataTopic();
          LeadsOn(old(world), requests, here, TopicRequest(done), world);
          requests := requests + [TopicRequest(done)];
          assert done.Ok? ==> done.value == ();
        }
      }
    }

    /** The middle part: delete the connector, whatever the reset did, then drop its slot. */
    method Disconnect() returns (r: Result<(nat, bool)>, ghost delete: Request, ghost drop: seq<Request>)
      modifies this
      ensures Leads(old(world), [delete] + drop, world) && |drop| <= 2 * RETRIES
      ensures r.Raised? ==> RaisesLast([delete] + drop)
      ensures r.Ok? ==> delete == DeleteRequest(Ok(r.value.0)) && IsDrop(drop, RETRIES, r.value.1)
    {
      var status := DeleteConnector();
      delete, drop := DeleteRequest(status), [];
      LeadsOne(old(world), delete, world);
      if status.Raised? {
        assert [delete] + drop == [delete];
        return Raised, delete, drop;
      }
      ghost var deleted := world;
      var gone;
      gone, drop := DropSlot(RETRIES);
      Then(old(world), [delete], deleted, drop, world);
      r := if gone.Ok? then Ok((status.value, gone.value)) else Raised;
    }

    /** Reset, delete, drop the slot, then the table and the topic, in this order; it ends
        early exactly when a request raises. */
    method Teardown(dropTable: bool, dropTopic: bool) returns (r: Result<Report>, ghost requests: seq<Request>)
      modifies this
      ensures Leads(old(world), requests, world) && |requests| <= 26
      ensures (r.Ok? && IsTeardown(requests, r.value, dropTable, dropTopic)) || (r.Raised? && RaisesLast(requests))
      ensures r.Raised? || exists d, t :: TeardownSent(requests, r.value, dropTable, dropTopic, d, t)
      ensures r.Raised? || EndsAsAsked(requests, dropTable, dropTopic)
      ensures r.Raised? || Outcome(old(world), requests, r.value, dropTable, world)
    {
      r := Raised;
      var reset, resetRequests := ResetOffsets();
      requests := resetRequests;
      if reset.Ok? {
        ghost var here := world;
        var gone, delete, drop := Disconnect();
        Then(old(world), requests, here, [delete] + drop, world);
        requests := requests + ([delete] + drop);
        if gone.Ok? {
          here := world;
          var done, dataRequests := DropData(dropTable, dropTopic);
          Then(old(world), requests, here, dataRequests, world);
          requests := requests + dataRequests;
          if done.Ok? {
            r := Ok(Report(reset.value, gone.value.0, gone.value.1));
            Regroup(resetRequests, delete, drop, dataRequests);
            SentAsAsked(resetRequests, drop, r.value, dropTable, dropTopic);
            TeardownEnds(old(world), resetRequests, drop, r.value, dropTable, dropTopic, requests, world);
          }
        }
      }
    }

    /** `PUT config` creates the connector or replaces its config. */
    method RegisterConnector(mode: SnapshotMode) returns (status: Result<nat>)
      modifies this
      ensures status.Ok? && status.value < 400 ==>
                exists before :: Waits(old(world), before) && world == Registered(before, mode)
      ensures status.Ok? && status.value >= 400 ==> Waits(old(world), world)
    {
      Environment();
      ghost var before := world;
      if
      case true => return Raised;
      case true => return Ok(500);
      case true =>
        assert Waits(old(world), before) && Registered(world, mode) == Registered(before, mode);
        status := Ok(if world.connector.Absent? then 201 else 200);
        world := Registered(world, mode);
        if * {
          status := Raised;
        }
    }
  }
}
