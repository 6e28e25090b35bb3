/** Which requests a teardown sends, given the replies, and what they lead to. */
module TeardownRuns {
  import opened Results
  import opened ConnectProtocol
  import opened ConnectRequests

  /** What one teardown went through; the source discards it. */
  datatype Report = Report(reset: bool, deleteStatus: nat, dropped: bool)

  /** How often a slot drop is tried unless the caller says otherwise. */
  const RETRIES: nat := 5

  const STOPPED_SEEN := StateRequest(Ok(Some(Stopped)))

  /** The polls of a reset: at most ten, and less only when the last one saw STOPPED. */
  predicate IsPolling(polls: seq<Request>) {
    && 1 <= |polls| <= 10
    && (forall r | r in polls :: r.StateRequest? && r.state.Ok?)
    && (forall i | 0 <= i < |polls| - 1 :: polls[i] != STOPPED_SEEN)
    && (|polls| < 10 ==> Last(polls) == STOPPED_SEEN)
  }

  /** The requests of one reset that came to an end. */
  predicate IsReset(requests: seq<Request>, cleared: bool) {
    if |requests| <= 1 then
      |requests| == 1 && !cleared &&
      requests[0].GetConnectorRequest? && requests[0].status.Ok? && requests[0].status.value != 200
    else
      && |requests| >= 4
      && requests[0] == GetConnectorRequest(Ok(200))
      && requests[1].StopRequest? && requests[1].status.Ok?
      && IsPolling(requests[2..|requests| - 1])
      && Last(requests).OffsetsRequest? && Last(requests).status.Ok?
      && (cleared <==> Last(requests).status.value in {200, 204})
  }

  const FAILED_ATTEMPT := [SlotRequest(Ok(true))] + [DropSlotRequest(Raised)]

  /** An attempt that finds the slot absent, or drops it. */
  predicate IsLastAttempt(attempt: seq<Request>) {
    attempt == [SlotRequest(Ok(false))] || attempt == [SlotRequest(Ok(true))] + [DropSlotRequest(Ok(()))]
  }

  /** The requests of one slot drop: failed attempts, then a last one that succeeds; or as many
      failed attempts as allowed. */
  predicate IsDrop(requests: seq<Request>, retries: nat, gone: bool)
    decreases retries
  {
    if retries == 0 then requests == [] && !gone
    else
      || (gone && IsLastAttempt(requests))
      || (|requests| >= 2 && requests[..2] == FAILED_ATTEMPT && IsDrop(requests[2..], retries - 1, gone))
  }

  function Attempts(n: nat): seq<Request> {
    if n == 0 then [] else FAILED_ATTEMPT + Attempts(n - 1)
  }

  /** The requests of the last part of a teardown. */
  function Cleanup(dropTable: bool, dropTopic: bool): seq<Request> {
    if !dropTable then []
    else if dropTopic then [TableRequest(Ok(()))] + [TopicRequest(Ok(()))]
    else [TableRequest(Ok(()))]
  }

  /** The requests of several calls, one after the other. */
  function InOrder(parts: seq<seq<Request>>): seq<Request> {
    if parts == [] then [] else parts[0] + InOrder(parts[1..])
  }

  function Sequence(reset: seq<Request>, deleteStatus: nat, drop: seq<Request>, cleanup: seq<Request>): seq<Request> {
    InOrder([reset, [DeleteRequest(Ok(deleteStatus))], drop, cleanup])
  }

  /** The requests of one teardown that came to an end: reset, delete, slot drop, table and
      topic, in this order. */
  ghost predicate IsTeardown(requests: seq<Request>, report: Report, dropTable: bool, dropTopic: bool) {
    exists reset, drop ::
      && IsReset(reset, report.reset) && IsDrop(drop, RETRIES, report.dropped)
      && requests == Sequence(reset, report.deleteStatus, drop, Cleanup(dropTable, dropTopic))
  }

  lemma SequenceIs(reset: seq<Request>, deleteStatus: nat, drop: seq<Request>, cleanup: seq<Request>)
    ensures var requests, delete := Sequence(reset, deleteStatus, drop, cleanup), DeleteRequest(Ok(deleteStatus));
            && requests == reset + [delete] + drop + cleanup
            && |requests| == |reset| + 1 + |drop| + |cleanup|
            && forall r :: r in requests <==> r in reset || r == delete || r in drop || r in cleanup
  {
    var delete := [DeleteRequest(Ok(deleteStatus))];
    assert InOrder([cleanup]) == cleanup;
    assert [drop] + [cleanup] == [drop, cleanup];
    assert [delete] + [drop, cleanup] == [delete, drop, cleanup];
    assert [reset] + [delete, drop, cleanup] == [reset, delete, drop, cleanup];
    InOrderCons(drop, [cleanup]);
    InOrderCons(delete, [drop, cleanup]);
    InOrderCons(reset, [delete, drop, cleanup]);
    assert Sequence(reset, deleteStatus, drop, cleanup) == reset + (delete + (drop + cleanup));
  }

  lemma InOrderCons(first: seq<Request>, rest: seq<seq<Request>>)
    ensures InOrder([first] + rest) == first + InOrder(rest)
  {
    assert ([first] + rest)[1..] == rest;
  }

  // ----- The parts -----

  /** No request of a reset deletes, and only an acknowledged one clears. */
  lemma ResetRequests(requests: seq<Request>, cleared: bool)
    requires IsReset(requests, cleared)
    ensures |requests| <= 13
    ensures forall r | r in requests :: !r.DeleteRequest? && !r.TableRequest? && !r.TopicRequest?
    ensures forall r | r in requests :: MayClear(r) ==> cleared
    ensures forall r | r in Front(requests) :: !MayClear(r)
  {
    if |requests| > 1 {
      var polls := requests[2..|requests| - 1];
      assert Front(requests) == [requests[0]] + [requests[1]] + polls;
      assert requests == Front(requests) + [Last(requests)];
    }
  }

  /** True from a reset means that the connector is stopped without a task and its offsets
      are gone; after False stored offsets are still there. */
  lemma ResetOutcome(w: World, requests: seq<Request>, cleared: bool, w': World)
    requires Leads(w, requests, w') && IsReset(requests, cleared)
    ensures cleared ==> CanClear(w') && !w'.offsets && !w.connector.Absent?
    ensures !cleared && w.offsets ==> w'.offsets
  {
    ResetRequests(requests, cleared);
    if cleared {
      LeadsKeeps(w, requests, w');
      var m, at := LeadsLast(w, requests, w');
    } else if w.offsets {
      OffsetsStay(w, requests, w');
    }
  }

  /** A reset whose last request the server answered, with anything but a failure, succeeds
      exactly when that request met a stopped connector without a task: a refusal means that
      the polls gave up too early. */
  lemma ResetIff(w: World, requests: seq<Request>, cleared: bool, w': World)
    requires Leads(w, requests, w') && IsReset(requests, cleared)
    requires |requests| > 1 && Last(requests).status != Ok(500)
    ensures exists at :: Passes(w, requests, |requests| - 1, at, w') && (cleared <==> CanClear(at))
  {
    var m, at := LeadsLast(w, requests, w');
    PassesLast(w, requests, m, at, w');
  }

  lemma {:induction false} AttemptFails(n: nat)
    ensures Attempts(n) + FAILED_ATTEMPT == Attempts(n + 1)
  {
    if n > 0 {
      AttemptFails(n - 1);
      assert Attempts(n) + FAILED_ATTEMPT == FAILED_ATTEMPT + (Attempts(n - 1) + FAILED_ATTEMPT);
    }
  }

  lemma {:induction false} AllFail(n: nat)
    ensures IsDrop(Attempts(n), n, false)
  {
    if n > 0 {
      AllFail(n - 1);
    }
  }

  lemma {:induction false} DropEnds(n: nat, attempt: seq<Request>, retries: nat)
    requires n < retries && |attempt| <= 2
    ensures |Attempts(n) + attempt| <= 2 * retries
    ensures IsLastAttempt(attempt) ==> IsDrop(Attempts(n) + attempt, retries, true)
  {
    var requests := Attempts(n) + attempt;
    if n == 0 {
      assert requests == attempt;
    } else {
      DropEnds(n - 1, attempt, retries - 1);
      assert requests[2..] == Attempts(n - 1) + attempt;
    }
  }

  lemma {:induction false} DropRequests(requests: seq<Request>, retries: nat, gone: bool)
    requires IsDrop(requests, retries, gone)
    ensures |requests| <= 2 * retries
    ensures forall r | r in requests :: r.SlotRequest? || r.DropSlotRequest?
    ensures gone ==>
              requests != [] && (Last(requests) == SlotRequest(Ok(false)) || Last(requests) == DropSlotRequest(Ok(())))
    decreases retries
  {
    if retries > 0 && !(gone && IsLastAttempt(requests)) {
      DropRequests(requests[2..], retries - 1, gone);
      assert requests == FAILED_ATTEMPT + requests[2..];
    }
  }

  lemma GoneAtLast(w: World, requests: seq<Request>, w': World)
    requires Leads(w, requests, w') && requests != []
    requires Last(requests) == SlotRequest(Ok(false)) || Last(requests) == DropSlotRequest(Ok(()))
    ensures w'.slot.Gone?
  {
    var m, at := LeadsLast(w, requests, w');
  }

  /** True from a slot drop means that the slot is gone; its requests clear nothing. */
  lemma DropOutcome(w: World, requests: seq<Request>, retries: nat, gone: bool, w': World)
    requires Leads(w, requests, w') && IsDrop(requests, retries, gone)
    ensures gone ==> w'.slot.Gone?
    ensures w.offsets ==> w'.offsets
  {
    DropRequests(requests, retries, gone);
    if w.offsets {
      OffsetsStay(w, requests, w');
    }
    if gone {
      GoneAtLast(w, requests, w');
    }
  }

  lemma CleanupOutcome(w: World, dropTable: bool, dropTopic: bool, w': World)
    requires Leads(w, Cleanup(dropTable, dropTopic), w')
    ensures dropTable ==> !w'.table
    ensures w.offsets ==> w'.offsets
  {
    if w.offsets {
      OffsetsStay(w, Cleanup(dropTable, dropTopic), w');
    }
    if dropTable && dropTopic {
      var m := LeadsSplit(w, [TableRequest(Ok(()))], [TopicRequest(Ok(()))], w');
      LeadsOne(w, TableRequest(Ok(())), m);
      LeadsKeeps(m, [TopicRequest(Ok(()))], w');
    } else if dropTable {
      LeadsOne(w, TableRequest(Ok(())), w');
    }
  }

  lemma DeleteOutcome(w: World, status: nat, w': World)
    requires Leads(w, [DeleteRequest(Ok(status))], w')
    ensures status == 204 || status == 404 ==> w'.connector.Absent?
    ensures w'.connector.Absent? ==> w.connector.Absent? || status == 204
    ensures w.offsets ==> w'.offsets
  {
    LeadsOne(w, DeleteRequest(Ok(status)), w');
    var at :| Waits(w, at) && Serves(at, DeleteRequest(Ok(status)), w');
    WaitingKeeps(w, at);
  }

  // ----- What is sent, request by request -----

  /** The first `d` requests are those of a reset: ask whether the connector is there; if so
      stop it, poll its state at most ten times and less only when the last poll saw STOPPED,
      and ask to clear its offsets, whose reply decides. */
  predicate ResetSent(requests: seq<Request>, d: nat, cleared: bool) {
    && 1 <= d <= |requests|
    && requests[0].GetConnectorRequest? && requests[0].status.Ok?
    && if requests[0].status.value != 200 then d == 1 && !cleared
       else
         && 4 <= d <= 13
         && requests[1].StopRequest? && requests[1].status.Ok?
         && (forall i | 2 <= i < d - 1 :: requests[i].StateRequest? && requests[i].state.Ok?)
         && (forall i | 2 <= i < d - 2 :: requests[i] != StateRequest(Ok(Some(Stopped))))
         && (d < 13 ==> requests[d - 2] == StateRequest(Ok(Some(Stopped))))
         && requests[d - 1].OffsetsRequest? && requests[d - 1].status.Ok?
         && (cleared <==> requests[d - 1].status.value == 200 || requests[d - 1].status.value == 204)
  }

  /** The requests from `d` to `t` are those of a slot drop: look for the slot and try to drop
      it, in turn, until it is not there or dropped, or `retries` attempts have failed. */
  predicate DropSent(requests: seq<Request>, d: nat, t: nat, retries: nat, gone: bool) {
    && d <= t <= |requests| && t - d <= 2 * retries
    && (forall i | d <= i < t - 1 ::
          requests[i] == if (i - d) % 2 == 0 then SlotRequest(Ok(true)) else DropSlotRequest(Raised))
    && (gone ==> d < t)
    && (gone && (t - d) % 2 == 1 ==> requests[t - 1] == SlotRequest(Ok(false)))
    && (gone && (t - d) % 2 == 0 ==> requests[t - 1] == DropSlotRequest(Ok(())))
    && (!gone ==> t - d == 2 * retries && (retries > 0 ==> requests[t - 1] == DropSlotRequest(Raised)))
  }

  /** A whole teardown: a reset, one delete, a slot drop with five attempts, and then the table
      and the topic as far as they were asked for. */
  predicate TeardownSent(requests: seq<Request>, report: Report, dropTable: bool, dropTopic: bool, d: nat, t: nat) {
    && ResetSent(requests, d, report.reset)
    && d < |requests| && requests[d] == DeleteRequest(Ok(report.deleteStatus))
    && DropSent(requests, d + 1, t, 5, report.dropped)
    && (!dropTable ==> requests[t..] == [])
    && (dropTable && !dropTopic ==> requests[t..] == [TableRequest(Ok(()))])
    && (dropTable && dropTopic ==> requests[t..] == [TableRequest(Ok(())), TopicRequest(Ok(()))])
  }

  lemma ResetIsSent(requests: seq<Request>, cleared: bool)
    requires IsReset(requests, cleared)
    ensures ResetSent(requests, |requests|, cleared)
  {
    if |requests| > 1 {
      var polls := requests[2..|requests| - 1];
      forall i | 2 <= i < |requests| - 1 ensures requests[i].StateRequest? && requests[i].state.Ok? {
        assert requests[i] == polls[i - 2] && polls[i - 2] in polls;
      }
      assert forall i | 2 <= i < |requests| - 2 :: requests[i] == polls[i - 2];
      assert Last(polls) == requests[|requests| - 2];
    }
  }

  lemma {:induction false} DropIsSent(requests: seq<Request>, retries: nat, gone: bool)
    requires IsDrop(requests, retries, gone)
    ensures DropSent(requests, 0, |requests|, retries, gone)
    decreases retries
  {
    DropRequests(requests, retries, gone);
    if retries > 0 && !(gone && IsLastAttempt(requests)) {
      var rest := requests[2..];
      DropIsSent(rest, retries - 1, gone);
      assert requests[0] == requests[..2][0] && requests[1] == requests[..2][1];
      assert forall i | 2 <= i < |requests| :: requests[i] == rest[i - 2];
    }
  }

  lemma DropEndsSent(n: nat, attempt: seq<Request>, retries: nat)
    requires n < retries && |attempt| <= 2
    ensures var requests := Attempts(n) + attempt;
            && |requests| <= 2 * retries
            && (IsLastAttempt(attempt) ==>
                  IsDrop(requests, retries, true) && DropSent(requests, 0, |requests|, retries, true))
  {
    DropEnds(n, attempt, retries);
    if IsLastAttempt(attempt) {
      DropIsSent(Attempts(n) + attempt, retries, true);
    }
  }

  lemma AllFailSent(n: nat)
    ensures IsDrop(Attempts(n), n, false) && |Attempts(n)| <= 2 * n
    ensures DropSent(Attempts(n), 0, |Attempts(n)|, n, false)
  {
    AllFail(n);
    DropRequests(Attempts(n), n, false);
    DropIsSent(Attempts(n), n, false);
  }

  /** The pieces of a sequence stay what they are inside it. */
  lemma SentWithin(reset: seq<Request>, delete: Request, drop: seq<Request>, cleanup: seq<Request>, cleared: bool,
                   retries: nat, gone: bool)
    requires ResetSent(reset, |reset|, cleared) && DropSent(drop, 0, |drop|, retries, gone)
    ensures var requests := reset + [delete] + drop + cleanup;
            && ResetSent(requests, |reset|, cleared)
            && requests[|reset|] == delete
            && DropSent(requests, |reset| + 1, |reset| + 1 + |drop|, retries, gone)
            && requests[|reset| + 1 + |drop|..] == cleanup
  {
    var requests := reset + [delete] + drop + cleanup;
    assert forall i | 0 <= i < |reset| :: requests[i] == reset[i];
    forall i | |reset| + 1 <= i < |reset| + 1 + |drop| ensures requests[i] == drop[i - |reset| - 1] {
    }
  }

  lemma SentTogether(reset: seq<Request>, drop: seq<Request>, report: Report, dropTable: bool, dropTopic: bool)
    requires ResetSent(reset, |reset|, report.reset) && DropSent(drop, 0, |drop|, 5, report.dropped)
    ensures TeardownSent(reset + [DeleteRequest(Ok(report.deleteStatus))] + drop + Cleanup(dropTable, dropTopic), report,
                         dropTable, dropTopic, |reset|, |reset| + 1 + |drop|)
  {
    SentWithin(reset, DeleteRequest(Ok(report.deleteStatus)), drop, Cleanup(dropTable, dropTopic), report.reset, 5,
               report.dropped);
  }

  lemma PartsAreSent(reset: seq<Request>, drop: seq<Request>, report: Report, dropTable: bool, dropTopic: bool)
    requires IsReset(reset, report.reset) && IsDrop(drop, RETRIES, report.dropped)
    ensures TeardownSent(reset + [DeleteRequest(Ok(report.deleteStatus))] + drop + Cleanup(dropTable, dropTopic), report,
                         dropTable, dropTopic, |reset|, |reset| + 1 + |drop|)
  {
    ResetIsSent(reset, report.reset);
    DropIsSent(drop, RETRIES, report.dropped);
    SentTogether(reset, drop, report, dropTable, dropTopic);
  }

  /** Exactly what an ended teardown has sent, and in which order. */
  lemma TeardownIsSent(requests: seq<Request>, report: Report, dropTable: bool, dropTopic: bool)
    returns (d: nat, t: nat)
    requires IsTeardown(requests, report, dropTable, dropTopic)
    ensures TeardownSent(requests, report, dropTable, dropTopic, d, t)
  {
    var reset, drop :|
      && IsReset(reset, report.reset) && IsDrop(drop, RETRIES, report.dropped)
      && requests == Sequence(reset, report.deleteStatus, drop, Cleanup(dropTable, dropTopic));
    SequenceIs(reset, report.deleteStatus, drop, Cleanup(dropTable, dropTopic));
    PartsAreSent(reset, drop, report, dropTable, dropTopic);
    d, t := |reset|, |reset| + 1 + |drop|;
  }

  /** The table is dropped, and the topic deleted last of all, exactly when that was asked for. */
  predicate EndsAsAsked(requests: seq<Request>, dropTable: bool, dropTopic: bool) {
    && (dropTable && dropTopic ==>
          |requests| >= 2 && requests[|requests| - 2..] == [TableRequest(Ok(())), TopicRequest(Ok(()))])
    && (dropTable && !dropTopic ==> requests != [] && requests[|requests| - 1] == TableRequest(Ok(())))
    && (forall r | r in requests && r.TableRequest? :: dropTable)
    && (forall r | r in requests && r.TopicRequest? :: dropTable && dropTopic)
  }

  lemma DropSendsNoData(requests: seq<Request>, d: nat, t: nat, retries: nat, gone: bool)
    requires DropSent(requests, d, t, retries, gone)
    ensures forall i | d <= i < t :: requests[i].SlotRequest? || requests[i].DropSlotRequest?
  {
  }

  lemma SentEndsAsAsked(requests: seq<Request>, report: Report, dropTable: bool, dropTopic: bool, d: nat, t: nat)
    requires TeardownSent(requests, report, dropTable, dropTopic, d, t)
    ensures EndsAsAsked(requests, dropTable, dropTopic)
  {
    DropSendsNoData(requests, d + 1, t, 5, report.dropped);
    forall i | 0 <= i < t ensures !requests[i].TableRequest? && !requests[i].TopicRequest? {
      assert i < d || i == d || d + 1 <= i < t;
    }
    assert forall i | t <= i < |requests| :: requests[i] == requests[t..][i - t];
  }

  // ----- The whole -----

  lemma SequenceLeads(w: World, reset: seq<Request>, cleared: World, deleteStatus: nat, deleted: World,
                      drop: seq<Request>, dropped: World, cleanup: seq<Request>, w': World)
    requires Leads(w, reset, cleared) && Next(cleared, DeleteRequest(Ok(deleteStatus)), deleted)
    requires Leads(deleted, drop, dropped) && Leads(dropped, cleanup, w')
    ensures Leads(w, Sequence(reset, deleteStatus, drop, cleanup), w')
  {
    var delete := DeleteRequest(Ok(deleteStatus));
    SequenceIs(reset, deleteStatus, drop, cleanup);
    LeadsOn(w, reset, cleared, delete, deleted);
    LeadsConcat(w, reset + [delete], deleted, drop, dropped);
    LeadsConcat(w, reset + [delete] + drop, dropped, cleanup, w');
  }

  /** The worlds between the parts of a teardown. */
  lemma TeardownParts(w: World, reset: seq<Request>, deleteStatus: nat, drop: seq<Request>, cleanup: seq<Request>,
                      w': World)
    returns (cleared: World, deleted: World, dropped: World)
    requires Leads(w, Sequence(reset, deleteStatus, drop, cleanup), w')
    ensures Leads(w, reset, cleared) && Leads(cleared, [DeleteRequest(Ok(deleteStatus))], deleted)
    ensures Leads(deleted, drop, dropped) && Leads(dropped, cleanup, w')
    ensures Keeps(cleared, deleted) && Keeps(deleted, dropped) && Keeps(dropped, w')
  {
    SequenceIs(reset, deleteStatus, drop, cleanup);
    dropped := LeadsSplit(w, reset + [DeleteRequest(Ok(deleteStatus))] + drop, cleanup, w');
    deleted := LeadsSplit(w, reset + [DeleteRequest(Ok(deleteStatus))], drop, dropped);
    cleared := LeadsSplit(w, reset, [DeleteRequest(Ok(deleteStatus))], deleted);
    LeadsKeeps(cleared, [DeleteRequest(Ok(deleteStatus))], deleted);
    LeadsKeeps(deleted, drop, dropped);
    LeadsKeeps(dropped, cleanup, w');
  }

  /** What a teardown that came to an end says about the world it leaves. Stored offsets survive
      exactly when the reset, whose result the source discards, came out False. Over stored
      offsets, the next `initial` registration, however late, is sure to snapshot anew exactly
      when the reset succeeded and the connector is gone; and it never does exactly when the
      reset failed and the connector is gone. From some worlds, it is sure to do so whenever
      every request is answered. */
  ghost predicate Outcome(w: World, requests: seq<Request>, report: Report, dropTable: bool, w': World) {
    && (report.deleteStatus == 204 || report.deleteStatus == 404 ==> w'.connector.Absent?)
    && (report.reset && w'.connector.Absent? ==> RestartsLater(w') && !w.connector.Absent?)
    && (report.reset && report.dropped && w'.connector.Absent? ==> Cleared(w'))
    && (dropTable ==> !w'.table)
    && (w.offsets ==>
          && (w'.offsets <==> !report.reset)
          && (RestartsLater(w') <==> report.reset && w'.connector.Absent?)
          && (NeverRestarts(w') <==> !report.reset && w'.connector.Absent?))
    && (SureRestart(w) && AllAnswered(requests) ==> RestartsLater(w'))
  }

  lemma TeardownOutcome(w: World, requests: seq<Request>, report: Report, dropTable: bool, dropTopic: bool, w': World)
    requires Leads(w, requests, w') && IsTeardown(requests, report, dropTable, dropTopic)
    ensures Outcome(w, requests, report, dropTable, w') && |requests| <= 26
  {
    TeardownLeaves(w, requests, report, dropTable, dropTopic, w');
    RestartsLaterIff(w');
    NeverRestartsIff(w');
    if SureRestart(w) && AllAnswered(requests) {
      SureTeardown(w, requests, report, dropTable, dropTopic, w');
    }
  }

  /** The same from the parts as they were sent. */
  lemma TeardownEnds(w: World, reset: seq<Request>, drop: seq<Request>, report: Report, dropTable: bool, dropTopic: bool,
                     requests: seq<Request>, w': World)
    requires IsReset(reset, report.reset) && IsDrop(drop, RETRIES, report.dropped) && Leads(w, requests, w')
    requires requests == reset + [DeleteRequest(Ok(report.deleteStatus))] + drop + Cleanup(dropTable, dropTopic)
    ensures IsTeardown(requests, report, dropTable, dropTopic)
    ensures Outcome(w, requests, report, dropTable, w') && |requests| <= 26
  {
    SequenceIs(reset, report.deleteStatus, drop, Cleanup(dropTable, dropTopic));
    assert IsTeardown(requests, report, dropTable, dropTopic);
    TeardownOutcome(w, requests, report, dropTable, dropTopic, w');
  }

  lemma SentAsAsked(reset: seq<Request>, drop: seq<Request>, report: Report, dropTable: bool, dropTopic: bool)
    requires IsReset(reset, report.reset) && IsDrop(drop, RETRIES, report.dropped)
    ensures var requests := reset + [DeleteRequest(Ok(report.deleteStatus))] + drop + Cleanup(dropTable, dropTopic);
            && EndsAsAsked(requests, dropTable, dropTopic)
            && exists d, t :: TeardownSent(requests, report, dropTable, dropTopic, d, t)
  {
    var requests := reset + [DeleteRequest(Ok(report.deleteStatus))] + drop + Cleanup(dropTable, dropTopic);
    PartsAreSent(reset, drop, report, dropTable, dropTopic);
    SentEndsAsAsked(requests, report, dropTable, dropTopic, |reset|, |reset| + 1 + |drop|);
  }

  lemma TeardownLeaves(w: World, requests: seq<Request>, report: Report, dropTable: bool, dropTopic: bool, w': World)
    requires Leads(w, requests, w') && IsTeardown(requests, report, dropTable, dropTopic)
    ensures |requests| <= 26
    ensures report.deleteStatus == 204 || report.deleteStatus == 404 ==> w'.connector.Absent?
    ensures report.reset ==> Settled(w') && !w'.offsets && !w.connector.Absent?
    ensures report.reset && report.dropped ==> w'.slot.Gone?
    ensures w.offsets ==> (w'.offsets <==> !report.reset)
    ensures dropTable ==> !w'.table
  {
    var reset, drop :|
      && IsReset(reset, report.reset) && IsDrop(drop, RETRIES, report.dropped)
      && requests == Sequence(reset, report.deleteStatus, drop, Cleanup(dropTable, dropTopic));
    SequenceIs(reset, report.deleteStatus, drop, Cleanup(dropTable, dropTopic));
    var cleared, deleted, dropped :=
      TeardownParts(w, reset, report.deleteStatus, drop, Cleanup(dropTable, dropTopic), w');
    ResetRequests(reset, report.reset);
    DropRequests(drop, RETRIES, report.dropped);
    ResetOutcome(w, reset, report.reset, cleared);
    DeleteOutcome(cleared, report.deleteStatus, deleted);
    DropOutcome(deleted, drop, RETRIES, report.dropped, dropped);
    CleanupOutcome(dropped, dropTable, dropTopic, w');
  }

  // ----- Certain teardowns -----

  /** The reply is an answer, not a failure. */
  predicate IsAnswered(r: Request) {
    match r
    case GetConnectorRequest(status) => !Fails(status)
    case StopRequest(status) => !Fails(status)
    case StateRequest(state) => state.Ok? && state.value.Some?
    case OffsetsRequest(status) => !Fails(status)
    case DeleteRequest(status) => !Fails(status) && status != Ok(409)
    case SlotRequest(present) => present.Ok?
    case DropSlotRequest(_) => true
    case TableRequest(done) => done.Ok?
    case TopicRequest(done) => done.Ok?
  }

  predicate AllAnswered(requests: seq<Request>) {
    forall r | r in requests :: IsAnswered(r)
  }

  /** Every teardown from here whose requests are all answered brings the snapshot back. */
  ghost predicate IsSure(w: World, dropTable: bool, dropTopic: bool) {
    forall requests, report, w' |
      && Leads(w, requests, w') && IsTeardown(requests, report, dropTable, dropTopic)
      && AllAnswered(requests) ::
      RestartsLater(w')
  }

  /** No task is left, and nothing stands in the way of a reset or there is nothing to reset. */
  predicate SureRestart(w: World) {
    !w.tasks && (w.connector.Stopped? || (!w.offsets && !w.connector.Running?))
  }

  /** Whatever a teardown from here does first, a delete that is answered leaves no offsets. */
  lemma AnsweredReset(w: World, reset: seq<Request>, cleared: bool, w': World)
    requires SureRestart(w) && Leads(w, reset, w') && IsReset(reset, cleared)
    requires AllAnswered(reset)
    ensures !w'.tasks && !w'.connector.Running? && !w'.offsets
  {
    LeadsKeeps(w, reset, w');
    if w.connector.Stopped? {
      ResetRequests(reset, cleared);
      var m, at := LeadsLast(w, reset, w');
      ClearableStays(w, Front(reset), m);
      WaitingKeeps(m, at);
      assert IsAnswered(Last(reset));
    }
  }

  lemma QuietRestarts(cleared: World, deleteStatus: nat, deleted: World, w': World)
    requires !cleared.tasks && !cleared.connector.Running? && !cleared.offsets
    requires Leads(cleared, [DeleteRequest(Ok(deleteStatus))], deleted) && IsAnswered(DeleteRequest(Ok(deleteStatus)))
    requires Keeps(cleared, deleted) && Keeps(deleted, w')
    ensures RestartsLater(w')
  {
    LeadsOne(cleared, DeleteRequest(Ok(deleteStatus)), deleted);
    RestartsLaterIff(w');
  }

  lemma SureTeardown(w: World, requests: seq<Request>, report: Report, dropTable: bool, dropTopic: bool, w': World)
    requires SureRestart(w) && Leads(w, requests, w') && IsTeardown(requests, report, dropTable, dropTopic)
    requires AllAnswered(requests)
    ensures RestartsLater(w')
  {
    var reset, drop :|
      && IsReset(reset, report.reset) && IsDrop(drop, RETRIES, report.dropped)
      && requests == Sequence(reset, report.deleteStatus, drop, Cleanup(dropTable, dropTopic));
    SequenceIs(reset, report.deleteStatus, drop, Cleanup(dropTable, dropTopic));
    var cleared, deleted, dropped :=
      TeardownParts(w, reset, report.deleteStatus, drop, Cleanup(dropTable, dropTopic), w');
    AnsweredReset(w, reset, report.reset, cleared);
    assert IsAnswered(DeleteRequest(Ok(report.deleteStatus)));
    KeepsOn(deleted, dropped, w');
    QuietRestarts(cleared, report.deleteStatus, deleted, w');
  }

  /** The poll that saw STOPPED is the last one. */
  lemma SeenLast(reset: seq<Request>, cleared: bool)
    requires IsReset(reset, cleared) && STOPPED_SEEN in reset
    ensures |reset| > 1 && Last(Front(reset)) == STOPPED_SEEN
  {
    var polls := reset[2..|reset| - 1];
    assert reset == [reset[0]] + [reset[1]] + polls + [Last(reset)];
    assert STOPPED_SEEN in polls;
    assert Last(Front(reset)) == Last(polls);
  }

  /** Once a poll has seen STOPPED, an answered request to clear the offsets is granted. */
  lemma SeenStoppedClears(w: World, reset: seq<Request>, cleared: bool, w': World)
    requires StopsCleanly(w) && Leads(w, reset, w') && IsReset(reset, cleared)
    requires AllAnswered(reset) && |reset| > 1 && Last(Front(reset)) == STOPPED_SEEN
    ensures cleared
  {
    var m, at := LeadsLast(w, reset, w');
    LeadsKeeps(w, Front(reset), m);
    var before, here := LeadsLast(w, Front(reset), m);
    WaitingKeeps(m, at);
    assert IsAnswered(Last(reset));
  }

  lemma SeenInReset(reset: seq<Request>, deleteStatus: nat, drop: seq<Request>, dropped: bool, dropTable: bool,
                    dropTopic: bool)
    requires IsDrop(drop, RETRIES, dropped)
    requires STOPPED_SEEN in Sequence(reset, deleteStatus, drop, Cleanup(dropTable, dropTopic))
    ensures STOPPED_SEEN in reset
  {
    SequenceIs(reset, deleteStatus, drop, Cleanup(dropTable, dropTopic));
    DropRequests(drop, RETRIES, dropped);
    assert STOPPED_SEEN !in Cleanup(dropTable, dropTopic);
  }

  /** A teardown whose polls saw STOPPED and whose requests are all answered brings the snapshot
      back, from whatever world it started. */
  lemma SeenStoppedRestarts(w: World, requests: seq<Request>, report: Report, dropTable: bool, dropTopic: bool, w': World)
    requires StopsCleanly(w) && Leads(w, requests, w') && IsTeardown(requests, report, dropTable, dropTopic)
    requires AllAnswered(requests) && STOPPED_SEEN in requests
    ensures report.reset && RestartsLater(w')
  {
    var reset, drop :|
      && IsReset(reset, report.reset) && IsDrop(drop, RETRIES, report.dropped)
      && requests == Sequence(reset, report.deleteStatus, drop, Cleanup(dropTable, dropTopic));
    SequenceIs(reset, report.deleteStatus, drop, Cleanup(dropTable, dropTopic));
    var cleared, deleted, dropped :=
      TeardownParts(w, reset, report.deleteStatus, drop, Cleanup(dropTable, dropTopic), w');
    SeenInReset(reset, report.deleteStatus, drop, report.dropped, dropTable, dropTopic);
    SeenLast(reset, report.reset);
    SeenStoppedClears(w, reset, report.reset, cleared);
    ResetOutcome(w, reset, true, cleared);
    assert IsAnswered(DeleteRequest(Ok(report.deleteStatus)));
    KeepsOn(deleted, dropped, w');
    QuietRestarts(cleared, report.deleteStatus, deleted, w');
  }

  // ----- Teardowns that fail -----

  /** Otherwise the environment may get to stored offsets that cannot be cleared. */
  lemma Blocks(w: World) returns (blocked: World)
    requires !SureRestart(w)
    ensures Waits(w, blocked) && blocked.offsets && !CanClear(blocked)
  {
    blocked := w;
    LeadsNowhere(w);
    if !w.tasks && w.connector.Running? {
      blocked := Started(w);
      WaitsOn(w, w, blocked);
    }
    if blocked.tasks {
      WaitsOn(w, blocked, blocked.(offsets := true));
      blocked := blocked.(offsets := true);
    }
  }

  /** Ten polls of an unchanging connector, or one if it says STOPPED. */
  function Polls(seen: Connector): seq<Request> {
    seq(if seen.Stopped? then 1 else 10, _ => StateRequest(Ok(Some(seen))))
  }

  lemma {:induction false} PollsLead(w: World, n: nat)
    requires !w.connector.Absent?
    ensures Leads(w, seq(n, _ => StateRequest(Ok(Some(w.connector)))), w)
  {
    if n > 0 {
      var r := StateRequest(Ok(Some(w.connector)));
      PollsLead(w, n - 1);
      ServeOn(w, seq(n - 1, _ => r), w, w, r, w);
      assert seq(n - 1, _ => r) + [r] == seq(n, _ => r);
    }
  }

  const ASK_TO_STOP := [GetConnectorRequest(Ok(200))] + [StopRequest(Ok(202))]

  /** A reset in vain. */
  function RefusedReset(w: World): seq<Request> {
    if w.connector.Absent? then [GetConnectorRequest(Ok(404))]
    else ASK_TO_STOP + Polls(AfterStop(w).connector) + [OffsetsRequest(Ok(400))]
  }

  lemma RefusedIsReset(w: World)
    ensures IsReset(RefusedReset(w), false)
  {
    if !w.connector.Absent? {
      var requests := RefusedReset(w);
      assert requests[2..|requests| - 1] == Polls(AfterStop(w).connector);
    }
  }

  lemma AskToStop(w: World)
    requires !w.connector.Absent?
    ensures Leads(w, ASK_TO_STOP, AfterStop(w))
  {
    Serve(w, GetConnectorRequest(Ok(200)), w);
    ServeOn(w, [GetConnectorRequest(Ok(200))], w, w, StopRequest(Ok(202)), AfterStop(w));
  }

  lemma ResetRefused(w: World)
    requires !CanClear(w)
    ensures Leads(w, RefusedReset(w), AfterStop(w))
  {
    var stopping := AfterStop(w);
    if w.connector.Absent? {
      Serve(w, GetConnectorRequest(Ok(404)), w);
    } else {
      var polls := Polls(stopping.connector);
      AskToStop(w);
      PollsLead(stopping, |polls|);
      LeadsConcat(w, ASK_TO_STOP, stopping, polls, stopping);
      ServeOn(w, ASK_TO_STOP + polls, stopping, stopping, OffsetsRequest(Ok(400)), stopping);
    }
  }

  /** The task ends, the slot is released, and one attempt drops it. */
  function DropAtOnce(slot: Slot): seq<Request> {
    if slot.Gone? then [SlotRequest(Ok(false))] else [SlotRequest(Ok(true))] + [DropSlotRequest(Ok(()))]
  }

  lemma DropAtOnceIsDrop(slot: Slot)
    ensures IsDrop(DropAtOnce(slot), RETRIES, true)
  {
    assert IsLastAttempt(DropAtOnce(slot));
  }

  lemma SlotDrops(w: World)
    ensures Leads(w, DropAtOnce(w.slot), w.(tasks := false, slot := Gone))
  {
    var ended := w.(tasks := false);
    WaitsOn(w, w, ended);
    assert Leads(w, [], w);
    ServeOn(w, [], w, ended, SlotRequest(Ok(!w.slot.Gone?)), ended);
    assert [] + [SlotRequest(Ok(!w.slot.Gone?))] == [SlotRequest(Ok(!w.slot.Gone?))];
    if !w.slot.Gone? {
      var idle := ended.(slot := Idle);
      WaitsOn(ended, ended, idle);
      ServeOn(w, [SlotRequest(Ok(true))], ended, idle, DropSlotRequest(Ok(())), idle.(slot := Gone));
    }
  }

  function Cleaned(w: World, dropTable: bool): World {
    if dropTable then w.(table := false) else w
  }

  lemma CleanupLeads(w: World, dropTable: bool, dropTopic: bool)
    ensures Leads(w, Cleanup(dropTable, dropTopic), Cleaned(w, dropTable))
  {
    if dropTable {
      var dropped := w.(table := false);
      Serve(w, TableRequest(Ok(())), dropped);
      if dropTopic {
        ServeOn(w, [TableRequest(Ok(()))], dropped, dropped, TopicRequest(Ok(())), dropped);
      }
    }
  }

  function RefusedReport(w: World): Report {
    Report(false, if w.connector.Absent? then 404 else 204, true)
  }

  function RefusedRequests(w: World, dropTable: bool, dropTopic: bool): seq<Request> {
    Sequence(RefusedReset(w), RefusedReport(w).deleteStatus, DropAtOnce(w.slot), Cleanup(dropTable, dropTopic))
  }

  lemma RefusedIsAnswered(w: World, dropTable: bool, dropTopic: bool)
    ensures AllAnswered(RefusedRequests(w, dropTable, dropTopic))
  {
    SequenceIs(RefusedReset(w), RefusedReport(w).deleteStatus, DropAtOnce(w.slot), Cleanup(dropTable, dropTopic));
    assert AllAnswered(RefusedReset(w));
    assert AllAnswered(DropAtOnce(w.slot));
    assert AllAnswered(Cleanup(dropTable, dropTopic));
  }

  /** A run of a teardown that came to an end with every request answered, and after which the
      snapshot is lost for good. */
  ghost predicate LosesSnapshot(w: World, requests: seq<Request>, report: Report, dropTable: bool, dropTopic: bool,
                                w': World)
  {
    && Leads(w, requests, w') && IsTeardown(requests, report, dropTable, dropTopic)
    && AllAnswered(requests) && NeverRestarts(w')
  }

  /** Over stored offsets that cannot be cleared, a teardown may be refused the reset, while
      delete and slot drop succeed. */
  lemma RefusedTeardown(w: World, dropTable: bool, dropTopic: bool)
    requires w.offsets && !CanClear(w)
    ensures exists w' ::
              LosesSnapshot(w, RefusedRequests(w, dropTable, dropTopic), RefusedReport(w), dropTable, dropTopic, w')
  {
    var status := RefusedReport(w).deleteStatus;
    var deleted := AfterStop(w).(connector := Absent);
    var dropped := deleted.(tasks := false, slot := Gone);
    var reset, drop, cleanup := RefusedReset(w), DropAtOnce(w.slot), Cleanup(dropTable, dropTopic);
    var w' := Cleaned(dropped, dropTable);
    ResetRefused(w);
    RefusedIsReset(w);
    SlotDrops(deleted);
    DropAtOnceIsDrop(w.slot);
    CleanupLeads(dropped, dropTable, dropTopic);
    Serve(AfterStop(w), DeleteRequest(Ok(status)), deleted);
    SequenceLeads(w, reset, AfterStop(w), status, deleted, drop, dropped, cleanup, w');
    assert IsTeardown(RefusedRequests(w, dropTable, dropTopic), RefusedReport(w), dropTable, dropTopic);
    RefusedIsAnswered(w, dropTable, dropTopic);
    NeverRestartsIff(w');
    assert LosesSnapshot(w, RefusedRequests(w, dropTable, dropTopic), RefusedReport(w), dropTable, dropTopic, w');
  }

  /** A teardown whose requests are all answered is sure to bring the snapshot back exactly
      when no task is left, and the connector is stopped already or, not running, has no
      offsets stored. A running connector, or a task that is still there, may be too slow to
      stop. */
  lemma SureIff(w: World, dropTable: bool, dropTopic: bool)
    ensures IsSure(w, dropTable, dropTopic) <==> SureRestart(w)
  {
    if SureRestart(w) {
      forall requests, report, w' |
        && Leads(w, requests, w') && IsTeardown(requests, report, dropTable, dropTopic)
        && AllAnswered(requests)
        ensures RestartsLater(w')
      {
        SureTeardown(w, requests, report, dropTable, dropTopic, w');
      }
    } else {
      var blocked := Blocks(w);
      RefusedTeardown(blocked, dropTable, dropTopic);
      var requests, report := RefusedRequests(blocked, dropTable, dropTopic), RefusedReport(blocked);
      var w' :| LosesSnapshot(blocked, requests, report, dropTable, dropTopic, w');
      WaitsFirst(w, blocked, requests, w');
      RestartsLaterIff(w');
      NeverRestartsIff(w');
    }
  }
}
