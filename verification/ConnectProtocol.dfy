/** The world behind a CDC demo: a Kafka Connect connector with its task, its stored offsets,
    its Postgres replication slot, the source table and the data topic; how it moves on its
    own; and what a registration makes of it.
 */
module ConnectProtocol {

  datatype Connector = Absent | Running | Failed | Stopping | Stopped

  datatype Slot = Gone | Idle | Held

  datatype SnapshotMode = Initial | Always | Never

  datatype World = World(
    connector: Connector,
    mode: SnapshotMode,
    tasks: bool,        // a task of the connector is alive, possibly after the connector is gone
    offsets: bool,      // Connect stores offsets under the connector's name
    slot: Slot,
    table: bool,
    topic: bool,
    snapshots: nat)     // how many initial snapshots were started

  /** A task that starts snapshots first, unless its mode or its stored offsets say otherwise. */
  function Started(w: World): World {
    var snapshot := w.mode.Always? || (w.mode.Initial? && !w.offsets);
    w.(tasks := true, snapshots := w.snapshots + if snapshot then 1 else 0)
  }

  /** What happens without the client: tasks start, commit, publish, take the slot and end;
      a stop completes once no task is left; Postgres notices late that a slot is free. */
  predicate EnvStep(w: World, w': World) {
    || w' == w
    || (w.connector.Running? && !w.tasks && w' == Started(w))
    || (w.tasks && w' == w.(tasks := false))
    || (w.tasks && w' == w.(offsets := true))
    || (w.tasks && w' == w.(topic := true))
    || (w.tasks && w' == w.(slot := Held))
    || (w.slot.Held? && w' == w.(slot := Idle))
    || (w.connector.Running? && w' == w.(connector := Failed))
    || (w.connector.Stopping? && !w.tasks && w' == w.(connector := Stopped))
  }

  predicate EnvStepAt(run: seq<World>, i: nat)
    requires i + 1 < |run|
  {
    EnvStep(run[i], run[i + 1])
  }

  predicate IsEnvRun(run: seq<World>) {
    run != [] && forall i: nat | i + 1 < |run| :: EnvStepAt(run, i)
  }

  /** Nothing acts for the connector any more, and nothing will before it is registered again. */
  predicate Settled(w: World) {
    (w.connector.Absent? || w.connector.Stopped?) && !w.tasks
  }

  /** A stopped connector has no task; true of every run that starts so. */
  predicate StopsCleanly(w: World) {
    w.connector.Stopped? ==> !w.tasks
  }

  /** What a teardown aims for. */
  predicate Cleared(w: World) {
    w.connector.Absent? && !w.tasks && !w.offsets && w.slot.Gone?
  }

  /** What stays true over any number of steps that register nothing. */
  predicate Keeps(w: World, w': World) {
    && (w.connector.Absent? ==> w'.connector.Absent?)
    && (Settled(w) ==> Settled(w') && w'.snapshots == w.snapshots)
    && (Settled(w) && !w.offsets ==> !w'.offsets)
    && (w.connector.Absent? && w.offsets ==> w'.offsets)
    && (Settled(w) && w.slot.Gone? ==> w'.slot.Gone?)
    && (Settled(w) && !w.topic ==> !w'.topic)
    && (!w.tasks && !w.connector.Running? ==>
          !w'.tasks && !w'.connector.Running? && (!w.offsets ==> !w'.offsets))
    && (!w.table ==> !w'.table)
  }

  /** `PUT config`: a new connector starts and a failed one is restarted; any other keeps its
      state. */
  function Registered(w: World, mode: SnapshotMode): World {
    w.(mode := mode,
       connector := if w.connector.Absent? || w.connector.Failed? then Running else w.connector)
  }

  /** After an `initial` registration over any world: with offsets stored, no snapshot is ever
      started; without offsets and without a task left over, a new snapshot comes before any
      task and any offset; and a connector that was stopping or stopped never runs. */
  lemma {:induction false} InitialSnapshots(w: World, run: seq<World>, i: nat)
    requires IsEnvRun(run) && run[0] == Registered(w, Initial) && i < |run|
    ensures w.offsets ==> run[i].offsets && run[i].snapshots == w.snapshots
    ensures !w.offsets && !w.tasks ==> (run[i].tasks || run[i].offsets ==> run[i].snapshots > w.snapshots)
    ensures w.connector.Stopping? || w.connector.Stopped? ==>
              (run[i].connector.Stopping? || run[i].connector.Stopped?) && (!w.tasks ==> !run[i].tasks)
    ensures run[i].mode.Initial? && run[i].snapshots >= w.snapshots
  {
    if i > 0 {
      InitialSnapshots(w, run, i - 1);
      assert EnvStepAt(run, i - 1);
    }
  }

  /** A run without the client, from an `initial` registration over `w` to a running task. */
  predicate Starts(w: World, run: seq<World>) {
    IsEnvRun(run) && run[0] == Registered(w, Initial) && run[|run| - 1].tasks
  }

  /** An `initial` registration over `w` can get to a running task, and never gets there
      without a new snapshot. */
  ghost predicate Restarts(w: World) {
    (exists run :: Starts(w, run)) &&
    forall run: seq<World> | Starts(w, run) :: run[|run| - 1].snapshots > w.snapshots
  }

  lemma RegisteredCanStart(w: World)
    ensures w.tasks ==> Starts(w, [Registered(w, Initial)])
    ensures !w.tasks && Registered(w, Initial).connector.Running? ==>
              Starts(w, [Registered(w, Initial), Started(Registered(w, Initial))])
  {
  }

  /** In every world: an `initial` registration snapshots from scratch exactly when it leaves
      the connector running, no task is left over and no offset is stored. */
  lemma RestartsIff(w: World)
    ensures Restarts(w) <==>
            (w.connector.Absent? || w.connector.Running? || w.connector.Failed?) && !w.tasks && !w.offsets
  {
    RegisteredCanStart(w);
    forall run: seq<World> | Starts(w, run)
      ensures w.offsets ==> run[|run| - 1].snapshots == w.snapshots
      ensures !w.offsets && !w.tasks ==> run[|run| - 1].snapshots > w.snapshots
      ensures w.connector.Stopping? || w.connector.Stopped? ==> w.tasks
    {
      InitialSnapshots(w, run, |run| - 1);
    }
    if w.tasks {
      var run := [Registered(w, Initial)];
      assert Starts(w, run) && run[|run| - 1].snapshots == w.snapshots;
    }
  }

  /** The environment alone leads from one world to the other. */
  ghost predicate Waits(w: World, w': World) {
    exists run :: IsEnvRun(run) && run[0] == w && run[|run| - 1] == w'
  }

  lemma WaitsOn(w: World, m: World, w': World)
    requires m == w || Waits(w, m)
    requires EnvStep(m, w')
    ensures Waits(w, w')
  {
    if m == w {
      var run := [w, w'];
      assert EnvStepAt(run, 0);
      assert IsEnvRun(run) && run[0] == w && run[|run| - 1] == w';
    } else {
      var run: seq<World> :| IsEnvRun(run) && run[0] == w && run[|run| - 1] == m;
      var longer := run + [w'];
      forall i: nat | i + 1 < |longer| ensures EnvStepAt(longer, i) {
        assert i + 1 < |run| ==> EnvStepAt(run, i);
      }
      assert IsEnvRun(longer) && longer[0] == w && longer[|longer| - 1] == w';
    }
  }

  lemma WaitsConcat(w: World, m: World, w': World)
    requires Waits(w, m) && Waits(m, w')
    ensures Waits(w, w')
  {
    var a: seq<World> :| IsEnvRun(a) && a[0] == w && a[|a| - 1] == m;
    var b: seq<World> :| IsEnvRun(b) && b[0] == m && b[|b| - 1] == w';
    var run := a + b[1..];
    forall i: nat | i + 1 < |run| ensures EnvStepAt(run, i) {
      assert if i + 1 < |a| then EnvStepAt(a, i) else EnvStepAt(b, i + 1 - |a|);
    }
    assert run[0] == w && run[|run| - 1] == w';
  }

  lemma {:induction false} EnvRunKeeps(run: seq<World>, j: nat)
    requires IsEnvRun(run) && j < |run|
    ensures Keeps(run[0], run[j])
    ensures run[0].offsets ==> run[j].offsets
    ensures run[0].connector.Failed? ==> run[j].connector.Failed?
    ensures run[0].connector.Stopped? ==> run[j].connector.Stopped?
    ensures run[j].connector.Absent? ==> run[0].connector.Absent?
    ensures run[j].slot.Gone? ==> run[0].slot.Gone?
    ensures StopsCleanly(run[0]) ==> StopsCleanly(run[j])
  {
    if j > 0 {
      EnvRunKeeps(run, j - 1);
      assert EnvStepAt(run, j - 1);
    }
  }

  /** Waiting deletes nothing: neither the connector nor its offsets nor its slot. */
  lemma WaitingKeeps(w: World, w': World)
    requires Waits(w, w')
    ensures Keeps(w, w')
    ensures w.offsets ==> w'.offsets
    ensures w.connector.Failed? ==> w'.connector.Failed?
    ensures w.connector.Stopped? ==> w'.connector.Stopped?
    ensures w'.connector.Absent? ==> w.connector.Absent?
    ensures w'.slot.Gone? ==> w.slot.Gone?
    ensures StopsCleanly(w) ==> StopsCleanly(w')
  {
    var run: seq<World> :| IsEnvRun(run) && run[0] == w && run[|run| - 1] == w';
    EnvRunKeeps(run, |run| - 1);
  }

  /** The snapshot of an `initial` registration is certain, however long it is put off and
      whatever the environment does meanwhile, exactly when the connector is absent or failed,
      no task is left over and no offset is stored. */
  lemma CertainIff(w: World)
    ensures (forall before | Waits(w, before) :: Restarts(before)) <==>
            (w.connector.Absent? || w.connector.Failed?) && !w.tasks && !w.offsets
  {
    WaitsOn(w, w, w);
    RestartsIff(w);
    if w.connector.Running? && !w.tasks {
      WaitsOn(w, w, Started(w));
      RestartsIff(Started(w));
    }
    forall before | Waits(w, before)
      ensures (w.connector.Absent? || w.connector.Failed?) && !w.tasks && !w.offsets ==> Restarts(before)
    {
      WaitingKeeps(w, before);
      RestartsIff(before);
    }
  }
}
