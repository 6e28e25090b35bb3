/** Runs over the mirror: consecutive batches, replays of a batch, and the ingest stage.

    Every batch is deduplicated by the engine, which may break LSN ties differently each time:
    the outcomes are parameters, known only to satisfy `IsLatest`.
 */
module CdcRuns {
  import opened Results
  import opened KeyedTable
  import opened CdcReplica

  /** The MERGE of one deduplicated batch on top of whatever the mirror holds. */
  function ApplyLatest(mirror: seq<Row<Values>>, latest: seq<LogChange>): seq<Row<Values>> {
    MergedRows(mirror, MergeSource(latest))
  }

  function ApplyAll(mirror: seq<Row<Values>>, latests: seq<seq<LogChange>>): seq<Row<Values>> {
    if latests == [] then mirror
    else ApplyLatest(ApplyAll(mirror, latests[..|latests| - 1]), latests[|latests| - 1])
  }

  function Concat(batches: seq<seq<LogChange>>): seq<LogChange> {
    if batches == [] then [] else Concat(batches[..|batches| - 1]) + batches[|batches| - 1]
  }

  /** One outcome of the window query for each batch. */
  ghost predicate AreLatest(batches: seq<seq<LogChange>>, latests: seq<seq<LogChange>>) {
    |batches| == |latests| && forall i | 0 <= i < |batches| :: IsLatest(batches[i], latests[i])
  }

  /** The newest changes of one id have one effect. */
  predicate TiesAgreeOn(changes: seq<LogChange>, id: Option<int>) {
    forall a, b | a in changes && b in changes && a.id == b.id == id
                  && IsNewest(changes, a) && IsNewest(changes, b) :: SameEffect(a, b)
  }

  /** For each id, no later batch goes back in LSN; a change may straddle two batches. */
  predicate Consecutive(batches: seq<seq<LogChange>>) {
    forall i, j | 0 <= i < j < |batches| ::
      forall a, b | a in batches[i] && b in batches[j] && a.id == b.id :: AtMost(a.lsn, b.lsn)
  }

  /** No change without an id can put a row into the mirror. */
  predicate NullIdsDeleted(changes: seq<LogChange>) {
    forall c | c in changes && c.id.None? && IsNewest(changes, c) :: c.op.Delete?
  }

  predicate AllNullIdsDeleted(batches: seq<seq<LogChange>>) {
    forall i | 0 <= i < |batches| :: NullIdsDeleted(batches[i])
  }

  ghost predicate SameLookups(a: seq<Row<Values>>, b: seq<Row<Values>>) {
    forall k :: Find(a, k) == Find(b, k)
  }

  lemma BatchKeys(mirror: seq<Row<Values>>, batch: seq<LogChange>, latest: seq<LogChange>)
    requires KeysDistinct(mirror) && IsLatest(batch, latest)
    ensures KeysDistinct(ApplyLatest(mirror, latest))
    ensures KeysPresent(mirror) && NullIdsDeleted(batch) ==> KeysPresent(ApplyLatest(mirror, latest))
  {
    MergeSourceKeys(latest);
    MergeKeys(mirror, MergeSource(latest));
    forall s | s in MergeSource(latest) && s.key.None? && NullIdsDeleted(batch) ensures s.delete {
      var i :| 0 <= i < |latest| && AsChange(latest[i]) == s;
      assert IsNewest(batch, latest[i]);
    }
  }

  /** Over any run of batches, deduplicated in any way, the ids of the mirror stay unique, and
      non-null when no batch has a live newest change without an id. */
  lemma {:induction false} BatchesKeys(mirror: seq<Row<Values>>, batches: seq<seq<LogChange>>,
                                       latests: seq<seq<LogChange>>)
    requires KeysDistinct(mirror) && AreLatest(batches, latests)
    ensures KeysDistinct(ApplyAll(mirror, latests))
    ensures KeysPresent(mirror) && AllNullIdsDeleted(batches) ==> KeysPresent(ApplyAll(mirror, latests))
  {
    if batches != [] {
      var n := |batches| - 1;
      BatchesKeys(mirror, batches[..n], latests[..n]);
      BatchKeys(ApplyAll(mirror, latests[..n]), batches[n], latests[n]);
    }
  }

  /** What a change leaves under its id. */
  function Effect(l: LogChange): Option<Values> {
    if l.op.Delete? then None else Some(l.vals)
  }

  /** The mirror at one id after one batch. */
  lemma BatchFind(mirror: seq<Row<Values>>, batch: seq<LogChange>, latest: seq<LogChange>, k: int)
    returns (l: Option<LogChange>)
    requires KeysDistinct(mirror) && IsLatest(batch, latest)
    ensures l.None? <==> !HasId(batch, Some(k))
    ensures l.Some? ==> l.value in latest && IsNewest(batch, l.value) && l.value.id == Some(k)
    ensures Find(ApplyLatest(mirror, latest), k) == if l.None? then Find(mirror, k) else Effect(l.value)
  {
    MergeSourceKeys(latest);
    l := LatestMatch(batch, latest, k);
    MergeFind(mirror, MergeSource(latest), k);
  }

  lemma {:induction false} ConcatMember(batches: seq<seq<LogChange>>, c: LogChange)
    ensures c in Concat(batches) <==> exists i :: 0 <= i < |batches| && c in batches[i]
  {
    if batches != [] {
      ConcatMember(batches[..|batches| - 1], c);
      if i :| 0 <= i < |batches| && c in batches[i] {
        assert i < |batches| - 1 ==> c in batches[..|batches| - 1][i];
      }
    }
  }

  lemma ConsecutiveLast(batches: seq<seq<LogChange>>, a: LogChange, b: LogChange)
    requires batches != [] && Consecutive(batches)
    requires a in Concat(batches[..|batches| - 1]) && b in batches[|batches| - 1] && a.id == b.id
    ensures AtMost(a.lsn, b.lsn)
  {
    var init := batches[..|batches| - 1];
    ConcatMember(init, a);
    var i :| 0 <= i < |init| && a in init[i];
    assert batches[i] == init[i];
  }

  /** The newest change of the last batch is a newest one of all batches. */
  lemma {:induction false} NewestOfLast(batches: seq<seq<LogChange>>, l: LogChange)
    requires batches != [] && Consecutive(batches) && IsNewest(batches[|batches| - 1], l)
    ensures IsNewest(Concat(batches), l)
  {
    forall a | a in Concat(batches[..|batches| - 1]) && a.id == l.id ensures AtMost(a.lsn, l.lsn) {
      ConsecutiveLast(batches, a, l);
    }
  }

  lemma {:induction false} HasIdConcat(a: seq<LogChange>, b: seq<LogChange>, id: Option<int>)
    ensures HasId(a + b, id) <==> HasId(a, id) || HasId(b, id)
  {
  }

  /** When the last batch says nothing about an id, all newest changes of it are older. */
  lemma {:induction false} NewestBefore(a: seq<LogChange>, b: seq<LogChange>, id: Option<int>)
    requires !HasId(b, id)
    ensures forall c: LogChange | c.id == id :: IsNewest(a + b, c) <==> IsNewest(a, c)
  {
  }

  lemma WithoutLast(batches: seq<seq<LogChange>>, latests: seq<seq<LogChange>>)
    requires batches != [] && AreLatest(batches, latests) && Consecutive(batches)
    ensures AreLatest(batches[..|batches| - 1], latests[..|batches| - 1]) && Consecutive(batches[..|batches| - 1])
    ensures IsLatest(batches[|batches| - 1], latests[|batches| - 1])
  {
  }

  /** The mirror at one id after any batches: some newest change of the whole log decides. */
  lemma {:induction false} BatchesFind(mirror: seq<Row<Values>>, batches: seq<seq<LogChange>>,
                                       latests: seq<seq<LogChange>>, k: int)
    returns (l: Option<LogChange>)
    requires KeysDistinct(mirror) && AreLatest(batches, latests) && Consecutive(batches)
    ensures l.None? <==> !HasId(Concat(batches), Some(k))
    ensures l.Some? ==> IsNewest(Concat(batches), l.value) && l.value.id == Some(k)
    ensures Find(ApplyAll(mirror, latests), k) == if l.None? then Find(mirror, k) else Effect(l.value)
  {
    if batches == [] {
      l := None;
    } else {
      var n := |batches| - 1;
      WithoutLast(batches, latests);
      BatchesKeys(mirror, batches[..n], latests[..n]);
      l := BatchFind(ApplyAll(mirror, latests[..n]), batches[n], latests[n], k);
      HasIdConcat(Concat(batches[..n]), batches[n], Some(k));
      if l.Some? {
        NewestOfLast(batches, l.value);
      } else {
        l := BatchesFind(mirror, batches[..n], latests[..n], k);
        NewestBefore(Concat(batches[..n]), batches[n], Some(k));
      }
    }
  }

  lemma OneMergeAt(mirror: seq<Row<Values>>, batches: seq<seq<LogChange>>, latests: seq<seq<LogChange>>,
                   whole: seq<LogChange>, k: int)
    requires KeysDistinct(mirror) && Consecutive(batches)
    requires AreLatest(batches, latests) && IsLatest(Concat(batches), whole)
    requires TiesAgreeOn(Concat(batches), Some(k))
    ensures Find(ApplyAll(mirror, latests), k) == Find(ApplyLatest(mirror, whole), k)
  {
    var a := BatchesFind(mirror, batches, latests, k);
    var b := BatchFind(mirror, Concat(batches), whole, k);
    assert a.Some? ==> SameEffect(a.value, b.value);
  }

  /** Batch by batch or in one MERGE, however each is deduplicated, the mirror ends up with the
      same rows. */
  lemma BatchesEqualOneMerge(mirror: seq<Row<Values>>, batches: seq<seq<LogChange>>, latests: seq<seq<LogChange>>,
                             whole: seq<LogChange>)
    requires KeysDistinct(mirror) && KeysPresent(mirror) && Consecutive(batches)
    requires AreLatest(batches, latests) && IsLatest(Concat(batches), whole)
    requires TiesAgree(Concat(batches)) && AllNullIdsDeleted(batches)
    ensures multiset(ApplyAll(mirror, latests)) == multiset(ApplyLatest(mirror, whole))
  {
    BatchesKeys(mirror, batches, latests);
    forall c | c in Concat(batches) && c.id.None? && IsNewest(Concat(batches), c) ensures c.op.Delete? {
      NewestInItsBatch(batches, c);
    }
    BatchKeys(mirror, Concat(batches), whole);
    forall k ensures Find(ApplyAll(mirror, latests), k) == Find(ApplyLatest(mirror, whole), k) {
      OneMergeAt(mirror, batches, latests, whole, k);
    }
    SameLookupsSameRows(ApplyAll(mirror, latests), ApplyLatest(mirror, whole));
  }

  lemma NewestInItsBatch(batches: seq<seq<LogChange>>, c: LogChange)
    requires IsNewest(Concat(batches), c)
    ensures exists i :: 0 <= i < |batches| && IsNewest(batches[i], c)
  {
    ConcatMember(batches, c);
    var i :| 0 <= i < |batches| && c in batches[i];
    forall x | x in batches[i] && x.id == c.id ensures AtMost(x.lsn, c.lsn) {
      ConcatMember(batches, x);
    }
  }

  /** Every way to deduplicate the batches and the whole log leaves the same lookups. */
  ghost predicate AlwaysOneMerge(mirror: seq<Row<Values>>, batches: seq<seq<LogChange>>) {
    forall latests, whole | AreLatest(batches, latests) && IsLatest(Concat(batches), whole) ::
      SameLookups(ApplyAll(mirror, latests), ApplyLatest(mirror, whole))
  }

  /** They do exactly when the newest changes of every id have one effect. */
  lemma OneMergeIff(mirror: seq<Row<Values>>, batches: seq<seq<LogChange>>)
    requires KeysDistinct(mirror) && Consecutive(batches)
    ensures AlwaysOneMerge(mirror, batches) <==> forall k: int :: TiesAgreeOn(Concat(batches), Some(k))
  {
    if forall k: int :: TiesAgreeOn(Concat(batches), Some(k)) {
      forall latests, whole | AreLatest(batches, latests) && IsLatest(Concat(batches), whole)
        ensures SameLookups(ApplyAll(mirror, latests), ApplyLatest(mirror, whole))
      {
        forall k ensures Find(ApplyAll(mirror, latests), k) == Find(ApplyLatest(mirror, whole), k) {
          OneMergeAt(mirror, batches, latests, whole, k);
        }
      }
    }
    if AlwaysOneMerge(mirror, batches) {
      forall k: int, a, b | IsNewest(Concat(batches), a) && IsNewest(Concat(batches), b) && a.id == b.id == Some(k)
        ensures SameEffect(a, b)
      {
        OneMergeDecides(mirror, batches, a, b, k);
      }
    }
  }

  lemma OneMergeDecides(mirror: seq<Row<Values>>, batches: seq<seq<LogChange>>, a: LogChange, b: LogChange, k: int)
    requires KeysDistinct(mirror) && AlwaysOneMerge(mirror, batches)
    requires IsNewest(Concat(batches), a) && IsNewest(Concat(batches), b) && a.id == b.id == Some(k)
    ensures SameEffect(a, b)
  {
    var latests := seq(|batches|, i requires 0 <= i < |batches| => Latest(batches[i]));
    forall i | 0 <= i < |batches| ensures IsLatest(batches[i], latests[i]) {
      LatestIsLatest(batches[i]);
    }
    var x := ChosenFind(mirror, Concat(batches), a, k);
    var y := ChosenFind(mirror, Concat(batches), b, k);
    assert SameLookups(ApplyAll(mirror, latests), ApplyLatest(mirror, x));
    assert SameLookups(ApplyAll(mirror, latests), ApplyLatest(mirror, y));
  }

  /** Any newest change can be the one that decides. */
  lemma ChosenFind(mirror: seq<Row<Values>>, changes: seq<LogChange>, a: LogChange, k: int)
    returns (latest: seq<LogChange>)
    requires KeysDistinct(mirror) && IsNewest(changes, a) && a.id == Some(k)
    ensures IsLatest(changes, latest) && Find(ApplyLatest(mirror, latest), k) == Effect(a)
  {
    latest := Choose(changes, a);
    var l := BatchFind(mirror, changes, latest, k);
    assert HasId(changes, Some(k));
    OneChangeAnId(latest, a, l.value);
  }

  // ----- Replays -----

  lemma {:induction false} ReplayFind(mirror: seq<Row<Values>>, batch: seq<LogChange>, first: seq<LogChange>,
                                      outcomes: seq<seq<LogChange>>, k: int)
    requires KeysDistinct(mirror) && TiesAgreeOn(batch, Some(k)) && IsLatest(batch, first)
    requires AreLatest(seq(|outcomes|, _ => batch), outcomes)
    ensures Find(ApplyAll(ApplyLatest(mirror, first), outcomes), k) == Find(ApplyLatest(mirror, first), k)
    decreases |outcomes|
  {
    if outcomes != [] {
      var n := |outcomes| - 1;
      var once := ApplyLatest(mirror, first);
      assert seq(n + 1, _ => batch)[..n] == seq(n, _ => batch);
      assert forall i | 0 <= i <= n :: IsLatest(seq(n + 1, _ => batch)[i], outcomes[i]);
      BatchKeys(mirror, batch, first);
      BatchesKeys(once, seq(n, _ => batch), outcomes[..n]);
      var a := BatchFind(mirror, batch, first, k);
      var b := BatchFind(ApplyAll(once, outcomes[..n]), batch, outcomes[n], k);
      if a.Some? {
        assert SameEffect(a.value, b.value);
      } else {
        ReplayFind(mirror, batch, first, outcomes[..n], k);
      }
    }
  }

  /** Replaying a batch any number of times, deduplicated anew each time, changes nothing, as
      long as tied changes agree and no live newest change lacks an id. */
  lemma ReplayChangesNothing(mirror: seq<Row<Values>>, batch: seq<LogChange>, first: seq<LogChange>,
                             outcomes: seq<seq<LogChange>>)
    requires KeysDistinct(mirror) && KeysPresent(mirror)
    requires TiesAgree(batch) && NullIdsDeleted(batch)
    requires IsLatest(batch, first) && forall o | o in outcomes :: IsLatest(batch, o)
    ensures multiset(ApplyAll(ApplyLatest(mirror, first), outcomes)) == multiset(ApplyLatest(mirror, first))
  {
    var once := ApplyLatest(mirror, first);
    var batches := seq(|outcomes|, _ => batch);
    assert AreLatest(batches, outcomes);
    BatchKeys(mirror, batch, first);
    BatchesKeys(once, batches, outcomes);
    forall k ensures Find(ApplyAll(once, outcomes), k) == Find(once, k) {
      ReplayFind(mirror, batch, first, outcomes, k);
    }
    SameLookupsSameRows(ApplyAll(once, outcomes), once);
  }

  /** MERGE leaves rows without a key alone and inserts a live change without a key again. */
  lemma {:induction false} NullRowGrows(target: seq<Row<Values>>, latest: seq<LogChange>, c: LogChange)
    requires c in latest && c.id.None? && !c.op.Delete?
    ensures var r := Row(None, c.vals);
            multiset(ApplyLatest(target, latest))[r] > multiset(target)[r]
  {
    var source, r := MergeSource(latest), Row(None, c.vals);
    var i :| 0 <= i < |latest| && latest[i] == c;
    assert source[i] == AsChange(c);
    NullRowSurvives(target, source, r);
    NullChangeInserts(target, source, AsChange(c));
  }

  lemma {:induction false} NullRowSurvives(target: seq<Row<Values>>, source: seq<Change<Values>>, r: Row<Values>)
    requires r.key.None?
    ensures multiset(Survivors(target, source))[r] == multiset(target)[r]
  {
    if target != [] {
      NullRowSurvives(target[1..], source, r);
      assert target == [target[0]] + target[1..];
      FirstMatchIsIn(source, target[0].key);
    }
  }

  lemma {:induction false} NullChangeInserts(target: seq<Row<Values>>, source: seq<Change<Values>>, s: Change<Values>)
    requires s in source && s.key.None? && !s.delete
    ensures multiset(Inserts(target, source))[Row(s.key, s.val)] > 0
  {
    if s != source[0] {
      assert source == [source[0]] + source[1..];
      NullChangeInserts(target, source[1..], s);
    }
  }

  ghost predicate ReplayKeepsRows(mirror: seq<Row<Values>>, batch: seq<LogChange>) {
    forall x, y | IsLatest(batch, x) && IsLatest(batch, y) ::
      multiset(ApplyLatest(ApplyLatest(mirror, x), y)) == multiset(ApplyLatest(mirror, x))
  }

  /** Over any mirror with unique, non-null ids, a replay keeps the rows however the engine
      breaks ties, exactly when tied changes agree and no live newest change lacks an id. */
  lemma ReplayIff(mirror: seq<Row<Values>>, batch: seq<LogChange>)
    requires KeysDistinct(mirror) && KeysPresent(mirror)
    ensures ReplayKeepsRows(mirror, batch) <==> TiesAgree(batch) && NullIdsDeleted(batch)
  {
    if TiesAgree(batch) && NullIdsDeleted(batch) {
      forall x, y | IsLatest(batch, x) && IsLatest(batch, y)
        ensures multiset(ApplyLatest(ApplyLatest(mirror, x), y)) == multiset(ApplyLatest(mirror, x))
      {
        ReplayChangesNothing(mirror, batch, x, [y]);
        assert ApplyAll(ApplyLatest(mirror, x), [y]) == ApplyLatest(ApplyAll(ApplyLatest(mirror, x), [y][..0]), y);
      }
    }
    if ReplayKeepsRows(mirror, batch) {
      forall c | c in batch && c.id.None? && IsNewest(batch, c) ensures c.op.Delete? {
        var x := Choose(batch, c);
        if !c.op.Delete? {
          NullRowGrows(ApplyLatest(mirror, x), x, c);
        }
      }
      forall a, b | a in batch && b in batch && a.id == b.id && IsNewest(batch, a) && IsNewest(batch, b)
        ensures SameEffect(a, b)
      {
        if a.id.Some? {
          ReplayDecides(mirror, batch, a, b, a.id.value);
        }
      }
    }
  }

  lemma ReplayDecides(mirror: seq<Row<Values>>, batch: seq<LogChange>, a: LogChange, b: LogChange, k: int)
    requires KeysDistinct(mirror) && ReplayKeepsRows(mirror, batch)
    requires IsNewest(batch, a) && IsNewest(batch, b) && a.id == b.id == Some(k)
    ensures SameEffect(a, b)
  {
    var x := ChosenFind(mirror, batch, a, k);
    var once := ApplyLatest(mirror, x);
    BatchKeys(mirror, batch, x);
    var y := ChosenFind(once, batch, b, k);
    BatchKeys(once, batch, y);
    SameRowsSameLookups(ApplyLatest(once, y), once, k);
  }

  // ----- Counts -----

  /** A history that a table can have: inserts of absent rows, updates and deletes of present ones. */
  predicate TableHistory(history: seq<Record>) {
    ValidHistory(history) &&
    (history != [] ==>
      var init, e := history[..|history| - 1], history[|history| - 1];
      TableHistory(init) && AllWellFormed(init) && WellFormed(e) &&
      (IdOf(e).value in Replay(init) <==> e.op.Update? || e.op.Delete?))
  }

  /** The duplicate-free topic of a history: a tombstone follows each delete. */
  function Topic(history: seq<Record>): seq<Record> {
    if history == [] then []
    else
      var e := history[|history| - 1];
      Topic(history[..|history| - 1]) + [e] + (if e.Event? && e.op.Delete? then [Tombstone] else [])
  }

  /** The dictionary key under which an event is counted. */
  function Label(r: Record): string {
    if r.Tombstone? then "tombstone"
    else match r.op
      case Snapshot => "r"
      case Create => "c"
      case Update => "u"
      case Delete => "d"
  }

  function Count(records: seq<Record>, opName: string): nat {
    if records == [] then 0
    else Count(records[..|records| - 1], opName) + if Label(records[|records| - 1]) == opName then 1 else 0
  }

  function GetOr(counts: map<string, nat>, opName: string): nat {
    if opName in counts then counts[opName] else 0
  }

  method OpCounts(events: seq<Record>) returns (counts: map<string, nat>)
    ensures forall opName :: opName in counts <==> Count(events, opName) > 0
    ensures forall opName | opName in counts :: counts[opName] == Count(events, opName)
  {
    counts := map[];
    for i := 0 to |events|
      invariant forall opName :: opName in counts <==> Count(events[..i], opName) > 0
      invariant forall opName | opName in counts :: counts[opName] == Count(events[..i], opName)
    {
      var k := Label(events[i]);
      assert events[..i + 1][..i] == events[..i];
      counts := counts[k := GetOr(counts, k) + 1];
    }
    assert events[..|events|] == events;
  }

  /** Where a history holds an event with this operation. */
  function EventsAt(records: seq<Record>, op: Op): set<nat> {
    set i: nat | i < |records| && records[i].Event? && records[i].op == op
  }

  function TombstonesAt(records: seq<Record>): set<nat> {
    set i: nat | i < |records| && records[i].Tombstone?
  }

  lemma EventsAtStep(records: seq<Record>, op: Op)
    requires records != []
    ensures var n := |records| - 1;
            |EventsAt(records, op)| ==
            |EventsAt(records[..n], op)| + if records[n].Event? && records[n].op == op then 1 else 0
  {
    var n := |records| - 1;
    assert EventsAt(records, op) ==
           EventsAt(records[..n], op) + if records[n].Event? && records[n].op == op then {n} else {};
  }

  lemma TombstonesAtStep(records: seq<Record>)
    requires records != []
    ensures var n := |records| - 1;
            |TombstonesAt(records)| == |TombstonesAt(records[..n])| + if records[n].Tombstone? then 1 else 0
  {
    var n := |records| - 1;
    assert TombstonesAt(records) == TombstonesAt(records[..n]) + if records[n].Tombstone? then {n} else {};
  }

  /** What each label counts: "r" the snapshots, "c" the creates, "u" the updates, "d" the
      deletes, "tombstone" the records without a value, and any other label nothing. */
  lemma {:induction false} CountsByOperation(records: seq<Record>, other: string)
    requires other !in {"r", "c", "u", "d", "tombstone"}
    ensures Count(records, "r") == |EventsAt(records, Snapshot)|
    ensures Count(records, "c") == |EventsAt(records, Create)|
    ensures Count(records, "u") == |EventsAt(records, Update)|
    ensures Count(records, "d") == |EventsAt(records, Delete)|
    ensures Count(records, "tombstone") == |TombstonesAt(records)|
    ensures Count(records, other) == 0
  {
    if records != [] {
      CountsByOperation(records[..|records| - 1], other);
      EventsAtStep(records, Snapshot);
      EventsAtStep(records, Create);
      EventsAtStep(records, Update);
      EventsAtStep(records, Delete);
      TombstonesAtStep(records);
      LabelsDiffer();
    }
  }

  lemma CountConcat(a: seq<Record>, b: seq<Record>, opName: string)
    ensures Count(a + b, opName) == Count(a, opName) + Count(b, opName)
  {
    if b == [] {
      assert a + b == a;
    } else {
      assert (a + b)[..|a + b| - 1] == a + b[..|b| - 1];
    }
  }

  /** The counts of the five labels account for every record. */
  lemma {:induction false} CountsAddUp(records: seq<Record>)
    ensures Count(records, "r") + Count(records, "c") + Count(records, "u") + Count(records, "d")
            + Count(records, "tombstone") == |records|
  {
    if records != [] {
      CountsAddUp(records[..|records| - 1]);
      var r := records[|records| - 1];
      assert Label(r) in {"r", "c", "u", "d", "tombstone"};
      LabelsDiffer();
    }
  }

  lemma LabelsDiffer()
    ensures "r" != "c" && "r" != "u" && "r" != "d" && "c" != "u" && "c" != "d" && "u" != "d"
    ensures |"tombstone"| == 9 && |"r"| == |"c"| == |"u"| == |"d"| == 1
  {
  }

  /** What the last event of a history adds to one count. */
  lemma TopicCountStep(history: seq<Record>, opName: string)
    requires history != []
    ensures var e := history[|history| - 1];
            Count(Topic(history), opName) ==
            Count(Topic(history[..|history| - 1]), opName)
            + (if Label(e) == opName then 1 else 0)
            + (if e.Event? && e.op.Delete? && opName == "tombstone" then 1 else 0)
  {
    var init, e := history[..|history| - 1], history[|history| - 1];
    assert [e][..0] == [] && [Tombstone][..0] == [];
    CountConcat(Topic(init), [e], opName);
    if e.Event? && e.op.Delete? {
      CountConcat(Topic(init) + [e], [Tombstone], opName);
    } else {
      assert Topic(init) + [e] + [] == Topic(init) + [e];
    }
  }

  lemma {:induction false} ReplaySizeStep(history: seq<Record>)
    requires TableHistory(history) && history != []
    ensures TableHistory(history[..|history| - 1])
    ensures var e := history[|history| - 1];
            |Replay(history)| == |Replay(history[..|history| - 1])|
                                 + (match e.op case Delete => -1 case Update => 0 case _ => 1)
  {
  }

  /** On the duplicate-free topic of a table: live rows are snapshots plus creates minus
      deletes, and there is one tombstone a delete. */
  lemma {:induction false} LiveRows(history: seq<Record>)
    requires TableHistory(history)
    ensures |Replay(history)| ==
            Count(Topic(history), "r") + Count(Topic(history), "c") - Count(Topic(history), "d")
    ensures Count(Topic(history), "tombstone") == Count(Topic(history), "d")
  {
    if history != [] {
      ReplaySizeStep(history);
      LiveRows(history[..|history| - 1]);
      LabelsDiffer();
      TopicCountStep(history, "r");
      TopicCountStep(history, "c");
      TopicCountStep(history, "d");
      TopicCountStep(history, "tombstone");
      assert WellFormed(history[|history| - 1]);
    }
  }

  lemma {:induction false} TopicMembers(history: seq<Record>, r: Record)
    ensures r in history ==> r in Topic(history)
    ensures r in Topic(history) ==> r.Tombstone? || r in history
  {
    if history != [] {
      TopicMembers(history[..|history| - 1], r);
      assert history == history[..|history| - 1] + [history[|history| - 1]];
    }
  }

  /** The rows of the mirror can be counted from the duplicate-free topic, even when the
      mirror was fed a log with duplicates, reordering and missing superseded events. */
  lemma MirrorRowCount(history: seq<Record>, log: seq<Record>, latest: seq<LogChange>)
    requires TableHistory(history) && Delivers(history, log)
    requires IsLatest(Changes(log), latest)
    ensures var t := Topic(history);
            |MirrorOf(latest)| == Count(t, "r") + Count(t, "c") - Count(t, "d")
    ensures Delivers(history, Topic(history))
  {
    MirrorEqualsSource(history, log, latest);
    RepresentsSize(MirrorOf(latest), Replay(history));
    LiveRows(history);
    forall r ensures r in history ==> r in Topic(history) {
      TopicMembers(history, r);
    }
    forall r | r in Topic(history) ensures r.Tombstone? || r in history {
      TopicMembers(history, r);
    }
  }

  // ----- The ingest stage -----

  class Mirror {
    var rows: seq<Row<Values>>

    constructor ()
      ensures rows == []
    {
      rows := [];
    }

    /** MERGE of one batch, in whichever way the engine deduplicated it; a refused MERGE would
        leave the table alone. */
    method MergeBatch(batch: seq<LogChange>, latest: seq<LogChange>) returns (accepted: bool)
      requires IsLatest(batch, latest)
      modifies this
      ensures accepted && rows == ApplyLatest(old(rows), latest)
      ensures KeysDistinct(old(rows)) ==> KeysDistinct(rows)
      ensures KeysDistinct(old(rows)) && KeysPresent(old(rows)) && NullIdsDeleted(batch) ==> KeysPresent(rows)
    {
      MergeSourceKeys(latest);
      OneChangeAKeyIsUnambiguous(rows, MergeSource(latest));
      if KeysDistinct(rows) {
        BatchKeys(rows, batch, latest);
      }
      var merged := Merge(rows, MergeSource(latest));
      accepted := merged.Ok?;
      if merged.Ok? {
        rows := merged.value;
      }
    }

    /** DROP, CREATE, then one MERGE of the whole topic. */
    method Ingest(log: seq<Record>, latest: seq<LogChange>) returns (count: nat)
      requires IsLatest(Changes(log), latest)
      modifies this
      ensures rows == MirrorOf(latest)
      ensures count == |rows|
      ensures KeysDistinct(rows)
      ensures KeysPresent(rows) <==> forall c | c in latest && c.id.None? :: c.op.Delete?
      ensures forall history | ValidHistory(history) && Delivers(history, log) :: Represents(rows, Replay(history))
    {
      rows := [];
      var accepted := MergeBatch(Changes(log), latest);
      count := |rows|;
      IdExpectations(Changes(log), latest);
      forall history | ValidHistory(history) && Delivers(history, log) ensures Represents(rows, Replay(history)) {
        MirrorEqualsSource(history, log, latest);
      }
    }
  }

  /** The two id expectations of the quality gate, however ties are broken: unique on every
      log; non-null exactly when no live row comes from a change without an id. */
  lemma IdExpectations(changes: seq<LogChange>, latest: seq<LogChange>)
    requires IsLatest(changes, latest)
    ensures KeysDistinct(MirrorOf(latest))
    ensures KeysPresent(MirrorOf(latest)) <==> forall c | c in latest && c.id.None? :: c.op.Delete?
  {
    MergeSourceKeys(latest);
    MergeKeys([], MergeSource(latest));
    var source := MergeSource(latest);
    forall c | c in latest ensures AsChange(c) in source {
      var i :| 0 <= i < |latest| && latest[i] == c;
      assert source[i] == AsChange(c);
    }
    forall s | s in source ensures exists c :: c in latest && AsChange(c) == s {
      var i :| 0 <= i < |source| && source[i] == s;
      assert latest[i] in latest;
    }
  }
}
