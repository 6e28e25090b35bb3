/** The CDC replica: a log of Debezium records, deduplicated by LSN and MERGEd into a mirror. */
module CdcReplica {
  import opened Results
  import opened KeyedTable

  datatype Op = Snapshot | Create | Update | Delete

  /** The columns of an order besides its id; amounts are in cents. */
  datatype Values = Values(customer: Option<string>, amount: Option<int>, status: Option<string>, updated: Option<int>)

  datatype Image = Image(id: Option<int>, vals: Values)

  const NO_VALUES := Values(None, None, None, None)

  /** A record of the topic: the null-valued one after a delete, or an envelope. */
  datatype Record =
    | Tombstone
    | Event(op: Op, lsn: Option<int>, before: Option<Image>, after: Option<Image>)

  /** An envelope flattened to one row. */
  datatype LogChange = LogChange(op: Op, lsn: Option<int>, id: Option<int>, vals: Values)

  function IdOf(r: Record): Option<int> {
    if r.Tombstone? then None
    else if r.after.Some? && r.after.value.id.Some? then r.after.value.id
    else if r.before.Some? then r.before.value.id
    else None
  }

  function Flatten(r: Record): LogChange
    requires r.Event?
  {
    LogChange(r.op, r.lsn, IdOf(r), if r.after.Some? then r.after.value.vals else NO_VALUES)
  }

  /** `coalesce(after.id, before.id)` for an envelope of any shape, and the columns of the new
      image, all NULL without one. */
  lemma FlattenReads(r: Record, id: int)
    requires r.Event?
    ensures Flatten(r).id == Some(id) <==>
            (r.after.Some? && r.after.value.id == Some(id)) ||
            ((r.after.None? || r.after.value.id == None) && r.before.Some? && r.before.value.id == Some(id))
    ensures r.after.Some? ==> Flatten(r).vals == r.after.value.vals
    ensures r.after.None? ==> Flatten(r).vals == Values(None, None, None, None)
    ensures Flatten(r).op == r.op && Flatten(r).lsn == r.lsn
  {
  }

  function Changes(log: seq<Record>): seq<LogChange> {
    if log == [] then []
    else (if log[0].Event? then [Flatten(log[0])] else []) + Changes(log[1..])
  }

  /** The order of LSNs with NULL at the bottom, as `desc_nulls_last` reads it. */
  predicate AtMost(a: Option<int>, b: Option<int>) {
    a.None? || (b.Some? && a.value <= b.value)
  }

  predicate IdsDistinct(changes: seq<LogChange>) {
    forall i, j | 0 <= i < j < |changes| :: changes[i].id != changes[j].id
  }

  ghost predicate HasId(changes: seq<LogChange>, id: Option<int>) {
    exists c :: c in changes && c.id == id
  }

  /** A change of its id with the greatest LSN. */
  predicate IsNewest(changes: seq<LogChange>, l: LogChange) {
    l in changes && forall c | c in changes && c.id == l.id :: AtMost(c.lsn, l.lsn)
  }

  /** One outcome of `row_number() = 1` over the LSNs of each id: the engine may break
      ties as it likes. */
  ghost predicate IsLatest(changes: seq<LogChange>, latest: seq<LogChange>) {
    && IdsDistinct(latest)
    && (forall l | l in latest :: IsNewest(changes, l))
    && (forall c | c in changes :: HasId(latest, c.id))
  }

  /** `best` after one more change: a newer change of an id takes the place of the older one. */
  function Offer(best: seq<LogChange>, c: LogChange): seq<LogChange> {
    if best == [] then [c]
    else if best[0].id == c.id then [if AtMost(c.lsn, best[0].lsn) then best[0] else c] + best[1..]
    else [best[0]] + Offer(best[1..], c)
  }

  function Latest(changes: seq<LogChange>): seq<LogChange> {
    if changes == [] then []
    else Offer(Latest(changes[..|changes| - 1]), changes[|changes| - 1])
  }

  function MergeSource(latest: seq<LogChange>): seq<Change<Values>> {
    seq(|latest|, i requires 0 <= i < |latest| => AsChange(latest[i]))
  }

  // ----- Deduplication -----

  lemma {:induction false} OfferIds(best: seq<LogChange>, c: LogChange)
    ensures forall id :: HasId(Offer(best, c), id) <==> HasId(best, id) || id == c.id
  {
    var r := Offer(best, c);
    if best == [] {
      assert c in r;
    } else if best[0].id == c.id {
      assert best == [best[0]] + best[1..];
      assert r[0] in r;
      forall id ensures HasId(r, id) <==> HasId(best, id) {
        if x :| x in best && x.id == id && id != c.id {
          assert x in best[1..];
          assert x in r;
        }
      }
    } else {
      var rest := Offer(best[1..], c);
      OfferIds(best[1..], c);
      assert best == [best[0]] + best[1..];
      HasIdCons(best[0], best[1..]);
      HasIdCons(best[0], rest);
    }
  }

  lemma {:induction false} HasIdCons(x: LogChange, xs: seq<LogChange>)
    ensures forall id :: HasId([x] + xs, id) <==> x.id == id || HasId(xs, id)
  {
  }

  lemma {:induction false} OfferDistinct(best: seq<LogChange>, c: LogChange)
    requires IdsDistinct(best)
    ensures IdsDistinct(Offer(best, c))
  {
    if best != [] && best[0].id != c.id {
      var rest := Offer(best[1..], c);
      OfferDistinct(best[1..], c);
      OfferIds(best[1..], c);
      forall i | 0 <= i < |rest| ensures rest[i].id != best[0].id {
        assert rest[i] in rest && HasId(rest, rest[i].id);
        if rest[i].id != c.id {
          var b :| b in best[1..] && b.id == rest[i].id;
          var j :| 0 <= j < |best[1..]| && best[1..][j] == b;
          assert best[j + 1] == b;
        }
      }
    }
  }

  lemma {:induction false} OfferNewest(best: seq<LogChange>, c: LogChange, l: LogChange)
    requires IdsDistinct(best) && l in Offer(best, c)
    ensures l == c || l in best
    ensures l.id == c.id ==> AtMost(c.lsn, l.lsn) && forall b | b in best && b.id == c.id :: AtMost(b.lsn, l.lsn)
    ensures l.id != c.id ==> l in best
  {
    if best != [] {
      assert best == [best[0]] + best[1..];
      if best[0].id == c.id {
        forall b | b in best[1..] ensures b.id != c.id {
          var j :| 0 <= j < |best[1..]| && best[1..][j] == b;
          assert best[j + 1] == b;
        }
      } else if l != best[0] {
        OfferNewest(best[1..], c, l);
      } else if l.id == c.id {
        assert false;
      }
    }
  }

  /** The pure dedup is one outcome of the window query; NULL LSNs lose to all others. */
  lemma {:induction false} LatestIsLatest(changes: seq<LogChange>)
    ensures IsLatest(changes, Latest(changes))
    ensures forall l, c | l in Latest(changes) && c in changes && c.id == l.id && c.lsn.Some? ::
              l.lsn.Some? && c.lsn.value <= l.lsn.value
  {
    if changes != [] {
      var init, c := changes[..|changes| - 1], changes[|changes| - 1];
      var best, latest := Latest(init), Latest(changes);
      LatestIsLatest(init);
      OfferDistinct(best, c);
      OfferIds(best, c);
      assert changes == init + [c];
      forall l | l in latest ensures IsNewest(changes, l) {
        OfferNewest(best, c, l);
        assert l in best ==> IsNewest(init, l);
        if l.id == c.id {
          forall x | x in init && x.id == c.id ensures AtMost(x.lsn, l.lsn) {
            assert HasId(best, x.id);
            var b :| b in best && b.id == x.id;
            assert IsNewest(init, b);
          }
        }
      }
      forall x | x in changes ensures HasId(latest, x.id) {
        if x in init {
          assert HasId(best, x.id);
        }
      }
    }
  }

  lemma {:induction false} MergeSourceKeys(latest: seq<LogChange>)
    requires IdsDistinct(latest)
    ensures OneChangeAKey(MergeSource(latest))
  {
  }

  function AsChange(l: LogChange): Change<Values> {
    Change(l.id, l.op.Delete?, l.vals)
  }

  /** The deduplicated source holds, for an id of the log, one of its newest changes. */
  lemma LatestMatch(changes: seq<LogChange>, latest: seq<LogChange>, k: int) returns (l: Option<LogChange>)
    requires IsLatest(changes, latest)
    ensures l.None? <==> !HasId(changes, Some(k))
    ensures l.Some? ==> l.value in latest && IsNewest(changes, l.value) && l.value.id == Some(k)
    ensures FirstMatch(MergeSource(latest), Some(k)) == if l.Some? then Some(AsChange(l.value)) else None
  {
    var source := MergeSource(latest);
    FirstMatchIsIn(source, Some(k));
    var s := FirstMatch(source, Some(k));
    if s.Some? {
      var i :| 0 <= i < |source| && source[i] == s.value;
      assert latest[i] in latest;
      assert IsNewest(changes, latest[i]);
      l := Some(latest[i]);
    } else {
      l := None;
      forall x | x in latest ensures x.id != Some(k) {
        var i :| 0 <= i < |latest| && latest[i] == x;
        assert source[i] in source;
      }
    }
  }

  // ----- The source database -----

  /** An event as Debezium writes it for a row with a primary key: a delete has the old image
      only, anything else has the new one. */
  predicate WellFormed(e: Record) {
    && e.Event? && e.lsn.Some?
    && (if e.op.Delete? then e.after.None? && e.before.Some? && e.before.value.id.Some?
        else e.after.Some? && e.after.value.id.Some?)
  }

  predicate Earlier(a: Record, b: Record) {
    a.Event? && b.Event? && a.lsn.Some? && b.lsn.Some? && a.lsn.value < b.lsn.value
  }

  predicate AllWellFormed(history: seq<Record>) {
    forall e | e in history :: WellFormed(e)
  }

  /** The changes of a source table in commit order: the LSNs of one id increase. */
  predicate ValidHistory(history: seq<Record>) {
    && AllWellFormed(history)
    && (forall i, j | 0 <= i < j < |history| && IdOf(history[i]) == IdOf(history[j]) ::
          Earlier(history[i], history[j]))
  }

  function Replayed(table: map<int, Values>, e: Record): map<int, Values>
    requires WellFormed(e)
  {
    if e.op.Delete? then table - {e.before.value.id.value}
    else table[e.after.value.id.value := e.after.value.vals]
  }

  /** The source table after its history. */
  function Replay(history: seq<Record>): map<int, Values>
    requires AllWellFormed(history)
  {
    if history == [] then map[]
    else Replayed(Replay(history[..|history| - 1]), history[|history| - 1])
  }

  /** No event of the same id has a greater LSN. */
  predicate NewestEvent(history: seq<Record>, e: Record) {
    e.Event? && e in history &&
    forall x | x in history && x.Event? && IdOf(x) == IdOf(e) :: AtMost(x.lsn, e.lsn)
  }

  /** What the topic may hold: records of the history in any order and multiplicity,
      tombstones anywhere, and at least the newest event of every id. */
  ghost predicate Delivers(history: seq<Record>, log: seq<Record>) {
    && (forall r | r in log :: r.Tombstone? || r in history)
    && (forall e | NewestEvent(history, e) :: e in log)
  }

  lemma {:induction false} ChangesOf(log: seq<Record>, c: LogChange)
    ensures c in Changes(log) <==> exists r :: r in log && r.Event? && c == Flatten(r)
  {
    if log != [] {
      ChangesOf(log[1..], c);
      assert log == [log[0]] + log[1..];
      if r :| r in log && r.Event? && c == Flatten(r) {
        assert r == log[0] || r in log[1..];
      }
      if c in Changes(log[1..]) {
        var r :| r in log[1..] && r.Event? && c == Flatten(r);
        assert r in log;
      }
    }
  }

  /** Replay at one id: its newest event decides. */
  lemma {:induction false} ReplayAt(history: seq<Record>, k: int) returns (last: Option<Record>)
    requires ValidHistory(history)
    ensures last.None? ==> k !in Replay(history) && forall e | e in history :: IdOf(e) != Some(k)
    ensures last.Some? ==> NewestEvent(history, last.value) && IdOf(last.value) == Some(k)
    ensures last.Some? ==>
              forall e | e in history && IdOf(e) == Some(k) :: e == last.value || Earlier(e, last.value)
    ensures last.Some? ==> WellFormed(last.value) && Get(Replay(history), k) ==
                           if last.value.op.Delete? then None else Some(last.value.after.value.vals)
  {
    if history == [] {
      last := None;
    } else {
      var init, e := history[..|history| - 1], history[|history| - 1];
      assert history == init + [e];
      assert ValidHistory(init) by {
        assert forall x | x in init :: x in history;
      }
      assert WellFormed(e);
      if IdOf(e) == Some(k) {
        last := Some(e);
        forall x | x in init && IdOf(x) == Some(k) ensures Earlier(x, e) {
          var i :| 0 <= i < |init| && init[i] == x;
          assert history[i] == x;
        }
      } else {
        last := ReplayAt(init, k);
      }
    }
  }

  /** The mirror that `ingest` builds from a deduplicated change set. */
  function MirrorOf(latest: seq<LogChange>): seq<Row<Values>> {
    MergedRows([], MergeSource(latest))
  }

  /** The mirror is the source table, whatever duplication and reordering the log has and
      however the engine breaks LSN ties; and MERGE never sees two changes of one row. */
  lemma MirrorEqualsSource(history: seq<Record>, log: seq<Record>, latest: seq<LogChange>)
    requires ValidHistory(history) && Delivers(history, log)
    requires IsLatest(Changes(log), latest)
    ensures Merge([], MergeSource(latest)) == Ok(MirrorOf(latest))
    ensures Represents(MirrorOf(latest), Replay(history))
  {
    var source := MergeSource(latest);
    MergeSourceKeys(latest);
    OneChangeAKeyIsUnambiguous([], source);
    MergeKeys([], source);
    forall s | s in source ensures s.key.Some? {
      var i :| 0 <= i < |source| && source[i] == s;
      assert IsNewest(Changes(log), latest[i]);
      ChangesOf(log, latest[i]);
      var r :| r in log && r.Event? && latest[i] == Flatten(r);
      assert WellFormed(r);
    }
    forall k ensures Find(MirrorOf(latest), k) == Get(Replay(history), k) {
      MirrorAt(history, log, latest, k);
    }
  }

  lemma MirrorAt(history: seq<Record>, log: seq<Record>, latest: seq<LogChange>, k: int)
    requires ValidHistory(history) && Delivers(history, log)
    requires IsLatest(Changes(log), latest)
    ensures Find(MirrorOf(latest), k) == Get(Replay(history), k)
  {
    var last := ReplayAt(history, k);
    var l := LatestMatch(Changes(log), latest, k);
    MergeSourceKeys(latest);
    MergeFind([], MergeSource(latest), k);
    if l.Some? {
      ChangesOf(log, l.value);
      var r :| r in log && r.Event? && l.value == Flatten(r);
      assert r in history;
      assert Flatten(last.value) in Changes(log) by {
        ChangesOf(log, Flatten(last.value));
      }
      assert r == last.value;
    } else if last.Some? {
      ChangesOf(log, Flatten(last.value));
      assert HasId(Changes(log), Some(k));
    }
  }

  // ----- LSN ties -----

  /** The two changes do the same to an empty mirror. */
  predicate SameEffect(a: LogChange, b: LogChange) {
    (a.op.Delete? && b.op.Delete?) || (!a.op.Delete? && !b.op.Delete? && a.vals == b.vals)
  }

  /** All newest changes of an id have one effect; a missing id counts as one more id. */
  predicate TiesAgree(changes: seq<LogChange>) {
    forall a, b | a in changes && b in changes && a.id == b.id
                  && IsNewest(changes, a) && IsNewest(changes, b) :: SameEffect(a, b)
  }

  /** The row that a change puts into an empty mirror. */
  predicate Shows(l: LogChange, r: Row<Values>) {
    !l.op.Delete? && l.id == r.key && l.vals == r.val
  }

  ghost predicate SomeShows(latest: seq<LogChange>, r: Row<Values>) {
    exists l :: l in latest && Shows(l, r)
  }

  lemma MirrorHead(latest: seq<LogChange>)
    requires latest != []
    ensures MirrorOf(latest) ==
            (if latest[0].op.Delete? then [] else [Row(latest[0].id, latest[0].vals)]) + MirrorOf(latest[1..])
  {
    assert MergeSource(latest)[1..] == MergeSource(latest[1..]);
  }

  /** The rows of the mirror, with their multiplicity, NULL keys included. */
  lemma {:induction false} MirrorRows(latest: seq<LogChange>, r: Row<Values>)
    requires IdsDistinct(latest)
    ensures multiset(MirrorOf(latest))[r] == if SomeShows(latest, r) then 1 else 0
    decreases |latest|
  {
    if latest != [] {
      MirrorRows(latest[1..], r);
      MirrorHead(latest);
      SomeShowsTail(latest, r);
    }
  }

  lemma SomeShowsTail(latest: seq<LogChange>, r: Row<Values>)
    requires latest != []
    ensures SomeShows(latest, r) <==> Shows(latest[0], r) || SomeShows(latest[1..], r)
    ensures IdsDistinct(latest) && Shows(latest[0], r) ==> !SomeShows(latest[1..], r)
  {
  }

  /** The dedup outcome that takes a given newest change of its id. */
  lemma Choose(changes: seq<LogChange>, a: LogChange) returns (latest: seq<LogChange>)
    requires IsNewest(changes, a)
    ensures IsLatest(changes, latest) && a in latest
  {
    var base := Latest(changes);
    LatestIsLatest(changes);
    assert HasId(base, a.id);
    var l :| l in base && l.id == a.id;
    var i :| 0 <= i < |base| && base[i] == l;
    latest := base[i := a];
    assert latest[i] == a;
    forall x | x in latest ensures IsNewest(changes, x) {
      var j :| 0 <= j < |latest| && latest[j] == x;
      assert j != i ==> base[j] in base;
    }
    forall c | c in changes ensures HasId(latest, c.id) {
      assert HasId(base, c.id);
      var x :| x in base && x.id == c.id;
      var j :| 0 <= j < |base| && base[j] == x;
      assert latest[j] in latest && latest[j].id == c.id;
    }
  }

  lemma OneChangeAnId(latest: seq<LogChange>, a: LogChange, b: LogChange)
    requires IdsDistinct(latest) && a in latest && b in latest && a.id == b.id
    ensures a == b
  {
  }

  lemma AgreeingTiesShowTheSame(changes: seq<LogChange>, x: seq<LogChange>, y: seq<LogChange>, r: Row<Values>)
    requires TiesAgree(changes) && IsLatest(changes, x) && IsLatest(changes, y) && SomeShows(x, r)
    ensures SomeShows(y, r)
  {
  }

  lemma SameMirrorSameEffect(x: seq<LogChange>, y: seq<LogChange>, a: LogChange, b: LogChange)
    requires IdsDistinct(x) && IdsDistinct(y) && a in x && b in y && a.id == b.id && !a.op.Delete?
    requires multiset(MirrorOf(x)) == multiset(MirrorOf(y))
    ensures SameEffect(a, b)
  {
    var r := Row(a.id, a.vals);
    MirrorRows(x, r);
    MirrorRows(y, r);
    assert Shows(a, r);
    var l :| l in y && Shows(l, r);
    OneChangeAnId(y, l, b);
  }

  /** The mirror holds the same rows however the engine breaks ties exactly when all newest
      changes of every id, and of the missing id, have one effect. */
  lemma DeterminedIffTiesAgree(changes: seq<LogChange>)
    ensures (forall x, y | IsLatest(changes, x) && IsLatest(changes, y) ::
               multiset(MirrorOf(x)) == multiset(MirrorOf(y)))
            <==> TiesAgree(changes)
  {
    if TiesAgree(changes) {
      forall x, y | IsLatest(changes, x) && IsLatest(changes, y)
        ensures multiset(MirrorOf(x)) == multiset(MirrorOf(y))
      {
        forall r: Row<Values> ensures multiset(MirrorOf(x))[r] == multiset(MirrorOf(y))[r] {
          MirrorRows(x, r);
          MirrorRows(y, r);
          if SomeShows(x, r) {
            AgreeingTiesShowTheSame(changes, x, y, r);
          } else if SomeShows(y, r) {
            AgreeingTiesShowTheSame(changes, y, x, r);
          }
        }
      }
    }
    if forall x, y | IsLatest(changes, x) && IsLatest(changes, y) :: multiset(MirrorOf(x)) == multiset(MirrorOf(y)) {
      forall a, b | a in changes && b in changes && a.id == b.id && IsNewest(changes, a) && IsNewest(changes, b)
        ensures SameEffect(a, b)
      {
        var x := Choose(changes, a);
        var y := Choose(changes, b);
        assert multiset(MirrorOf(x)) == multiset(MirrorOf(y));
        if !a.op.Delete? {
          SameMirrorSameEffect(x, y, a, b);
        } else if !b.op.Delete? {
          SameMirrorSameEffect(y, x, b, a);
        }
      }
    }
  }
}
