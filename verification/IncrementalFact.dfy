/** The incremental fact table: MERGE of the rows past an event-time watermark, with a lookback. */
module IncrementalFact {
  import opened Results
  import opened KeyedTable

  datatype Details = Details(customer: string, amount: int, status: string)

  /** `orderedAt` is the event time, `loadedAt` the load time, both in seconds and nullable. */
  datatype Order = Order(id: int, orderedAt: Option<int>, loadedAt: Option<int>, details: Details)

  /** The variables of one run: what has landed, and how many hours to look back. */
  datatype Run = Run(loadThrough: int, lookback: nat)

  const SECONDS_AN_HOUR := 3600

  predicate IsAvailable(o: Order, loadThrough: int) {
    o.loadedAt.Some? && o.loadedAt.value <= loadThrough
  }

  /** `ordered_at > bound`: NULL on either side is Unknown and selects nothing. */
  predicate IsNewer(o: Order, bound: Option<int>) {
    o.orderedAt.Some? && bound.Some? && o.orderedAt.value > bound.value
  }

  /** The staging view. */
  function Available(raw: seq<Order>, loadThrough: int): seq<Order> {
    if raw == [] then []
    else (if IsAvailable(raw[0], loadThrough) then [raw[0]] else []) + Available(raw[1..], loadThrough)
  }

  function NewerThan(orders: seq<Order>, bound: Option<int>): seq<Order> {
    if orders == [] then []
    else (if IsNewer(orders[0], bound) then [orders[0]] else []) + NewerThan(orders[1..], bound)
  }

  /** `max(ordered_at)`: NULLs are skipped, and the maximum of nothing is NULL. */
  function MaxEvent(orders: seq<Order>): Option<int> {
    if orders == [] then None
    else
      var rest := MaxEvent(orders[1..]);
      if orders[0].orderedAt.None? then rest
      else if rest.None? || rest.value < orders[0].orderedAt.value then orders[0].orderedAt
      else rest
  }

  function Minus(watermark: Option<int>, lookback: int): Option<int> {
    if watermark.None? then None else Some(watermark.value - lookback * SECONDS_AN_HOUR)
  }

  function AsRow(o: Order): Row<Order> {
    Row(Some(o.id), o)
  }

  function AsUpsert(o: Order): Change<Order> {
    Change(Some(o.id), false, o)
  }

  function AsRows(orders: seq<Order>): seq<Row<Order>> {
    seq(|orders|, i requires 0 <= i < |orders| => AsRow(orders[i]))
  }

  function Upserts(orders: seq<Order>): seq<Change<Order>> {
    seq(|orders|, i requires 0 <= i < |orders| => AsUpsert(orders[i]))
  }

  function Stored(table: seq<Row<Order>>): seq<Order> {
    seq(|table|, i requires 0 <= i < |table| => table[i].val)
  }

  function FullBuild(raw: seq<Order>, loadThrough: int): seq<Row<Order>> {
    AsRows(Available(raw, loadThrough))
  }

  /** What the incremental filter hands to MERGE. */
  function Slice(table: seq<Row<Order>>, raw: seq<Order>, run: Run): seq<Change<Order>> {
    Upserts(NewerThan(Available(raw, run.loadThrough), Minus(MaxEvent(Stored(table)), run.lookback)))
  }

  /** The table after a first build and incremental runs. */
  function Fact(raw: seq<Order>, runs: seq<Run>): seq<Row<Order>>
    requires runs != []
  {
    var run := runs[|runs| - 1];
    if |runs| == 1 then FullBuild(raw, run.loadThrough)
    else
      var before := Fact(raw, runs[..|runs| - 1]);
      MergedRows(before, Slice(before, raw, run))
  }

  // ----- Which rows a sequence of runs captures -----

  predicate UniqueIds(raw: seq<Order>) {
    forall i, j | 0 <= i < j < |raw| :: raw[i].id != raw[j].id
  }

  predicate Growing(runs: seq<Run>) {
    forall i, j | 0 <= i < j < |runs| :: runs[i].loadThrough <= runs[j].loadThrough
  }

  function MaxAvailable(raw: seq<Order>, loadThrough: int): Option<int> {
    MaxEvent(Available(raw, loadThrough))
  }

  /** The row has an event time later than that of every row that the run before could see,
      less the lookback; and the first build saw an event time at all, for without one the
      watermark stays NULL and nothing is past it. Told from the raw rows alone. */
  predicate IsPastBound(raw: seq<Order>, runs: seq<Run>, i: nat, o: Order)
    requires 0 < i < |runs|
  {
    && o.orderedAt.Some?
    && SeesEvent(raw, runs[0].loadThrough)
    && forall s | s in raw && s.orderedAt.Some? && s.loadedAt.Some? && s.loadedAt.value <= runs[i - 1].loadThrough ::
         o.orderedAt.value > s.orderedAt.value - 3600 * runs[i].lookback
  }

  predicate SeesEvent(raw: seq<Order>, loadThrough: int) {
    exists s :: s in raw && s.orderedAt.Some? && s.loadedAt.Some? && s.loadedAt.value <= loadThrough
  }

  /** Run `i` sees the row, which landed in time, and its filter lets it through. */
  predicate Takes(raw: seq<Order>, runs: seq<Run>, i: nat, o: Order)
    requires i < |runs|
  {
    o.loadedAt.Some? && o.loadedAt.value <= runs[i].loadThrough && (i > 0 ==> IsPastBound(raw, runs, i, o))
  }

  predicate Captured(raw: seq<Order>, runs: seq<Run>, o: Order) {
    exists i | 0 <= i < |runs| :: Takes(raw, runs, i, o)
  }

  function OrderWith(raw: seq<Order>, k: int): Option<Order> {
    if raw == [] then None else if raw[0].id == k then Some(raw[0]) else OrderWith(raw[1..], k)
  }

  lemma {:induction false} OrderWithIsIn(raw: seq<Order>, k: int)
    ensures var o := OrderWith(raw, k); o.Some? ==> o.value in raw && o.value.id == k
    ensures UniqueIds(raw) ==> forall o | o in raw && o.id == k :: OrderWith(raw, k) == Some(o)
  {
    if raw != [] {
      OrderWithIsIn(raw[1..], k);
      assert raw == [raw[0]] + raw[1..];
      if UniqueIds(raw) && raw[0].id == k {
        forall o | o in raw[1..] ensures o.id != k {
          var j :| 0 <= j < |raw[1..]| && raw[1..][j] == o;
          assert raw[j + 1] == o;
        }
      }
    }
  }

  lemma {:induction false} AvailableMembers(raw: seq<Order>, loadThrough: int)
    ensures forall o :: o in Available(raw, loadThrough) <==> o in raw && IsAvailable(o, loadThrough)
    ensures UniqueIds(raw) ==> UniqueIds(Available(raw, loadThrough))
  {
    if raw != [] {
      AvailableMembers(raw[1..], loadThrough);
      assert raw == [raw[0]] + raw[1..];
      FilterUnique(raw, Available(raw[1..], loadThrough));
    }
  }

  lemma {:induction false} NewerThanMembers(orders: seq<Order>, bound: Option<int>)
    ensures forall o :: o in NewerThan(orders, bound) <==> o in orders && IsNewer(o, bound)
    ensures UniqueIds(orders) ==> UniqueIds(NewerThan(orders, bound))
  {
    if orders != [] {
      NewerThanMembers(orders[1..], bound);
      assert orders == [orders[0]] + orders[1..];
      FilterUnique(orders, NewerThan(orders[1..], bound));
    }
  }

  lemma FilterUnique(orders: seq<Order>, rest: seq<Order>)
    requires orders != [] && (forall o | o in rest :: o in orders[1..])
    ensures UniqueIds(orders) ==> UniqueIds(orders[1..])
    ensures UniqueIds(orders) && UniqueIds(rest) ==> UniqueIds([orders[0]] + rest)
  {
    if UniqueIds(orders) {
      assert forall i | 0 <= i < |orders[1..]| :: orders[1..][i] == orders[i + 1];
      forall i | 0 <= i < |rest| ensures rest[i].id != orders[0].id {
        assert rest[i] in rest;
        var j :| 0 <= j < |orders[1..]| && orders[1..][j] == rest[i];
        assert orders[j + 1] == rest[i];
      }
    }
  }

  lemma {:induction false} MaxEventIsMax(orders: seq<Order>)
    ensures MaxEvent(orders).Some? ==> exists o :: o in orders && o.orderedAt == MaxEvent(orders)
    ensures forall o | o in orders && o.orderedAt.Some? ::
              MaxEvent(orders).Some? && o.orderedAt.value <= MaxEvent(orders).value
  {
    if orders != [] {
      MaxEventIsMax(orders[1..]);
      assert orders == [orders[0]] + orders[1..];
      if MaxEvent(orders[1..]).Some? {
        var o :| o in orders[1..] && o.orderedAt == MaxEvent(orders[1..]);
        assert o in orders;
      }
      assert orders[0] in orders;
    }
  }

  lemma SeesEventIff(raw: seq<Order>, load: int)
    ensures SeesEvent(raw, load) <==> MaxAvailable(raw, load).Some?
  {
    MaxEventIsMax(Available(raw, load));
    AvailableMembers(raw, load);
  }

  /** The bound in terms of the greatest event times. */
  lemma PastBoundIff(raw: seq<Order>, runs: seq<Run>, i: nat, o: Order)
    requires 0 < i < |runs| && runs[0].loadThrough <= runs[i - 1].loadThrough
    ensures IsPastBound(raw, runs, i, o) <==>
            var seen := MaxAvailable(raw, runs[i - 1].loadThrough);
            && MaxAvailable(raw, runs[0].loadThrough).Some? && seen.Some?
            && o.orderedAt.Some? && o.orderedAt.value > seen.value - 3600 * runs[i].lookback
  {
    var load := runs[i - 1].loadThrough;
    SeesEventIff(raw, runs[0].loadThrough);
    MaxAvailableGrows(raw, runs[0].loadThrough, load);
    MaxEventIsMax(Available(raw, load));
    AvailableMembers(raw, load);
  }

  /** What is available only grows, and so does its greatest event time. */
  lemma MaxAvailableGrows(raw: seq<Order>, early: int, late: int)
    requires early <= late
    ensures var a, b := MaxAvailable(raw, early), MaxAvailable(raw, late);
            a.Some? ==> b.Some? && a.value <= b.value
  {
    MaxEventIsMax(Available(raw, early));
    MaxEventIsMax(Available(raw, late));
    AvailableMembers(raw, early);
    AvailableMembers(raw, late);
    var a := MaxAvailable(raw, early);
    if a.Some? {
      var o :| o in Available(raw, early) && o.orderedAt == a;
      assert o in Available(raw, late);
    }
  }

  /** The row of one key, in terms of the raw rows and the runs. */
  function Expected(raw: seq<Order>, runs: seq<Run>, k: int): Option<Order> {
    var o := OrderWith(raw, k);
    if o.Some? && Captured(raw, runs, o.value) then o else None
  }

  lemma UpsertsMatch(orders: seq<Order>, k: int)
    requires UniqueIds(orders)
    ensures OneChangeAKey(Upserts(orders))
    ensures FirstMatch(Upserts(orders), Some(k)) ==
            match OrderWith(orders, k) case None => None case Some(o) => Some(AsUpsert(o))
  {
    var source := Upserts(orders);
    FirstMatchIsIn(source, Some(k));
    OrderWithIsIn(orders, k);
    var s := FirstMatch(source, Some(k));
    if s.Some? {
      var i :| 0 <= i < |source| && source[i] == s.value;
      assert orders[i] in orders;
    } else {
      forall o | o in orders ensures o.id != k {
        var i :| 0 <= i < |orders| && orders[i] == o;
        assert source[i] in source;
      }
    }
  }

  lemma {:induction false} AsRowsFind(orders: seq<Order>, k: int)
    requires UniqueIds(orders)
    ensures KeysDistinct(AsRows(orders)) && KeysPresent(AsRows(orders))
    ensures Find(AsRows(orders), k) == OrderWith(orders, k)
  {
    if orders != [] {
      FilterUnique(orders, []);
      assert AsRows(orders)[1..] == AsRows(orders[1..]);
      AsRowsFind(orders[1..], k);
    }
  }

  lemma CapturedSteps(raw: seq<Order>, runs: seq<Run>, o: Order)
    requires |runs| > 1
    ensures Captured(raw, runs, o) <==>
            Captured(raw, runs[..|runs| - 1], o) || Takes(raw, runs, |runs| - 1, o)
  {
    var init := runs[..|runs| - 1];
    forall i | 0 <= i < |init| ensures Takes(raw, init, i, o) <==> Takes(raw, runs, i, o) {
    }
    if Captured(raw, init, o) {
      var i :| 0 <= i < |init| && Takes(raw, init, i, o);
      assert Takes(raw, runs, i, o);
    }
  }

  /** After every sequence of runs the table holds exactly the captured rows, once each, and
      its watermark is the greatest event time among all available rows, provided the first
      build had one; otherwise it stays NULL. */
  lemma {:induction false} FactContents(raw: seq<Order>, runs: seq<Run>)
    requires UniqueIds(raw) && Growing(runs) && runs != []
    ensures KeysDistinct(Fact(raw, runs)) && KeysPresent(Fact(raw, runs))
    ensures forall k :: Find(Fact(raw, runs), k) == Expected(raw, runs, k)
    ensures MaxEvent(Stored(Fact(raw, runs))) ==
            if MaxAvailable(raw, runs[0].loadThrough).None? then None
            else MaxAvailable(raw, runs[|runs| - 1].loadThrough)
  {
    if |runs| == 1 {
      AvailableMembers(raw, runs[0].loadThrough);
      AsRowsFind(Available(raw, runs[0].loadThrough), 0);
      FirstBuildContents(raw, runs);
    } else {
      var init := runs[..|runs| - 1];
      FactContents(raw, init);
      MaxAvailableGrows(raw, runs[0].loadThrough, init[|init| - 1].loadThrough);
      IncrementalKeys(Fact(raw, init), raw, runs[|runs| - 1]);
      forall k ensures Find(Fact(raw, runs), k) == Expected(raw, runs, k) {
        IncrementalFind(Fact(raw, init), raw, runs, k);
      }
    }
    WatermarkOf(Fact(raw, runs), raw, runs);
  }

  /** The same row by row: a raw row is in the table exactly when some run captured it. */
  lemma CapturedRows(raw: seq<Order>, runs: seq<Run>)
    requires UniqueIds(raw) && Growing(runs) && runs != []
    ensures forall o | o in raw :: Find(Fact(raw, runs), o.id) == if Captured(raw, runs, o) then Some(o) else None
    ensures forall k :: Find(Fact(raw, runs), k).Some? ==> Find(Fact(raw, runs), k).value in raw
  {
    FactContents(raw, runs);
    forall k ensures Find(Fact(raw, runs), k) == Expected(raw, runs, k) {
    }
    forall o | o in raw ensures Find(Fact(raw, runs), o.id) == if Captured(raw, runs, o) then Some(o) else None {
      OrderWithIsIn(raw, o.id);
    }
    forall k | Find(Fact(raw, runs), k).Some? ensures Find(Fact(raw, runs), k).value in raw {
      OrderWithIsIn(raw, k);
    }
  }

  lemma IncrementalKeys(before: seq<Row<Order>>, raw: seq<Order>, run: Run)
    requires UniqueIds(raw) && KeysDistinct(before) && KeysPresent(before)
    ensures var table := MergedRows(before, Slice(before, raw, run));
            KeysDistinct(table) && KeysPresent(table)
  {
    var bound := Minus(MaxEvent(Stored(before)), run.lookback);
    AvailableMembers(raw, run.loadThrough);
    NewerThanMembers(Available(raw, run.loadThrough), bound);
    UpsertsMatch(NewerThan(Available(raw, run.loadThrough), bound), 0);
    MergeKeys(before, Slice(before, raw, run));
  }

  /** One incremental run at one key, when the table before it is as expected. */
  lemma IncrementalFind(before: seq<Row<Order>>, raw: seq<Order>, runs: seq<Run>, k: int)
    requires UniqueIds(raw) && KeysDistinct(before) && |runs| > 1 && Growing(runs)
    requires Find(before, k) == Expected(raw, runs[..|runs| - 1], k)
    requires MaxEvent(Stored(before)) ==
             if MaxAvailable(raw, runs[0].loadThrough).None? then None
             else MaxAvailable(raw, runs[|runs| - 2].loadThrough)
    ensures Find(MergedRows(before, Slice(before, raw, runs[|runs| - 1])), k) == Expected(raw, runs, k)
  {
    var run := runs[|runs| - 1];
    var bound := Minus(MaxEvent(Stored(before)), run.lookback);
    var chosen := NewerThan(Available(raw, run.loadThrough), bound);
    AvailableMembers(raw, run.loadThrough);
    NewerThanMembers(Available(raw, run.loadThrough), bound);
    UpsertsMatch(chosen, k);
    MergeFind(before, Upserts(chosen), k);
    OrderWithIsIn(raw, k);
    OrderWithIsIn(chosen, k);
    if OrderWith(raw, k).Some? {
      CapturedSteps(raw, runs, OrderWith(raw, k).value);
      PastBoundIff(raw, runs, |runs| - 1, OrderWith(raw, k).value);
    }
  }

  lemma FirstBuildContents(raw: seq<Order>, runs: seq<Run>)
    requires UniqueIds(raw) && |runs| == 1
    ensures forall k :: Find(Fact(raw, runs), k) == Expected(raw, runs, k)
    ensures Stored(Fact(raw, runs)) == Available(raw, runs[0].loadThrough)
  {
    var orders := Available(raw, runs[0].loadThrough);
    AvailableMembers(raw, runs[0].loadThrough);
    forall k ensures Find(Fact(raw, runs), k) == Expected(raw, runs, k) {
      AsRowsFind(orders, k);
      OrderWithIsIn(raw, k);
      OrderWithIsIn(orders, k);
      if OrderWith(raw, k).Some? {
        assert Captured(raw, runs, OrderWith(raw, k).value) <==> Takes(raw, runs, 0, OrderWith(raw, k).value);
      }
    }
  }

  /** The orders of a table that answers lookups like `Expected` are the captured ones. */
  lemma StoredMembers(table: seq<Row<Order>>, raw: seq<Order>, runs: seq<Run>, o: Order)
    requires KeysDistinct(table) && KeysPresent(table) && UniqueIds(raw)
    requires forall k :: Find(table, k) == Expected(raw, runs, k)
    ensures o in Stored(table) <==> o in raw && Captured(raw, runs, o)
  {
    OrderWithIsIn(raw, o.id);
    assert Find(table, o.id) == Expected(raw, runs, o.id);
    FindIsIn(table, o.id);
    if o in Stored(table) {
      var i :| 0 <= i < |table| && table[i].val == o;
      var k := table[i].key.value;
      assert table[i] == Row(Some(k), o);
      UniqueRow(table, k, o);
      assert Find(table, k) == Expected(raw, runs, k);
      OrderWithIsIn(raw, k);
    }
    if o in raw && Captured(raw, runs, o) {
      var i :| 0 <= i < |table| && table[i] == Row(Some(o.id), o);
      assert Stored(table)[i] == o;
    }
  }

  lemma MaxWitness(raw: seq<Order>, load: int) returns (o: Order)
    requires MaxAvailable(raw, load).Some?
    ensures o in raw && IsAvailable(o, load) && o.orderedAt == MaxAvailable(raw, load)
  {
    MaxEventIsMax(Available(raw, load));
    AvailableMembers(raw, load);
    o :| o in Available(raw, load) && o.orderedAt == MaxAvailable(raw, load);
  }

  /** The run that raises the greatest event time takes the row that carries it. */
  lemma RaisingRowIsTaken(raw: seq<Order>, runs: seq<Run>, n: nat, o: Order)
    requires Growing(runs) && n < |runs| && MaxAvailable(raw, runs[0].loadThrough).Some?
    requires IsAvailable(o, runs[n].loadThrough) && o.orderedAt == MaxAvailable(raw, runs[n].loadThrough)
    requires n > 0 ==> MaxAvailable(raw, runs[n - 1].loadThrough) != o.orderedAt
    ensures Takes(raw, runs, n, o)
  {
    if n > 0 {
      MaxAvailableGrows(raw, runs[n - 1].loadThrough, runs[n].loadThrough);
      MaxAvailableGrows(raw, runs[0].loadThrough, runs[n - 1].loadThrough);
      PastBoundIff(raw, runs, n, o);
    }
  }

  /** Some run captures a row that carries the greatest event time available so far. */
  lemma {:induction false} MaxIsCaptured(raw: seq<Order>, runs: seq<Run>, n: nat) returns (o: Order)
    requires Growing(runs) && n < |runs| && MaxAvailable(raw, runs[0].loadThrough).Some?
    ensures o in raw && Captured(raw, runs, o)
    ensures o.orderedAt == MaxAvailable(raw, runs[n].loadThrough)
    decreases n
  {
    if n > 0 && MaxAvailable(raw, runs[n - 1].loadThrough) == MaxAvailable(raw, runs[n].loadThrough) {
      o := MaxIsCaptured(raw, runs, n - 1);
    } else {
      MaxAvailableGrows(raw, runs[0].loadThrough, runs[n].loadThrough);
      o := MaxWitness(raw, runs[n].loadThrough);
      RaisingRowIsTaken(raw, runs, n, o);
    }
  }

  lemma {:induction false} CapturedIsAvailable(raw: seq<Order>, runs: seq<Run>, o: Order)
    requires Growing(runs) && runs != [] && Captured(raw, runs, o)
    ensures IsAvailable(o, runs[|runs| - 1].loadThrough)
    ensures MaxAvailable(raw, runs[0].loadThrough).None? ==> Takes(raw, runs, 0, o)
  {
    SeesEventIff(raw, runs[0].loadThrough);
  }

  lemma WatermarkOf(table: seq<Row<Order>>, raw: seq<Order>, runs: seq<Run>)
    requires KeysDistinct(table) && KeysPresent(table) && UniqueIds(raw)
    requires Growing(runs) && runs != []
    requires forall k :: Find(table, k) == Expected(raw, runs, k)
    ensures MaxEvent(Stored(table)) ==
            if MaxAvailable(raw, runs[0].loadThrough).None? then None
            else MaxAvailable(raw, runs[|runs| - 1].loadThrough)
  {
    var first := runs[0].loadThrough;
    if MaxAvailable(raw, first).Some? {
      LiveWatermark(table, raw, runs);
    } else {
      MaxEventIsMax(Stored(table));
      MaxEventIsMax(Available(raw, first));
      AvailableMembers(raw, first);
      forall o | o in Stored(table) ensures o.orderedAt.None? {
        StoredMembers(table, raw, runs, o);
        CapturedIsAvailable(raw, runs, o);
        assert o in Available(raw, first);
      }
    }
  }

  lemma LiveWatermark(table: seq<Row<Order>>, raw: seq<Order>, runs: seq<Run>)
    requires KeysDistinct(table) && KeysPresent(table) && UniqueIds(raw)
    requires Growing(runs) && runs != [] && MaxAvailable(raw, runs[0].loadThrough).Some?
    requires forall k :: Find(table, k) == Expected(raw, runs, k)
    ensures MaxEvent(Stored(table)) == MaxAvailable(raw, runs[|runs| - 1].loadThrough)
  {
    var load := runs[|runs| - 1].loadThrough;
    MaxEventIsMax(Stored(table));
    MaxEventIsMax(Available(raw, load));
    forall o | o in Stored(table) ensures o in Available(raw, load) {
      StoredMembers(table, raw, runs, o);
      CapturedIsAvailable(raw, runs, o);
      AvailableMembers(raw, load);
    }
    var o := MaxIsCaptured(raw, runs, |runs| - 1);
    MaxAvailableGrows(raw, runs[0].loadThrough, load);
    StoredMembers(table, raw, runs, o);
  }

  // ----- What follows for a sequence of runs -----

  predicate ConstantLookback(runs: seq<Run>) {
    forall i | 0 < i < |runs| :: runs[i].lookback == runs[1].lookback
  }

  /** Run `i` is the first to see the row. */
  predicate FirstSees(runs: seq<Run>, i: nat, o: Order)
    requires i < |runs|
  {
    && o.loadedAt.Some? && o.loadedAt.value <= runs[i].loadThrough
    && (i > 0 ==> runs[i - 1].loadThrough < o.loadedAt.value)
  }

  /** Bounds only move forward while the lookback does not grow. */
  lemma BoundGrows(raw: seq<Order>, runs: seq<Run>, i: nat, j: nat, o: Order)
    requires Growing(runs) && 0 < i <= j < |runs| && runs[j].lookback <= runs[i].lookback
    ensures IsPastBound(raw, runs, j, o) ==> IsPastBound(raw, runs, i, o)
  {
  }

  lemma {:induction false} FirstSight(runs: seq<Run>, j: nat, o: Order) returns (i: nat)
    requires j < |runs| && IsAvailable(o, runs[j].loadThrough)
    ensures i <= j && FirstSees(runs, i, o)
  {
    if j > 0 && IsAvailable(o, runs[j - 1].loadThrough) {
      i := FirstSight(runs, j - 1, o);
    } else {
      i := j;
    }
  }

  /** With a constant lookback the first run that sees a row decides: a row it misses is
      missed by every later run too. */
  lemma FirstSightDecides(raw: seq<Order>, runs: seq<Run>, i: nat, o: Order)
    requires Growing(runs) && ConstantLookback(runs)
    requires i < |runs| && FirstSees(runs, i, o)
    ensures Captured(raw, runs, o) <==> i == 0 || IsPastBound(raw, runs, i, o)
  {
    forall j | 0 <= j < i ensures !IsAvailable(o, runs[j].loadThrough) {
      assert j < i - 1 ==> runs[j].loadThrough <= runs[i - 1].loadThrough;
    }
    if Captured(raw, runs, o) && i > 0 {
      var j :| 0 <= j < |runs| && Takes(raw, runs, j, o);
      BoundGrows(raw, runs, i, j, o);
    }
    assert Takes(raw, runs, i, o) <==> i == 0 || IsPastBound(raw, runs, i, o);
  }

  predicate AllCaptured(raw: seq<Order>, runs: seq<Run>)
    requires runs != []
  {
    forall o | o in raw && o.loadedAt.Some? && o.loadedAt.value <= runs[|runs| - 1].loadThrough :: Captured(raw, runs, o)
  }

  /** The incremental table and a full refresh hold the same rows exactly when every
      available row was captured. */
  lemma FullRefreshIff(raw: seq<Order>, runs: seq<Run>)
    requires UniqueIds(raw) && Growing(runs) && runs != []
    ensures multiset(Fact(raw, runs)) == multiset(FullBuild(raw, runs[|runs| - 1].loadThrough))
            <==> AllCaptured(raw, runs)
  {
    var load := runs[|runs| - 1].loadThrough;
    var table, full := Fact(raw, runs), FullBuild(raw, load);
    var orders := Available(raw, load);
    FactContents(raw, runs);
    AvailableMembers(raw, load);
    AsRowsFind(orders, 0);
    forall k ensures Find(full, k) == OrderWith(orders, k) {
      AsRowsFind(orders, k);
    }
    if AllCaptured(raw, runs) {
      forall k ensures Find(table, k) == Find(full, k) {
        OrderWithIsIn(raw, k);
        OrderWithIsIn(orders, k);
        if Expected(raw, runs, k).Some? {
          CapturedIsAvailable(raw, runs, OrderWith(raw, k).value);
        }
      }
      SameLookupsSameRows(table, full);
    }
    if multiset(table) == multiset(full) {
      forall o | o in raw && IsAvailable(o, load) ensures Captured(raw, runs, o) {
        OrderWithIsIn(raw, o.id);
        OrderWithIsIn(orders, o.id);
        assert o in orders;
        SameRowsSameLookups(table, full, o.id);
        assert Find(table, o.id) == Expected(raw, runs, o.id);
      }
    }
  }

  /** Some run is the first to see the row and finds it at or behind its bound. */
  predicate ArrivesLate(raw: seq<Order>, runs: seq<Run>, o: Order) {
    exists i | 0 < i < |runs| :: FirstSees(runs, i, o) && !IsPastBound(raw, runs, i, o)
  }

  /** With a constant lookback, an available row is missing exactly when it arrived late. */
  lemma LateIffMissed(raw: seq<Order>, runs: seq<Run>, o: Order)
    requires Growing(runs) && ConstantLookback(runs) && runs != []
    requires IsAvailable(o, runs[|runs| - 1].loadThrough)
    ensures ArrivesLate(raw, runs, o) <==> !Captured(raw, runs, o)
  {
    var i := FirstSight(runs, |runs| - 1, o);
    FirstSightDecides(raw, runs, i, o);
    if ArrivesLate(raw, runs, o) {
      var j :| 0 < j < |runs| && FirstSees(runs, j, o) && !IsPastBound(raw, runs, j, o);
      FirstSightDecides(raw, runs, j, o);
    }
  }

  /** With a constant lookback, the incremental table is a full refresh exactly when no
      available row arrived late. */
  lemma {:induction false} FullRefreshIffNothingLate(raw: seq<Order>, runs: seq<Run>)
    requires UniqueIds(raw) && Growing(runs) && ConstantLookback(runs) && runs != []
    ensures multiset(Fact(raw, runs)) == multiset(FullBuild(raw, runs[|runs| - 1].loadThrough)) <==>
            forall o | o in raw && o.loadedAt.Some? && o.loadedAt.value <= runs[|runs| - 1].loadThrough ::
              !ArrivesLate(raw, runs, o)
  {
    FullRefreshIff(raw, runs);
    forall o | o in raw && IsAvailable(o, runs[|runs| - 1].loadThrough)
      ensures ArrivesLate(raw, runs, o) <==> !Captured(raw, runs, o)
    {
      LateIffMissed(raw, runs, o);
    }
  }

  lemma LongerLookbackTakesMore(raw: seq<Order>, runs: seq<Run>, longer: seq<Run>, o: Order)
    requires |longer| == |runs|
    requires forall i | 0 <= i < |runs| ::
               longer[i].loadThrough == runs[i].loadThrough && longer[i].lookback >= runs[i].lookback
    ensures Captured(raw, runs, o) ==> Captured(raw, longer, o)
  {
    if Captured(raw, runs, o) {
      var i :| 0 <= i < |runs| && Takes(raw, runs, i, o);
      if i > 0 {
        assert longer[i].loadThrough == runs[i].loadThrough;
        assert longer[0].loadThrough == runs[0].loadThrough && longer[i - 1].loadThrough == runs[i - 1].loadThrough;
      }
      assert Takes(raw, longer, i, o);
    }
  }

  /** With a lookback at least as long at every run, no row is lost. */
  lemma {:induction false} LongerLookbackKeepsRows(raw: seq<Order>, runs: seq<Run>, longer: seq<Run>, k: int)
    requires UniqueIds(raw) && Growing(runs) && Growing(longer) && runs != [] && |longer| == |runs|
    requires forall i | 0 <= i < |runs| ::
               longer[i].loadThrough == runs[i].loadThrough && longer[i].lookback >= runs[i].lookback
    ensures Find(Fact(raw, runs), k).Some? ==> Find(Fact(raw, longer), k) == Find(Fact(raw, runs), k)
  {
    FactContents(raw, runs);
    FactContents(raw, longer);
    assert Find(Fact(raw, runs), k) == Expected(raw, runs, k);
    assert Find(Fact(raw, longer), k) == Expected(raw, longer, k);
    if OrderWith(raw, k).Some? {
      LongerLookbackTakesMore(raw, runs, longer, OrderWith(raw, k).value);
    }
  }

  /** MERGE is never refused while the raw ids are unique, whatever the table holds. */
  lemma RunIsNeverRefused(table: seq<Row<Order>>, raw: seq<Order>, run: Run)
    requires UniqueIds(raw)
    ensures !Ambiguous(table, Slice(table, raw, run))
  {
    var bound := Minus(MaxEvent(Stored(table)), run.lookback);
    AvailableMembers(raw, run.loadThrough);
    NewerThanMembers(Available(raw, run.loadThrough), bound);
    UpsertsMatch(NewerThan(Available(raw, run.loadThrough), bound), 0);
    OneChangeAKeyIsUnambiguous(table, Slice(table, raw, run));
  }

  lemma RerunTakesNothingNew(raw: seq<Order>, runs: seq<Run>, o: Order)
    requires Growing(runs) && runs != []
    ensures var again := runs + [runs[|runs| - 1]];
            Takes(raw, again, |runs|, o) ==> Takes(raw, runs, |runs| - 1, o)
  {
    var n, again := |runs|, runs + [runs[|runs| - 1]];
    if n > 1 {
      assert Growing(again);
      BoundGrows(raw, again, n - 1, n, o);
      assert IsPastBound(raw, again, n - 1, o) <==> IsPastBound(raw, runs, n - 1, o);
    }
  }

  lemma SameCapturedSameRows(raw: seq<Order>, runs: seq<Run>, others: seq<Run>)
    requires UniqueIds(raw) && Growing(runs) && Growing(others) && runs != [] && others != []
    requires forall o :: Captured(raw, runs, o) <==> Captured(raw, others, o)
    ensures multiset(Fact(raw, runs)) == multiset(Fact(raw, others))
  {
    var a, b := Fact(raw, runs), Fact(raw, others);
    FactContents(raw, runs);
    FactContents(raw, others);
    forall k ensures Find(a, k) == Find(b, k) {
      assert Find(a, k) == Expected(raw, runs, k) && Find(b, k) == Expected(raw, others, k);
    }
    SameLookupsSameRows(a, b);
  }

  /** Re-running the last batch changes nothing. */
  lemma {:induction false} RerunChangesNothing(raw: seq<Order>, runs: seq<Run>)
    requires UniqueIds(raw) && Growing(runs) && runs != []
    ensures multiset(Fact(raw, runs + [runs[|runs| - 1]])) == multiset(Fact(raw, runs))
  {
    var again := runs + [runs[|runs| - 1]];
    assert again[..|runs|] == runs;
    forall o ensures Captured(raw, again, o) <==> Captured(raw, runs, o) {
      CapturedSteps(raw, again, o);
      RerunTakesNothingNew(raw, runs, o);
    }
    SameCapturedSameRows(raw, again, runs);
  }

  /** One more run over the same data with another lookback: it recaptures exactly the rows
      past the moved bound, keeps every key unique, and completes the table exactly when all
      dropped rows are past that bound. */
  lemma Recapture(raw: seq<Order>, runs: seq<Run>, lookback: nat)
    requires UniqueIds(raw) && Growing(runs) && runs != []
    ensures var load := runs[|runs| - 1].loadThrough;
            var wide := runs + [Run(load, lookback)];
            && KeysDistinct(Fact(raw, wide)) && KeysPresent(Fact(raw, wide))
            && (multiset(Fact(raw, wide)) == multiset(FullBuild(raw, load)) <==>
                forall o | o in raw && o.loadedAt.Some? && o.loadedAt.value <= load && !Captured(raw, runs, o) ::
                  IsPastBound(raw, wide, |runs|, o))
  {
    var load := runs[|runs| - 1].loadThrough;
    var wide := runs + [Run(load, lookback)];
    assert wide[..|runs|] == runs;
    FactContents(raw, wide);
    FullRefreshIff(raw, wide);
    forall o | o in raw && o.loadedAt.Some? && o.loadedAt.value <= load
      ensures Captured(raw, wide, o) <==> Captured(raw, runs, o) || IsPastBound(raw, wide, |runs|, o)
    {
      CapturedSteps(raw, wide, o);
      assert Takes(raw, wide, |runs|, o) <==> IsPastBound(raw, wide, |runs|, o);
    }
    assert AllCaptured(raw, wide) <==>
           forall o | o in raw && o.loadedAt.Some? && o.loadedAt.value <= load && !Captured(raw, runs, o) ::
             IsPastBound(raw, wide, |runs|, o);
  }

  /** A full build holds exactly the rows that landed in time, each as often as it is raw and
      under its own id. */
  lemma {:induction false} FullBuildHolds(raw: seq<Order>, loadThrough: int, r: Row<Order>)
    ensures multiset(FullBuild(raw, loadThrough))[r] ==
            if r.key == Some(r.val.id) && r.val.loadedAt.Some? && r.val.loadedAt.value <= loadThrough
            then multiset(raw)[r.val] else 0
  {
    if raw != [] {
      var here: seq<Order> := if IsAvailable(raw[0], loadThrough) then [raw[0]] else [];
      var rest := Available(raw[1..], loadThrough);
      FullBuildHolds(raw[1..], loadThrough, r);
      assert Available(raw, loadThrough) == here + rest;
      assert AsRows(here + rest) == AsRows(here) + AsRows(rest);
      assert raw == [raw[0]] + raw[1..];
    }
  }

  /** The stored table. `history` are the runs since the last full build, for one set of raw rows. */
  class FactTable {
    var built: bool
    var rows: seq<Row<Order>>
    ghost var history: seq<Run>

    constructor ()
      ensures !built && history == []
    {
      built, rows, history := false, [], [];
    }

    /** The rows are what the runs so far make of the raw rows. */
    ghost predicate Valid(raw: seq<Order>)
      reads this
    {
      (built <==> history != []) && (built ==> rows == Fact(raw, history))
    }

    /** One run of the model. A MERGE that the engine refuses leaves the table as it was;
        that never happens while the raw ids are unique. */
    method RunModel(raw: seq<Order>, run: Run, fullRefresh: bool) returns (ok: bool)
      modifies this
      ensures !old(built) || fullRefresh ==> ok && built && rows == FullBuild(raw, run.loadThrough)
      ensures !old(built) || fullRefresh ==>
                forall r: Row<Order> ::
                  multiset(rows)[r] ==
                  if r.key == Some(r.val.id) && r.val.loadedAt.Some? && r.val.loadedAt.value <= run.loadThrough
                  then multiset(raw)[r.val] else 0
      ensures old(built) && !fullRefresh ==>
                var slice := Slice(old(rows), raw, run);
                built && ok == !Ambiguous(old(rows), slice) &&
                rows == if ok then MergedRows(old(rows), slice) else old(rows)
      ensures UniqueIds(raw) && old(Valid(raw)) ==>
                ok && Valid(raw) && history == if fullRefresh then [run] else old(history) + [run]
      ensures UniqueIds(raw) && old(Valid(raw)) && Growing(history) ==>
                forall o | o in raw :: Find(rows, o.id) == if Captured(raw, history, o) then Some(o) else None
    {
      if !built || fullRefresh {
        rows := FullBuild(raw, run.loadThrough);
        built, history := true, [run];
        ok := true;
        forall r: Row<Order> {
          FullBuildHolds(raw, run.loadThrough, r);
        }
      } else {
        if UniqueIds(raw) {
          RunIsNeverRefused(rows, raw, run);
        }
        var merged := Merge(rows, Slice(rows, raw, run));
        ok := merged.Ok?;
        if merged.Ok? {
          rows := merged.value;
          history := history + [run];
          assert history[..|history| - 1] == old(history);
        }
      }
      if UniqueIds(raw) && old(Valid(raw)) && Growing(history) {
        CapturedRows(raw, history);
      }
    }
  }

  /** The seeded late order: event time on day 3 at 06:00, landed on day 4 at 08:00, after an
      order of day 3 at 19:40. The table of runs without lookback lacks it, the table of runs
      with 48 hours holds it. Times count from day 1 at 00:00. */
  lemma LateOrderDropped()
    ensures var day := 86400;
            var o1011 := Order(1011, Some(2 * day + 70800), Some(2 * day + 71100), Details("C008", 14999, "pending"));
            var o1100 := Order(1100, Some(2 * day + 21600), Some(3 * day + 28800), Details("C004", 6100, "completed"));
            var o1101 := Order(1101, Some(3 * day + 36000), Some(3 * day + 36300), Details("C009", 20500, "completed"));
            var raw := [o1011, o1100, o1101];
            var naive := [Run(3 * day - 1, 0), Run(4 * day - 1, 0)];
            var wide := [Run(3 * day - 1, 0), Run(4 * day - 1, 48)];
            && Find(Fact(raw, naive), 1100) == None && Find(Fact(raw, naive), 1101) == Some(o1101)
            && Find(Fact(raw, wide), 1100) == Some(o1100) && Find(Fact(raw, wide), 1101) == Some(o1101)
  {
    var day := 86400;
    var o1011 := Order(1011, Some(2 * day + 70800), Some(2 * day + 71100), Details("C008", 14999, "pending"));
    var o1100 := Order(1100, Some(2 * day + 21600), Some(3 * day + 28800), Details("C004", 6100, "completed"));
    var o1101 := Order(1101, Some(3 * day + 36000), Some(3 * day + 36300), Details("C009", 20500, "completed"));
    var raw := [o1011, o1100, o1101];
    var naive := [Run(3 * day - 1, 0), Run(4 * day - 1, 0)];
    var wide := [Run(3 * day - 1, 0), Run(4 * day - 1, 48)];
    SecondRunContents(raw, naive, o1011);
    SecondRunContents(raw, wide, o1011);
    assert Expected(raw, naive, 1100) == Find(Fact(raw, naive), 1100);
    assert Expected(raw, wide, 1100) == Find(Fact(raw, wide), 1100);
    assert Expected(raw, naive, 1101) == Find(Fact(raw, naive), 1101);
    assert Expected(raw, wide, 1101) == Find(Fact(raw, wide), 1101);
    OrderWithIsIn(raw, 1100);
    OrderWithIsIn(raw, 1101);
    assert raw[1] in raw && raw[2] in raw;
  }

  /** A first build over one order and a second run, in closed form. */
  lemma SecondRunContents(raw: seq<Order>, runs: seq<Run>, first: Order)
    requires UniqueIds(raw) && Growing(runs) && |runs| == 2 && first in raw && first.orderedAt.Some?
    requires forall o | o in raw :: IsAvailable(o, runs[0].loadThrough) <==> o == first
    ensures forall k :: Find(Fact(raw, runs), k) == Expected(raw, runs, k)
    ensures forall o | o in raw && o != first ::
              Captured(raw, runs, o) <==>
              IsAvailable(o, runs[1].loadThrough) && o.orderedAt.Some? &&
              o.orderedAt.value > first.orderedAt.value - 3600 * runs[1].lookback
  {
    FactContents(raw, runs);
    MaxEventIsMax(Available(raw, runs[0].loadThrough));
    AvailableMembers(raw, runs[0].loadThrough);
    assert first in Available(raw, runs[0].loadThrough);
    forall o | o in raw && o != first ensures Captured(raw, runs, o) <==> Takes(raw, runs, 1, o) {
      assert !Takes(raw, runs, 0, o);
    }
  }
}
