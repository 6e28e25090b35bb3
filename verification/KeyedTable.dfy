/** Tables with a key column, and MERGE.

    A table is a list of rows, so duplicate and NULL keys are possible and their absence
    is something to prove. `Represents` ties a table to the map it stands for.
 */
module KeyedTable {
  import opened Results

  datatype Row<V> = Row(key: Option<int>, val: V)

  /** A source row of MERGE: delete the matched row, or update it, or insert. */
  datatype Change<V> = Change(key: Option<int>, delete: bool, val: V)

  /** The ON condition `t.key = s.key`: NULL matches nothing. */
  predicate Matches<V>(t: Row<V>, s: Change<V>) {
    t.key.Some? && t.key == s.key
  }

  function FirstMatch<V>(source: seq<Change<V>>, key: Option<int>): Option<Change<V>> {
    if source == [] then None
    else if key.Some? && source[0].key == key then Some(source[0])
    else FirstMatch(source[1..], key)
  }

  /** WHEN MATCHED AND delete THEN DELETE, WHEN MATCHED THEN UPDATE. */
  function Surviving<V>(row: Row<V>, source: seq<Change<V>>): seq<Row<V>> {
    match FirstMatch(source, row.key)
    case None => [row]
    case Some(s) => if s.delete then [] else [row.(val := s.val)]
  }

  function Survivors<V>(target: seq<Row<V>>, source: seq<Change<V>>): seq<Row<V>> {
    if target == [] then []
    else Surviving(target[0], source) + Survivors(target[1..], source)
  }

  predicate HasMatch<V>(target: seq<Row<V>>, s: Change<V>) {
    exists i | 0 <= i < |target| :: Matches(target[i], s)
  }

  /** WHEN NOT MATCHED AND NOT delete THEN INSERT. */
  function Inserts<V>(target: seq<Row<V>>, source: seq<Change<V>>): seq<Row<V>> {
    if source == [] then []
    else
      (if source[0].delete || HasMatch(target, source[0]) then [] else [Row(source[0].key, source[0].val)])
      + Inserts(target, source[1..])
  }

  /** The engine refuses a MERGE in which two source rows match one target row. */
  predicate Ambiguous<V>(target: seq<Row<V>>, source: seq<Change<V>>) {
    exists t, i, j | 0 <= t < |target| && 0 <= i < j < |source| ::
      Matches(target[t], source[i]) && Matches(target[t], source[j])
  }

  function MergedRows<V>(target: seq<Row<V>>, source: seq<Change<V>>): seq<Row<V>> {
    Survivors(target, source) + Inserts(target, source)
  }

  function Merge<V>(target: seq<Row<V>>, source: seq<Change<V>>): Result<seq<Row<V>>> {
    if Ambiguous(target, source) then Raised else Ok(MergedRows(target, source))
  }

  // ----- Keys -----

  /** Uniqueness as a uniqueness check sees it: NULLs are not compared. */
  predicate KeysDistinct<V>(table: seq<Row<V>>) {
    forall i, j | 0 <= i < j < |table| :: table[i].key.Some? ==> table[i].key != table[j].key
  }

  predicate KeysPresent<V>(table: seq<Row<V>>) {
    forall i | 0 <= i < |table| :: table[i].key.Some?
  }

  /** At most one change a key. */
  predicate OneChangeAKey<V>(source: seq<Change<V>>) {
    forall i, j | 0 <= i < j < |source| :: source[i].key != source[j].key
  }

  function Find<V>(table: seq<Row<V>>, k: int): Option<V> {
    if table == [] then None
    else if table[0].key == Some(k) then Some(table[0].val)
    else Find(table[1..], k)
  }

  function Get<V>(m: map<int, V>, k: int): Option<V> {
    if k in m then Some(m[k]) else None
  }

  /** The table is exactly the map: unique keys, none NULL, the same value under each. */
  ghost predicate Represents<V>(table: seq<Row<V>>, m: map<int, V>) {
    KeysDistinct(table) && KeysPresent(table) && forall k :: Find(table, k) == Get(m, k)
  }

  // ----- MERGE against lookups -----

  lemma {:induction false} FirstMatchIsIn<V>(source: seq<Change<V>>, key: Option<int>)
    ensures var c := FirstMatch(source, key);
            c.Some? ==> key.Some? && c.value in source && c.value.key == key
    ensures FirstMatch(source, key).None? && key.Some? ==> forall s | s in source :: s.key != key
  {
    if source != [] {
      assert source == [source[0]] + source[1..];
      FirstMatchIsIn(source[1..], key);
    }
  }

  lemma {:induction false} FindIsIn<V>(table: seq<Row<V>>, k: int)
    ensures Find(table, k).Some? <==> exists i :: 0 <= i < |table| && table[i].key == Some(k)
    ensures Find(table, k).Some? ==> Row(Some(k), Find(table, k).value) in table
  {
    if table != [] {
      assert table == [table[0]] + table[1..];
      FindIsIn(table[1..], k);
      if Find(table[1..], k).Some? {
        var i :| 0 <= i < |table[1..]| && table[1..][i].key == Some(k);
        assert table[i + 1].key == Some(k);
      }
      if i :| 0 <= i < |table| && table[i].key == Some(k) {
        assert i > 0 ==> table[1..][i - 1].key == Some(k);
      }
    }
  }

  lemma {:induction false} FindConcat<V>(a: seq<Row<V>>, b: seq<Row<V>>, k: int)
    ensures Find(a + b, k) == if Find(a, k).Some? then Find(a, k) else Find(b, k)
  {
    if a == [] {
      assert a + b == b;
    } else {
      assert (a + b)[1..] == a[1..] + b;
      FindConcat(a[1..], b, k);
    }
  }

  lemma {:induction false} SurvivorsFind<V>(target: seq<Row<V>>, source: seq<Change<V>>, k: int)
    requires KeysDistinct(target)
    ensures Find(Survivors(target, source), k) ==
            match (Find(target, k), FirstMatch(source, Some(k)))
            case (None, _) => None
            case (Some(v), None) => Some(v)
            case (_, Some(s)) => if s.delete then None else Some(s.val)
  {
    if target != [] {
      var rest := Survivors(target[1..], source);
      SurvivorsFind(target[1..], source, k);
      FindConcat(Surviving(target[0], source), rest, k);
      if target[0].key == Some(k) {
        FindIsIn(target[1..], k);
      }
    }
  }

  lemma {:induction false} InsertsFind<V>(target: seq<Row<V>>, source: seq<Change<V>>, k: int)
    requires OneChangeAKey(source)
    ensures Find(Inserts(target, source), k) ==
            match FirstMatch(source, Some(k))
            case None => None
            case Some(s) => if s.delete || HasMatch(target, s) then None else Some(s.val)
  {
    if source != [] {
      var rest := Inserts(target, source[1..]);
      InsertsFind(target, source[1..], k);
      var here: seq<Row<V>> :=
        if source[0].delete || HasMatch(target, source[0]) then [] else [Row(source[0].key, source[0].val)];
      assert Inserts(target, source) == here + rest;
      FindConcat(here, rest, k);
      if source[0].key == Some(k) {
        OtherChangesMiss(source);
      }
    }
  }

  lemma OtherChangesMiss<V>(source: seq<Change<V>>)
    requires OneChangeAKey(source) && source != []
    ensures FirstMatch(source[1..], source[0].key).None?
  {
    FirstMatchIsIn(source[1..], source[0].key);
    forall s | s in source[1..] ensures s.key != source[0].key {
      var j :| 0 <= j < |source[1..]| && source[1..][j] == s;
      assert source[j + 1] == s;
    }
  }

  /** What MERGE does to one key: the change of that key if there is one, else nothing. */
  lemma MergeFind<V>(target: seq<Row<V>>, source: seq<Change<V>>, k: int)
    requires KeysDistinct(target) && OneChangeAKey(source)
    ensures Find(MergedRows(target, source), k) ==
            match FirstMatch(source, Some(k))
            case None => Find(target, k)
            case Some(s) => if s.delete then None else Some(s.val)
  {
    SurvivorsFind(target, source, k);
    InsertsFind(target, source, k);
    FindConcat(Survivors(target, source), Inserts(target, source), k);
    FindIsIn(target, k);
    FirstMatchIsIn(source, Some(k));
    if FirstMatch(source, Some(k)).Some? {
      var s := FirstMatch(source, Some(k)).value;
      assert HasMatch(target, s) <==> Find(target, k).Some? by {
        if Find(target, k).Some? {
          var i :| 0 <= i < |target| && target[i].key == Some(k);
          assert Matches(target[i], s);
        }
      }
    }
  }

  /** One change a key is enough for the engine to accept the MERGE. */
  lemma {:induction false} OneChangeAKeyIsUnambiguous<V>(target: seq<Row<V>>, source: seq<Change<V>>)
    requires OneChangeAKey(source)
    ensures Merge(target, source) == Ok(MergedRows(target, source))
  {
  }

  /** The same with the change named: a change of the key decides, and without one nothing
      happens to it. */
  lemma MergeDecides<V>(target: seq<Row<V>>, source: seq<Change<V>>, k: int)
    requires KeysDistinct(target) && OneChangeAKey(source)
    ensures forall s | s in source && s.key == Some(k) ::
              Find(MergedRows(target, source), k) == if s.delete then None else Some(s.val)
    ensures (forall s | s in source :: s.key != Some(k)) ==> Find(MergedRows(target, source), k) == Find(target, k)
  {
    MergeFind(target, source, k);
    FirstMatchIsIn(source, Some(k));
    forall s | s in source && s.key == Some(k) ensures FirstMatch(source, Some(k)) == Some(s) {
      var i :| 0 <= i < |source| && source[i] == s;
      var j :| 0 <= j < |source| && source[j] == FirstMatch(source, Some(k)).value;
      assert source[i].key == source[j].key;
    }
  }

  /** The engine refuses exactly when two changes carry the key of one row; NULL is no key. */
  lemma RefusedIff<V>(target: seq<Row<V>>, source: seq<Change<V>>)
    ensures Merge(target, source).Raised? <==>
            exists t, i, j | 0 <= t < |target| && 0 <= i < j < |source| ::
              target[t].key.Some? && target[t].key == source[i].key && target[t].key == source[j].key
  {
    if t, i, j :| 0 <= t < |target| && 0 <= i < j < |source| && target[t].key.Some?
                  && target[t].key == source[i].key && target[t].key == source[j].key {
      assert Matches(target[t], source[i]) && Matches(target[t], source[j]);
    }
  }

  // ----- MERGE against keys -----

  predicate HasKey<V>(table: seq<Row<V>>, key: Option<int>) {
    exists i | 0 <= i < |table| :: table[i].key == key
  }

  lemma {:induction false} KeysDistinctConcat<V>(a: seq<Row<V>>, b: seq<Row<V>>)
    requires KeysDistinct(a) && KeysDistinct(b)
    requires forall i | 0 <= i < |a| && a[i].key.Some? :: !HasKey(b, a[i].key)
    ensures KeysDistinct(a + b)
  {
  }

  lemma KeysPresentConcat<V>(a: seq<Row<V>>, b: seq<Row<V>>)
    ensures KeysPresent(a + b) <==> KeysPresent(a) && KeysPresent(b)
  {
    var merged: seq<Row<V>> := a + b;
    assert forall i | 0 <= i < |a| :: merged[i] == a[i];
    assert forall i | 0 <= i < |b| :: merged[|a| + i] == b[i];
  }

  lemma {:induction false} HasKeyTail<V>(table: seq<Row<V>>, key: Option<int>)
    requires table != []
    ensures HasKey(table, key) <==> table[0].key == key || HasKey(table[1..], key)
  {
  }

  lemma {:induction false} SurvivorKeys<V>(target: seq<Row<V>>, source: seq<Change<V>>)
    requires KeysDistinct(target)
    ensures KeysDistinct(Survivors(target, source))
    ensures forall key :: HasKey(Survivors(target, source), key) ==> HasKey(target, key)
    ensures KeysPresent(target) ==> KeysPresent(Survivors(target, source))
  {
    if target != [] {
      var rest := Survivors(target[1..], source);
      var here := Surviving(target[0], source);
      SurvivorKeys(target[1..], source);
      forall i | 0 <= i < |here| && here[i].key.Some? ensures !HasKey(rest, here[i].key) {
        assert here[i].key == target[0].key;
      }
      KeysDistinctConcat(here, rest);
      KeysPresentConcat(here, rest);
      forall key | HasKey(here + rest, key) ensures HasKey(target, key) {
        if here != [] {
          assert (here + rest)[1..] == rest;
          HasKeyTail(here + rest, key);
        }
        HasKeyTail(target, key);
      }
    }
  }

  /** Some change without a match is inserted under this key. */
  predicate InsertsKey<V>(target: seq<Row<V>>, source: seq<Change<V>>, key: Option<int>) {
    exists i | 0 <= i < |source| :: source[i].key == key && !source[i].delete && !HasMatch(target, source[i])
  }

  lemma {:induction false} InsertKeys<V>(target: seq<Row<V>>, source: seq<Change<V>>)
    requires OneChangeAKey(source)
    ensures KeysDistinct(Inserts(target, source))
    ensures forall key :: HasKey(Inserts(target, source), key) ==> InsertsKey(target, source, key)
    ensures KeysPresent(Inserts(target, source)) <==> !InsertsKey(target, source, None)
  {
    if source != [] {
      var rest := Inserts(target, source[1..]);
      var here: seq<Row<V>> :=
        if source[0].delete || HasMatch(target, source[0]) then [] else [Row(source[0].key, source[0].val)];
      assert here + rest == Inserts(target, source);
      InsertKeys(target, source[1..]);
      InsertsKeyTail(target, source);
      if here != [] {
        assert !InsertsKey(target, source[1..], source[0].key) by {
          forall i | 0 <= i < |source[1..]| ensures source[1..][i].key != source[0].key {
            assert source[1..][i] == source[i + 1];
          }
        }
      }
      KeysDistinctConcat(here, rest);
      KeysPresentConcat(here, rest);
      forall key | HasKey(here + rest, key) ensures InsertsKey(target, source, key) {
        if here != [] {
          assert (here + rest)[1..] == rest;
          HasKeyTail(here + rest, key);
        }
      }
    }
  }

  lemma {:induction false} InsertsKeyTail<V>(target: seq<Row<V>>, source: seq<Change<V>>)
    requires source != []
    ensures forall key :: InsertsKey(target, source, key) <==>
              (source[0].key == key && !source[0].delete && !HasMatch(target, source[0]))
              || InsertsKey(target, source[1..], key)
  {
  }

  /** MERGE keeps keys unique. A NULL key appears exactly when a change without a key is inserted. */
  lemma MergeKeys<V>(target: seq<Row<V>>, source: seq<Change<V>>)
    requires KeysDistinct(target) && OneChangeAKey(source)
    ensures KeysDistinct(MergedRows(target, source))
    ensures KeysPresent(target) ==>
              (KeysPresent(MergedRows(target, source)) <==> forall s | s in source && s.key.None? :: s.delete)
  {
    var a, b := Survivors(target, source), Inserts(target, source);
    SurvivorKeys(target, source);
    InsertKeys(target, source);
    forall i | 0 <= i < |a| && a[i].key.Some? ensures !HasKey(b, a[i].key) {
      assert HasKey(a, a[i].key);
      var t :| 0 <= t < |target| && target[t].key == a[i].key;
      forall s | 0 <= s < |source| && source[s].key == a[i].key ensures HasMatch(target, source[s]) {
        assert Matches(target[t], source[s]);
      }
    }
    KeysDistinctConcat(a, b);
    KeysPresentConcat(a, b);
    assert InsertsKey(target, source, None) <==> exists s :: s in source && s.key.None? && !s.delete by {
      forall i | 0 <= i < |source| && source[i].key.None? ensures !HasMatch(target, source[i]) {
      }
    }
  }

  // ----- Tables and maps -----

  /** The map that a table with unique keys stands for. */
  function Contents<V>(table: seq<Row<V>>): map<int, V> {
    if table == [] then map[]
    else
      var rest := Contents(table[1..]);
      if table[0].key.Some? then rest[table[0].key.value := table[0].val] else rest
  }

  lemma {:induction false} ContentsFind<V>(table: seq<Row<V>>, k: int)
    ensures Find(table, k) == Get(Contents(table), k)
  {
    if table != [] {
      ContentsFind(table[1..], k);
    }
  }

  lemma {:induction false} RepresentsSize<V>(table: seq<Row<V>>, m: map<int, V>)
    requires Represents(table, m)
    ensures |table| == |m|
  {
    if table == [] {
      forall k ensures k !in m {
        assert Find(table, k) == Get(m, k);
      }
      assert m == map[];
    } else {
      var k0 := table[0].key.value;
      var rest := m - {k0};
      assert Find(table, k0) == Get(m, k0);
      RepresentsTail(table, m);
      RepresentsSize(table[1..], rest);
      assert m.Keys == rest.Keys + {k0};
    }
  }

  lemma RepresentsTail<V>(table: seq<Row<V>>, m: map<int, V>)
    requires Represents(table, m) && table != []
    ensures Represents(table[1..], m - {table[0].key.value})
  {
    var k0 := table[0].key.value;
    var rest := m - {k0};
    forall k ensures Find(table[1..], k) == Get(rest, k) {
      assert Find(table, k) == Get(m, k);
      FindIsIn(table[1..], k);
    }
  }

  /** Two tables that represent one map hold the same rows. */
  lemma {:induction false} RepresentsSameRows<V>(a: seq<Row<V>>, b: seq<Row<V>>, m: map<int, V>)
    requires Represents(a, m) && Represents(b, m)
    ensures multiset(a) == multiset(b)
  {
    RepresentsRows(a, m);
    RepresentsRows(b, m);
    forall r: Row<V> ensures multiset(a)[r] == multiset(b)[r] {
    }
  }

  /** The rows of a table that represents a map, with their multiplicity. */
  lemma {:induction false} RepresentsRows<V>(a: seq<Row<V>>, m: map<int, V>)
    requires Represents(a, m)
    ensures forall r: Row<V> :: multiset(a)[r] == if r.key.Some? && Get(m, r.key.value) == Some(r.val) then 1 else 0
  {
    if a != [] {
      var k0 := a[0].key.value;
      RepresentsTail(a, m);
      RepresentsRows(a[1..], m - {k0});
      assert a == [a[0]] + a[1..];
      assert Find(a, k0) == Get(m, k0);
    } else {
      forall r: Row<V> | r.key.Some? ensures Get(m, r.key.value).None? {
        assert Find(a, r.key.value) == Get(m, r.key.value);
      }
    }
  }

  /** Two tables with unique keys and no NULL key hold the same rows when lookups agree. */
  lemma SameLookupsSameRows<V>(a: seq<Row<V>>, b: seq<Row<V>>)
    requires KeysDistinct(a) && KeysPresent(a) && KeysDistinct(b) && KeysPresent(b)
    requires forall k :: Find(a, k) == Find(b, k)
    ensures multiset(a) == multiset(b)
  {
    forall k ensures Find(a, k) == Get(Contents(a), k) && Find(b, k) == Get(Contents(a), k) {
      ContentsFind(a, k);
      assert Find(a, k) == Find(b, k);
    }
    RepresentsSameRows(a, b, Contents(a));
  }

  /** Lookups do not see the order of the rows. */
  lemma SameRowsSameLookups<V>(a: seq<Row<V>>, b: seq<Row<V>>, k: int)
    requires KeysDistinct(a) && KeysDistinct(b) && multiset(a) == multiset(b)
    ensures Find(a, k) == Find(b, k)
  {
    FindIsIn(a, k);
    FindIsIn(b, k);
    assert forall r: Row<V> :: r in a <==> r in multiset(a);
    assert forall r: Row<V> :: r in b <==> r in multiset(b);
    if Find(a, k).Some? {
      UniqueRow(b, k, Find(a, k).value);
    } else if Find(b, k).Some? {
      UniqueRow(a, k, Find(b, k).value);
    }
  }

  lemma {:induction false} UniqueRow<V>(table: seq<Row<V>>, k: int, v: V)
    requires KeysDistinct(table) && Row(Some(k), v) in table
    ensures Find(table, k) == Some(v)
  {
    FindIsIn(table, k);
    var i :| 0 <= i < |table| && table[i] == Row(Some(k), v);
    assert table[i].key == Some(k);
    var j :| 0 <= j < |table| && table[j] == Row(Some(k), Find(table, k).value);
    assert table[i].key == table[j].key;
  }
}
