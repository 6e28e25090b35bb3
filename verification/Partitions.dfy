/** Daily partition files, written by appending or by overwriting. */
module Partitions {

  datatype Row = Row(date: string, metric: string, value: int)

  /** The content of a date is a function of the date alone; Python's `hash` is a parameter. */
  function RowsFor(hash: string -> int, date: string): seq<Row> {
    seq(3, _ => Row(date, "orders", 100 + hash(date) % 50))
  }

  function FileOf(files: map<string, seq<Row>>, date: string): seq<Row> {
    if date in files then files[date] else []
  }

  // ----- Sequences of runs: schedules, retries, backfills -----

  function AppendRuns(hash: string -> int, runs: seq<string>): map<string, seq<Row>> {
    if runs == [] then map[]
    else
      var before, date := AppendRuns(hash, runs[..|runs| - 1]), runs[|runs| - 1];
      before[date := FileOf(before, date) + RowsFor(hash, date)]
  }

  function OverwriteRuns(hash: string -> int, runs: seq<string>): map<string, seq<Row>> {
    if runs == [] then map[]
    else OverwriteRuns(hash, runs[..|runs| - 1])[runs[|runs| - 1] := RowsFor(hash, runs[|runs| - 1])]
  }

  lemma NoRuns(hash: string -> int)
    ensures AppendRuns(hash, []) == map[] && OverwriteRuns(hash, []) == map[]
  {
  }

  /** The store after one more append. */
  lemma AppendedOnce(hash: string -> int, runs: seq<string>, date: string, store: map<string, seq<Row>>)
    requires store == AppendRuns(hash, runs)[date := FileOf(AppendRuns(hash, runs), date) + RowsFor(hash, date)]
    ensures store == AppendRuns(hash, runs + [date])
    ensures |FileOf(store, date)| == 3 * multiset(runs + [date])[date]
    ensures forall r | r in FileOf(store, date) :: r == Row(date, "orders", 100 + hash(date) % 50)
  {
    assert (runs + [date])[..|runs|] == runs;
    AppendHoldsCopies(hash, runs + [date], date);
  }

  /** The two stores. Their files are what the runs so far make of the empty store. */
  class PartitionStore {
    const hash: string -> int
    var appended: map<string, seq<Row>>
    var overwritten: map<string, seq<Row>>
    ghost var appendRuns: seq<string>
    ghost var overwriteRuns: seq<string>

    constructor (hash: string -> int)
      ensures Valid() && this.hash == hash
      ensures appended == map[] && overwritten == map[] && appendRuns == [] && overwriteRuns == []
    {
      this.hash := hash;
      appended, overwritten := map[], map[];
      appendRuns, overwriteRuns := [], [];
      NoRuns(hash);
    }

    ghost predicate Valid()
      reads this
    {
      appended == AppendRuns(hash, appendRuns) && overwritten == OverwriteRuns(hash, overwriteRuns)
    }

    method AppendPartition(date: string) returns (count: nat)
      requires Valid()
      modifies this`appended, this`appendRuns
      ensures Valid() && appendRuns == old(appendRuns) + [date]
      ensures appended == old(appended)[date := FileOf(old(appended), date) + RowsFor(hash, date)]
      ensures count == 3 * multiset(appendRuns)[date]
      ensures |FileOf(appended, date)| == count
      ensures forall r | r in FileOf(appended, date) :: r == Row(date, "orders", 100 + hash(date) % 50)
    {
      appended := appended[date := FileOf(appended, date)];
      var rows := RowsFor(hash, date);
      ghost var before := FileOf(old(appended), date);
      assert before + rows[..0] == before;
      for i := 0 to |rows|
        invariant date in appended && appendRuns == old(appendRuns)
        invariant appended == old(appended)[date := before + rows[..i]]
      {
        assert before + rows[..i + 1] == before + rows[..i] + [rows[i]];
        appended := appended[date := appended[date] + [rows[i]]];
      }
      assert rows[..|rows|] == rows;
      AppendedOnce(hash, appendRuns, date, appended);
      appendRuns := appendRuns + [date];
      count := |FileOf(appended, date)|;
    }

    method OverwritePartition(date: string) returns (count: nat)
      requires Valid()
      modifies this`overwritten, this`overwriteRuns
      ensures Valid() && overwriteRuns == old(overwriteRuns) + [date]
      ensures overwritten == old(overwritten)[date := RowsFor(hash, date)]
      ensures count == 3
      ensures date in overwritten && |overwritten[date]| == 3
      ensures forall r | r in overwritten[date] :: r == Row(date, "orders", 100 + hash(date) % 50)
    {
      overwritten := overwritten[date := []];
      var rows := RowsFor(hash, date);
      for i := 0 to |rows|
        invariant date in overwritten && overwriteRuns == old(overwriteRuns)
        invariant overwritten == old(overwritten)[date := rows[..i]]
      {
        assert rows[..i + 1] == rows[..i] + [rows[i]];
        overwritten := overwritten[date := overwritten[date] + [rows[i]]];
      }
      assert rows[..|rows|] == rows;
      overwriteRuns := overwriteRuns + [date];
      assert overwriteRuns[..|overwriteRuns| - 1] == old(overwriteRuns);
      count := |overwritten[date]|;
    }
  }

  /** Whatever the order and the repetitions, the overwrite store holds one copy of each
      date's rows. */
  lemma {:induction false} OverwriteIsOneCopyADate(hash: string -> int, runs: seq<string>)
    ensures OverwriteRuns(hash, runs) == map date | date in runs :: RowsFor(hash, date)
    ensures forall date | date in runs ::
              var rows := OverwriteRuns(hash, runs)[date];
              |rows| == 3 && forall r | r in rows :: r == Row(date, "orders", 100 + hash(date) % 50)
  {
    if runs != [] {
      OverwriteIsOneCopyADate(hash, runs[..|runs| - 1]);
      assert runs == runs[..|runs| - 1] + [runs[|runs| - 1]];
    }
  }

  /** So two sequences of runs leave the same store exactly when they cover the same dates. */
  lemma OverwriteDependsOnDates(hash: string -> int, runs: seq<string>, others: seq<string>)
    ensures OverwriteRuns(hash, runs) == OverwriteRuns(hash, others) <==>
            forall date :: date in runs <==> date in others
  {
    OverwriteIsOneCopyADate(hash, runs);
    OverwriteIsOneCopyADate(hash, others);
    if OverwriteRuns(hash, runs) == OverwriteRuns(hash, others) {
      forall date ensures date in runs <==> date in others {
        assert date in OverwriteRuns(hash, runs) <==> date in runs;
        assert date in OverwriteRuns(hash, others) <==> date in others;
      }
    }
  }

  /** The rows of a date are a pure function of the date within one process only: Python salts
      `hash` for each process. Overwriting again from another process leaves the file as it was
      exactly when both hashes agree modulo 50. */
  lemma OverwriteElsewhere(hash: string -> int, other: string -> int, runs: seq<string>, date: string)
    requires date in runs
    ensures OverwriteRuns(hash, runs)[date := RowsFor(other, date)] == OverwriteRuns(hash, runs) <==>
            hash(date) % 50 == other(date) % 50
  {
    OverwriteIsOneCopyADate(hash, runs);
    var store: map<string, seq<Row>> := OverwriteRuns(hash, runs);
    var here: seq<Row> := store[date];
    assert here == RowsFor(hash, date);
    assert here[0].value == 100 + hash(date) % 50 && RowsFor(other, date)[0].value == 100 + other(date) % 50;
    if hash(date) % 50 == other(date) % 50 {
      assert RowsFor(other, date) == here;
    } else {
      assert store[date := RowsFor(other, date)][date] != store[date];
    }
  }

  function Copies(rows: seq<Row>, n: nat): seq<Row> {
    if n == 0 then [] else Copies(rows, n - 1) + rows
  }

  lemma {:induction false} CopiesOfThree(rows: seq<Row>, n: nat)
    requires |rows| == 3
    ensures |Copies(rows, n)| == 3 * n
    ensures forall r | r in Copies(rows, n) :: r in rows
  {
    if n > 0 {
      CopiesOfThree(rows, n - 1);
    }
  }

  lemma AppendStep(hash: string -> int, runs: seq<string>, date: string)
    requires runs != []
    ensures var before, last := runs[..|runs| - 1], runs[|runs| - 1];
            && multiset(runs)[date] == multiset(before)[date] + (if last == date then 1 else 0)
            && FileOf(AppendRuns(hash, runs), date) ==
               FileOf(AppendRuns(hash, before), date) + (if last == date then RowsFor(hash, date) else [])
  {
    assert runs == runs[..|runs| - 1] + [runs[|runs| - 1]];
  }

  /** The append store holds one copy of the date's three rows for every run of the date. */
  lemma {:induction false} AppendHoldsCopies(hash: string -> int, runs: seq<string>, date: string)
    ensures FileOf(AppendRuns(hash, runs), date) == Copies(RowsFor(hash, date), multiset(runs)[date])
    ensures |FileOf(AppendRuns(hash, runs), date)| == 3 * multiset(runs)[date]
    ensures forall r | r in FileOf(AppendRuns(hash, runs), date) :: r == Row(date, "orders", 100 + hash(date) % 50)
    decreases |runs|
  {
    if runs != [] {
      AppendHoldsCopies(hash, runs[..|runs| - 1], date);
      AppendStep(hash, runs, date);
    }
    CopiesOfThree(RowsFor(hash, date), multiset(runs)[date]);
  }

  /** So running a date once more never leaves the append store as it was, and changes the
      overwrite store only when the date is new. */
  lemma OneMoreRun(hash: string -> int, runs: seq<string>, date: string)
    ensures AppendRuns(hash, runs + [date]) != AppendRuns(hash, runs)
    ensures OverwriteRuns(hash, runs + [date]) == OverwriteRuns(hash, runs) <==> date in runs
  {
    AppendHoldsCopies(hash, runs, date);
    AppendHoldsCopies(hash, runs + [date], date);
    OverwriteDependsOnDates(hash, runs + [date], runs);
    assert date in runs + [date];
  }
}
