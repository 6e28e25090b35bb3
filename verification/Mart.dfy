/** The per-status mart over the mirror: GROUP BY status with count(*) and sum(amount). */
module Mart {
  import opened Results
  import opened KeyedTable
  import opened CdcReplica

  /** NULL statuses form a group of their own. */
  datatype Group = Group(status: Option<string>, orders: nat, total: Option<int>)

  /** SQL's sum skips NULLs and is NULL when there is nothing else. */
  function Plus(a: Option<int>, b: Option<int>): Option<int> {
    if a.None? then b else if b.None? then a else Some(a.value + b.value)
  }

  function AddTo(mart: seq<Group>, v: Values): seq<Group> {
    if mart == [] then [Group(v.status, 1, v.amount)]
    else if mart[0].status == v.status then
      [Group(v.status, mart[0].orders + 1, Plus(v.amount, mart[0].total))] + mart[1..]
    else [mart[0]] + AddTo(mart[1..], v)
  }

  function GroupByStatus(rows: seq<Row<Values>>): seq<Group> {
    if rows == [] then [] else AddTo(GroupByStatus(rows[1..]), rows[0].val)
  }

  // ----- Reference: each group on its own -----

  function OrdersOf(rows: seq<Row<Values>>, status: Option<string>): nat {
    if rows == [] then 0
    else (if rows[0].val.status == status then 1 else 0) + OrdersOf(rows[1..], status)
  }

  /** The arithmetic sum of a status's amounts, NULLs left out. */
  function AmountSum(rows: seq<Row<Values>>, status: Option<string>): int {
    if rows == [] then 0
    else
      (if rows[0].val.status == status && rows[0].val.amount.Some? then rows[0].val.amount.value else 0)
      + AmountSum(rows[1..], status)
  }

  predicate HasAmount(rows: seq<Row<Values>>, status: Option<string>) {
    exists i | 0 <= i < |rows| :: rows[i].val.status == status && rows[i].val.amount.Some?
  }

  function TotalOf(rows: seq<Row<Values>>, status: Option<string>): Option<int> {
    if HasAmount(rows, status) then Some(AmountSum(rows, status)) else None
  }

  /** The arithmetic sum of all amounts, NULLs left out. */
  function SumAmounts(rows: seq<Row<Values>>): int {
    if rows == [] then 0
    else (if rows[0].val.amount.Some? then rows[0].val.amount.value else 0) + SumAmounts(rows[1..])
  }

  function TotalAmount(rows: seq<Row<Values>>): Option<int> {
    if exists i | 0 <= i < |rows| :: rows[i].val.amount.Some? then Some(SumAmounts(rows)) else None
  }

  /** One row more, in the sum of its own status and in no other. */
  lemma {:induction false} TotalStep(rows: seq<Row<Values>>, status: Option<string>)
    requires rows != []
    ensures TotalOf(rows, status) ==
            Plus(if rows[0].val.status == status then rows[0].val.amount else None, TotalOf(rows[1..], status))
  {
    assert forall i | 0 < i < |rows| :: rows[i] == rows[1..][i - 1];
    if !HasAmount(rows[1..], status) {
      NoAmountNoSum(rows[1..], status);
    }
  }

  lemma {:induction false} NoAmountNoSum(rows: seq<Row<Values>>, status: Option<string>)
    requires !HasAmount(rows, status)
    ensures AmountSum(rows, status) == 0
  {
    if rows != [] {
      assert forall i | 0 <= i < |rows[1..]| :: rows[1..][i] == rows[i + 1];
      NoAmountNoSum(rows[1..], status);
    }
  }

  lemma {:induction false} TotalAmountStep(rows: seq<Row<Values>>)
    requires rows != []
    ensures TotalAmount(rows) == Plus(rows[0].val.amount, TotalAmount(rows[1..]))
  {
    assert forall i | 0 < i < |rows| :: rows[i] == rows[1..][i - 1];
    if TotalAmount(rows[1..]).None? {
      NoAmountsNoSum(rows[1..]);
    }
  }

  lemma {:induction false} NoAmountsNoSum(rows: seq<Row<Values>>)
    requires TotalAmount(rows).None?
    ensures SumAmounts(rows) == 0
  {
    if rows != [] {
      assert forall i | 0 <= i < |rows[1..]| :: rows[1..][i] == rows[i + 1];
      NoAmountsNoSum(rows[1..]);
    }
  }

  predicate StatusesDistinct(mart: seq<Group>) {
    forall i, j | 0 <= i < j < |mart| :: mart[i].status != mart[j].status
  }

  ghost predicate HasGroup(mart: seq<Group>, status: Option<string>) {
    exists g :: g in mart && g.status == status
  }

  /** A mart is right when it has one row for each status that occurs, and that row holds
      the status's own count and total. */
  ghost predicate IsMartOf(mart: seq<Group>, rows: seq<Row<Values>>) {
    && StatusesDistinct(mart)
    && (forall g | g in mart :: g.orders == OrdersOf(rows, g.status) && g.total == TotalOf(rows, g.status))
    && (forall status :: HasGroup(mart, status) <==> OrdersOf(rows, status) > 0)
  }

  lemma {:induction false} AddToGroups(mart: seq<Group>, v: Values)
    requires StatusesDistinct(mart)
    ensures var r := AddTo(mart, v);
            && StatusesDistinct(r)
            && (forall status :: HasGroup(r, status) <==> HasGroup(mart, status) || status == v.status)
    ensures forall g | g in AddTo(mart, v) :: g.status != v.status ==> g in mart
    ensures forall g | g in AddTo(mart, v) && g.status == v.status ::
              (!HasGroup(mart, v.status) && g == Group(v.status, 1, v.amount)) ||
              exists h :: h in mart && h.status == v.status && g == Group(v.status, h.orders + 1, Plus(v.amount, h.total))
  {
    var r := AddTo(mart, v);
    if mart == [] {
      assert r[0] in r;
    } else {
      assert mart == [mart[0]] + mart[1..];
      HasGroupCons(mart[0], mart[1..]);
      HasGroupCons(r[0], r[1..]);
      assert r == [r[0]] + r[1..];
      if mart[0].status == v.status {
        assert mart[0] in mart;
        forall g | g in mart[1..] ensures g.status != v.status {
          var j :| 0 <= j < |mart[1..]| && mart[1..][j] == g;
          assert mart[j + 1] == g;
        }
      } else {
        var rest := AddTo(mart[1..], v);
        AddToGroups(mart[1..], v);
        forall i | 0 <= i < |rest| ensures rest[i].status != mart[0].status {
          assert rest[i] in rest;
          if rest[i].status != v.status {
            var j :| 0 <= j < |mart[1..]| && mart[1..][j] == rest[i];
            assert mart[j + 1] == rest[i];
          }
        }
      }
    }
  }

  lemma {:induction false} HasGroupCons(g: Group, gs: seq<Group>)
    ensures forall status :: HasGroup([g] + gs, status) <==> g.status == status || HasGroup(gs, status)
  {
  }

  lemma {:induction false} NoOrdersNoTotal(rows: seq<Row<Values>>, status: Option<string>)
    requires OrdersOf(rows, status) == 0
    ensures TotalOf(rows, status) == None
  {
    if rows != [] {
      NoOrdersNoTotal(rows[1..], status);
      TotalStep(rows, status);
    }
  }

  /** The one-scan aggregation computes every group's own count and total. */
  lemma {:induction false} GroupByIsMart(rows: seq<Row<Values>>)
    ensures IsMartOf(GroupByStatus(rows), rows)
  {
    if rows != [] {
      var before, v := GroupByStatus(rows[1..]), rows[0].val;
      GroupByIsMart(rows[1..]);
      AddToGroups(before, v);
      forall g | g in AddTo(before, v)
        ensures g.orders == OrdersOf(rows, g.status) && g.total == TotalOf(rows, g.status)
      {
        TotalStep(rows, g.status);
        if !HasGroup(before, g.status) {
          NoOrdersNoTotal(rows[1..], g.status);
        }
      }
    }
  }

  // ----- Conservation -----

  function SumOrders(mart: seq<Group>): nat {
    if mart == [] then 0 else mart[0].orders + SumOrders(mart[1..])
  }

  /** The arithmetic sum of the totals, NULLs left out. */
  function TotalsSum(mart: seq<Group>): int {
    if mart == [] then 0 else (if mart[0].total.Some? then mart[0].total.value else 0) + TotalsSum(mart[1..])
  }

  function SumTotals(mart: seq<Group>): Option<int> {
    if exists i | 0 <= i < |mart| :: mart[i].total.Some? then Some(TotalsSum(mart)) else None
  }

  lemma {:induction false} SumTotalsStep(mart: seq<Group>)
    requires mart != []
    ensures SumTotals(mart) == Plus(mart[0].total, SumTotals(mart[1..]))
  {
    assert forall i | 0 < i < |mart| :: mart[i] == mart[1..][i - 1];
    if SumTotals(mart[1..]).None? {
      NoTotalsNoSum(mart[1..]);
    }
  }

  lemma {:induction false} NoTotalsNoSum(mart: seq<Group>)
    requires SumTotals(mart).None?
    ensures TotalsSum(mart) == 0
  {
    if mart != [] {
      assert forall i | 0 <= i < |mart[1..]| :: mart[1..][i] == mart[i + 1];
      NoTotalsNoSum(mart[1..]);
    }
  }

  lemma {:induction false} AddToSums(mart: seq<Group>, v: Values)
    ensures SumOrders(AddTo(mart, v)) == SumOrders(mart) + 1
    ensures SumTotals(AddTo(mart, v)) == Plus(v.amount, SumTotals(mart))
  {
    var r := AddTo(mart, v);
    SumTotalsStep(r);
    if mart == [] {
      assert r[1..] == [];
    } else {
      SumTotalsStep(mart);
      if mart[0].status != v.status {
        AddToSums(mart[1..], v);
        assert r[1..] == AddTo(mart[1..], v);
      } else {
        assert r[1..] == mart[1..];
      }
    }
  }

  /** The order counts of the mart add up to the rows of the mirror, its totals to the
      mirror's total amount. */
  lemma {:induction false} MartConserves(rows: seq<Row<Values>>)
    ensures SumOrders(GroupByStatus(rows)) == |rows|
    ensures SumTotals(GroupByStatus(rows)) == TotalAmount(rows)
  {
    if rows != [] {
      MartConserves(rows[1..]);
      TotalAmountStep(rows);
      AddToSums(GroupByStatus(rows[1..]), rows[0].val);
    }
  }

  // ----- Composition with ingest -----

  lemma {:induction false} GroupWithout(rows: seq<Row<Values>>, i: nat, status: Option<string>)
    requires i < |rows|
    ensures var here, rest := rows[i].val, rows[..i] + rows[i + 1..];
            OrdersOf(rows, status) == (if here.status == status then 1 else 0) + OrdersOf(rest, status) &&
            TotalOf(rows, status) == Plus(if here.status == status then here.amount else None, TotalOf(rest, status))
  {
    var rest := rows[..i] + rows[i + 1..];
    TotalStep(rows, status);
    if i == 0 {
      assert rest == rows[1..];
    } else {
      GroupWithout(rows[1..], i - 1, status);
      assert rest[1..] == rows[1..][..i - 1] + rows[1..][i..];
      TotalStep(rest, status);
    }
  }

  lemma SameRowsWithout(a: seq<Row<Values>>, b: seq<Row<Values>>, i: nat)
    requires multiset(a) == multiset(b) && a != [] && i < |b| && b[i] == a[0]
    ensures multiset(a[1..]) == multiset(b[..i] + b[i + 1..])
  {
    assert a == [a[0]] + a[1..];
    assert b == b[..i] + ([b[i]] + b[i + 1..]);
    assert multiset(a[1..]) == multiset(a) - multiset{a[0]};
    assert multiset(b[..i] + b[i + 1..]) == multiset(b) - multiset{b[i]};
  }

  /** A group's count and total do not see the order of the rows. */
  lemma {:induction false} GroupOfSameRows(a: seq<Row<Values>>, b: seq<Row<Values>>, status: Option<string>)
    requires multiset(a) == multiset(b)
    ensures OrdersOf(a, status) == OrdersOf(b, status) && TotalOf(a, status) == TotalOf(b, status)
    decreases |a|
  {
    if a == [] {
      assert |multiset(b)| == 0;
    } else {
      assert a[0] in multiset(b);
      var i :| 0 <= i < |b| && b[i] == a[0];
      var rest := b[..i] + b[i + 1..];
      SameRowsWithout(a, b, i);
      GroupOfSameRows(a[1..], rest, status);
      GroupWithout(b, i, status);
      TotalStep(a, status);
    }
  }

  /** From the source history to the mart: the mart built over the mirror is the GROUP BY
      of the source table, in whatever order the source lists its rows. */
  lemma MartOfReplica(history: seq<Record>, log: seq<Record>, latest: seq<LogChange>, source: seq<Row<Values>>)
    requires ValidHistory(history) && Delivers(history, log)
    requires IsLatest(Changes(log), latest)
    requires Represents(source, Replay(history))
    ensures IsMartOf(GroupByStatus(MirrorOf(latest)), source)
  {
    var mirror := MirrorOf(latest);
    MirrorEqualsSource(history, log, latest);
    RepresentsSameRows(mirror, source, Replay(history));
    GroupByIsMart(mirror);
    forall status
      ensures OrdersOf(mirror, status) == OrdersOf(source, status) && TotalOf(mirror, status) == TotalOf(source, status)
    {
      GroupOfSameRows(mirror, source, status);
    }
  }

  /** The stored mart, dropped and created anew by each transform. */
  class MartTable {
    var groups: seq<Group>

    constructor ()
      ensures groups == []
    {
      groups := [];
    }

    method Rebuild(mirror: seq<Row<Values>>)
      modifies this
      ensures groups == GroupByStatus(mirror)
      ensures IsMartOf(groups, mirror)
      ensures SumOrders(groups) == |mirror| && SumTotals(groups) == TotalAmount(mirror)
    {
      GroupByIsMart(mirror);
      MartConserves(mirror);
      groups := GroupByStatus(mirror);
    }
  }
}
