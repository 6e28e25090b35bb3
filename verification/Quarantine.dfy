/** The clean/quarantine split of raw orders and its reconcile test, in three-valued logic. */
module Quarantine {
  import opened SqlLogic

  /** A raw order; any of its columns may be NULL. */
  datatype RawOrder = RawOrder(id: Value, customer: Value, amount: Value, status: Value)

  const VALID_STATUSES: seq<Value> := [Text("completed"), Text("refunded"), Text("pending")]

  // The three rules, as each model writes them.

  function AmountPositive(o: RawOrder): Value {
    CompareValues(Gt, o.amount, Num(0))
  }

  function StatusValid(o: RawOrder): Value {
    InColumn(o.status, VALID_STATUSES)
  }

  function CustomerKnown(o: RawOrder, customers: seq<Value>): Value {
    InColumn(o.customer, customers)
  }

  function AmountNotPositive(o: RawOrder): Value {
    CompareValues(Le, o.amount, Num(0))
  }

  function StatusInvalid(o: RawOrder): Value {
    NotV(InColumn(o.status, VALID_STATUSES))
  }

  function CustomerUnknown(o: RawOrder, customers: seq<Value>): Value {
    NotV(InColumn(o.customer, customers))
  }

  /** WHERE of `orders_clean`. */
  function CleanCondition(o: RawOrder, customers: seq<Value>): Value {
    AndV(AndV(AmountPositive(o), StatusValid(o)), CustomerKnown(o, customers))
  }

  /** WHERE of `orders_quarantine`. */
  function QuarantineCondition(o: RawOrder, customers: seq<Value>): Value {
    OrV(OrV(AmountNotPositive(o), StatusInvalid(o)), CustomerUnknown(o, customers))
  }

  /** The CASE of `orders_quarantine`; without a matching branch it is NULL. */
  function Reason(o: RawOrder, customers: seq<Value>): Value {
    if Holds(AmountNotPositive(o)) then Text("non_positive_amount")
    else if Holds(StatusInvalid(o)) then Text("invalid_status")
    else if Holds(CustomerUnknown(o, customers)) then Text("orphan_customer")
    else Null
  }

  function CleanRows(raw: seq<RawOrder>, customers: seq<Value>): seq<RawOrder> {
    if raw == [] then []
    else CleanPart(raw[0], customers) + CleanRows(raw[1..], customers)
  }

  function CleanPart(o: RawOrder, customers: seq<Value>): seq<RawOrder> {
    if Holds(CleanCondition(o, customers)) then [o] else []
  }

  function QuarantinePart(o: RawOrder, customers: seq<Value>): seq<(RawOrder, Value)> {
    if Holds(QuarantineCondition(o, customers)) then [(o, Reason(o, customers))] else []
  }

  function QuarantineRows(raw: seq<RawOrder>, customers: seq<Value>): seq<(RawOrder, Value)> {
    if raw == [] then []
    else QuarantinePart(raw[0], customers) + QuarantineRows(raw[1..], customers)
  }

  /** The reconcile test: it passes when it selects no failure row. */
  predicate Reconciles(raw: seq<RawOrder>, customers: seq<Value>) {
    |CleanRows(raw, customers)| + |QuarantineRows(raw, customers)| == |raw|
  }

  // ----- Where a row goes -----

  /** In three-valued logic the quarantine condition is the negation of the clean one. */
  lemma {:induction false} QuarantineNegatesClean(o: RawOrder, customers: seq<Value>)
    ensures QuarantineCondition(o, customers) == NotV(CleanCondition(o, customers))
  {
  }

  predicate StatusAccepted(o: RawOrder) {
    o.status == Text("completed") || o.status == Text("refunded") || o.status == Text("pending")
  }

  /** The customer test cannot be decided: a NULL customer against a non-empty key column,
      or a customer that is not among keys of which one is NULL. */
  predicate CustomerUndecided(o: RawOrder, customers: seq<Value>) {
    customers != [] && (o.customer.Null? || (o.customer !in customers && Null in customers))
  }

  /** The customer test definitely fails. */
  predicate CustomerFails(o: RawOrder, customers: seq<Value>) {
    customers == [] || (!o.customer.Null? && o.customer !in customers && Null !in customers)
  }

  /** What the clean mart promises of a row, in plain arithmetic and membership. */
  predicate IsClean(o: RawOrder, customers: seq<Value>) {
    && o.amount.Num? && o.amount.n > 0
    && StatusAccepted(o)
    && !o.customer.Null? && o.customer in customers
  }

  /** The first rule that definitely fails: a non-NULL amount that is not above zero, a
      non-NULL status outside the list, an unknown customer. */
  function FirstFailure(o: RawOrder, customers: seq<Value>): Value {
    if !o.amount.Null? && !(o.amount.Num? && o.amount.n > 0) then Text("non_positive_amount")
    else if !o.status.Null? && !StatusAccepted(o) then Text("invalid_status")
    else if CustomerFails(o, customers) then Text("orphan_customer")
    else Null
  }

  /** A row that neither model selects: no rule definitely fails, and some rule is undecided. */
  predicate IsLost(o: RawOrder, customers: seq<Value>) {
    && (o.amount.Null? || (o.amount.Num? && o.amount.n > 0))
    && (o.status.Null? || StatusAccepted(o))
    && !CustomerFails(o, customers)
    && (o.amount.Null? || o.status.Null? || CustomerUndecided(o, customers))
  }

  lemma StatusCases(o: RawOrder)
    ensures StatusValid(o) == Bool(true) <==> StatusAccepted(o)
    ensures StatusValid(o) == UNKNOWN <==> o.status.Null?
    ensures StatusValid(o) == Bool(false) <==> !o.status.Null? && !StatusAccepted(o)
  {
    InColumnCases(o.status, VALID_STATUSES);
    assert VALID_STATUSES[0] == Text("completed") && VALID_STATUSES[1] == Text("refunded")
           && VALID_STATUSES[2] == Text("pending");
    assert forall k | 0 <= k < |VALID_STATUSES| :: VALID_STATUSES[k].Text?;
  }

  lemma CustomerCases(o: RawOrder, customers: seq<Value>)
    ensures CustomerKnown(o, customers) == UNKNOWN <==> CustomerUndecided(o, customers)
    ensures CustomerKnown(o, customers) == Bool(false) <==> CustomerFails(o, customers)
    ensures CustomerKnown(o, customers) == Bool(true) || CustomerKnown(o, customers) == Bool(false)
            || CustomerKnown(o, customers) == UNKNOWN
  {
    InColumnCases(o.customer, customers);
  }

  /** Exactly one of three things happens to a row, and which one can be read off its NULLs. */
  lemma Trichotomy(o: RawOrder, customers: seq<Value>)
    ensures Holds(CleanCondition(o, customers)) ==>
              !Holds(QuarantineCondition(o, customers)) && !IsLost(o, customers)
    ensures Holds(QuarantineCondition(o, customers)) ==> !IsLost(o, customers)
    ensures IsLost(o, customers) <==>
              !Holds(CleanCondition(o, customers)) && !Holds(QuarantineCondition(o, customers))
    ensures IsLost(o, customers) <==> CleanCondition(o, customers) == UNKNOWN
  {
    QuarantineNegatesClean(o, customers);
    StatusCases(o);
    CustomerCases(o, customers);
  }

  /** The clean model selects exactly the rows with a positive amount, an accepted status and
      a customer among the keys. */
  lemma CleanIff(o: RawOrder, customers: seq<Value>)
    ensures Holds(CleanCondition(o, customers)) <==> IsClean(o, customers)
    ensures forall n | o.amount == Num(n) && Holds(CleanCondition(o, customers)) :: n > 0
  {
    StatusCases(o);
    InColumnCases(o.customer, customers);
  }

  /** A quarantined row always has a reason, the first rule that it breaks; no other row would.
      An amount is called non-positive exactly when it is a number up to zero. */
  lemma ReasonIff(o: RawOrder, customers: seq<Value>)
    ensures Holds(QuarantineCondition(o, customers)) <==> Reason(o, customers) != Null
    ensures Reason(o, customers) == Text("non_positive_amount") <==>
              !o.amount.Null? && !(o.amount.Num? && o.amount.n > 0)
    ensures Reason(o, customers) == Text("invalid_status") <==>
              (o.amount.Null? || (o.amount.Num? && o.amount.n > 0)) && !o.status.Null? && !StatusAccepted(o)
    ensures Reason(o, customers) == Text("orphan_customer") <==>
              (o.amount.Null? || (o.amount.Num? && o.amount.n > 0)) && (o.status.Null? || StatusAccepted(o))
              && CustomerFails(o, customers)
    ensures Reason(o, customers) == FirstFailure(o, customers)
    ensures forall n | o.amount == Num(n) :: Reason(o, customers) == Text("non_positive_amount") <==> n <= 0
  {
    StatusCases(o);
    CustomerCases(o, customers);
    assert |"non_positive_amount"| == 19 && |"invalid_status"| == 14 && |"orphan_customer"| == 15;
  }

  lemma PartsOf(o: RawOrder, customers: seq<Value>)
    ensures CleanPart(o, customers) == if IsClean(o, customers) then [o] else []
    ensures QuarantinePart(o, customers) ==
            if FirstFailure(o, customers) != Null then [(o, FirstFailure(o, customers))] else []
  {
    CleanIff(o, customers);
    ReasonIff(o, customers);
  }

  /** The clean table holds exactly the clean rows, each as often as it is raw. */
  lemma {:induction false} CleanRowsHold(raw: seq<RawOrder>, customers: seq<Value>, o: RawOrder)
    ensures multiset(CleanRows(raw, customers))[o] == if IsClean(o, customers) then multiset(raw)[o] else 0
  {
    if raw != [] {
      CleanRowsHold(raw[1..], customers, o);
      PartsOf(raw[0], customers);
      assert raw == [raw[0]] + raw[1..];
    }
  }

  /** The quarantine table holds exactly the rows that break a rule, each as often as it is raw
      and with the first rule that it breaks. */
  lemma {:induction false} QuarantineRowsHold(raw: seq<RawOrder>, customers: seq<Value>, o: RawOrder, reason: Value)
    ensures multiset(QuarantineRows(raw, customers))[(o, reason)] ==
            if reason == FirstFailure(o, customers) != Null then multiset(raw)[o] else 0
  {
    if raw != [] {
      QuarantineRowsHold(raw[1..], customers, o, reason);
      PartsOf(raw[0], customers);
      assert raw == [raw[0]] + raw[1..];
    }
  }

  function LostPart(o: RawOrder, customers: seq<Value>): seq<RawOrder> {
    if IsLost(o, customers) then [o] else []
  }

  function LostRows(raw: seq<RawOrder>, customers: seq<Value>): seq<RawOrder> {
    if raw == [] then [] else LostPart(raw[0], customers) + LostRows(raw[1..], customers)
  }

  function WithoutReasons(rows: seq<(RawOrder, Value)>): seq<RawOrder> {
    seq(|rows|, i requires 0 <= i < |rows| => rows[i].0)
  }

  lemma RowSplit(o: RawOrder, customers: seq<Value>)
    ensures CleanPart(o, customers) + WithoutReasons(QuarantinePart(o, customers)) + LostPart(o, customers) == [o]
    ensures |CleanPart(o, customers)| + |QuarantinePart(o, customers)| + |LostPart(o, customers)| == 1
  {
    Trichotomy(o, customers);
  }

  lemma WithoutReasonsConcat(a: seq<(RawOrder, Value)>, b: seq<(RawOrder, Value)>)
    ensures WithoutReasons(a + b) == WithoutReasons(a) + WithoutReasons(b)
  {
  }

  /** Conservation: every raw row occurs in the clean, quarantined and lost rows together as
      often as it occurs in the raw rows. */
  lemma {:induction false} SplitConserves(raw: seq<RawOrder>, customers: seq<Value>, o: RawOrder)
    ensures multiset(raw)[o] == multiset(CleanRows(raw, customers))[o]
                                + multiset(WithoutReasons(QuarantineRows(raw, customers)))[o]
                                + multiset(LostRows(raw, customers))[o]
    decreases |raw|
  {
    if raw != [] {
      SplitConserves(raw[1..], customers, o);
      RowSplit(raw[0], customers);
      WithoutReasonsConcat(QuarantinePart(raw[0], customers), QuarantineRows(raw[1..], customers));
      assert raw == [raw[0]] + raw[1..];
    }
  }

  lemma {:induction false} SplitSizes(raw: seq<RawOrder>, customers: seq<Value>)
    ensures |raw| == |CleanRows(raw, customers)| + |QuarantineRows(raw, customers)| + |LostRows(raw, customers)|
  {
    if raw != [] {
      SplitSizes(raw[1..], customers);
      RowSplit(raw[0], customers);
    }
  }

  lemma {:induction false} LostRowsMembers(raw: seq<RawOrder>, customers: seq<Value>)
    ensures LostRows(raw, customers) == [] <==> forall o | o in raw :: !IsLost(o, customers)
  {
    if raw != [] {
      LostRowsMembers(raw[1..], customers);
      assert raw == [raw[0]] + raw[1..];
    }
  }

  /** The reconcile test passes exactly when no row is lost to an undecided rule. */
  lemma ReconcilesIff(raw: seq<RawOrder>, customers: seq<Value>)
    ensures Reconciles(raw, customers) <==> forall o | o in raw :: !IsLost(o, customers)
  {
    SplitSizes(raw, customers);
    LostRowsMembers(raw, customers);
  }

  /** Without NULLs in the tested columns and in the customer keys the test passes. */
  lemma ReconcilesWithoutNulls(raw: seq<RawOrder>, customers: seq<Value>)
    requires forall o | o in raw :: !o.amount.Null? && !o.status.Null? && !o.customer.Null?
    requires Null !in customers
    ensures Reconciles(raw, customers)
  {
    ReconcilesIff(raw, customers);
  }

  /** With a NULL amount an otherwise good row reaches neither table, and the test fails. */
  lemma NullAmountIsLost(id: Value, customer: Value)
    requires !customer.Null?
    ensures !Reconciles([RawOrder(id, customer, Null, Text("completed"))], [customer])
  {
    var o := RawOrder(id, customer, Null, Text("completed"));
    assert o in [o];
    ReconcilesIff([o], [customer]);
    assert customer in [customer];
  }
}
