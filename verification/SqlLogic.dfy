/** SQL values and three-valued logic.

    A truth value is a `Value` too: SQL's Unknown is the NULL of type BOOLEAN.
    Comparison, IN and the quantified comparisons follow sections 8.2, 8.4 and 8.9
    of ISO/IEC 9075-2:2016.
 */
module SqlLogic {

  datatype Value = Null | Bool(b: bool) | Num(n: int) | Text(s: string)

  datatype CompareOp = Eq | Neq | Lt | Le | Gt | Ge

  const UNKNOWN: Value := Null

  /** A WHERE clause keeps a row only when its condition is True. */
  predicate Holds(v: Value) {
    v == Bool(true)
  }

  function NotV(v: Value): Value {
    if v.Bool? then Bool(!v.b) else UNKNOWN
  }

  function AndV(x: Value, y: Value): Value {
    if x == Bool(false) || y == Bool(false) then Bool(false)
    else if x == Bool(true) && y == Bool(true) then Bool(true)
    else UNKNOWN
  }

  function OrV(x: Value, y: Value): Value {
    if x == Bool(true) || y == Bool(true) then Bool(true)
    else if x == Bool(false) && y == Bool(false) then Bool(false)
    else UNKNOWN
  }

  predicate TextPrecedes(s: string, t: string) {
    t != [] && (s == [] || s[0] < t[0] || (s[0] == t[0] && TextPrecedes(s[1..], t[1..])))
  }

  /** The strict order behind `<`; values of different types never meet in typed SQL. */
  predicate Precedes(x: Value, y: Value) {
    match (x, y)
    case (Bool(b), Bool(c)) => !b && c
    case (Num(m), Num(n)) => m < n
    case (Text(s), Text(t)) => TextPrecedes(s, t)
    case _ => false
  }

  function CompareValues(op: CompareOp, x: Value, y: Value): Value {
    if x.Null? || y.Null? then UNKNOWN
    else match op
      case Eq => Bool(x == y)
      case Neq => Bool(x != y)
      case Lt => Bool(Precedes(x, y))
      case Le => Bool(!Precedes(y, x))
      case Gt => Bool(Precedes(y, x))
      case Ge => Bool(!Precedes(x, y))
  }

  /** `x op ALL (column)`, section 8.9, general rules for ALL. */
  function CompareAll(op: CompareOp, x: Value, column: seq<Value>): Value {
    if forall k | 0 <= k < |column| :: CompareValues(op, x, column[k]) == Bool(true) then Bool(true)
    else if exists k | 0 <= k < |column| :: CompareValues(op, x, column[k]) == Bool(false) then Bool(false)
    else UNKNOWN
  }

  /** `x op ANY (column)`, section 8.9, general rules for SOME. */
  function CompareAny(op: CompareOp, x: Value, column: seq<Value>): Value {
    if exists k | 0 <= k < |column| :: CompareValues(op, x, column[k]) == Bool(true) then Bool(true)
    else if forall k | 0 <= k < |column| :: CompareValues(op, x, column[k]) == Bool(false) then Bool(false)
    else UNKNOWN
  }

  /** `x IN (column)` as an engine runs it: a chain of ORs over equality. */
  function InColumn(x: Value, column: seq<Value>): Value {
    if column == [] then Bool(false)
    else OrV(CompareValues(Eq, x, column[0]), InColumn(x, column[1..]))
  }

  /** The six comparisons of numbers, in their own order, and of NULLs. */
  lemma ComparisonsOfNumbers(m: int, n: int)
    ensures CompareValues(Eq, Num(m), Num(n)) == Bool(m == n) && CompareValues(Neq, Num(m), Num(n)) == Bool(m != n)
    ensures CompareValues(Lt, Num(m), Num(n)) == Bool(m < n) && CompareValues(Le, Num(m), Num(n)) == Bool(m <= n)
    ensures CompareValues(Gt, Num(m), Num(n)) == Bool(m > n) && CompareValues(Ge, Num(m), Num(n)) == Bool(m >= n)
    ensures forall op, v :: CompareValues(op, Null, v) == UNKNOWN && CompareValues(op, v, Null) == UNKNOWN
  {
  }

  /** `k` characters agree, and then the first text ends or has the smaller character. */
  predicate PrecedesAt(s: string, t: string, k: nat) {
    k <= |s| && k < |t| && s[..k] == t[..k] && (k == |s| || s[k] < t[k])
  }

  /** Texts compare as in a dictionary. */
  lemma {:induction false} ComparisonsOfTexts(s: string, t: string)
    ensures CompareValues(Lt, Text(s), Text(t)) == Bool(true) <==> exists k: nat :: PrecedesAt(s, t, k)
    decreases |s|
  {
    if s != [] && t != [] && s[0] == t[0] {
      ComparisonsOfTexts(s[1..], t[1..]);
      if k: nat :| PrecedesAt(s[1..], t[1..], k) {
        assert s == [s[0]] + s[1..] && t == [t[0]] + t[1..];
        assert s[..k + 1] == [s[0]] + s[1..][..k] && t[..k + 1] == [t[0]] + t[1..][..k];
        assert PrecedesAt(s, t, k + 1);
      }
      if k: nat :| PrecedesAt(s, t, k) {
        assert k > 0;
        assert s[1..][..k - 1] == s[..k][1..] && t[1..][..k - 1] == t[..k][1..];
        assert PrecedesAt(s[1..], t[1..], k - 1);
      }
    } else if t != [] && (s == [] || s[0] < t[0]) {
      assert PrecedesAt(s, t, 0);
    }
  }

  /** When the OR chain is True, False or Unknown, in terms of NULLs and membership. */
  lemma {:induction false} InColumnCases(x: Value, column: seq<Value>)
    ensures InColumn(x, column) == Bool(true) <==> !x.Null? && x in column
    ensures InColumn(x, column) == Bool(false) <==> column == [] || (!x.Null? && x !in column && Null !in column)
    ensures InColumn(x, column) == UNKNOWN <==>
              column != [] && (x.Null? || (x !in column && Null in column))
  {
    if column != [] {
      InColumnCases(x, column[1..]);
      assert column == [column[0]] + column[1..];
    }
  }

  /** `x = ANY (column)` and `x IN (column)` agree on every input. */
  lemma {:induction false} EqAnyIsIn(x: Value, column: seq<Value>)
    ensures CompareAny(Eq, x, column) == InColumn(x, column)
  {
    InColumnCases(x, column);
    forall k | 0 <= k < |column|
      ensures CompareValues(Eq, x, column[k]) == Bool(true) <==> !x.Null? && x == column[k]
    {
    }
    if column != [] {
      assert CompareValues(Eq, x, column[0]) == CompareValues(Eq, x, column[0]);
    }
  }

  /** `x <> ALL (column)` and `NOT x IN (column)` agree on every input:
      NULL operand, NULLs in the column and the empty column included. */
  lemma {:induction false} NeqAllIsNotIn(x: Value, column: seq<Value>)
    ensures CompareAll(Neq, x, column) == NotV(InColumn(x, column))
  {
    EqAnyIsIn(x, column);
    forall k | 0 <= k < |column|
      ensures CompareValues(Neq, x, column[k]) == NotV(CompareValues(Eq, x, column[k]))
    {
    }
  }
}
