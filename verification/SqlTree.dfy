/** The expression tree of the transpiler and its meaning.

    As in the source, a tree is made of nodes of one sort, each with a kind and a list
    of arguments, so that one generic pass can visit every node.
 */
module SqlTree {
  import opened SqlLogic

  datatype Kind =
    | Column(name: string)
    | Literal(value: Value)
    | Function(name: string)      // any other scalar node, strict in its arguments
    | Not
    | And
    | Or
    | Compare(op: CompareOp)      // this, expression
    | All                         // this
    | Any                         // this
    | In                          // this, query
    | Exists                      // this
    | Subquery                    // this
    | Table(name: string)
    | Select(names: seq<string>)  // source, where, then one projection a name
    | Combine(name: string)       // any other relational node: joins, UNION, GROUP BY, LIMIT, ...

  datatype Node = Node(kind: Kind, args: seq<Node>)

  datatype Cell = Cell(name: string, value: Value)

  type Row = seq<Cell>

  /** The stored tables, and the meaning of the function and operator names of the dialect. */
  datatype Database = Database(
    tables: map<string, seq<Row>>,
    functions: imap<(string, seq<Value>), Value>,
    operators: imap<(string, seq<seq<Row>>), seq<Row>>)

  /** What a node denotes. ALL and ANY denote the column they range over. */
  datatype Meaning = Scalar(value: Value) | EveryOf(column: seq<Value>) | SomeOf(column: seq<Value>) | Rows(rows: seq<Row>)

  /** Names resolve in the innermost row first: an environment is the current row
      followed by the rows of the enclosing queries. */
  function Lookup(env: Row, name: string): Value {
    if env == [] then Null
    else if env[0].name == name then env[0].value
    else Lookup(env[1..], name)
  }

  function FirstCell(row: Row): Value {
    if row == [] then Null else row[0].value
  }

  function RowsOf(m: Meaning): seq<Row> {
    if m.Rows? then m.rows else []
  }

  function ColumnOf(m: Meaning): seq<Value> {
    seq(|RowsOf(m)|, k requires 0 <= k < |RowsOf(m)| => FirstCell(RowsOf(m)[k]))
  }

  /** A subquery in scalar position reads its only row. */
  function ValueOf(m: Meaning): Value {
    match m
    case Scalar(v) => v
    case Rows(rows) => if |rows| == 1 then FirstCell(rows[0]) else Null
    case _ => Null
  }

  function CompareMeanings(op: CompareOp, left: Meaning, right: Meaning): Value {
    match right
    case EveryOf(column) => CompareAll(op, ValueOf(left), column)
    case SomeOf(column) => CompareAny(op, ValueOf(left), column)
    case _ => CompareValues(op, ValueOf(left), ValueOf(right))
  }

  function Combination(key: (string, seq<seq<Row>>), db: Database): seq<Row> {
    if key in db.operators then db.operators[key] else []
  }

  function Application(key: (string, seq<Value>), db: Database): Value {
    if key in db.functions then db.functions[key] else Null
  }

  /** The meaning of every node but SELECT, from the meanings of its arguments. */
  function Apply(kind: Kind, ms: seq<Meaning>, env: Row, db: Database): Meaning {
    match kind
    case Column(name) => Scalar(Lookup(env, name))
    case Literal(v) => Scalar(v)
    case Function(f) =>
      Scalar(Application((f, seq(|ms|, k requires 0 <= k < |ms| => ValueOf(ms[k]))), db))
    case Table(name) => Rows(if name in db.tables then db.tables[name] else [])
    case Combine(f) =>
      Rows(Combination((f, seq(|ms|, k requires 0 <= k < |ms| => RowsOf(ms[k]))), db))
    case Not => if |ms| == 1 then Scalar(NotV(ValueOf(ms[0]))) else Scalar(Null)
    case All => if |ms| == 1 then EveryOf(ColumnOf(ms[0])) else Scalar(Null)
    case Any => if |ms| == 1 then SomeOf(ColumnOf(ms[0])) else Scalar(Null)
    case Exists => if |ms| == 1 then Scalar(Bool(RowsOf(ms[0]) != [])) else Scalar(Null)
    case Subquery => if |ms| == 1 then ms[0] else Scalar(Null)
    case And => if |ms| == 2 then Scalar(AndV(ValueOf(ms[0]), ValueOf(ms[1]))) else Scalar(Null)
    case Or => if |ms| == 2 then Scalar(OrV(ValueOf(ms[0]), ValueOf(ms[1]))) else Scalar(Null)
    case Compare(op) => if |ms| == 2 then Scalar(CompareMeanings(op, ms[0], ms[1])) else Scalar(Null)
    case In => if |ms| == 2 then Scalar(InColumn(ValueOf(ms[0]), ColumnOf(ms[1]))) else Scalar(Null)
    case Select(_) => Rows([])
  }

  predicate IsSelect(n: Node) {
    n.kind.Select? && |n.args| == 2 + |n.kind.names|
  }

  /** A correlated subquery sees `env`, the rows of the queries around it. */
  function Denote(n: Node, env: Row, db: Database): Meaning
    decreases n, 1, 0
  {
    if IsSelect(n) then
      Rows(SelectRows(n, RowsOf(Denote(n.args[0], env, db)), env, db))
    else
      Apply(n.kind, seq(|n.args|, k requires 0 <= k < |n.args| => Denote(n.args[k], env, db)), env, db)
  }

  /** WHERE and the projections, evaluated once a source row. */
  function SelectRows(n: Node, source: seq<Row>, env: Row, db: Database): seq<Row>
    requires IsSelect(n)
    decreases n, 0, |source| + 1
  {
    if source == [] then []
    else
      var inner := source[0] + env;
      (if Holds(ValueOf(Denote(n.args[1], inner, db))) then [Project(n, inner, db)] else [])
      + SelectRows(n, source[1..], env, db)
  }

  function Project(n: Node, inner: Row, db: Database): (r: Row)
    requires IsSelect(n)
    ensures |r| == |n.kind.names|
    decreases n, 0, 0
  {
    seq(|n.kind.names|, k requires 0 <= k < |n.kind.names| =>
      Cell(n.kind.names[k], ValueOf(Denote(n.args[2 + k], inner, db))))
  }

  /** Two nodes mean the same when no database and no outer row tells them apart. */
  ghost predicate SameMeaning(a: Node, b: Node) {
    forall env: Row, db: Database :: Denote(a, env, db) == Denote(b, env, db)
  }

  lemma {:induction false} ProjectCongruence(a: Node, b: Node, inner: Row, db: Database)
    requires IsSelect(a) && a.kind == b.kind && |a.args| == |b.args|
    requires forall k | 0 <= k < |a.args| :: SameMeaning(a.args[k], b.args[k])
    ensures Project(a, inner, db) == Project(b, inner, db)
  {
  }

  lemma {:induction false} SelectRowsCongruence(a: Node, b: Node, source: seq<Row>, env: Row, db: Database)
    requires IsSelect(a) && a.kind == b.kind && |a.args| == |b.args|
    requires forall k | 0 <= k < |a.args| :: SameMeaning(a.args[k], b.args[k])
    ensures SelectRows(a, source, env, db) == SelectRows(b, source, env, db)
    decreases |source|
  {
    if source != [] {
      var inner := source[0] + env;
      assert SameMeaning(a.args[1], b.args[1]);
      ProjectCongruence(a, b, inner, db);
      SelectRowsCongruence(a, b, source[1..], env, db);
    }
  }

  /** The meaning of a node depends on its arguments through their meaning only. */
  lemma Congruence(a: Node, b: Node)
    requires a.kind == b.kind && |a.args| == |b.args|
    requires forall k | 0 <= k < |a.args| :: SameMeaning(a.args[k], b.args[k])
    ensures SameMeaning(a, b)
  {
    forall env: Row, db: Database ensures Denote(a, env, db) == Denote(b, env, db) {
      if IsSelect(a) {
        assert SameMeaning(a.args[0], b.args[0]);
        SelectRowsCongruence(a, b, RowsOf(Denote(a.args[0], env, db)), env, db);
      } else {
        var before := seq(|a.args|, k requires 0 <= k < |a.args| => Denote(a.args[k], env, db));
        var after := seq(|b.args|, k requires 0 <= k < |b.args| => Denote(b.args[k], env, db));
        forall k | 0 <= k < |a.args| ensures before[k] == after[k] {
          assert SameMeaning(a.args[k], b.args[k]);
        }
        assert before == after;
      }
    }
  }

  // ----- The meaning at work -----

  function LiteralNode(v: Value): Node {
    Node(Literal(v), [])
  }

  /** NOT, AND and OR of truth values, and of NULL where the other operand decides. */
  lemma ConnectivesRead(a: bool, b: bool, env: Row, db: Database)
    ensures var x, y, unknown := LiteralNode(Bool(a)), LiteralNode(Bool(b)), LiteralNode(Null);
            && Denote(Node(Not, [x]), env, db) == Scalar(Bool(!a))
            && Denote(Node(And, [x, y]), env, db) == Scalar(Bool(a && b))
            && Denote(Node(Or, [x, y]), env, db) == Scalar(Bool(a || b))
            && Denote(Node(And, [unknown, x]), env, db) == Scalar(if a then Null else Bool(false))
            && Denote(Node(Or, [x, unknown]), env, db) == Scalar(if a then Bool(true) else Null)
            && Denote(Node(Not, [unknown]), env, db) == Scalar(Null)
  {
    assert Denote(LiteralNode(Bool(a)), env, db) == Scalar(Bool(a));
    assert Denote(LiteralNode(Bool(b)), env, db) == Scalar(Bool(b));
    assert Denote(LiteralNode(Null), env, db) == Scalar(Null);
  }

  /** A stored one-column table of numbers. */
  function NumbersTable(name: string, ns: seq<int>): seq<Row> {
    seq(|ns|, i requires 0 <= i < |ns| => [Cell(name, Num(ns[i]))])
  }

  /** SELECT b FROM u WHERE condition */
  function SelectB(condition: Node): Node {
    Node(Select(["b"]), [Node(Table("u"), []), condition, Node(Column("b"), [])])
  }

  const A_EQUALS_B := Node(Compare(Eq), [Node(Column("a"), []), Node(Column("b"), [])])

  const TRUE_LITERAL := Node(Literal(Bool(true)), [])

  lemma ConditionDenotes(n: int, k: int, db: Database)
    ensures var inner := [Cell("b", Num(n)), Cell("a", Num(k))];
            && Denote(A_EQUALS_B, inner, db) == Scalar(Bool(k == n))
            && Denote(TRUE_LITERAL, inner, db) == Scalar(Bool(true))
            && Denote(Node(Column("b"), []), inner, db) == Scalar(Num(n))
  {
    var inner := [Cell("b", Num(n)), Cell("a", Num(k))];
    assert inner[1..] == [Cell("a", Num(k))];
    assert inner[0].name[0] == 'b' && "a"[0] == 'a';
    assert Lookup(inner, "a") == Lookup(inner[1..], "a") == Num(k);
    assert Denote(A_EQUALS_B.args[0], inner, db) == Scalar(Num(k));
    assert Denote(A_EQUALS_B.args[1], inner, db) == Scalar(Num(n));
  }

  lemma RowSelected(correlated: bool, n: int, k: int, db: Database)
    ensures var query, inner := SelectB(if correlated then A_EQUALS_B else TRUE_LITERAL), [Cell("b", Num(n)), Cell("a", Num(k))];
            && Project(query, inner, db) == [Cell("b", Num(n))]
            && (Holds(ValueOf(Denote(query.args[1], inner, db))) <==> !correlated || k == n)
  {
    ConditionDenotes(n, k, db);
  }

  lemma {:induction false} SelectedRows(correlated: bool, ns: seq<int>, k: int, db: Database)
    ensures var query := SelectB(if correlated then A_EQUALS_B else TRUE_LITERAL);
            SelectRows(query, NumbersTable("b", ns), [Cell("a", Num(k))], db)
            == NumbersTable("b", if correlated then Only(ns, k) else ns)
  {
    var query := SelectB(if correlated then A_EQUALS_B else TRUE_LITERAL);
    var source, env := NumbersTable("b", ns), [Cell("a", Num(k))];
    if ns != [] {
      SelectedRows(correlated, ns[1..], k, db);
      ConditionDenotes(ns[0], k, db);
      RowSelected(correlated, ns[0], k, db);
      assert source[1..] == NumbersTable("b", ns[1..]);
      assert source[0] + env == [Cell("b", Num(ns[0])), Cell("a", Num(k))];
    }
  }

  function Only(ns: seq<int>, k: int): seq<int> {
    if ns == [] then [] else (if ns[0] == k then [k] else []) + Only(ns[1..], k)
  }

  lemma {:induction false} OnlyMember(ns: seq<int>, k: int)
    ensures Only(ns, k) == [] <==> k !in ns
  {
    if ns != [] {
      OnlyMember(ns[1..], k);
      assert ns == [ns[0]] + ns[1..];
    }
  }

  lemma QueryDenotes(correlated: bool, ns: seq<int>, k: int, db: Database)
    requires "u" in db.tables && db.tables["u"] == NumbersTable("b", ns)
    ensures var query := SelectB(if correlated then A_EQUALS_B else TRUE_LITERAL);
            Denote(query, [Cell("a", Num(k))], db) == Rows(NumbersTable("b", if correlated then Only(ns, k) else ns))
  {
    var query, env := SelectB(if correlated then A_EQUALS_B else TRUE_LITERAL), [Cell("a", Num(k))];
    SelectedRows(correlated, ns, k, db);
    assert query.args[0] == Node(Table("u"), []);
    assert Denote(query.args[0], env, db) == Rows(NumbersTable("b", ns));
  }

  /** With `a` bound to `k` by the enclosing query, `a IN (SELECT b FROM u)` says whether `k`
      is among the numbers of `u`. */
  lemma InReads(ns: seq<int>, k: int, db: Database)
    requires "u" in db.tables && db.tables["u"] == NumbersTable("b", ns)
    ensures Denote(Node(In, [Node(Column("a"), []), SelectB(TRUE_LITERAL)]), [Cell("a", Num(k))], db)
            == Scalar(Bool(k in ns))
  {
    var column := ColumnOf(Rows(NumbersTable("b", ns)));
    QueryDenotes(false, ns, k, db);
    InColumnCases(Num(k), column);
    assert forall i | 0 <= i < |ns| :: column[i] == Num(ns[i]);
    assert Denote(Node(Column("a"), []), [Cell("a", Num(k))], db) == Scalar(Num(k));
  }

  /** So does the correlated `EXISTS (SELECT b FROM u WHERE a = b)`. */
  lemma ExistsReads(ns: seq<int>, k: int, db: Database)
    requires "u" in db.tables && db.tables["u"] == NumbersTable("b", ns)
    ensures Denote(Node(Exists, [SelectB(A_EQUALS_B)]), [Cell("a", Num(k))], db) == Scalar(Bool(k in ns))
  {
    QueryDenotes(true, ns, k, db);
    OnlyMember(ns, k);
  }
}
