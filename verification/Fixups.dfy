/** The fix-up registry: node-local rewrites, and passes that apply them over a whole tree.

    `Transform` is the bottom-up pass that the registry documents. The meaning results
    hold for any sequence of rewrites at any nodes, in any order; that nothing is left
    to rewrite holds for the bottom-up order only.
 */
module Fixups {
  import opened SqlLogic
  import opened SqlTree

  /** `x <> ALL (query)` */
  predicate IsNeqAll(n: Node) {
    n.kind == Compare(Neq) && |n.args| == 2 && n.args[1].kind.All? && |n.args[1].args| == 1
  }

  /** `x = ANY (query)` */
  predicate IsEqAny(n: Node) {
    n.kind == Compare(Eq) && |n.args| == 2 && n.args[1].kind.Any? && |n.args[1].args| == 1
  }

  /** The two forms that Spark's parser rejects. */
  predicate Rejected(n: Node) {
    IsNeqAll(n) || IsEqAny(n)
  }

  function AsSubquery(n: Node): Node {
    if n.kind.Subquery? then n else Node(Subquery, [n])
  }

  function FixupQuantifiedSubquery(n: Node): Node {
    if IsNeqAll(n) then
      Node(Not, [Node(In, [n.args[0], AsSubquery(n.args[1].args[0])])])
    else if IsEqAny(n) then
      Node(In, [n.args[0], AsSubquery(n.args[1].args[0])])
    else n
  }

  const SPARK_FIXUPS: seq<Node -> Node> := [FixupQuantifiedSubquery]

  /** The bottom-up pass: the arguments first, then the node built from them. */
  function Transform(f: Node -> Node, n: Node): Node {
    f(Node(n.kind, seq(|n.args|, k requires 0 <= k < |n.args| => Transform(f, n.args[k]))))
  }

  /** The other usual pass: the node first, and a replaced node is not entered again. */
  function TransformPruning(f: Node -> Node, n: Node): Node {
    if f(n) != n then f(n)
    else Node(n.kind, seq(|n.args|, k requires 0 <= k < |n.args| => TransformPruning(f, n.args[k])))
  }

  // ----- Meaning -----

  ghost predicate Preserving(f: Node -> Node) {
    forall n :: SameMeaning(f(n), n)
  }

  lemma FixupPreserves()
    ensures Preserving(FixupQuantifiedSubquery)
  {
    forall n ensures SameMeaning(FixupQuantifiedSubquery(n), n) {
      forall env: Row, db: Database
        ensures Denote(FixupQuantifiedSubquery(n), env, db) == Denote(n, env, db)
      {
        FixupDenotes(n, env, db);
      }
    }
  }

  lemma {:induction false} MembershipDenotes(x: Node, query: Node, env: Row, db: Database)
    ensures Denote(Node(In, [x, AsSubquery(query)]), env, db)
            == Scalar(InColumn(ValueOf(Denote(x, env, db)), ColumnOf(Denote(query, env, db))))
  {
    assert Denote(AsSubquery(query), env, db) == Denote(query, env, db);
  }

  lemma {:induction false} QuantifierDenotes(n: Node, env: Row, db: Database)
    requires Rejected(n)
    ensures var value := ValueOf(Denote(n.args[0], env, db));
            var column := ColumnOf(Denote(n.args[1].args[0], env, db));
            Denote(n, env, db) ==
            Scalar(if IsNeqAll(n) then CompareAll(Neq, value, column) else CompareAny(Eq, value, column))
  {
    var column := ColumnOf(Denote(n.args[1].args[0], env, db));
    assert Denote(n.args[1], env, db) == if IsNeqAll(n) then EveryOf(column) else SomeOf(column);
  }

  lemma FixupDenotes(n: Node, env: Row, db: Database)
    ensures Denote(FixupQuantifiedSubquery(n), env, db) == Denote(n, env, db)
  {
    if Rejected(n) {
      var x, query := n.args[0], n.args[1].args[0];
      var value, column := ValueOf(Denote(x, env, db)), ColumnOf(Denote(query, env, db));
      QuantifierDenotes(n, env, db);
      MembershipDenotes(x, query, env, db);
      NeqAllIsNotIn(value, column);
      EqAnyIsIn(value, column);
    }
  }

  /** A node of a tree, named by the argument positions that lead to it. */
  type Path = seq<nat>

  /** One application of `f`, at the node that `p` names; a path to nowhere changes nothing. */
  function RewriteAt(f: Node -> Node, p: Path, n: Node): Node {
    if p == [] then f(n)
    else if p[0] < |n.args| then
      Node(n.kind, n.args[p[0] := RewriteAt(f, p[1..], n.args[p[0]])])
    else n
  }

  lemma {:induction false} RewriteAtPreserves(f: Node -> Node, p: Path, n: Node)
    requires Preserving(f)
    ensures SameMeaning(RewriteAt(f, p, n), n)
    decreases |p|
  {
    if p == [] {
      assert SameMeaning(f(n), n);
    } else if p[0] < |n.args| {
      RewriteAtPreserves(f, p[1..], n.args[p[0]]);
      Congruence(RewriteAt(f, p, n), n);
    }
  }

  /** One rewrite of a run: which fix-up, and at which node. */
  datatype Step = Step(fixup: Node -> Node, path: Path)

  function Rewrite(steps: seq<Step>, n: Node): Node {
    if steps == [] then n else Rewrite(steps[1..], RewriteAt(steps[0].fixup, steps[0].path, n))
  }

  /** Whatever the order and the choice of nodes, a run of preserving fix-ups keeps
      the value and the rows of the whole tree. */
  lemma {:induction false} AnyOrderPreserves(steps: seq<Step>, n: Node)
    requires forall i | 0 <= i < |steps| :: Preserving(steps[i].fixup)
    ensures SameMeaning(Rewrite(steps, n), n)
    decreases |steps|
  {
    if steps != [] {
      var next := RewriteAt(steps[0].fixup, steps[0].path, n);
      RewriteAtPreserves(steps[0].fixup, steps[0].path, n);
      AnyOrderPreserves(steps[1..], next);
      forall env: Row, db: Database ensures Denote(Rewrite(steps, n), env, db) == Denote(n, env, db) {
        assert Denote(Rewrite(steps[1..], next), env, db) == Denote(next, env, db) == Denote(n, env, db);
      }
    }
  }

  // The bottom-up pass is one such run, in post-order.

  function Under(k: nat, steps: seq<Step>): seq<Step> {
    seq(|steps|, i requires 0 <= i < |steps| => Step(steps[i].fixup, [k] + steps[i].path))
  }

  function PostOrder(f: Node -> Node, n: Node): seq<Step>
    decreases n, 1, 0
  {
    PostOrderFrom(f, n, 0) + [Step(f, [])]
  }

  function PostOrderFrom(f: Node -> Node, n: Node, k: nat): seq<Step>
    decreases n, 0, |n.args| - k
  {
    if k >= |n.args| then [] else Under(k, PostOrder(f, n.args[k])) + PostOrderFrom(f, n, k + 1)
  }

  lemma {:induction false} RewriteConcat(a: seq<Step>, b: seq<Step>, n: Node)
    ensures Rewrite(a + b, n) == Rewrite(b, Rewrite(a, n))
    decreases |a|
  {
    if a == [] {
      assert a + b == b;
    } else {
      assert (a + b)[1..] == a[1..] + b;
      RewriteConcat(a[1..], b, RewriteAt(a[0].fixup, a[0].path, n));
    }
  }

  lemma {:induction false} RewriteUnder(k: nat, steps: seq<Step>, n: Node)
    requires k < |n.args|
    ensures Rewrite(Under(k, steps), n) == Node(n.kind, n.args[k := Rewrite(steps, n.args[k])])
    decreases |steps|
  {
    if steps == [] {
      assert n.args[k := n.args[k]] == n.args;
    } else {
      var next := RewriteAt(steps[0].fixup, steps[0].path, n.args[k]);
      assert ([k] + steps[0].path)[1..] == steps[0].path;
      assert Under(k, steps)[1..] == Under(k, steps[1..]);
      RewriteUnder(k, steps[1..], Node(n.kind, n.args[k := next]));
      assert n.args[k := next][k := Rewrite(steps[1..], next)] == n.args[k := Rewrite(steps[1..], next)];
    }
  }

  lemma {:induction false} PostOrderArguments(f: Node -> Node, n: Node, k: nat, m: Node)
    requires k <= |n.args| == |m.args| && m.kind == n.kind
    requires forall i | 0 <= i < |n.args| :: m.args[i] == if i < k then Transform(f, n.args[i]) else n.args[i]
    ensures Rewrite(PostOrderFrom(f, n, k), m)
            == Node(n.kind, seq(|n.args|, i requires 0 <= i < |n.args| => Transform(f, n.args[i])))
    decreases n, 0, |n.args| - k
  {
    if k < |n.args| {
      var steps := PostOrder(f, n.args[k]);
      BottomUpIsARun(f, n.args[k]);
      RewriteUnder(k, steps, m);
      RewriteConcat(Under(k, steps), PostOrderFrom(f, n, k + 1), m);
      PostOrderArguments(f, n, k + 1, Node(m.kind, m.args[k := Transform(f, n.args[k])]));
    } else {
      assert m.args == seq(|n.args|, i requires 0 <= i < |n.args| => Transform(f, n.args[i]));
    }
  }

  lemma {:induction false} BottomUpIsARun(f: Node -> Node, n: Node)
    ensures Rewrite(PostOrder(f, n), n) == Transform(f, n)
    decreases n, 1, 0
  {
    PostOrderArguments(f, n, 0, n);
    RewriteConcat(PostOrderFrom(f, n, 0), [Step(f, [])], n);
    var m := Node(n.kind, seq(|n.args|, i requires 0 <= i < |n.args| => Transform(f, n.args[i])));
    assert [Step(f, [])][1..] == [];
    assert Rewrite([Step(f, [])], m) == f(m);
  }

  lemma {:induction false} PostOrderUses(f: Node -> Node, n: Node, i: nat)
    requires i < |PostOrder(f, n)|
    ensures PostOrder(f, n)[i].fixup == f
    decreases n, 1, 0
  {
    if i < |PostOrderFrom(f, n, 0)| {
      PostOrderFromUses(f, n, 0, i);
    }
  }

  lemma {:induction false} PostOrderFromUses(f: Node -> Node, n: Node, k: nat, i: nat)
    requires i < |PostOrderFrom(f, n, k)|
    ensures PostOrderFrom(f, n, k)[i].fixup == f
    decreases n, 0, |n.args| - k
  {
    var here := PostOrder(f, n.args[k]);
    if i < |here| {
      PostOrderUses(f, n.args[k], i);
    } else {
      PostOrderFromUses(f, n, k + 1, i - |here|);
    }
  }

  /** So the bottom-up pass of a preserving fix-up keeps the meaning of the whole tree. */
  lemma TransformPreserves(f: Node -> Node, n: Node)
    requires Preserving(f)
    ensures SameMeaning(Transform(f, n), n)
  {
    BottomUpIsARun(f, n);
    forall i | 0 <= i < |PostOrder(f, n)| ensures Preserving(PostOrder(f, n)[i].fixup) {
      PostOrderUses(f, n, i);
    }
    AnyOrderPreserves(PostOrder(f, n), n);
  }

  /** So does the pass that does not enter replaced nodes. */
  lemma {:induction false} TransformPruningPreserves(f: Node -> Node, n: Node)
    requires Preserving(f)
    ensures SameMeaning(TransformPruning(f, n), n)
  {
    if f(n) != n {
      assert SameMeaning(f(n), n);
    } else {
      var m := TransformPruning(f, n);
      forall k | 0 <= k < |n.args| ensures SameMeaning(m.args[k], n.args[k]) {
        TransformPruningPreserves(f, n.args[k]);
      }
      Congruence(m, n);
    }
  }

  // ----- Completeness -----

  /** No rejected form anywhere in the tree. */
  predicate Clean(n: Node) {
    !Rejected(n) && forall k | 0 <= k < |n.args| :: Clean(n.args[k])
  }

  function Pass(n: Node): Node {
    Transform(FixupQuantifiedSubquery, n)
  }

  /** One node of the bottom-up pass, once its arguments are clean. */
  lemma {:induction false} FixupOfCleanArguments(n: Node)
    requires forall k | 0 <= k < |n.args| :: Clean(n.args[k])
    ensures Clean(FixupQuantifiedSubquery(n))
  {
  }

  lemma {:induction false} PassIsClean(n: Node)
    ensures Clean(Pass(n))
  {
    var m := Node(n.kind, seq(|n.args|, k requires 0 <= k < |n.args| => Pass(n.args[k])));
    forall k | 0 <= k < |m.args| ensures Clean(m.args[k]) {
      PassIsClean(n.args[k]);
    }
    assert Pass(n) == FixupQuantifiedSubquery(m);
    FixupOfCleanArguments(m);
  }

  /** The pass leaves a tree alone exactly when no rejected form occurs in it. */
  lemma {:induction false} PassFixpoint(n: Node)
    ensures Pass(n) == n <==> Clean(n)
  {
    if Clean(n) {
      var m := Node(n.kind, seq(|n.args|, k requires 0 <= k < |n.args| => Pass(n.args[k])));
      forall k | 0 <= k < |n.args| ensures m.args[k] == n.args[k] {
        PassFixpoint(n.args[k]);
      }
      assert m.args == n.args;
      assert m == n;
    } else {
      PassIsClean(n);
    }
  }

  lemma PassIdempotent(n: Node)
    ensures Pass(Pass(n)) == Pass(n)
  {
    PassIsClean(n);
    PassFixpoint(Pass(n));
  }

  /** No rejected form lies below another one. */
  predicate Unnested(n: Node) {
    if Rejected(n) then Clean(n.args[0]) && Clean(n.args[1].args[0])
    else forall k | 0 <= k < |n.args| :: Unnested(n.args[k])
  }

  lemma {:induction false} PruningKeepsTop(n: Node)
    requires !Rejected(n)
    ensures !Rejected(TransformPruning(FixupQuantifiedSubquery, n))
  {
  }

  /** The pruning pass leaves nothing to rewrite exactly when no rejected form is nested
      in another one, so completeness needs the documented bottom-up order. */
  lemma {:induction false} PruningIsCleanIffUnnested(n: Node)
    ensures Clean(TransformPruning(FixupQuantifiedSubquery, n)) <==> Unnested(n)
  {
    var m := TransformPruning(FixupQuantifiedSubquery, n);
    if Rejected(n) {
      var query := n.args[1].args[0];
      assert Clean(AsSubquery(query)) <==> Clean(query) by {
        assert !query.kind.Subquery? ==> AsSubquery(query).args[0] == query;
      }
      var membership := Node(In, [n.args[0], AsSubquery(query)]);
      assert Clean(membership) <==> Clean(n.args[0]) && Clean(AsSubquery(query)) by {
        assert membership.args[0] == n.args[0] && membership.args[1] == AsSubquery(query);
      }
      assert Clean(Node(Not, [membership])) <==> Clean(membership) by {
        assert Node(Not, [membership]).args[0] == membership;
      }
    } else {
      PruningKeepsTop(n);
      forall k | 0 <= k < |n.args| ensures Clean(m.args[k]) <==> Unnested(n.args[k]) {
        PruningIsCleanIffUnnested(n.args[k]);
      }
    }
  }

  /** `m` is the tree or one of its nodes, at any depth. */
  predicate Occurs(m: Node, n: Node) {
    m == n || exists k | 0 <= k < |n.args| :: Occurs(m, n.args[k])
  }

  /** Clean means that no `<> ALL (x)` and no `= ANY (x)` occurs. */
  lemma {:induction false} CleanNode(n: Node, m: Node)
    requires Clean(n) && Occurs(m, n)
    ensures !(m.kind == Compare(Neq) && |m.args| == 2 && m.args[1].kind == All && |m.args[1].args| == 1)
    ensures !(m.kind == Compare(Eq) && |m.args| == 2 && m.args[1].kind == Any && |m.args[1].args| == 1)
  {
    if m != n {
      var k :| 0 <= k < |n.args| && Occurs(m, n.args[k]);
      CleanNode(n.args[k], m);
    }
  }

  /** After the pass no such form is left at any depth. */
  lemma NothingRejectedOccurs(n: Node, m: Node)
    requires Occurs(m, Pass(n))
    ensures !(m.kind == Compare(Neq) && |m.args| == 2 && m.args[1].kind == All && |m.args[1].args| == 1)
    ensures !(m.kind == Compare(Eq) && |m.args| == 2 && m.args[1].kind == Any && |m.args[1].args| == 1)
  {
    PassIsClean(n);
    CleanNode(Pass(n), m);
  }

  // ----- What the pass makes of each node -----

  /** `x <> ALL (query)` becomes NOT x IN (query), with the old subquery or one new one around
      exactly the old query. */
  lemma PassOfNeqAll(x: Node, query: Node)
    ensures var r := Pass(Node(Compare(Neq), [x, Node(All, [query])]));
            var subquery := if query.kind.Subquery? then Pass(query) else Node(Subquery, [Pass(query)]);
            r == Node(Not, [Node(In, [Pass(x), subquery])])
  {
    var quantified := Node(All, [query]);
    PassUnfolds(Node(Compare(Neq), [x, quantified]));
    PassUnfolds(quantified);
    PassUnfolds(query);
    assert PassOf([query]) == [Pass(query)];
  }

  /** `x = ANY (query)` becomes x IN (query) in the same way. */
  lemma PassOfEqAny(x: Node, query: Node)
    ensures var r := Pass(Node(Compare(Eq), [x, Node(Any, [query])]));
            var subquery := if query.kind.Subquery? then Pass(query) else Node(Subquery, [Pass(query)]);
            r == Node(In, [Pass(x), subquery])
  {
    var quantified := Node(Any, [query]);
    PassUnfolds(Node(Compare(Eq), [x, quantified]));
    PassUnfolds(quantified);
    PassUnfolds(query);
    assert PassOf([query]) == [Pass(query)];
  }

  lemma RejectedShape(n: Node)
    requires Rejected(n)
    ensures exists x, query ::
              n == Node(Compare(Neq), [x, Node(All, [query])]) || n == Node(Compare(Eq), [x, Node(Any, [query])])
  {
    var x, query := n.args[0], n.args[1].args[0];
    assert n.args == [x, n.args[1]] && n.args[1].args == [query];
    assert n == Node(n.kind, [x, Node(n.args[1].kind, [query])]);
  }

  /** Every other node keeps its kind and its arguments, passed over one by one. */
  lemma PassOfOther(n: Node)
    requires forall x, query :: n != Node(Compare(Neq), [x, Node(All, [query])])
    requires forall x, query :: n != Node(Compare(Eq), [x, Node(Any, [query])])
    ensures Pass(n).kind == n.kind && |Pass(n).args| == |n.args|
    ensures forall k | 0 <= k < |n.args| :: Pass(n).args[k] == Pass(n.args[k])
  {
    if Rejected(n) {
      RejectedShape(n);
      assert false;
    }
    PassUnfolds(n);
  }

  /** The second argument of every membership test is a subquery in its own node. */
  predicate QueriesWrapped(n: Node) {
    && (n.kind.In? ==> |n.args| == 2 && n.args[1].kind.Subquery?)
    && forall k | 0 <= k < |n.args| :: QueriesWrapped(n.args[k])
  }

  lemma {:induction false} FixupWraps(n: Node)
    ensures QueriesWrapped(FixupQuantifiedSubquery(n)) <==> QueriesWrapped(n)
  {
    if Rejected(n) {
      var x, query := n.args[0], n.args[1].args[0];
      var subquery := AsSubquery(query);
      var membership := Node(In, [x, subquery]);
      assert QueriesWrapped(n.args[1]) <==> QueriesWrapped(query);
      assert QueriesWrapped(n) <==> QueriesWrapped(x) && QueriesWrapped(query);
      assert subquery.kind.Subquery? && (QueriesWrapped(subquery) <==> QueriesWrapped(query)) by {
        assert !query.kind.Subquery? ==> subquery.args[0] == query;
      }
      assert membership.args[0] == x && membership.args[1] == subquery;
      assert QueriesWrapped(membership) <==> QueriesWrapped(x) && QueriesWrapped(subquery);
      assert Node(Not, [membership]).args[0] == membership;
    }
  }

  /** The pass wraps the query of every membership test that it makes, and of no other one. */
  lemma {:induction false} PassWrapsQueries(n: Node)
    ensures QueriesWrapped(Pass(n)) <==> QueriesWrapped(n)
  {
    var m := Node(n.kind, PassOf(n.args));
    PassUnfolds(n);
    FixupWraps(m);
    forall k | 0 <= k < |n.args| ensures QueriesWrapped(m.args[k]) <==> QueriesWrapped(n.args[k]) {
      PassWrapsQueries(n.args[k]);
    }
    if |n.args| == 2 {
      PassUnfolds(n.args[1]);
    }
  }

  // ----- What the pass leaves alone -----

  /** What a reader sees of one node: a negation, a membership test, a quantified comparison
      that Spark accepts as it stands, or a subquery wrapped twice. The rejected forms are
      read as the (negated) membership tests that they stand for. */
  datatype Mark = Negation | Membership | Quantified(op: CompareOp, quantifier: Kind) | DoubleWrap

  function MarksHere(n: Node): seq<Mark> {
    if n.kind.Not? then [Negation]
    else if n.kind.In? then [Membership]
    else if IsNeqAll(n) then [Negation, Membership]
    else if IsEqAny(n) then [Membership]
    else if n.kind.Compare? && |n.args| == 2 && (n.args[1].kind.All? || n.args[1].kind.Any?) then
      [Quantified(n.kind.op, n.args[1].kind)]
    else if n.kind.Subquery? && |n.args| == 1 && n.args[0].kind.Subquery? then [DoubleWrap]
    else []
  }

  /** The marks of a tree, in reading order. */
  function Marks(n: Node): seq<Mark> {
    MarksHere(n) + MarksOf(n.args)
  }

  function MarksOf(ns: seq<Node>): seq<Mark> {
    if ns == [] then [] else Marks(ns[0]) + MarksOf(ns[1..])
  }

  function PassOf(ns: seq<Node>): (ms: seq<Node>)
    ensures |ms| == |ns|
  {
    seq(|ns|, k requires 0 <= k < |ns| => Pass(ns[k]))
  }

  /** The node that the fix-up sees: same kind, arguments already passed over. */
  lemma {:induction false} PassUnfolds(n: Node)
    ensures Pass(n) == FixupQuantifiedSubquery(Node(n.kind, PassOf(n.args)))
    ensures |n.args| == 2 ==> PassOf(n.args) == [Pass(n.args[0]), Pass(n.args[1])]
    ensures n.kind.All? || n.kind.Any? || n.kind.Subquery? ==> Pass(n) == Node(n.kind, PassOf(n.args))
    ensures Pass(n).kind.All? <==> n.kind.All?
    ensures Pass(n).kind.Any? <==> n.kind.Any?
    ensures Pass(n).kind.Subquery? <==> n.kind.Subquery?
    ensures Rejected(Node(n.kind, PassOf(n.args))) <==> Rejected(n)
  {
  }

  lemma MarksOfOne(a: Node)
    ensures MarksOf([a]) == Marks(a)
  {
  }

  lemma MarksOfTwo(a: Node, b: Node)
    ensures MarksOf([a, b]) == Marks(a) + Marks(b)
  {
    assert [a, b][1..] == [b];
    MarksOfOne(b);
  }

  lemma FixupKeepsMarks(n: Node)
    ensures Marks(FixupQuantifiedSubquery(n)) == Marks(n)
  {
    if Rejected(n) {
      var x, query := n.args[0], n.args[1].args[0];
      var subquery := AsSubquery(query);
      var membership := Node(In, [x, subquery]);
      assert n.args == [x, n.args[1]] && n.args[1].args == [query];
      MarksOfTwo(x, n.args[1]);
      MarksOfOne(query);
      assert Marks(n.args[1]) == Marks(query);
      assert Marks(subquery) == Marks(query);
      MarksOfTwo(x, subquery);
      assert Marks(membership) == [Membership] + Marks(x) + Marks(query);
      MarksOfOne(membership);
    }
  }

  /** The pass turns each rejected form into one membership test, negated exactly for
      `<> ALL`, at its own place; it keeps every other quantified comparison with its
      operator and quantifier, and wraps no subquery twice. */
  lemma {:induction false} PassKeepsMarks(n: Node)
    ensures Marks(Pass(n)) == Marks(n)
    decreases n, 0
  {
    var m := Node(n.kind, PassOf(n.args));
    PassUnfolds(n);
    PassKeepsMarksOf(n.args);
    FixupKeepsMarks(m);
    if |n.args| == 2 {
      PassUnfolds(n.args[1]);
    } else if |n.args| == 1 {
      PassUnfolds(n.args[0]);
    }
    assert MarksHere(m) == MarksHere(n);
  }

  lemma {:induction false} PassKeepsMarksOf(ns: seq<Node>)
    ensures MarksOf(PassOf(ns)) == MarksOf(ns)
    decreases ns, 0
  {
    if ns != [] {
      assert PassOf(ns)[1..] == PassOf(ns[1..]);
      PassKeepsMarks(ns[0]);
      PassKeepsMarksOf(ns[1..]);
    }
  }
}
