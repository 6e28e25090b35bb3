/** The transpile step and the fail-soft wrapper around it.

    The SQL parser and generator are parameters: an `Engine` is any pair of them, and
    `Faithful` is the one thing assumed about it where meaning is at stake.
 */
module Transpile {
  import opened Results
  import opened SqlLogic
  import opened SqlTree
  import opened Fixups

  const DEFAULT_TARGET := "spark"

  datatype Engine = Engine(
    parse: (string, string) -> Result<seq<Option<Node>>>,
    generate: (Node, string) -> Result<Option<string>>)

  /** `str.isspace`, which is what `str.strip` removes. */
  predicate IsSpace(c: char) {
    var code := c as int;
    || 0x09 <= code <= 0x0D || 0x1C <= code <= 0x20 || code == 0x85 || code == 0xA0 || code == 0x1680
    || 0x2000 <= code <= 0x200A || code == 0x2028 || code == 0x2029 || code == 0x202F || code == 0x205F
    || code == 0x3000
  }

  /** Among the ASCII characters these ten. */
  lemma AsciiSpaces(c: char)
    requires c as int < 0x80
    ensures IsSpace(c) <==>
            c == ' ' || c == '\t' || c == '\n' || c == '\r' || c == '\U{0B}' || c == '\U{0C}'
            || c == '\U{1C}' || c == '\U{1D}' || c == '\U{1E}' || c == '\U{1F}'
  {
  }

  predicate IsBlank(text: string) {
    forall c | c in text :: IsSpace(c)
  }

  /** Python's `value or default` on an optional string. */
  function OrElse(value: Option<string>, fallback: string): string {
    if value.Some? && value.value != "" then value.value else fallback
  }

  /** The registry applied in order, one whole pass a fix-up. */
  function ApplyRegistry(registry: seq<Node -> Node>, tree: Node): Node {
    if registry == [] then tree
    else ApplyRegistry(registry[1..], Transform(registry[0], tree))
  }

  /** The passes run one after the other, in the registry's order, each over the whole tree. */
  lemma {:induction false} RegistryInOrder(registry: seq<Node -> Node>, f: Node -> Node, tree: Node)
    ensures ApplyRegistry([], tree) == tree
    ensures ApplyRegistry(registry + [f], tree) == Transform(f, ApplyRegistry(registry, tree))
    decreases |registry|
  {
    if registry == [] {
      assert ([] + [f])[1..] == [];
    } else {
      assert (registry + [f])[1..] == registry[1..] + [f];
      RegistryInOrder(registry[1..], f, Transform(registry[0], tree));
    }
  }

  function FixupsFor(registry: seq<Node -> Node>, target: string): seq<Node -> Node> {
    if target == DEFAULT_TARGET then registry else []
  }

  /** The only statement of a text, when it has exactly one. */
  function OnlyStatement(e: Engine, text: string, dialect: string): Result<Node> {
    var statements :- e.parse(text, dialect);
    if |statements| == 1 && statements[0].Some? then Ok(statements[0].value) else Raised
  }

  /** What a transpile call returns or raises. */
  function Transpiled(e: Engine, registry: seq<Node -> Node>, code: string, src: string, dst: Option<string>)
    : Result<string>
  {
    var target := OrElse(dst, DEFAULT_TARGET);
    var tree :- OnlyStatement(e, code, src);
    var out :- e.generate(ApplyRegistry(FixupsFor(registry, target), tree), target);
    if out.None? || IsBlank(out.value) then Raised else Ok(out.value)
  }

  /** The text is what the generator makes of the only statement, after the registry's passes
      for Spark and as it was parsed for any other target, and it is not all whitespace. */
  ghost predicate IsOutput(e: Engine, registry: seq<Node -> Node>, code: string, src: string, target: string, out: string) {
    && (exists tree ::
          && e.parse(code, src) == Ok([Some(tree)])
          && e.generate(if target == "spark" then ApplyRegistry(registry, tree) else tree, target) == Ok(Some(out)))
    && exists c :: c in out && !IsSpace(c)
  }

  /** A call returns exactly such a text and raises whenever there is none: after a parser or
      generator that raises, over no statement, several, or an empty one, and without output. */
  lemma TranspiledIff(e: Engine, registry: seq<Node -> Node>, code: string, src: string, dst: Option<string>, out: string)
    ensures var target := if dst.None? || dst.value == "" then "spark" else dst.value;
            Transpiled(e, registry, code, src, dst) == Ok(out) <==> IsOutput(e, registry, code, src, target, out)
  {
    var target := if dst.None? || dst.value == "" then "spark" else dst.value;
    var statements := e.parse(code, src);
    if statements.Ok? && |statements.value| == 1 && statements.value[0].Some? {
      var tree := statements.value[0].value;
      assert statements.value == [Some(tree)];
    }
  }

  method SparkSafeTranspile(e: Engine, registry: seq<Node -> Node>, code: string, src: string, dst: Option<string>)
    returns (r: Result<string>)
    ensures r == Transpiled(e, registry, code, src, dst)
    ensures e.parse(code, src).Raised? ==> r.Raised?
    ensures e.parse(code, src).Ok? && |e.parse(code, src).value| != 1 ==> r.Raised?
    ensures e.parse(code, src).Ok? && e.parse(code, src).value == [None] ==> r.Raised?
    ensures r.Ok? ==> IsOutput(e, registry, code, src, if dst.None? || dst.value == "" then "spark" else dst.value, r.value)
  {
    var target := OrElse(dst, DEFAULT_TARGET);
    var statements :- e.parse(code, src);
    if |statements| != 1 || statements[0].None? {
      return Raised;
    }
    var tree := statements[0].value;
    if target == DEFAULT_TARGET {
      var i := 0;
      while i < |registry|
        invariant 0 <= i <= |registry|
        invariant ApplyRegistry(registry[i..], tree) == ApplyRegistry(registry, statements[0].value)
      {
        tree := Transform(registry[i], tree);
        assert registry[i..][1..] == registry[i + 1..];
        i := i + 1;
      }
    }
    var out :- e.generate(tree, target);
    if out.None? || IsBlank(out.value) {
      return Raised;
    }
    TranspiledIff(e, registry, code, src, dst, out.value);
    return Ok(out.value);
  }

  // ----- Meaning -----

  /** Printing an accepted tree and reading the text back gives one statement of the same
      meaning. Nothing is assumed of trees that the dialect does not accept. */
  ghost predicate Faithful(e: Engine, accepts: (Node, string) -> bool) {
    forall tree: Node, dialect: string | accepts(tree, dialect) ::
      var out := e.generate(tree, dialect);
      out.Ok? && out.value.Some? && !IsBlank(out.value.value) ==>
        var back := OnlyStatement(e, out.value.value, dialect);
        back.Ok? && SameMeaning(back.value, tree)
  }

  /** Spark has no form for the quantified comparisons that the fix-up rewrites; of all other
      trees it may reject none. What other dialects accept is left open. */
  ghost predicate SparkAcceptsClean(accepts: (Node, string) -> bool) {
    forall tree | Clean(tree) :: accepts(tree, "spark")
  }

  /** The target accepts the tree that is about to be printed, if there is one. */
  predicate Printable(e: Engine, accepts: (Node, string) -> bool, registry: seq<Node -> Node>, text: string,
                      src: string, target: string)
  {
    var parsed := OnlyStatement(e, text, src);
    parsed.Ok? ==> accepts(ApplyRegistry(FixupsFor(registry, target), parsed.value), target)
  }

  /** Both texts are one statement, each in its own dialect, and they mean the same. */
  ghost predicate SameText(e: Engine, text: string, dialect: string, text': string, dialect': string) {
    var before, after := OnlyStatement(e, text, dialect), OnlyStatement(e, text', dialect');
    before.Ok? && after.Ok? && SameMeaning(after.value, before.value)
  }

  lemma {:induction false} ApplyRegistryPreserves(registry: seq<Node -> Node>, tree: Node)
    requires forall f | f in registry :: Preserving(f)
    ensures SameMeaning(ApplyRegistry(registry, tree), tree)
    decreases |registry|
  {
    if registry != [] {
      var next := Transform(registry[0], tree);
      TransformPreserves(registry[0], tree);
      ApplyRegistryPreserves(registry[1..], next);
      forall env: Row, db: Database
        ensures Denote(ApplyRegistry(registry, tree), env, db) == Denote(tree, env, db)
      {
        assert Denote(ApplyRegistry(registry[1..], next), env, db) == Denote(next, env, db) == Denote(tree, env, db);
      }
    }
  }

  /** Whatever the registry holds, as long as its entries preserve meaning and the target
      accepts the one tree that is printed, text that comes out means in the target dialect
      what the code meant in its own. */
  lemma TranspiledKeepsMeaning(e: Engine, accepts: (Node, string) -> bool, registry: seq<Node -> Node>,
                               code: string, src: string, dst: Option<string>)
    requires Faithful(e, accepts) && Printable(e, accepts, registry, code, src, OrElse(dst, DEFAULT_TARGET))
    requires forall f | f in registry :: Preserving(f)
    ensures var r := Transpiled(e, registry, code, src, dst);
            r.Ok? ==> !IsBlank(r.value) && SameText(e, code, src, r.value, OrElse(dst, DEFAULT_TARGET))
  {
    var target := OrElse(dst, DEFAULT_TARGET);
    var r := Transpiled(e, registry, code, src, dst);
    if r.Ok? {
      var tree := OnlyStatement(e, code, src).value;
      var fixed := ApplyRegistry(FixupsFor(registry, target), tree);
      ApplyRegistryPreserves(FixupsFor(registry, target), tree);
      assert accepts(fixed, target);
      assert e.generate(fixed, target) == Ok(Some(r.value));
      var back := OnlyStatement(e, r.value, target);
      assert back.Ok? && SameMeaning(back.value, fixed);
      forall env: Row, db: Database ensures Denote(back.value, env, db) == Denote(tree, env, db) {
        assert Denote(back.value, env, db) == Denote(fixed, env, db) == Denote(tree, env, db);
      }
    }
  }

  lemma ShippedRegistryPreserves()
    ensures forall f | f in SPARK_FIXUPS :: Preserving(f)
  {
    FixupPreserves();
  }

  /** The shipped registry targeting Spark: the tree handed to the generator has the meaning
      of the parsed one and holds no form that Spark rejects. */
  lemma ShippedRegistryOnSpark(tree: Node)
    ensures var fixed := ApplyRegistry(FixupsFor(SPARK_FIXUPS, DEFAULT_TARGET), tree);
            Clean(fixed) && SameMeaning(fixed, tree)
  {
    ShippedRegistryPreserves();
    ApplyRegistryPreserves(SPARK_FIXUPS, tree);
    assert SPARK_FIXUPS[1..] == [];
    assert ApplyRegistry(SPARK_FIXUPS, tree) == Pass(tree);
    PassIsClean(tree);
  }

  // ----- The wrapper around dbt's compile step -----

  datatype ModelConfig = ModelConfig(transpileFrom: Option<string>, transpileTo: Option<string>)

  datatype Verdict = Skipped | Warned | Replaced(sql: string)

  /** What happens to a compiled model; a config that cannot be read raises like anything else. */
  function PatchVerdict(e: Engine, registry: seq<Node -> Node>, config: Result<ModelConfig>, code: Option<string>)
    : Verdict
  {
    if config.Raised? then Warned
    else
      var src, dst := OrElse(config.value.transpileFrom, ""), OrElse(config.value.transpileTo, DEFAULT_TARGET);
      if src == "" || src == dst then Skipped
      else match Transpiled(e, registry, OrElse(code, ""), src, Some(dst))
        case Ok(sql) => Replaced(sql)
        case Raised => Warned
  }

  class CompiledModel {
    const config: Result<ModelConfig>
    var compiledCode: Option<string>

    constructor (config: Result<ModelConfig>, code: Option<string>)
      ensures this.config == config && compiledCode == code
    {
      this.config := config;
      compiledCode := code;
    }

    /** The body of the patched compile step, after dbt's own. It never raises. */
    method Patched(e: Engine, registry: seq<Node -> Node>) returns (warned: bool)
      modifies this`compiledCode
      ensures var verdict := PatchVerdict(e, registry, config, old(compiledCode));
              warned == verdict.Warned? &&
              compiledCode == (if verdict.Replaced? then Some(verdict.sql) else old(compiledCode))
    {
      if config.Raised? {
        return true;
      }
      var src := OrElse(config.value.transpileFrom, "");
      var dst := OrElse(config.value.transpileTo, DEFAULT_TARGET);
      if src == "" || src == dst {
        return false;
      }
      var attempt := SparkSafeTranspile(e, registry, OrElse(compiledCode, ""), src, Some(dst));
      if attempt.Raised? {
        return true;
      }
      compiledCode := Some(attempt.value);
      return false;
    }
  }

  /** What the patch does to a model, told from its config, the parser and the generator: it
      skips in silence without a source dialect or when that is the target; it replaces the
      code by the one output text; and it warns in every other case. */
  lemma VerdictIff(e: Engine, registry: seq<Node -> Node>, config: Result<ModelConfig>, code: Option<string>)
    ensures var verdict := PatchVerdict(e, registry, config, code);
            if config.Raised? then verdict == Warned
            else
              var from, to := config.value.transpileFrom, config.value.transpileTo;
              var target := if to.None? || to.value == "" then "spark" else to.value;
              var text := if code.None? then "" else code.value;
              if from.None? || from.value == "" || from.value == target then verdict == Skipped
              else
                && verdict != Skipped
                && (e.parse(text, from.value).Ok? && |e.parse(text, from.value).value| != 1 ==> verdict == Warned)
                && (e.parse(text, from.value) == Ok([None]) ==> verdict == Warned)
                && forall out :: verdict == Replaced(out) <==> IsOutput(e, registry, text, from.value, target, out)
  {
    if config.Ok? {
      var from, to := config.value.transpileFrom, config.value.transpileTo;
      var target := if to.None? || to.value == "" then "spark" else to.value;
      var text := if code.None? then "" else code.value;
      if from.Some? && from.value != "" && from.value != target {
        forall out
          ensures PatchVerdict(e, registry, config, code) == Replaced(out) <==>
                  IsOutput(e, registry, text, from.value, target, out)
        {
          TranspiledIff(e, registry, text, from.value, Some(target), out);
        }
      }
    }
  }

  /** The text that dbt goes on to execute. */
  function LeftText(e: Engine, registry: seq<Node -> Node>, config: Result<ModelConfig>, code: Option<string>): string {
    var verdict := PatchVerdict(e, registry, config, code);
    if verdict.Replaced? then verdict.sql else OrElse(code, "")
  }

  /** Replaced text is not blank and, when the target accepts the printed tree, means in the
      target dialect what the old text meant in the source dialect. */
  lemma PatchKeepsMeaning(e: Engine, accepts: (Node, string) -> bool, registry: seq<Node -> Node>,
                          config: Result<ModelConfig>, code: Option<string>)
    requires Faithful(e, accepts)
    requires forall f | f in registry :: Preserving(f)
    ensures var verdict := PatchVerdict(e, registry, config, code);
            verdict.Replaced? ==>
              config.Ok? && config.value.transpileFrom.Some? && !IsBlank(verdict.sql) &&
              var text, src := OrElse(code, ""), config.value.transpileFrom.value;
              var target := OrElse(config.value.transpileTo, DEFAULT_TARGET);
              Printable(e, accepts, registry, text, src, target) ==> SameText(e, text, src, verdict.sql, target)
  {
    if PatchVerdict(e, registry, config, code).Replaced? {
      var text, src := OrElse(code, ""), config.value.transpileFrom.value;
      var target := OrElse(config.value.transpileTo, DEFAULT_TARGET);
      if Printable(e, accepts, registry, text, src, target) {
        TranspiledKeepsMeaning(e, accepts, registry, text, src, Some(target));
      }
    }
  }

  /** The generator has text for the tree that the passes make of the parsed statement. */
  predicate Generates(e: Engine, registry: seq<Node -> Node>, tree: Node, target: string) {
    var out := e.generate(ApplyRegistry(FixupsFor(registry, target), tree), target);
    out.Ok? && out.value.Some? && !IsBlank(out.value.value)
  }

  /** What dbt executes means in the target dialect what the model meant in its own, exactly
      when the model is one statement there and either the generator had text for it or the
      unchanged text already meant the same in the target; the target is assumed to accept the
      printed tree. */
  lemma ExecutedMeaningIff(e: Engine, accepts: (Node, string) -> bool, registry: seq<Node -> Node>,
                           config: ModelConfig, code: Option<string>)
    requires Faithful(e, accepts)
    requires forall f | f in registry :: Preserving(f)
    requires OrElse(config.transpileFrom, "") != ""
    requires Printable(e, accepts, registry, OrElse(code, ""), config.transpileFrom.value,
                       OrElse(config.transpileTo, DEFAULT_TARGET))
    ensures var src, target := config.transpileFrom.value, OrElse(config.transpileTo, DEFAULT_TARGET);
            var text := OrElse(code, "");
            var parsed := OnlyStatement(e, text, src);
            SameText(e, text, src, LeftText(e, registry, Ok(config), code), target) <==>
            parsed.Ok? && (Generates(e, registry, parsed.value, target) || SameText(e, text, src, text, target))
  {
    PatchKeepsMeaning(e, accepts, registry, Ok(config), code);
  }

  /** The promise that a wrong result is never silent does not hold for text passed through:
      with two dialects that read one text differently and a generator that raises, the text
      stays and means something else in the target. */
  lemma PassedThroughChangesMeaning()
    ensures var e := TwoReadings();
            var config := ModelConfig(Some("snowflake"), None);
            && Faithful(e, (tree, dialect) => true)
            && PatchVerdict(e, SPARK_FIXUPS, Ok(config), Some("q")).Warned?
            && OnlyStatement(e, "q", "snowflake").Ok? && OnlyStatement(e, "q", "spark").Ok?
            && !SameText(e, "q", "snowflake", LeftText(e, SPARK_FIXUPS, Ok(config), Some("q")), "spark")
  {
    var e := TwoReadings();
    var before, after := OnlyStatement(e, "q", "snowflake").value, OnlyStatement(e, "q", "spark").value;
    var db := Database(map[], imap[], imap[]);
    assert Denote(before, [], db) == Scalar(Num(1)) && Denote(after, [], db) == Scalar(Num(2));
  }

  function TwoReadings(): Engine {
    Engine(
      (text: string, dialect: string) =>
        Ok([Some(Node(Literal(Num(if dialect == "snowflake" then 1 else 2)), []))]),
      (tree: Node, dialect: string) => Raised)
  }

  function Agreeable(): Engine {
    Engine(
      (text: string, dialect: string) => Ok([Some(Node(Literal(Num(1)), []))]),
      (tree: Node, dialect: string) => Ok(Some("select 1")))
  }

  /** The no-op guarantee: a model that names no source dialect, or the target itself, is left
      alone in silence whatever the parser and generator do; any other is replaced with some
      of them and warned about with others. */
  lemma NoOpIff(e: Engine, registry: seq<Node -> Node>, config: ModelConfig, code: Option<string>)
    ensures var from, to := config.transpileFrom, config.transpileTo;
            var target := if to.None? || to.value == "" then "spark" else to.value;
            if from.None? || from.value == "" || from.value == target then
              PatchVerdict(e, registry, Ok(config), code).Skipped?
            else
              && PatchVerdict(Agreeable(), registry, Ok(config), code).Replaced?
              && PatchVerdict(e.(parse := (text, dialect) => Raised), registry, Ok(config), code).Warned?
  {
    assert "select 1"[0] == 's' && 's' in "select 1" && !IsSpace('s');
  }

  /** With the shipped registry, and an engine that is assumed faithful for accepted trees
      only, replaced text keeps its meaning: always when the target is Spark, because the pass
      both preserves meaning and leaves no rejected form, and for any other target, which has
      no repair layer, when it accepts the tree as it was parsed. */
  lemma ShippedPatchKeepsMeaning(e: Engine, accepts: (Node, string) -> bool, config: ModelConfig, code: Option<string>)
    requires Faithful(e, accepts) && SparkAcceptsClean(accepts)
    ensures var verdict := PatchVerdict(e, SPARK_FIXUPS, Ok(config), code);
            verdict.Replaced? ==>
              var text, src := OrElse(code, ""), config.transpileFrom.value;
              var target := OrElse(config.transpileTo, DEFAULT_TARGET);
              var parsed := OnlyStatement(e, text, src);
              && parsed.Ok?
              && (target == "spark" || accepts(parsed.value, target) ==> SameText(e, text, src, verdict.sql, target))
  {
    ShippedRegistryPreserves();
    PatchKeepsMeaning(e, accepts, SPARK_FIXUPS, Ok(config), code);
    if PatchVerdict(e, SPARK_FIXUPS, Ok(config), code).Replaced? {
      ShippedRegistryOnSpark(OnlyStatement(e, OrElse(code, ""), config.transpileFrom.value).value);
    }
  }

  /** With the shipped registry and Spark as the target, the tree that was printed has the
      meaning of the parsed one and none of the forms that Spark rejects; for any other target
      the parsed tree is printed as it is. */
  lemma ShippedPatch(e: Engine, config: ModelConfig, code: Option<string>)
    ensures var verdict := PatchVerdict(e, SPARK_FIXUPS, Ok(config), code);
            verdict.Replaced? ==>
              var target := OrElse(config.transpileTo, DEFAULT_TARGET);
              var parsed := OnlyStatement(e, OrElse(code, ""), config.transpileFrom.value);
              exists printed ::
                && parsed.Ok? && e.generate(printed, target) == Ok(Some(verdict.sql))
                && SameMeaning(printed, parsed.value)
                && (if target == "spark" then Clean(printed) else printed == parsed.value)
  {
    var verdict := PatchVerdict(e, SPARK_FIXUPS, Ok(config), code);
    if verdict.Replaced? {
      var target := OrElse(config.transpileTo, DEFAULT_TARGET);
      var parsed := OnlyStatement(e, OrElse(code, ""), config.transpileFrom.value).value;
      var printed := ApplyRegistry(FixupsFor(SPARK_FIXUPS, target), parsed);
      ShippedRegistryOnSpark(parsed);
      assert e.generate(printed, target) == Ok(Some(verdict.sql));
    }
  }
}
