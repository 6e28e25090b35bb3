/** The text that the surrogate-key macro hashes: columns cast to strings, NULLs replaced by a
    marker, joined with a delimiter. The hash itself is not modelled. */
module SurrogateKey {
  import opened Results

  const NULL_MARKER := "_null_"

  const DELIMITER := '|'

  type Columns = seq<Option<string>>

  function Coalesced(c: Option<string>): string {
    if c.Some? then c.value else NULL_MARKER
  }

  /** `concat_ws`. */
  function Join(parts: seq<string>): string {
    if parts == [] then ""
    else if |parts| == 1 then parts[0]
    else parts[0] + [DELIMITER] + Join(parts[1..])
  }

  function Parts(columns: Columns): seq<string> {
    seq(|columns|, i requires 0 <= i < |columns| => Coalesced(columns[i]))
  }

  function KeyText(columns: Columns): string {
    Join(Parts(columns))
  }

  // ----- Reading a key back -----

  function Split(text: string): (parts: seq<string>)
    ensures parts != []
  {
    if text == [] then [""]
    else
      var rest := Split(text[1..]);
      if text[0] == DELIMITER then [""] + rest
      else [[text[0]] + rest[0]] + rest[1..]
  }

  function Decoded(text: string): Columns {
    var parts := Split(text);
    seq(|parts|, i requires 0 <= i < |parts| => if parts[i] == NULL_MARKER then None else Some(parts[i]))
  }

  predicate NoDelimiter(columns: Columns) {
    forall c | c in columns :: c.Some? ==> DELIMITER !in c.value
  }

  predicate NoMarkerText(columns: Columns) {
    forall c | c in columns :: c != Some(NULL_MARKER)
  }

  lemma {:induction false} SplitConcat(part: string, text: string)
    requires DELIMITER !in part
    ensures Split(part + text) == [part + Split(text)[0]] + Split(text)[1..]
  {
    if part == [] {
      assert part + text == text && part + Split(text)[0] == Split(text)[0];
    } else {
      assert (part + text)[1..] == part[1..] + text;
      SplitConcat(part[1..], text);
      assert [part[0]] + (part[1..] + Split(text)[0]) == part + Split(text)[0];
    }
  }

  lemma {:induction false} SplitJoin(parts: seq<string>)
    requires parts != [] && forall p | p in parts :: DELIMITER !in p
    ensures Split(Join(parts)) == parts
  {
    var p, rest := parts[0], parts[1..];
    assert parts == [p] + rest;
    if rest == [] {
      SplitConcat(p, "");
      assert p + "" == p;
    } else {
      SplitJoin(rest);
      var tail := [DELIMITER] + Join(rest);
      assert tail[1..] == Join(rest);
      assert Join(parts) == p + tail;
      SplitConcat(p, tail);
      assert p + "" == p;
    }
  }

  lemma {:induction false} PartsWithoutDelimiter(columns: Columns)
    requires NoDelimiter(columns)
    ensures forall p | p in Parts(columns) :: DELIMITER !in p
  {
  }

  /** The columns can be read back from the key text, NULLs included. */
  lemma KeyRoundTrip(columns: Columns)
    requires columns != [] && NoDelimiter(columns) && NoMarkerText(columns)
    ensures Decoded(KeyText(columns)) == columns
  {
    PartsWithoutDelimiter(columns);
    SplitJoin(Parts(columns));
    var decoded := Decoded(KeyText(columns));
    forall i | 0 <= i < |columns| ensures decoded[i] == columns[i] {
      assert columns[i] in columns;
    }
  }

  /** Distinct rows of such columns get distinct keys, whatever their number of columns. */
  lemma KeysDiffer(a: Columns, b: Columns)
    requires a != [] && NoDelimiter(a) && NoMarkerText(a)
    requires b != [] && NoDelimiter(b) && NoMarkerText(b)
    ensures KeyText(a) == KeyText(b) <==> a == b
  {
    KeyRoundTrip(a);
    KeyRoundTrip(b);
  }

  // ----- Exactly when a key belongs to one row only -----

  /** No other row with as many columns, whatever its text, has the same key. */
  ghost predicate KeyIsUnique(columns: Columns) {
    forall other: Columns | |other| == |columns| && KeyText(other) == KeyText(columns) :: other == columns
  }

  function Delimiters(text: string): nat {
    if text == [] then 0 else (if text[0] == DELIMITER then 1 else 0) + Delimiters(text[1..])
  }

  lemma {:induction false} DelimitersConcat(s: string, t: string)
    ensures Delimiters(s + t) == Delimiters(s) + Delimiters(t)
  {
    if s == [] {
      assert s + t == t;
    } else {
      assert (s + t)[1..] == s[1..] + t;
      DelimitersConcat(s[1..], t);
    }
  }

  lemma {:induction false} DelimitersZero(s: string)
    ensures Delimiters(s) == 0 <==> DELIMITER !in s
  {
    if s != [] {
      DelimitersZero(s[1..]);
      assert s == [s[0]] + s[1..];
    }
  }

  lemma {:induction false} JoinDelimiters(parts: seq<string>)
    requires parts != []
    ensures Delimiters(Join(parts)) >= |parts| - 1
    ensures Delimiters(Join(parts)) == |parts| - 1 ==> forall p | p in parts :: DELIMITER !in p
    ensures (forall p | p in parts :: DELIMITER !in p) ==> Delimiters(Join(parts)) == |parts| - 1
  {
    var p, rest := parts[0], parts[1..];
    assert parts == [p] + rest;
    DelimitersZero(p);
    if rest != [] {
      JoinDelimiters(rest);
      DelimitersConcat(p + [DELIMITER], Join(rest));
      DelimitersConcat(p, [DELIMITER]);
      assert Delimiters([DELIMITER]) == 1 by {
        assert [DELIMITER][1..] == [];
      }
    }
  }

  /** Moving a delimiter from inside one of two neighbours to between them is invisible. */
  lemma {:induction false} JoinRegrouped(before: seq<string>, p: string, q: string, p': string, q': string, after: seq<string>)
    requires p + [DELIMITER] + q == p' + [DELIMITER] + q'
    ensures Join(before + [p, q] + after) == Join(before + [p', q'] + after)
    decreases |before|
  {
    var a, b := before + [p, q] + after, before + [p', q'] + after;
    if before == [] {
      assert a[1..] == [q] + after && b[1..] == [q'] + after;
      if after != [] {
        assert a[1..][1..] == after && b[1..][1..] == after;
        var tail := [DELIMITER] + Join(after);
        assert Join(a) == (p + [DELIMITER] + q) + tail;
        assert Join(b) == (p' + [DELIMITER] + q') + tail;
      } else {
        assert Join(a) == p + [DELIMITER] + q;
        assert Join(b) == p' + [DELIMITER] + q';
      }
    } else {
      JoinRegrouped(before[1..], p, q, p', q', after);
      assert a[1..] == before[1..] + [p, q] + after;
      assert b[1..] == before[1..] + [p', q'] + after;
    }
  }

  lemma UniqueKeySufficient(columns: Columns)
    requires forall c | c in columns :: c.Some? && c.value != NULL_MARKER
    requires |columns| > 1 ==> NoDelimiter(columns)
    ensures KeyIsUnique(columns)
  {
    forall other: Columns | |other| == |columns| && KeyText(other) == KeyText(columns) ensures other == columns {
      if |columns| > 1 {
        PartsWithoutDelimiter(columns);
        JoinDelimiters(Parts(columns));
        JoinDelimiters(Parts(other));
        SplitJoin(Parts(columns));
        SplitJoin(Parts(other));
      }
      forall i | 0 <= i < |columns| ensures other[i] == columns[i] {
        assert columns[i] in columns;
        assert Parts(other)[i] == Parts(columns)[i];
      }
    }
  }

  lemma MarkerCollides(columns: Columns, i: nat)
    requires i < |columns| && (columns[i].None? || columns[i].value == NULL_MARKER)
    ensures !KeyIsUnique(columns)
  {
    var other := columns[i := if columns[i].None? then Some(NULL_MARKER) else None];
    assert Parts(other) == Parts(columns);
    assert other[i] != columns[i];
  }

  lemma RegroupedCollides(columns: Columns, j: nat, p: string, q: string)
    requires j + 1 < |columns| && columns[j] != Some(p)
    requires Coalesced(columns[j]) + [DELIMITER] + Coalesced(columns[j + 1]) == p + [DELIMITER] + q
    ensures !KeyIsUnique(columns)
  {
    var before, after := columns[..j], columns[j + 2..];
    var other := before + [Some(p), Some(q)] + after;
    JoinRegrouped(Parts(before), Coalesced(columns[j]), Coalesced(columns[j + 1]), p, q, Parts(after));
    assert Parts(columns) == Parts(before) + [Coalesced(columns[j]), Coalesced(columns[j + 1])] + Parts(after);
    assert Parts(other) == Parts(before) + [p, q] + Parts(after);
    assert other[j] != columns[j];
  }

  lemma DelimiterCollides(columns: Columns, i: nat)
    requires i < |columns| && |columns| > 1 && columns[i].Some? && DELIMITER in columns[i].value
    ensures !KeyIsUnique(columns)
  {
    var text := columns[i].value;
    var at :| 0 <= at < |text| && text[at] == DELIMITER;
    var left, right := text[..at], text[at + 1..];
    assert text == left + [DELIMITER] + right;
    if i + 1 < |columns| {
      var next := Coalesced(columns[i + 1]);
      assert text + [DELIMITER] + next == left + [DELIMITER] + (right + [DELIMITER] + next);
      RegroupedCollides(columns, i, left, right + [DELIMITER] + next);
    } else {
      var previous := Coalesced(columns[i - 1]);
      assert previous + [DELIMITER] + text == (previous + [DELIMITER] + left) + [DELIMITER] + right;
      assert |previous + [DELIMITER] + left| > |previous|;
      RegroupedCollides(columns, i - 1, previous + [DELIMITER] + left, right);
    }
  }

  /** A row has a key of its own exactly when no column is NULL or reads like the NULL marker
      and, with more than one column, none contains the delimiter. */
  lemma KeyIsUniqueIff(columns: Columns)
    ensures KeyIsUnique(columns) <==>
            forall c | c in columns :: c.Some? && c.value != "_null_" && (|columns| > 1 ==> '|' !in c.value)
  {
    if c :| c in columns && (c.None? || c.value == NULL_MARKER) {
      var i :| 0 <= i < |columns| && columns[i] == c;
      MarkerCollides(columns, i);
    } else if |columns| > 1 && !NoDelimiter(columns) {
      var c :| c in columns && c.Some? && DELIMITER in c.value;
      var i :| 0 <= i < |columns| && columns[i] == c;
      DelimiterCollides(columns, i);
    } else {
      UniqueKeySufficient(columns);
    }
  }

  /** The collisions in particular: NULL and the marker text, and a delimiter that moves from
      one column to the next. The pair that the documentation names does not collide. */
  lemma NamedKeys()
    ensures KeyText([None]) == KeyText([Some("_null_")])
    ensures KeyText([Some("a|b"), Some("c")]) == KeyText([Some("a"), Some("b|c")])
    ensures KeyText([Some("a"), None]) != KeyText([Some("a|"), Some("")])
    ensures KeyText([Some("a"), None, Some("b")]) == "a|_null_|b"
  {
  }
}
