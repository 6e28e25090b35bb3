/** Replication slot and publication names made from a connector name.

    Python's character tables are a parameter; only what they say about ASCII is assumed.
 */
module SlotNames {

  /** `str.lower`, `str.islower` and `str.isdigit`. Lowering may change the length of a text. */
  datatype CharTable = CharTable(lower: string -> string, isLower: char -> bool, isDigit: char -> bool)

  predicate IsAscii(name: string) {
    forall c | c in name :: c as int < 0x80
  }

  function AsciiLower(name: string): (s: string)
    ensures |s| == |name|
  {
    seq(|name|, i requires 0 <= i < |name| =>
      if 'A' <= name[i] <= 'Z' then (name[i] as int + 32) as char else name[i])
  }

  ghost predicate AgreesOnAscii(t: CharTable) {
    && (forall s: string | IsAscii(s) :: t.lower(s) == AsciiLower(s))
    && (forall c: char | c as int < 0x80 ::
          (t.isLower(c) <==> 'a' <= c <= 'z') && (t.isDigit(c) <==> '0' <= c <= '9'))
  }

  function Sanitised(t: CharTable, name: string): (s: string)
    ensures |s| == |t.lower(name)|
  {
    var lowered := t.lower(name);
    seq(|lowered|, i requires 0 <= i < |lowered| =>
      var c := lowered[i];
      if t.isLower(c) || t.isDigit(c) || c == '_' then c else '_')
  }

  /** Python's `s[:n]`. */
  function Take(s: string, n: nat): string {
    if |s| <= n then s else s[..n]
  }

  function SafeSlot(t: CharTable, name: string): string {
    Take(Sanitised(t, name) + "_slot", 63)
  }

  function Publication(t: CharTable, name: string): string {
    var slot := SafeSlot(t, name);
    (if |slot| <= 5 then "" else slot[..|slot| - 5]) + "_pub"
  }

  // ----- What becomes of a name -----

  /** Character by character, an ASCII name keeps its lower-case letters, digits and
      underscores, gets its capitals lowered, and `_` for anything else. */
  lemma SanitisedAscii(t: CharTable, name: string, i: nat)
    requires AgreesOnAscii(t) && IsAscii(name) && i < |name|
    ensures |Sanitised(t, name)| == |name|
    ensures var c, s := name[i], Sanitised(t, name)[i];
            if 'a' <= c <= 'z' || '0' <= c <= '9' || c == '_' then s == c
            else if 'A' <= c <= 'Z' then 'a' <= s <= 'z' && s as int - 'a' as int == c as int - 'A' as int
            else s == '_'
  {
    assert name[i] in name;
    forall k | 0 <= k < |name| ensures AsciiLower(name)[k] as int < 0x80 {
      assert name[k] in name;
    }
  }

  /** The slot name is the sanitised name with `_slot` after it, cut at 63 characters. */
  lemma SafeSlotIs(t: CharTable, name: string)
    ensures var s, slot := Sanitised(t, name), SafeSlot(t, name);
            && (|s| <= 58 ==> slot == s + "_slot")
            && (|s| >= 63 ==> slot == s[..63])
            && (58 < |s| < 63 ==> slot == s + "_slot"[..63 - |s|])
  {
  }

  // ----- What Postgres accepts -----

  predicate IsSlotChar(c: char) {
    'a' <= c <= 'z' || '0' <= c <= '9' || c == '_'
  }

  /** At most 63 characters of `[a-z0-9_]`. */
  predicate IsSlotName(slot: string) {
    |slot| <= 63 && forall c | c in slot :: IsSlotChar(c)
  }

  /** A lower-case letter or digit outside ASCII, which sanitising lets through. */
  predicate SlipsThrough(t: CharTable, c: char) {
    c as int >= 0x80 && (t.isLower(c) || t.isDigit(c))
  }

  lemma SanitisedChar(t: CharTable, name: string, i: nat)
    requires AgreesOnAscii(t) && i < |t.lower(name)|
    ensures IsSlotChar(Sanitised(t, name)[i]) <==> !SlipsThrough(t, t.lower(name)[i])
  {
  }

  /** For every connector name, the slot name is acceptable exactly when no letter or digit
      outside ASCII is among the characters that survive lowering and truncation. */
  lemma SlotNameIff(t: CharTable, name: string)
    requires AgreesOnAscii(t)
    ensures IsSlotName(SafeSlot(t, name)) <==>
            forall i | 0 <= i < |t.lower(name)| && i < 63 :: !SlipsThrough(t, t.lower(name)[i])
  {
    var slot, s := SafeSlot(t, name), Sanitised(t, name);
    var tail := "_slot";
    assert tail == ['_', 's', 'l', 'o', 't'];
    forall i | 0 <= i < |slot| ensures slot[i] == if i < |s| then s[i] else tail[i - |s|] {
    }
    forall i | 0 <= i < |s| && i < 63 ensures IsSlotChar(slot[i]) <==> !SlipsThrough(t, t.lower(name)[i]) {
      SanitisedChar(t, name, i);
    }
    if forall i | 0 <= i < |s| && i < 63 :: !SlipsThrough(t, t.lower(name)[i]) {
      forall c | c in slot ensures IsSlotChar(c) {
        var i :| 0 <= i < |slot| && slot[i] == c;
      }
    }
    if IsSlotName(slot) {
      forall i | 0 <= i < |s| && i < 63 ensures !SlipsThrough(t, t.lower(name)[i]) {
        assert slot[i] in slot;
      }
    }
  }

  /** So every ASCII name gives an acceptable slot name. */
  lemma AsciiSlotName(t: CharTable, name: string)
    requires AgreesOnAscii(t) && IsAscii(name)
    ensures IsSlotName(SafeSlot(t, name))
  {
    forall i | 0 <= i < |name| ensures AsciiLower(name)[i] as int < 0x80 {
      assert name[i] in name;
    }
    SlotNameIff(t, name);
  }

  /** And a name outside ASCII may not: an accented `e`, a lower-case letter in Python, stays
      in the slot name. */
  lemma AccentedSlotName(t: CharTable)
    requires AgreesOnAscii(t)
    requires t.lower("caf\U{E9}") == "caf\U{E9}" && t.isLower('\U{E9}')
    ensures !IsSlotName(SafeSlot(t, "caf\U{E9}"))
  {
    var name := "caf\U{E9}";
    assert name[3] == '\U{E9}' && SlipsThrough(t, name[3]);
    SlotNameIff(t, name);
  }

  /** Cutting five characters off the slot name gives the first 58 of the sanitised name,
      even when truncation has already cut into the `_slot` suffix. */
  lemma PublicationIs(t: CharTable, name: string)
    ensures Publication(t, name) == Take(Sanitised(t, name), 58) + "_pub"
    ensures var s := Sanitised(t, name); Publication(t, name) == (if |s| <= 58 then s else s[..58]) + "_pub"
  {
  }

  /** Two connectors get one publication exactly when their names agree on 58 characters
      after sanitising. */
  lemma SamePublicationIff(t: CharTable, a: string, b: string)
    ensures Publication(t, a) == Publication(t, b) <==> Take(Sanitised(t, a), 58) == Take(Sanitised(t, b), 58)
  {
    PublicationIs(t, a);
    PublicationIs(t, b);
    var p, q := Take(Sanitised(t, a), 58), Take(Sanitised(t, b), 58);
    if Publication(t, a) == Publication(t, b) {
      assert |p| == |q|;
      assert (p + "_pub")[..|p|] == p && (q + "_pub")[..|q|] == q;
    }
  }

  /** Names that differ within 58 characters after sanitising get different slots too. */
  lemma DifferentSlots(t: CharTable, a: string, b: string)
    requires Take(Sanitised(t, a), 58) != Take(Sanitised(t, b), 58)
    ensures SafeSlot(t, a) != SafeSlot(t, b) && Publication(t, a) != Publication(t, b)
  {
    SamePublicationIff(t, a, b);
  }

  /** The converse fails: two long names can share a publication and differ in their slots. */
  lemma SharedPublication(t: CharTable)
    requires AgreesOnAscii(t)
    ensures var prefix := seq(58, _ => 'a');
            var a, b := prefix + "x", prefix + "y";
            SafeSlot(t, a) != SafeSlot(t, b) && Publication(t, a) == Publication(t, b)
  {
    var prefix := seq(58, _ => 'a');
    var a, b := prefix + "x", prefix + "y";
    assert IsAscii(a) && IsAscii(b);
    assert Sanitised(t, a)[58] == 'x' && Sanitised(t, b)[58] == 'y';
    assert SafeSlot(t, a)[58] == 'x' && SafeSlot(t, b)[58] == 'y';
    assert Sanitised(t, a)[..58] == Sanitised(t, b)[..58];
    SamePublicationIff(t, a, b);
  }
}
