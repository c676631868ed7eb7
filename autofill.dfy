/**
 * Type-driven autofill: the literal that stands in for a placeholder with no bound value,
 * chosen from its type annotation by an ordered table of substring tests.
 */
module Autofill {
  import opened Wrappers
  import opened Strings

  /** The keys of the table of autofill literals. */
  datatype Kind =
    | IntegerArray | TextArray | BooleanArray | FloatArray
    | Text | Integer | Float | Boolean | Date

  /** The autofill literal of each kind. */
  function AutofillParams(k: Kind): string {
    match k
    case IntegerArray => "ARRAY[1,2,3]"
    case TextArray => "ARRAY['abc','def','ghi']"
    case BooleanArray => "ARRAY[true,false,true]"
    case FloatArray => "ARRAY[1.1,2.2,3.3]"
    case Text => "'string'"
    case Integer => "1000"
    case Float => "1.2345"
    case Boolean => "true"
    case Date => "CURRENT_DATE"
  }

  /**
   * The kind chosen for a lower-cased, non-empty type annotation t: the first of the substring
   * tests below that t passes, and text when it passes none.
   */
  function DispatchType(t: string): Kind {
    if Contains(t, "integer[]") || Contains(t, "int[]") then IntegerArray
    else if Contains(t, "float[]") then FloatArray
    else if Contains(t, "boolean[]") then BooleanArray
    else if Contains(t, "text[]") then TextArray
    else if Contains(t, "integer") || Contains(t, "int") then Integer
    else if Contains(t, "float") then Float
    else if Contains(t, "boolean") then Boolean
    else if Contains(t, "date") then Date
    else Text
  }

  /** The kind for a placeholder whose `param_type` group is typ: text when no type was captured or it is empty. */
  function AutofillKind(typ: Option<string>): Kind {
    if typ.None? || typ.value == "" then Text else DispatchType(Lower(typ.value))
  }

  /** `_get_autofill_value`: the literal of the kind the type annotation selects. */
  function AutofillValue(typ: Option<string>): string {
    AutofillParams(AutofillKind(typ))
  }

  /** One row of the dispatch table: it fires when one of its needles occurs in the type. */
  datatype Rule = Rule(needles: seq<string>, kind: Kind)

  /** The dispatch table in the order it is consulted; array names come before their element types. */
  const Rules: seq<Rule> := [
    Rule(["integer[]", "int[]"], IntegerArray),
    Rule(["float[]"], FloatArray),
    Rule(["boolean[]"], BooleanArray),
    Rule(["text[]"], TextArray),
    Rule(["integer", "int"], Integer),
    Rule(["float"], Float),
    Rule(["boolean"], Boolean),
    Rule(["date"], Date)
  ]

  /** Some needle occurs in t. */
  predicate AnyOccurs(t: string, needles: seq<string>)
    decreases |needles|
  {
    |needles| > 0 && (Contains(t, needles[0]) || AnyOccurs(t, needles[1..]))
  }

  predicate Fires(rule: Rule, t: string) {
    AnyOccurs(t, rule.needles)
  }

  /** The kind of the first rule that fires on t, or text when none does. */
  function FirstFiring(rules: seq<Rule>, t: string): (k: Kind)
    ensures forall i :: 0 <= i < |rules| && Fires(rules[i], t) && (forall j :: 0 <= j < i ==> !Fires(rules[j], t)) ==>
      k == rules[i].kind
    ensures (forall i :: 0 <= i < |rules| ==> !Fires(rules[i], t)) ==> k == Text
    decreases |rules|
  {
    if rules == [] then Text
    else if Fires(rules[0], t) then rules[0].kind
    else
      var k := FirstFiring(rules[1..], t);
      assert forall i :: 0 < i < |rules| ==> rules[i] == rules[1..][i - 1];
      k
  }

  /** The if/elif chain and the ordered table agree on every type annotation. */
  lemma DispatchFollowsTable(t: string)
    ensures DispatchType(t) == FirstFiring(Rules, t)
  {
    var r0, r1, r2, r3, r4, r5, r6, r7 := Rules[0], Rules[1], Rules[2], Rules[3], Rules[4], Rules[5], Rules[6], Rules[7];
    assert Fires(r0, t) <==> Contains(t, "integer[]") || Contains(t, "int[]") by {
      assert r0.needles[1..] == ["int[]"];
    }
    assert Fires(r4, t) <==> Contains(t, "integer") || Contains(t, "int") by {
      assert r4.needles[1..] == ["int"];
    }
    assert Fires(r1, t) <==> Contains(t, "float[]") by { assert r1.needles[1..] == []; }
    assert Fires(r2, t) <==> Contains(t, "boolean[]") by { assert r2.needles[1..] == []; }
    assert Fires(r3, t) <==> Contains(t, "text[]") by { assert r3.needles[1..] == []; }
    assert Fires(r5, t) <==> Contains(t, "float") by { assert r5.needles[1..] == []; }
    assert Fires(r6, t) <==> Contains(t, "boolean") by { assert r6.needles[1..] == []; }
    assert Fires(r7, t) <==> Contains(t, "date") by { assert r7.needles[1..] == []; }
  }

  /** The type annotation is compared without regard to case. */
  lemma AutofillIgnoresCase(t: string)
    ensures AutofillValue(Some(t)) == AutofillValue(Some(Lower(t)))
  {
    LowerIdempotent(t);
  }

  /** A needle holding a character that t lacks does not occur in t. */
  lemma NotContainedFor(t: string, sub: string, c: char)
    requires c in sub && c !in t
    ensures !Contains(t, sub)
  {
  }

  /** Text with no upper-case letter is its own lower-case form. */
  lemma LowerOfLower(s: string)
    requires forall i :: 0 <= i < |s| ==> !('A' <= s[i] <= 'Z')
    ensures Lower(s) == s
  {
  }

  /** A placeholder with no type, or an empty one, is filled with text. */
  lemma AutofillUntyped()
    ensures AutofillValue(None) == "'string'"
    ensures AutofillValue(Some("")) == "'string'"
  {
  }

  /** A `boolean` placeholder is filled with `true`; no earlier rule fires. */
  lemma AutofillBoolean()
    ensures AutofillValue(Some("boolean")) == "true"
  {
    var t := "boolean";
    LowerOfLower(t);
    NotContainedFor(t, "integer[]", '[');
    NotContainedFor(t, "int[]", '[');
    NotContainedFor(t, "float[]", '[');
    NotContainedFor(t, "boolean[]", '[');
    NotContainedFor(t, "text[]", '[');
    NotContainedFor(t, "integer", 'i');
    NotContainedFor(t, "int", 'i');
    NotContainedFor(t, "float", 'f');
    assert OccursAt(t, "boolean", 0);
  }

  /** An `integer` placeholder is filled with `1000`: no array rule fires without a bracket. */
  lemma AutofillInteger()
    ensures AutofillValue(Some("integer")) == "1000"
  {
    var t := "integer";
    LowerOfLower(t);
    NotContainedFor(t, "integer[]", '[');
    NotContainedFor(t, "int[]", '[');
    NotContainedFor(t, "float[]", '[');
    NotContainedFor(t, "boolean[]", '[');
    NotContainedFor(t, "text[]", '[');
    assert OccursAt(t, "integer", 0);
  }

  /** A `float` placeholder is filled with `1.2345`. */
  lemma AutofillFloat()
    ensures AutofillValue(Some("float")) == "1.2345"
  {
    var t := "float";
    LowerOfLower(t);
    NotContainedFor(t, "integer[]", '[');
    NotContainedFor(t, "int[]", '[');
    NotContainedFor(t, "float[]", '[');
    NotContainedFor(t, "boolean[]", '[');
    NotContainedFor(t, "text[]", '[');
    NotContainedFor(t, "integer", 'i');
    NotContainedFor(t, "int", 'i');
    assert OccursAt(t, "float", 0);
  }

  /** A `date` placeholder is filled with `CURRENT_DATE`. */
  lemma AutofillDate()
    ensures AutofillValue(Some("date")) == "CURRENT_DATE"
  {
    var t := "date";
    LowerOfLower(t);
    NotContainedFor(t, "integer[]", '[');
    NotContainedFor(t, "int[]", '[');
    NotContainedFor(t, "float[]", '[');
    NotContainedFor(t, "boolean[]", '[');
    NotContainedFor(t, "text[]", '[');
    NotContainedFor(t, "integer", 'i');
    NotContainedFor(t, "int", 'i');
    NotContainedFor(t, "float", 'f');
    NotContainedFor(t, "boolean", 'b');
    assert OccursAt(t, "date", 0);
  }

  /** An `integer[]` placeholder is filled with an integer array, not with the `integer` literal that a later rule would give. */
  lemma AutofillIntegerArray()
    ensures AutofillValue(Some("integer[]")) == "ARRAY[1,2,3]"
  {
    var t := "integer[]";
    LowerOfLower(t);
    assert OccursAt(t, "integer[]", 0);
  }

  /** A `text[]` placeholder is filled with a text array. */
  lemma AutofillTextArray()
    ensures AutofillValue(Some("text[]")) == "ARRAY['abc','def','ghi']"
  {
    var t := "text[]";
    LowerOfLower(t);
    NotContainedFor(t, "integer[]", 'i');
    NotContainedFor(t, "int[]", 'i');
    NotContainedFor(t, "float[]", 'f');
    NotContainedFor(t, "boolean[]", 'b');
    assert OccursAt(t, "text[]", 0);
  }

  /** A `boolean[]` placeholder is filled with a boolean array. */
  lemma AutofillBooleanArray()
    ensures AutofillValue(Some("boolean[]")) == "ARRAY[true,false,true]"
  {
    var t := "boolean[]";
    LowerOfLower(t);
    NotContainedFor(t, "integer[]", 'i');
    NotContainedFor(t, "int[]", 'i');
    NotContainedFor(t, "float[]", 'f');
    assert OccursAt(t, "boolean[]", 0);
  }

  /** A `float[]` placeholder is filled with a float array. */
  lemma AutofillFloatArray()
    ensures AutofillValue(Some("float[]")) == "ARRAY[1.1,2.2,3.3]"
  {
    var t := "float[]";
    LowerOfLower(t);
    NotContainedFor(t, "integer[]", 'i');
    NotContainedFor(t, "int[]", 'i');
    assert OccursAt(t, "float[]", 0);
  }
}
