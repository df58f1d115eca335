/** The form-field validator `validate` (src/index.ts:77-104): a value that
    is either a string or a number, checked against optional constraints. */
module Validation {

  import opened Options
  import opened Text

  /** The `string | number` value being checked. Numbers are integers in
      this model. */
  datatype Value = Str(s: string) | Num(n: int)

  /** The optional fields of `ValidateObj`. An absent `required` behaves as
      `false`; every other field is enabled exactly when it is present. */
  datatype Constraints = Constraints(
    required: bool,
    maxLength: Option<int>,
    minLength: Option<int>,
    max: Option<int>,
    min: Option<int>)

  const NoConstraints := Constraints(false, None, None, None, None)

  /** `value.toString()`. */
  function AsText(v: Value): string {
    match v
    case Str(s) => s
    case Num(n) => IntToString(n)
  }

  /** `value.toString().trim().length`, counted in UTF-16 code units as
      JavaScript does. */
  function TrimmedLength(v: Value): nat {
    Utf16Length(Trim(AsText(v)))
  }

  /** The source's sequence of guarded updates to `isValid`, one per
      constraint, each applied only when the field is set and the value has
      the type the check is meant for. Every bound comparison is strict. */
  function Validate(v: Value, c: Constraints): (ok: bool)
    ensures ok <==>
      RequiredHolds(v, c) && MaxLengthHolds(v, c) && MinLengthHolds(v, c) && MaxHolds(v, c) && MinHolds(v, c)
  {
    var isValid := true;
    var isValid := if c.required then isValid && TrimmedLength(v) != 0 else isValid;
    var isValid :=
      if c.maxLength.Some? && v.Str? then isValid && c.maxLength.value > TrimmedLength(v) else isValid;
    var isValid :=
      if c.minLength.Some? && v.Str? then isValid && c.minLength.value < TrimmedLength(v) else isValid;
    var isValid := if c.max.Some? && v.Num? then isValid && c.max.value > v.n else isValid;
    var isValid := if c.min.Some? && v.Num? then isValid && c.min.value < v.n else isValid;
    isValid
  }

  // ---- the individual rules, each stated on its own ----

  /** A required value must not be blank: its text must hold a
      non-whitespace character. */
  predicate RequiredHolds(v: Value, c: Constraints) {
    c.required ==> !AllWhitespace(AsText(v))
  }

  /** A string's trimmed length, in UTF-16 code units, must stay below
      `maxLength`; a number is not subject to it. The other three rules read
      the same way. */
  predicate MaxLengthHolds(v: Value, c: Constraints) {
    c.maxLength.Some? && v.Str? ==> Utf16Length(Trim(v.s)) < c.maxLength.value
  }

  predicate MinLengthHolds(v: Value, c: Constraints) {
    c.minLength.Some? && v.Str? ==> c.minLength.value < Utf16Length(Trim(v.s))
  }

  predicate MaxHolds(v: Value, c: Constraints) {
    c.max.Some? && v.Num? ==> v.n < c.max.value
  }

  predicate MinHolds(v: Value, c: Constraints) {
    c.min.Some? && v.Num? ==> c.min.value < v.n
  }

  /** With no constraint set, every value passes. */
  lemma NoConstraintsAcceptsAll(v: Value)
    ensures Validate(v, NoConstraints)
  {
  }

  /** `required` rejects a string exactly when it is empty or consists of
      whitespace only. */
  lemma RequiredRejectsBlank(s: string)
    ensures Validate(Str(s), NoConstraints.(required := true)) <==> !AllWhitespace(s)
  {
  }

  /** The text of a number is never blank, so `required` never rejects a
      number. */
  lemma RequiredAcceptsEveryNumber(n: int, c: Constraints)
    ensures RequiredHolds(Num(n), c)
  {
    IntToStringNotBlank(n);
  }

  /** The length bounds are ignored for numbers: only `required`, `min` and
      `max` decide. */
  lemma LengthBoundsIgnoredForNumbers(n: int, c: Constraints, maxLength: Option<int>, minLength: Option<int>)
    ensures Validate(Num(n), c) == Validate(Num(n), c.(maxLength := maxLength, minLength := minLength))
  {
  }

  /** The numeric bounds are ignored for strings. */
  lemma NumericBoundsIgnoredForStrings(s: string, c: Constraints, max: Option<int>, min: Option<int>)
    ensures Validate(Str(s), c) == Validate(Str(s), c.(max := max, min := min))
  {
  }

  /** `c` is `d` with possibly more constraints switched on. */
  predicate Strengthens(c: Constraints, d: Constraints) {
    && (d.required ==> c.required)
    && (d.maxLength.Some? ==> c.maxLength == d.maxLength)
    && (d.minLength.Some? ==> c.minLength == d.minLength)
    && (d.max.Some? ==> c.max == d.max)
    && (d.min.Some? ==> c.min == d.min)
  }

  /** Because the checks are combined with AND, enabling more of them can
      only turn an accepted value into a rejected one, never the reverse. */
  lemma MoreConstraintsRejectMore(v: Value, c: Constraints, d: Constraints)
    requires Strengthens(c, d)
    ensures Validate(v, c) ==> Validate(v, d)
  {
  }

  /** The length bounds are strict: a trimmed length equal to `minLength` or
      to `maxLength` is rejected. */
  lemma LengthBoundsAreStrict(s: string, bound: int)
    ensures Validate(Str(s), NoConstraints.(minLength := Some(bound))) <==> bound < Utf16Length(Trim(s))
    ensures Validate(Str(s), NoConstraints.(maxLength := Some(bound))) <==> Utf16Length(Trim(s)) < bound
  {
    MinLengthAlone(s, bound);
    MaxLengthAlone(s, bound);
  }

  lemma MinLengthAlone(s: string, bound: int)
    ensures Validate(Str(s), NoConstraints.(minLength := Some(bound))) <==> bound < Utf16Length(Trim(s))
  {
    var c := NoConstraints.(minLength := Some(bound));
    assert RequiredHolds(Str(s), c) && MaxLengthHolds(Str(s), c) && MaxHolds(Str(s), c) && MinHolds(Str(s), c);
  }

  lemma MaxLengthAlone(s: string, bound: int)
    ensures Validate(Str(s), NoConstraints.(maxLength := Some(bound))) <==> Utf16Length(Trim(s)) < bound
  {
    var c := NoConstraints.(maxLength := Some(bound));
    assert RequiredHolds(Str(s), c) && MinLengthHolds(Str(s), c) && MaxHolds(Str(s), c) && MinHolds(Str(s), c);
  }

  /** The numeric bounds are strict: a value equal to `min` or to `max` is
      rejected. */
  lemma NumericBoundsAreStrict(n: int, lo: int, hi: int)
    ensures !Validate(Num(lo), NoConstraints.(min := Some(lo)))
    ensures !Validate(Num(hi), NoConstraints.(max := Some(hi)))
    ensures Validate(Num(n), NoConstraints.(min := Some(lo), max := Some(hi))) <==> lo < n < hi
  {
  }
}
