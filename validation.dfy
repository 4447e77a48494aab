/**
 * `validate_payload`: the checks a prediction request must pass, run in a
 * fixed order, with the first failing check's message as the verdict.
 */
module Validation {
  import opened Wrappers
  import opened Text
  import opened Values

  /** The decoded JSON body of a request. */
  type Payload = map<string, Value>

  const NameKey := "name"
  const AgeKey := "age"
  const AttendanceKey := "attendance_rate"
  const AcademicKey := "academic_percentage"
  const ActivitiesKey := "activities_participation"

  /** The model's input columns, in the order the model takes them. */
  const Features: seq<string> := [AgeKey, AttendanceKey, AcademicKey, ActivitiesKey]

  /** Every key a request must carry, in the order they are reported missing. */
  const Required: seq<string> := [NameKey] + Features

  const MissingPrefix := "Missing required fields: "
  const NameEmpty := "Name cannot be empty."
  const NotNumeric := "All numeric fields must be valid numbers."
  const AgeOutOfRange := "Age must be between 1 and 120."
  const AttendanceOutOfRange := "Attendance rate must be between 0 and 100."
  const AcademicOutOfRange := "Academic percentage must be between 0 and 100."
  const ActivitiesOutOfRange := "Activities participation must be 0 or 1."

  /** `r` keeps some of the elements of `s`, in the order `s` has them. */
  ghost predicate IsSubsequence(r: seq<string>, s: seq<string>)
    decreases |s|
  {
    if r == [] then true
    else if s == [] then false
    else (r[0] == s[0] && IsSubsequence(r[1..], s[1..])) || IsSubsequence(r, s[1..])
  }

  /** The keys of `keys` that `data` lacks, in the order of `keys`. */
  function MissingKeys(keys: seq<string>, data: Payload): (r: seq<string>)
    ensures forall k :: k in r <==> k in keys && k !in data
    ensures IsSubsequence(r, keys)
    ensures r == [] <==> forall k :: k in keys ==> k in data
  {
    if keys == [] then []
    else if keys[0] !in data then [keys[0]] + MissingKeys(keys[1..], data)
    else MissingKeys(keys[1..], data)
  }

  /** All required keys present (the first check passes). */
  predicate HasRequired(data: Payload) {
    forall k :: k in Required ==> k in data
  }

  /** The four feature values all convert with `int()`. */
  predicate FeaturesParse(data: Payload)
    requires HasRequired(data)
  {
    && ToInt(data[AgeKey]).Some?
    && ToInt(data[AttendanceKey]).Some?
    && ToInt(data[AcademicKey]).Some?
    && ToInt(data[ActivitiesKey]).Some?
  }

  /** The error `validate_payload` returns, or `None` when the request is acceptable. */
  function Validate(data: Payload): Option<string> {
    var missing := MissingKeys(Required, data);
    if missing != [] then Some(MissingPrefix + Join(", ", missing))
    else if Strip(ToStr(data[NameKey]), StrSpaces) == [] then Some(NameEmpty)
    else if !FeaturesParse(data) then Some(NotNumeric)
    else RangeError(ToInt(data[AgeKey]).value, ToInt(data[AttendanceKey]).value,
                    ToInt(data[AcademicKey]).value, ToInt(data[ActivitiesKey]).value)
  }

  /**
   * Every error is a non-empty message, so `if error:` rejects exactly when
   * an error is returned: either the missing-fields message or one of the
   * fixed messages.
   */
  lemma ValidateMessages(data: Payload)
    ensures Validate(data).Some? ==> Validate(data).value != []
    ensures Validate(data).Some? ==>
              || MissingPrefix <= Validate(data).value
              || Validate(data).value in {NameEmpty, NotNumeric, AgeOutOfRange, AttendanceOutOfRange,
                                          AcademicOutOfRange, ActivitiesOutOfRange}
  {
    var missing := MissingKeys(Required, data);
    if missing != [] {
      var m := MissingPrefix + Join(", ", missing);
      assert Validate(data) == Some(m);
      assert MissingPrefix <= m;
    } else if Strip(ToStr(data[NameKey]), StrSpaces) == [] {
      assert Validate(data) == Some(NameEmpty);
    } else {
      NumericStage(data);
      if FeaturesParse(data) {
        RangeMessages(ToInt(data[AgeKey]).value, ToInt(data[AttendanceKey]).value,
                      ToInt(data[AcademicKey]).value, ToInt(data[ActivitiesKey]).value);
      }
    }
  }

  /** The range checks on the converted numbers, in their fixed order. */
  function RangeError(age: int, attendance: int, academic: int, activities: int): Option<string> {
    if age < 1 || age > 120 then Some(AgeOutOfRange)
    else if attendance < 0 || attendance > 100 then Some(AttendanceOutOfRange)
    else if academic < 0 || academic > 100 then Some(AcademicOutOfRange)
    else if activities != 0 && activities != 1 then Some(ActivitiesOutOfRange)
    else None
  }

  lemma RangeMessages(age: int, attendance: int, academic: int, activities: int)
    ensures RangeError(age, attendance, academic, activities).Some? ==>
              RangeError(age, attendance, academic, activities).value
                in {AgeOutOfRange, AttendanceOutOfRange, AcademicOutOfRange, ActivitiesOutOfRange}
  {}

  /** With every key present and a name given, the verdict is that of the numeric checks. */
  lemma NumericStage(data: Payload)
    requires HasRequired(data) && !IsBlank(ToStr(data[NameKey]), StrSpaces)
    ensures Validate(data) == if !FeaturesParse(data) then Some(NotNumeric)
                              else RangeError(ToInt(data[AgeKey]).value, ToInt(data[AttendanceKey]).value,
                                              ToInt(data[AcademicKey]).value, ToInt(data[ActivitiesKey]).value)
  {
    assert MissingKeys(Required, data) == [];
    assert Strip(ToStr(data[NameKey]), StrSpaces) != [];
  }

  /**
   * What an acceptable request is, stated without the order of the checks:
   * every key present, a name that is not blank once converted with `str()`,
   * and four integers inside their inclusive ranges.
   */
  predicate Acceptable(data: Payload) {
    && HasRequired(data)
    && !IsBlank(ToStr(data[NameKey]), StrSpaces)
    && FeaturesParse(data)
    && 1 <= ToInt(data[AgeKey]).value <= 120
    && 0 <= ToInt(data[AttendanceKey]).value <= 100
    && 0 <= ToInt(data[AcademicKey]).value <= 100
    && ToInt(data[ActivitiesKey]).value in {0, 1}
  }

  /** The validator accepts a request exactly when it is acceptable. */
  lemma ValidateAcceptsExactly(data: Payload)
    ensures Validate(data) == None <==> Acceptable(data)
  {
    if HasRequired(data) && !IsBlank(ToStr(data[NameKey]), StrSpaces) {
      NumericStage(data);
    } else if !HasRequired(data) {
      assert MissingKeys(Required, data) != [];
    }
  }

  /**
   * Missing keys win over every other check: the message lists exactly the
   * absent required keys, in their fixed order, separated by ", ".
   */
  lemma MissingKeysReportedFirst(data: Payload, k: string)
    requires k in Required && k !in data
    ensures Validate(data) == Some(MissingPrefix + Join(", ", MissingKeys(Required, data)))
    ensures k in MissingKeys(Required, data)
  {}

  /** With every key present, a blank name wins over any numeric error. */
  lemma BlankNameReportedSecond(data: Payload)
    requires HasRequired(data) && IsBlank(ToStr(data[NameKey]), StrSpaces)
    ensures Validate(data) == Some(NameEmpty)
  {}

  /** A value that `int()` rejects wins over every range check. */
  lemma UnparsableReportedThird(data: Payload)
    requires HasRequired(data) && !IsBlank(ToStr(data[NameKey]), StrSpaces)
    requires !FeaturesParse(data)
    ensures Validate(data) == Some(NotNumeric)
  {
    NumericStage(data);
  }

  /**
   * The range checks run in the order age, attendance, academic,
   * activities; the first one violated names the error.
   */
  lemma RangeChecksInOrder(data: Payload)
    requires HasRequired(data) && !IsBlank(ToStr(data[NameKey]), StrSpaces) && FeaturesParse(data)
    ensures var age, attendance, academic, activities :=
              ToInt(data[AgeKey]).value, ToInt(data[AttendanceKey]).value,
              ToInt(data[AcademicKey]).value, ToInt(data[ActivitiesKey]).value;
            && (!(1 <= age <= 120) ==> Validate(data) == Some(AgeOutOfRange))
            && (1 <= age <= 120 && !(0 <= attendance <= 100) ==>
                  Validate(data) == Some(AttendanceOutOfRange))
            && (1 <= age <= 120 && 0 <= attendance <= 100 && !(0 <= academic <= 100) ==>
                  Validate(data) == Some(AcademicOutOfRange))
            && ((1 <= age <= 120 && 0 <= attendance <= 100 && 0 <= academic <= 100 &&
                 activities !in {0, 1}) ==> Validate(data) == Some(ActivitiesOutOfRange))
  {
    NumericStage(data);
  }
}
