/**
 * `build_recommendations`: a rule table from three thresholded request
 * fields to an ordered list of advice, with a fallback when no rule fires.
 */
module Recommendations {
  import opened Values
  import opened Validation

  const AttendanceAdvice := "Increase attendance with weekly check-ins and reminders."
  const AcademicAdvice := "Provide targeted tutoring for weaker subjects."
  const ActivitiesAdvice := "Encourage participation in at least one extracurricular activity."
  const MaintainAdvice := "Maintain current support plan and monitor progress monthly."

  /** One of the four fixed pieces of advice. */
  predicate IsAdvice(x: string) {
    x == AttendanceAdvice || x == AcademicAdvice || x == ActivitiesAdvice || x == MaintainAdvice
  }

  /** The position of a piece of advice in the rule table; the fallback comes last. */
  function Rank(advice: string): nat {
    if advice == AttendanceAdvice then 0
    else if advice == AcademicAdvice then 1
    else if advice == ActivitiesAdvice then 2
    else 3
  }

  /**
   * The advice for a student: one entry per rule that fires (attendance
   * below 75, academic below 70, no activities), in rule order, or the
   * fallback alone when none fires.
   */
  function Advice(attendance: int, academic: int, activities: int): (r: seq<string>)
    ensures 1 <= |r| <= 3
    ensures forall i :: 0 <= i < |r| ==> IsAdvice(r[i])
    ensures AttendanceAdvice in r <==> attendance < 75
    ensures AcademicAdvice in r <==> academic < 70
    ensures ActivitiesAdvice in r <==> activities == 0
    ensures MaintainAdvice in r <==> attendance >= 75 && academic >= 70 && activities != 0
    ensures MaintainAdvice in r ==> r == [MaintainAdvice]
    ensures forall i, j :: 0 <= i < j < |r| ==> Rank(r[i]) < Rank(r[j])
  {
    var fired := Fired(attendance, academic, activities);
    if fired == [] then [MaintainAdvice] else fired
  }

  /** The advice of the rules that fire, in rule order, before the fallback is considered. */
  function Fired(attendance: int, academic: int, activities: int): seq<string> {
    AppendIf(AppendIf(AppendIf([], attendance < 75, AttendanceAdvice),
                      academic < 70, AcademicAdvice),
             activities == 0, ActivitiesAdvice)
  }

  /** One rule of the table: its advice is appended when its condition holds. */
  function AppendIf(recs: seq<string>, fires: bool, advice: string): seq<string> {
    if fires then recs + [advice] else recs
  }

  /** The three request fields the rules read convert with `int()`. */
  predicate RulesApply(payload: Payload) {
    && AttendanceKey in payload && ToInt(payload[AttendanceKey]).Some?
    && AcademicKey in payload && ToInt(payload[AcademicKey]).Some?
    && ActivitiesKey in payload && ToInt(payload[ActivitiesKey]).Some?
  }

  /** Builds the advice list by appending, one rule at a time. */
  method BuildRecommendations(payload: Payload) returns (recs: seq<string>)
    requires RulesApply(payload)
    ensures recs == Advice(ToInt(payload[AttendanceKey]).value,
                           ToInt(payload[AcademicKey]).value,
                           ToInt(payload[ActivitiesKey]).value)
  {
    var attendance := ToInt(payload[AttendanceKey]).value;
    var academic := ToInt(payload[AcademicKey]).value;
    var activities := ToInt(payload[ActivitiesKey]).value;
    recs := [];
    if attendance < 75 {
      recs := recs + [AttendanceAdvice];
    }
    assert recs == AppendIf([], attendance < 75, AttendanceAdvice);
    ghost var afterAcademic := AppendIf(recs, academic < 70, AcademicAdvice);
    if academic < 70 {
      recs := recs + [AcademicAdvice];
    }
    assert recs == afterAcademic;
    ghost var afterActivities := AppendIf(recs, activities == 0, ActivitiesAdvice);
    if activities == 0 {
      recs := recs + [ActivitiesAdvice];
    }
    assert recs == afterActivities == Fired(attendance, academic, activities);
    if recs == [] {
      recs := recs + [MaintainAdvice];
    }
  }
}
