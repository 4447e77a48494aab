/**
 * The `/predict` handler's rules: validation gates the request, and an
 * accepted request's response echoes its fields with fixed conversions
 * around the classifier's verdict.
 */
module Predict {
  import opened Wrappers
  import opened Text
  import opened Values
  import opened Validation
  import opened Recommendations
  import opened Risk

  /** What the trained model answers: the predicted class and the retention percentage. */
  datatype Classification = Classification(prediction: int, percent: real)

  /** The trained model, applied to (age, attendance, academic, activities). */
  type Classifier = (int, int, int, int) -> Classification

  const Retained := "Retained"
  const NotRetained := "Not Retained"

  /** The JSON document the handler answers with. */
  datatype Response =
    | Rejected(error: string)
    | Accepted(
        studentName: string,
        studentAge: int,
        attendanceRate: int,
        academicPercentage: int,
        activitiesParticipation: string,
        retentionStatus: string,
        retentionProbability: real,
        riskLevel: string,
        recommendations: seq<string>)
  {
    /** The HTTP status the handler sends the document with. */
    function Status(): nat {
      if Rejected? then 400 else 200
    }
  }

  /**
   * `request.get_json() or {}`. `None` stands for a body that decodes to a
   * falsy JSON value that is not an object; it reads as an empty object.
   */
  function BodyOrEmpty(body: Option<Payload>): Payload {
    if body.Some? then body.value else map[]
  }

  /** The response for a request body, given the trained model. */
  function Handle(body: Option<Payload>, classify: Classifier): (r: Response)
    ensures Validate(BodyOrEmpty(body)).Some? <==> r.Rejected?
    ensures r.Rejected? ==> r.Status() == 400 && Some(r.error) == Validate(BodyOrEmpty(body))
    ensures r.Accepted? ==> && r.Status() == 200
                            && r.studentName != [] && Strip(r.studentName, StrSpaces) == r.studentName
                            && 1 <= r.studentAge <= 120
                            && 0 <= r.attendanceRate <= 100
                            && 0 <= r.academicPercentage <= 100
                            && r.activitiesParticipation in {"0", "1"}
                            && r.retentionStatus in {Retained, NotRetained}
                            && r.riskLevel == RiskLevel(r.retentionProbability)
                            && 1 <= |r.recommendations| <= 3
  {
    var data := BodyOrEmpty(body);
    match Validate(data)
    case Some(error) => Rejected(error)
    case None =>
      ValidateAcceptsExactly(data);
      StripIdempotent(ToStr(data[NameKey]), StrSpaces);
      var age := ToInt(data[AgeKey]).value;
      var attendance := ToInt(data[AttendanceKey]).value;
      var academic := ToInt(data[AcademicKey]).value;
      var activities := ToInt(data[ActivitiesKey]).value;
      var verdict := classify(age, attendance, academic, activities);
      Accepted(
        Strip(ToStr(data[NameKey]), StrSpaces),
        age,
        attendance,
        academic,
        IntToString(activities),
        if verdict.prediction == 1 then Retained else NotRetained,
        verdict.percent,
        RiskLevel(verdict.percent),
        Advice(attendance, academic, activities))
  }

  /** A rejected request never depends on the model: any two models give the same answer. */
  lemma RejectionIgnoresModel(body: Option<Payload>, f: Classifier, g: Classifier)
    requires Validate(BodyOrEmpty(body)).Some?
    ensures Handle(body, f) == Handle(body, g) == Rejected(Validate(BodyOrEmpty(body)).value)
  {}

  /**
   * An accepted request reports the model's verdict on the validated
   * features: the status is "Retained" exactly when the prediction is 1, the
   * percentage is the model's, and each echoed number is the one `int()`
   * read from the request (the activities flag as text that `int()` reads
   * back to it).
   */
  lemma AcceptedEchoesRequest(body: Option<Payload>, classify: Classifier)
    requires Acceptable(BodyOrEmpty(body))
    ensures var data := BodyOrEmpty(body);
            var r := Handle(body, classify);
            var age, attendance, academic, activities :=
              ToInt(data[AgeKey]).value, ToInt(data[AttendanceKey]).value,
              ToInt(data[AcademicKey]).value, ToInt(data[ActivitiesKey]).value;
            var verdict := classify(age, attendance, academic, activities);
            && r.Accepted?
            && r.studentName == Strip(ToStr(data[NameKey]), StrSpaces)
            && r.studentAge == age && r.attendanceRate == attendance && r.academicPercentage == academic
            && ToInt(Str(r.activitiesParticipation)) == Some(activities)
            && (r.retentionStatus == Retained <==> verdict.prediction == 1)
            && r.retentionProbability == verdict.percent
            && r.recommendations == Advice(attendance, academic, activities)
  {
    var data := BodyOrEmpty(body);
    ValidateAcceptsExactly(data);
    IntStrRoundTrip(ToInt(data[ActivitiesKey]).value);
  }

  /** The answer to an accepted request depends on the model only through its verdict on that request. */
  lemma ModelSeenOnlyThroughVerdict(body: Option<Payload>, f: Classifier, g: Classifier)
    requires Acceptable(BodyOrEmpty(body))
    requires var data := BodyOrEmpty(body);
             var features := (ToInt(data[AgeKey]).value, ToInt(data[AttendanceKey]).value,
                              ToInt(data[AcademicKey]).value, ToInt(data[ActivitiesKey]).value);
             f(features.0, features.1, features.2, features.3) == g(features.0, features.1, features.2, features.3)
    ensures Handle(body, f) == Handle(body, g)
  {}
}
