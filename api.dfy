/**
 * The prediction endpoint of api/main.py: which JSON bodies the
 * `PredictRequest` model accepts, and how `predict` turns what
 * `predict_one` does into an HTTP response.
 */
module Api {
  import Json

  /** The six declared fields; `extra="forbid"` rejects every other name. */
  const DeclaredFields: set<string> := {"age", "sex", "bmi", "children", "smoker", "region"}

  const SexLiterals: set<string> := {"male", "female"}
  const SmokerLiterals: set<string> := {"yes", "no"}
  const RegionLiterals: set<string> := {"northeast", "northwest", "southeast", "southwest"}

  /** A validated request, as `req.model_dump()` hands it to `predict_one`. */
  datatype PredictRequest = PredictRequest(age: int, sex: string, bmi: real, children: int, smoker: string, region: string)

  /** The field constraints of `PredictRequest`. */
  predicate WellFormed(r: PredictRequest) {
    && 18 <= r.age <= 64
    && r.sex in SexLiterals
    && 10.0 <= r.bmi <= 70.0
    && 0 <= r.children <= 10
    && r.smoker in SmokerLiterals
    && r.region in RegionLiterals
  }

  predicate IsWhole(x: real) {
    x == x.Floor as real
  }

  /** An `int` field with `ge=lo, le=hi`: a JSON number with no fractional part, within the bounds. */
  predicate IntFieldOk(v: Json.Value, lo: int, hi: int) {
    v.Number? && IsWhole(v.n) && lo as real <= v.n <= hi as real
  }

  /** A `float` field with `ge=lo, le=hi`: a JSON number within the bounds. */
  predicate FloatFieldOk(v: Json.Value, lo: real, hi: real) {
    v.Number? && lo <= v.n <= hi
  }

  /** A `Literal[...]` field: a JSON string equal to one of the literals. */
  predicate LiteralFieldOk(v: Json.Value, literals: set<string>) {
    v.Str? && v.s in literals
  }

  /** Whether the value given for a declared field meets that field's constraint. */
  predicate FieldOk(name: string, v: Json.Value) {
    match name
    case "age" => IntFieldOk(v, 18, 64)
    case "sex" => LiteralFieldOk(v, SexLiterals)
    case "bmi" => FloatFieldOk(v, 10.0, 70.0)
    case "children" => IntFieldOk(v, 0, 10)
    case "smoker" => LiteralFieldOk(v, SmokerLiterals)
    case "region" => LiteralFieldOk(v, RegionLiterals)
    case _ => false
  }

  /** The names validation complains about: missing fields, unknown fields and invalid values. */
  function Violations(body: Json.Object): (bad: set<string>)
    ensures forall name :: name in bad <==>
      (name in DeclaredFields && name !in body) || (name in body && !FieldOk(name, body[name]))
  {
    (DeclaredFields - body.Keys) + (set name | name in body && !FieldOk(name, body[name]))
  }

  /**
   * Validation of a body into a `PredictRequest`, or the offending names.
   * An accepted request meets every declared constraint and is exactly the
   * body it was read from: nothing is coerced, dropped or defaulted.
   */
  function ParseRequest(body: Json.Object): (r: Validation)
    ensures r.Accepted? <==> Violations(body) == {}
    ensures r.Rejected? ==> r.fields == Violations(body)
    ensures r.Accepted? ==> WellFormed(r.request) && Dump(r.request) == body
  {
    if Violations(body) != {} then Rejected(Violations(body))
    else
      assert forall name :: name in DeclaredFields ==> name in body && FieldOk(name, body[name]);
      assert forall name :: name in body ==> name in DeclaredFields by {
        forall name | name in body ensures name in DeclaredFields {
          assert FieldOk(name, body[name]);
        }
      }
      var request := PredictRequest(
        body["age"].n.Floor, body["sex"].s, body["bmi"].n,
        body["children"].n.Floor, body["smoker"].s, body["region"].s);
      assert body["age"] == Json.Number(request.age as real);
      assert body["children"] == Json.Number(request.children as real);
      assert Dump(request).Keys == body.Keys;
      Accepted(request)
  }

  datatype Validation = Accepted(request: PredictRequest) | Rejected(fields: set<string>)

  /** `req.model_dump()` written back as the JSON object it came from. */
  function Dump(r: PredictRequest): (body: Json.Object)
    ensures body.Keys == DeclaredFields
  {
    map["age" := Json.Number(r.age as real), "sex" := Json.Str(r.sex), "bmi" := Json.Number(r.bmi),
        "children" := Json.Number(r.children as real), "smoker" := Json.Str(r.smoker), "region" := Json.Str(r.region)]
  }

  /** A body is accepted exactly when it has the six fields, no other, each valid. */
  lemma AcceptedIff(body: Json.Object)
    ensures ParseRequest(body).Accepted? <==>
      && body.Keys == DeclaredFields
      && IntFieldOk(body["age"], 18, 64) && IntFieldOk(body["children"], 0, 10)
      && FloatFieldOk(body["bmi"], 10.0, 70.0)
      && LiteralFieldOk(body["sex"], SexLiterals) && LiteralFieldOk(body["smoker"], SmokerLiterals)
      && LiteralFieldOk(body["region"], RegionLiterals)
  {
    if ParseRequest(body).Accepted? {
      assert forall name :: name in body ==> name in DeclaredFields by {
        forall name | name in body ensures name in DeclaredFields {
          assert FieldOk(name, body[name]);
        }
      }
      assert "age" in body && "sex" in body && "bmi" in body;
      assert "children" in body && "smoker" in body && "region" in body;
      assert FieldOk("age", body["age"]) && FieldOk("children", body["children"]);
    }
  }

  /** A body carrying any name outside the six declared ones is rejected, naming it. */
  lemma ExtraFieldRejected(body: Json.Object, extra: string)
    requires extra in body && extra !in DeclaredFields
    ensures ParseRequest(body) == Rejected(Violations(body)) && extra in ParseRequest(body).fields
  {
    assert !FieldOk(extra, body[extra]);
  }

  /** Every well-formed request survives the trip through JSON unchanged. */
  lemma DumpIsAccepted(r: PredictRequest)
    requires WellFormed(r)
    ensures ParseRequest(Dump(r)) == Accepted(r)
  {
    var body := Dump(r);
    assert (r.age as real).Floor == r.age && (r.children as real).Floor == r.children;
    assert forall name :: name in body ==> FieldOk(name, body[name]);
  }

  /** How a call of `predict_one` ended. */
  datatype Exception = FileNotFoundError(message: string) | OtherException(message: string)
  datatype PredictOutcome = Returned(value: real) | Raised(e: Exception)

  datatype Response =
    | Predicted(predictedCharges: real)
    | HttpError(status: int, detail: string)
    | ValidationError(fields: set<string>)

  function Status(response: Response): int {
    match response
    case Predicted(_) => 200
    case HttpError(status, _) => status
    case ValidationError(_) => 422
  }

  /** `predict`'s try/except: the prediction, or the exception mapped to a status and a detail. */
  function Predict(outcome: PredictOutcome): (response: Response)
    ensures outcome.Returned? ==> response == Predicted(outcome.value)
    ensures outcome.Raised? && outcome.e.FileNotFoundError? ==>
      response.HttpError? && Status(response) == 500 && StartsWith(response.detail, "Model files missing: ")
    ensures outcome.Raised? && outcome.e.OtherException? ==>
      response.HttpError? && Status(response) == 400 && StartsWith(response.detail, "Prediction failed: ")
  {
    match outcome
    case Returned(pred) => Predicted(pred)
    case Raised(FileNotFoundError(message)) => HttpError(500, "Model files missing: " + message)
    case Raised(OtherException(message)) => HttpError(400, "Prediction failed: " + message)
  }

  predicate StartsWith(s: string, prefix: string) {
    |prefix| <= |s| && s[..|prefix|] == prefix
  }

  /** What a client can reconstruct from a response of `predict`. */
  function Recover(response: Response): PredictOutcome
    requires !response.ValidationError?
  {
    match response
    case Predicted(value) => Returned(value)
    case HttpError(status, detail) =>
      var prefix := if status == 500 then |"Model files missing: "| else |"Prediction failed: "|;
      var message := if prefix <= |detail| then detail[prefix..] else detail;
      Raised(if status == 500 then FileNotFoundError(message) else OtherException(message))
  }

  /** The response loses nothing: status and prefix tell the cases apart, and the message survives. */
  lemma PredictRecoverable(outcome: PredictOutcome)
    ensures !Predict(outcome).ValidationError? && Recover(Predict(outcome)) == outcome
  {
    match outcome
    case Returned(_) =>
    case Raised(FileNotFoundError(message)) =>
      assert ("Model files missing: " + message)[|"Model files missing: "|..] == message;
    case Raised(OtherException(message)) =>
      assert ("Prediction failed: " + message)[|"Prediction failed: "|..] == message;
  }

  /**
   * The endpoint: validation first (an invalid body never reaches
   * `predict_one`), then `predict`; `predictOne` stands for the model.
   * A response tells which stage ended the request and, for an accepted
   * body, exactly what the model did.
   */
  function HandlePredict(body: Json.Object, predictOne: PredictRequest -> PredictOutcome): (response: Response)
    ensures ParseRequest(body).Rejected? ==> response == ValidationError(Violations(body))
    ensures ParseRequest(body).Accepted? ==> response == Predict(predictOne(ParseRequest(body).request))
    ensures response.ValidationError? <==> ParseRequest(body).Rejected?
    ensures response.Predicted? ==>
      ParseRequest(body).Accepted? && predictOne(ParseRequest(body).request) == Returned(response.predictedCharges)
    ensures ParseRequest(body).Accepted? ==> Recover(response) == predictOne(ParseRequest(body).request)
  {
    match ParseRequest(body)
    case Rejected(fields) => ValidationError(fields)
    case Accepted(request) =>
      PredictRecoverable(predictOne(request));
      Predict(predictOne(request))
  }
}
