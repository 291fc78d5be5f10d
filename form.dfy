/**
 * The estimate form of frontend/src/App.jsx: six raw field values, the
 * validation derived from them, and the submission state machine driven by
 * the change handlers and by a submit split at its one suspension point
 * (the request) into BeginSubmit and CompleteSubmit.
 */
module Form {
  import opened Wrappers
  import JsNumber
  import Json

  datatype Field = Age | Sex | Bmi | Children | Smoker | Region

  const AllFields: set<Field> := {Age, Sex, Bmi, Children, Smoker, Region}

  lemma AllFieldsComplete()
    ensures forall k: Field :: k in AllFields
  {
    forall k: Field
      ensures k in AllFields
    {
      match k
      case Age =>
      case Sex =>
      case Bmi =>
      case Children =>
      case Smoker =>
      case Region =>
    }
  }

  /** A form cell: a number (the initial values) or the text of an input event. */
  datatype Raw = Num(n: real) | Text(s: string)

  /** The `form` state: one raw cell per field. */
  datatype Values = Values(age: Raw, sex: Raw, bmi: Raw, children: Raw, smoker: Raw, region: Raw) {

    function Get(k: Field): Raw {
      match k
      case Age => age
      case Sex => sex
      case Bmi => bmi
      case Children => children
      case Smoker => smoker
      case Region => region
    }

    /** `{ ...prev, [key]: value }`: the same form with one cell replaced. */
    function With(k: Field, v: Raw): (r: Values)
      ensures r.Get(k) == v
      ensures forall j :: j != k ==> r.Get(j) == Get(j)
    {
      match k
      case Age => this.(age := v)
      case Sex => this.(sex := v)
      case Bmi => this.(bmi := v)
      case Children => this.(children := v)
      case Smoker => this.(smoker := v)
      case Region => this.(region := v)
    }
  }

  const Regions: seq<string> := ["northeast", "northwest", "southeast", "southwest"]
  const Sexes: seq<string> := ["male", "female"]
  const SmokerOptions: seq<string> := ["yes", "no"]

  /** The form as the page first shows it. */
  const DefaultForm: Values :=
    Values(Num(31.0), Text("female"), Num(27.9), Num(0.0), Text("no"), Text("southwest"))

  /** `Number(cell)`; `None` is NaN or a non-finite number. */
  function ToNumber(r: Raw): Option<real> {
    match r
    case Num(n) => Some(n)
    case Text(s) => JsNumber.StringToNumber(s)
  }

  /** `options.includes(cell)`: only a string equal to one of the options is included. */
  predicate Includes(options: seq<string>, r: Raw) {
    r.Text? && r.s in options
  }

  /** A finite number no smaller than `lo` and no larger than `hi`. */
  predicate InRange(x: Option<real>, lo: real, hi: real) {
    x.Some? && lo <= x.value <= hi
  }

  /** Whether field `k` passes its own check; no check looks at another field. */
  predicate FieldValid(f: Values, k: Field) {
    match k
    case Age => InRange(ToNumber(f.Get(Age)), 18.0, 64.0)
    case Bmi => InRange(ToNumber(f.Get(Bmi)), 10.0, 70.0)
    case Children => InRange(ToNumber(f.Get(Children)), 0.0, 10.0)
    case Sex => Includes(Sexes, f.Get(Sex))
    case Smoker => Includes(SmokerOptions, f.Get(Smoker))
    case Region => Includes(Regions, f.Get(Region))
  }

  /** The fixed message shown under a failing field. */
  function Message(k: Field): string {
    match k
    case Age => "Age must be between 18 and 64."
    case Bmi => "BMI must be between 10 and 70."
    case Children => "Children must be between 0 and 10."
    case Sex => "Select a valid sex."
    case Smoker => "Select smoker yes/no."
    case Region => "Select a valid region."
  }

  /** The `errors` object: an entry for exactly the failing fields, each with its message. */
  function Errors(f: Values): (e: map<Field, string>)
    ensures forall k :: k in e <==> !FieldValid(f, k)
    ensures forall k :: k in e ==> e[k] == Message(k)
  {
    AllFieldsComplete();
    map k | k in AllFields && !FieldValid(f, k) :: Message(k)
  }

  /** The `errors` block as written: three range checks and three membership checks, in turn. */
  method ComputeErrors(form: Values) returns (e: map<Field, string>)
    ensures e == Errors(form)
  {
    e := map[];
    var age := ToNumber(form.age);
    var bmi := ToNumber(form.bmi);
    var children := ToNumber(form.children);
    ghost var before := e;

    if age.None? || age.value < 18.0 || age.value > 64.0 { e := e[Age := "Age must be between 18 and 64."]; }
    CheckAdded(form, before, e, Age);
    before := e;
    if bmi.None? || bmi.value < 10.0 || bmi.value > 70.0 { e := e[Bmi := "BMI must be between 10 and 70."]; }
    CheckAdded(form, before, e, Bmi);
    before := e;
    if children.None? || children.value < 0.0 || children.value > 10.0 {
      e := e[Children := "Children must be between 0 and 10."];
    }
    CheckAdded(form, before, e, Children);
    before := e;

    if form.sex !in TextCells(Sexes) { e := e[Sex := "Select a valid sex."]; }
    CheckAdded(form, before, e, Sex);
    before := e;
    if form.smoker !in TextCells(SmokerOptions) { e := e[Smoker := "Select smoker yes/no."]; }
    CheckAdded(form, before, e, Smoker);
    before := e;
    if form.region !in TextCells(Regions) { e := e[Region := "Select a valid region."]; }
    CheckAdded(form, before, e, Region);

    PartialComplete(form, e);
  }

  /** The position of each check in the `errors` block. */
  function Order(k: Field): nat {
    match k
    case Age => 0
    case Bmi => 1
    case Children => 2
    case Sex => 3
    case Smoker => 4
    case Region => 5
  }

  /** `e` holds the entries `Errors` has among the first `n` checks, and no others. */
  ghost predicate Partial(f: Values, e: map<Field, string>, n: nat) {
    forall k :: (k in e <==> Order(k) < n && !FieldValid(f, k)) && (k in e ==> e[k] == Message(k))
  }

  /** The next check, adding its entry exactly when its field fails, extends what has been checked. */
  lemma CheckAdded(f: Values, before: map<Field, string>, after: map<Field, string>, k: Field)
    requires Partial(f, before, Order(k))
    requires after == if FieldValid(f, k) then before else before[k := Message(k)]
    ensures Partial(f, after, Order(k) + 1)
  {
    forall j ensures (j in after <==> Order(j) < Order(k) + 1 && !FieldValid(f, j)) && (j in after ==> after[j] == Message(j)) {
      if j != k {
        assert j in after <==> j in before;
      }
    }
  }

  lemma PartialComplete(f: Values, e: map<Field, string>)
    requires Partial(f, e, 6)
    ensures e == Errors(f)
  {
    AllFieldsComplete();
    assert e.Keys == Errors(f).Keys;
  }

  /** The options as cells, so that `includes` compares a cell with each option. */
  function TextCells(options: seq<string>): (cells: set<Raw>)
    ensures forall r :: r in cells <==> Includes(options, r)
  {
    set s | s in options :: Text(s)
  }

  /** `Object.keys(errors).length === 0` holds exactly when every field passes. */
  lemma NoErrorsIff(f: Values)
    ensures |Errors(f)| == 0 <==> forall k :: FieldValid(f, k)
  {
    if exists k :: !FieldValid(f, k) {
      var k :| !FieldValid(f, k);
      assert k in Errors(f).Keys;
    }
  }

  /** Editing one field changes at most that field's entry in `errors`. */
  lemma EditTouchesOneError(f: Values, k: Field, v: Raw)
    ensures forall j :: j != k ==> FieldValid(f.With(k, v), j) == FieldValid(f, j)
    ensures forall j :: j != k ==> (j in Errors(f.With(k, v)) <==> j in Errors(f))
  {
    forall j | j != k
      ensures FieldValid(f.With(k, v), j) == FieldValid(f, j)
    {
      assert f.With(k, v).Get(j) == f.Get(j);
    }
  }

  /** The default form (31, female, 27.9, 0, no, southwest) has no errors. */
  lemma DefaultFormValid()
    ensures forall k :: FieldValid(DefaultForm, k)
    ensures Errors(DefaultForm) == map[]
  {
    assert "female" == Sexes[1];
    assert "no" == SmokerOptions[1];
    assert "southwest" == Regions[3];
    assert forall k :: FieldValid(DefaultForm, k);
    NoErrorsIff(DefaultForm);
  }

  /** A cleared children field reads as 0 and passes; the request then carries 0 children. */
  lemma ClearedChildrenPasses(f: Values)
    ensures FieldValid(f.With(Children, Text("")), Children)
    ensures ToNumber(f.With(Children, Text("")).children) == Some(0.0)
  {
    JsNumber.BlankIsZero("");
  }

  /** A numeric cell holding text that cannot start a number fails its check, and gets an error entry. */
  lemma NonNumericTextFails(f: Values, k: Field, s: string)
    requires k == Age || k == Bmi || k == Children
    requires |s| > 0 && !JsNumber.IsWhiteSpace(s[0]) && !JsNumber.IsDigit(s[0])
    requires s[0] != '.' && s[0] != '+' && s[0] != '-'
    ensures !FieldValid(f.With(k, Text(s)), k)
    ensures k in Errors(f.With(k, Text(s)))
  {
    JsNumber.LetterIsNotFinite(s);
  }

  /** The coerced request body: numbers for the numeric fields, the enum strings unchanged. */
  datatype Payload = Payload(age: real, sex: string, bmi: real, children: real, smoker: string, region: string)

  /** The `payload` of a form that passed validation. */
  function Coerce(f: Values): (p: Payload)
    requires forall k :: FieldValid(f, k)
    ensures Some(p.age) == ToNumber(f.age) && Some(p.bmi) == ToNumber(f.bmi)
    ensures Some(p.children) == ToNumber(f.children)
    ensures Text(p.sex) == f.sex && Text(p.smoker) == f.smoker && Text(p.region) == f.region
  {
    assert FieldValid(f, Age) && FieldValid(f, Bmi) && FieldValid(f, Children);
    assert FieldValid(f, Sex) && FieldValid(f, Smoker) && FieldValid(f, Region);
    Payload(ToNumber(f.age).value, f.sex.s, ToNumber(f.bmi).value, ToNumber(f.children).value,
            f.smoker.s, f.region.s)
  }

  /** `JSON.stringify(payload)`, as the JSON object the service receives. */
  function RequestBody(p: Payload): (body: Json.Object)
    ensures body.Keys == {"age", "sex", "bmi", "children", "smoker", "region"}
  {
    map["age" := Json.Number(p.age), "sex" := Json.Str(p.sex), "bmi" := Json.Number(p.bmi),
        "children" := Json.Number(p.children), "smoker" := Json.Str(p.smoker), "region" := Json.Str(p.region)]
  }

  /**
   * How the request ended: a successful response whose body may or may not
   * hold `predicted_charges`, an unsuccessful response whose body may or may
   * not hold `detail`, or an exception (transport failure, unreadable body)
   * that may or may not carry a message.
   */
  datatype Outcome =
    | Ok(charges: Option<real>)
    | NotOk(detail: Option<string>)
    | Thrown(message: Option<string>)

  /** The message of the `Error` thrown for an unsuccessful response. */
  function NotOkMessage(detail: Option<string>): string {
    detail.GetOr("Request failed.")
  }

  /** The message the catch block shows for a caught error. */
  function CaughtMessage(message: Option<string>): string {
    message.GetOr("Something went wrong.")
  }

  /** What the page shows about the last submission. */
  datatype Submission = Idle | InFlight | Succeeded(value: real) | Failed(message: string)

  /** The submission state once a request has ended with `o`. */
  function Settled(o: Outcome): Submission {
    var message := match o
      case Ok(_) => ""
      case NotOk(detail) => CaughtMessage(Some(NotOkMessage(detail)))
      case Thrown(m) => CaughtMessage(m);
    if o.Ok? && o.charges.Some? then Succeeded(o.charges.value)
    else if message == "" then Idle
    else Failed(message)
  }

  class App {
    var form: Values
    var loading: bool
    var prediction: Option<real>
    var error: string

    /** While a request is in flight nothing is shown, and a result and an error are never shown together. */
    ghost predicate Valid()
      reads this
    {
      && (loading ==> prediction == None && error == "")
      && (prediction.Some? ==> error == "")
    }

    /** The four cells read as one submission state. */
    function Shown(): Submission
      reads this
    {
      if loading then InFlight
      else if prediction.Some? then Succeeded(prediction.value)
      else if error != "" then Failed(error)
      else Idle
    }

    /** `canSubmit`. */
    function CanSubmit(): bool
      reads this
    {
      |Errors(form)| == 0 && !loading
    }

    constructor ()
      ensures Valid() && form == DefaultForm
      ensures Shown() == Idle && CanSubmit()
    {
      form := DefaultForm;
      loading := false;
      prediction := None;
      error := "";
      DefaultFormValid();
    }

    /** `canSubmit` holds exactly when every field passes and no request is in flight. */
    lemma CanSubmitIff()
      ensures CanSubmit() <==> (forall k :: FieldValid(form, k)) && !loading
    {
      NoErrorsIff(form);
    }

    /** `onChange(key)`: replace one cell with the typed text and clear the error. */
    method OnChange(key: Field, value: string)
      requires Valid()
      modifies this
      ensures Valid()
      ensures form == old(form).With(key, Text(value))
      ensures error == "" && loading == old(loading) && prediction == old(prediction)
      ensures Shown() == if old(Shown()).Failed? then Idle else old(Shown())
    {
      form := form.With(key, Text(value));
      error := "";
    }

    /** `onNumberChange(key)`: the same update as `onChange`, bound to the numeric inputs. */
    method OnNumberChange(key: Field, value: string)
      requires Valid()
      modifies this
      ensures Valid()
      ensures form == old(form).With(key, Text(value))
      ensures error == "" && loading == old(loading) && prediction == old(prediction)
    {
      OnChange(key, value);
    }

    /**
     * `onSubmit` up to the request: clear the result and the error, stop if
     * the form cannot be submitted, otherwise start loading and return the
     * payload to send.
     */
    method BeginSubmit() returns (sent: Option<Payload>)
      requires Valid()
      modifies this
      ensures Valid() && form == old(form)
      ensures prediction == None && error == ""
      ensures sent.Some? <==> old(CanSubmit())
      ensures loading == (old(loading) || sent.Some?)
      ensures sent.Some? ==> (forall k :: FieldValid(form, k)) && sent.value == Coerce(form)
      ensures Shown() == if old(loading) || sent.Some? then InFlight else Idle
    {
      prediction := None;
      error := "";
      if !CanSubmit() {
        return None;
      }
      loading := true;
      NoErrorsIff(form);
      sent := Some(Coerce(form));
    }

    /** `onSubmit` after the request: record the result or the error, then stop loading. */
    method CompleteSubmit(outcome: Outcome)
      requires Valid() && loading
      modifies this
      ensures Valid() && form == old(form) && !loading
      ensures outcome.Ok? ==> prediction == outcome.charges && error == ""
      ensures outcome.NotOk? ==> prediction == None && error == outcome.detail.GetOr("Request failed.")
      ensures outcome.Thrown? ==> prediction == None && error == outcome.message.GetOr("Something went wrong.")
      ensures Shown() == Settled(outcome)
    {
      match outcome {
        case Ok(charges) =>
          prediction := charges;
        case NotOk(detail) =>
          error := CaughtMessage(Some(NotOkMessage(detail)));
        case Thrown(message) =>
          error := CaughtMessage(message);
      }
      loading := false;
    }
  }

  /** A submit of the default form, a second submit while the first is in flight, then a response. */
  method SubmitWhileInFlight(charges: real) returns (first: Option<Payload>, second: Option<Payload>, shown: Submission)
    ensures first == Some(Payload(31.0, "female", 27.9, 0.0, "no", "southwest"))
    ensures second == None
    ensures shown == Succeeded(charges)
  {
    var app := new App();
    first := app.BeginSubmit();
    second := app.BeginSubmit();
    app.CompleteSubmit(Ok(Some(charges)));
    shown := app.Shown();
  }

  /** A rejected request shows the server's detail; editing any field then clears it. */
  method FailureThenEdit(detail: string, key: Field, value: string) returns (shown: Submission, edited: Submission)
    requires detail != ""
    ensures shown == Failed(detail)
    ensures edited == Idle
  {
    var app := new App();
    var sent := app.BeginSubmit();
    app.CompleteSubmit(NotOk(Some(detail)));
    shown := app.Shown();
    app.OnChange(key, value);
    edited := app.Shown();
  }

  /**
   * A successful estimate stays shown after a field is edited. The next submit clears it:
   * the request is in flight when the edited form passes every check, and the page is idle otherwise.
   */
  method SuccessThenEdit(charges: real, key: Field, value: string) returns (edited: Submission, resubmitted: Submission)
    ensures edited == Succeeded(charges)
    ensures resubmitted == if forall k :: FieldValid(DefaultForm.With(key, Text(value)), k) then InFlight else Idle
  {
    var app := new App();
    var sent := app.BeginSubmit();
    app.CompleteSubmit(Ok(Some(charges)));
    app.OnChange(key, value);
    edited := app.Shown();
    app.CanSubmitIff();
    sent := app.BeginSubmit();
    resubmitted := app.Shown();
  }
}
