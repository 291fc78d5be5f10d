/**
 * The form in frontend/src/App.jsx against the service in api/main.py: the
 * body the form sends for any form it lets through, checked by the
 * service's request model. The two sides share the bounds and the option
 * lists, but only the service insists that age and children are integers.
 */
module Contract {
  import Form
  import Api
  import JsNumber

  /** The option lists of the form are the literal sets of the service. */
  lemma OptionsAgree()
    ensures (set s | s in Form.Sexes) == Api.SexLiterals
    ensures (set s | s in Form.SmokerOptions) == Api.SmokerLiterals
    ensures (set s | s in Form.Regions) == Api.RegionLiterals
  {
  }

  /**
   * What the service makes of a payload within the frontend's bounds and
   * options: it objects on `age` unless the age is a whole number, on
   * `children` unless that is a whole number, and on nothing else.
   */
  lemma PayloadObjections(p: Form.Payload)
    requires 18.0 <= p.age <= 64.0 && 10.0 <= p.bmi <= 70.0 && 0.0 <= p.children <= 10.0
    requires p.sex in Api.SexLiterals && p.smoker in Api.SmokerLiterals && p.region in Api.RegionLiterals
    ensures Api.Violations(Form.RequestBody(p))
      == (if Api.IsWhole(p.age) then {} else {"age"}) + (if Api.IsWhole(p.children) then {} else {"children"})
  {
    var body := Form.RequestBody(p);
    var expected := (if Api.IsWhole(p.age) then {} else {"age"}) + (if Api.IsWhole(p.children) then {} else {"children"});
    forall name ensures name in Api.Violations(body) <==> name in expected {
      if name in body {
        assert name in Api.DeclaredFields;
      }
    }
  }

  /**
   * For every form the frontend lets through, the service objects to the
   * body it sends on at most two names: `age` unless the age is a whole
   * number, and `children` unless that is a whole number.
   */
  lemma ServiceObjections(f: Form.Values)
    requires forall k :: Form.FieldValid(f, k)
    ensures var p := Form.Coerce(f);
      Api.Violations(Form.RequestBody(p))
        == (if Api.IsWhole(p.age) then {} else {"age"}) + (if Api.IsWhole(p.children) then {} else {"children"})
  {
    var p := Form.Coerce(f);
    assert Form.FieldValid(f, Form.Age) && Form.FieldValid(f, Form.Bmi) && Form.FieldValid(f, Form.Children);
    assert Form.FieldValid(f, Form.Sex) && Form.FieldValid(f, Form.Smoker) && Form.FieldValid(f, Form.Region);
    OptionsAgree();
    assert p.sex in Api.SexLiterals && p.smoker in Api.SmokerLiterals && p.region in Api.RegionLiterals;
    PayloadObjections(p);
  }

  /**
   * For every form the frontend lets through, the service accepts the body
   * it sends exactly when age and children are whole numbers, and then
   * hands the model the values that were sent.
   */
  lemma GateVersusService(f: Form.Values)
    requires forall k :: Form.FieldValid(f, k)
    ensures var p := Form.Coerce(f);
      Api.ParseRequest(Form.RequestBody(p)).Accepted? <==> Api.IsWhole(p.age) && Api.IsWhole(p.children)
    ensures var p := Form.Coerce(f);
      Api.ParseRequest(Form.RequestBody(p)).Accepted? ==>
        var r := Api.ParseRequest(Form.RequestBody(p)).request;
        r.age as real == p.age && r.sex == p.sex && r.bmi == p.bmi
        && r.children as real == p.children && r.smoker == p.smoker && r.region == p.region
  {
    var p := Form.Coerce(f);
    var body := Form.RequestBody(p);
    ServiceObjections(f);
    if !Api.IsWhole(p.age) {
      assert "age" in Api.Violations(body);
    }
    if !Api.IsWhole(p.children) {
      assert "children" in Api.Violations(body);
    }
    if Api.ParseRequest(body).Accepted? {
      var r := Api.ParseRequest(body).request;
      assert Api.Dump(r)["age"] == body["age"] && Api.Dump(r)["children"] == body["children"];
      assert Api.Dump(r)["sex"] == body["sex"] && Api.Dump(r)["bmi"] == body["bmi"];
      assert Api.Dump(r)["smoker"] == body["smoker"] && Api.Dump(r)["region"] == body["region"];
    }
  }

  /** Typing an in-range age with a fraction passes every check of the form. */
  lemma FractionalAgePasses(whole: string, fraction: string)
    requires |whole| > 0 && JsNumber.AllDigits(whole) && JsNumber.AllDigits(fraction)
    requires 18.0 <= JsNumber.Mantissa(whole, fraction) <= 64.0
    ensures var f := Form.DefaultForm.With(Form.Age, Form.Text(whole + "." + fraction));
      && (forall k :: Form.FieldValid(f, k))
      && Form.Coerce(f).age == JsNumber.Mantissa(whole, fraction)
      && Form.Coerce(f).children == 0.0
  {
    var typed := Form.Text(whole + "." + fraction);
    var f := Form.DefaultForm.With(Form.Age, typed);
    JsNumber.DecimalParses(whole, fraction);
    Form.DefaultFormValid();
    Form.EditTouchesOneError(Form.DefaultForm, Form.Age, typed);
    assert Form.FieldValid(f, Form.Age);
    forall k ensures Form.FieldValid(f, k) {
      if k != Form.Age {
        assert Form.FieldValid(Form.DefaultForm, k);
      }
    }
  }

  /** A form the frontend lets through with a fractional age but whole children is rejected on `age` alone. */
  lemma AgeAloneRejected(f: Form.Values)
    requires forall k :: Form.FieldValid(f, k)
    requires !Api.IsWhole(Form.Coerce(f).age) && Api.IsWhole(Form.Coerce(f).children)
    ensures Api.ParseRequest(Form.RequestBody(Form.Coerce(f))) == Api.Rejected({"age"})
  {
    ServiceObjections(f);
  }

  /**
   * Such an age (30.5, say) is then rejected by the service, on the age
   * and nothing else.
   */
  lemma FractionalAgeRejected(whole: string, fraction: string)
    requires |whole| > 0 && JsNumber.AllDigits(whole) && JsNumber.AllDigits(fraction)
    requires var age := JsNumber.Mantissa(whole, fraction); 18.0 <= age <= 64.0 && !Api.IsWhole(age)
    ensures var f := Form.DefaultForm.With(Form.Age, Form.Text(whole + "." + fraction));
      (forall k :: Form.FieldValid(f, k)) && Api.ParseRequest(Form.RequestBody(Form.Coerce(f))) == Api.Rejected({"age"})
  {
    var f := Form.DefaultForm.With(Form.Age, Form.Text(whole + "." + fraction));
    FractionalAgePasses(whole, fraction);
    assert Api.IsWhole(0.0);
    AgeAloneRejected(f);
  }
}
