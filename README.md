# Insurance charges estimator: validation and submission, in Dafny

The system estimates medical insurance charges from six attributes of a
person: age, sex, BMI, number of children, smoker status and region. A
linear regression model makes the estimate. This project models the three
places where the system decides whether its input is acceptable, and what
happens next:

- **The browser form** (`frontend/src/App.jsx`). The form holds six cells.
  They start with a default value, and every keystroke replaces a cell with
  the text the user typed. The field-error map is recomputed from the cells.
  The estimate button is enabled only while that map is empty and no request
  is in flight. A submit first clears the shown estimate and error. If the
  form cannot be submitted it stops there. Otherwise it sets `loading`,
  converts the cells with JavaScript's `Number()`, posts the payload, and
  shows either the returned estimate or an error message.
- **The prediction service** (`api/main.py`). `PredictRequest` validates a
  JSON body. It needs exactly the six declared fields: no field missing and
  no unknown field. Age and children must be integers within bounds, BMI a
  number within bounds, and the other three one of their literals. An
  invalid body gets a 422 answer and never reaches the model. `predict`
  maps the model's outcome to a response:
  - the estimate;
  - 500 with `Model files missing: …` when `FileNotFoundError` is raised;
  - 400 with `Prediction failed: …` for any other exception.
- **The training-data loader** (`src/data_loader.py`). A loaded table is
  accepted only when it has all seven required columns, where extra columns
  are allowed, and at least one row. When columns are missing, the error
  lists them sorted. It does so even when the table is also empty.

Modules:

- `Wrappers`: `Option` and `Result`.
- `Json`: JSON values and objects, as far as request bodies need them.
- `JsNumber`: JavaScript's string-to-number conversion for decimal literals.
- `Form`: the form and its state machine. This is the `App` class, whose
  fields are the component's four state cells.
- `Api`: request validation and the outcome-to-response mapping.
- `DataLoader`: the schema check and its error message.
- `Contract`: what happens when the form talks to the service.

Two behaviours of the code, as written, are proved here:

- A successful estimate stays on screen while the user edits fields. Only a
  shown error is cleared by editing. The estimate goes away only at the next
  submit (`Form.SuccessThenEdit`).
- The form's own checks accept a fractional age, such as `30.5`, and a
  fractional number of children (the browser's constraint validation of
  the input elements is not part of the model). The service checks the same bounds but requires
  integers, so it rejects such a body on exactly those names
  (`Contract.ServiceObjections`, `Contract.GateVersusService`,
  `Contract.FractionalAgeRejected`).

A response body that cannot be read as JSON is modelled as a thrown
error (`Form.Outcome.Thrown`), the same as a transport failure. That is a
modelling choice, not a proved fact. What is proved, by
`Form.App.CompleteSubmit`, is what each outcome shows:

- a thrown error shows its own message when it has one, and "Something
  went wrong." otherwise;
- an unsuccessful response shows its `detail`, and "Request failed." only
  when its body has no `detail`.

## Model

| member | source | states |
|---|---|---|
| Form.Values.With | frontend/src/App.jsx:57 | replacing one cell sets that cell to the new value and leaves the other five unchanged |
| Form.Errors | frontend/src/App.jsx:36-51 | the error map has a key exactly for each field that fails its check; every key carries that field's fixed message |
| Form.ComputeErrors | frontend/src/App.jsx:36-51 | the six checks run one after another and build exactly the error map `Errors` describes |
| Form.NoErrorsIff | frontend/src/App.jsx:53 | the error map is empty exactly when every field passes its check |
| Form.EditTouchesOneError | frontend/src/App.jsx:55-59 | editing one cell changes neither the validity nor the error entry of any other field |
| Form.DefaultFormValid | frontend/src/App.jsx:23-30 | every field of the initial form passes, and its error map is empty |
| Form.ClearedChildrenPasses | frontend/src/App.jsx:40 | a children cell with an emptied input counts as 0, which passes the children check |
| Form.NonNumericTextFails | frontend/src/App.jsx:42-44 | a numeric cell holding text whose first character is not a blank, a digit, a point or a sign fails its check and gets an error entry |
| Form.Coerce | frontend/src/App.jsx:76-83 | for a valid form, the payload's numbers are what `Number()` gives for the cells, and its strings are the cells' texts |
| Form.RequestBody | frontend/src/App.jsx:88 | the posted JSON object has exactly the six field names |
| Form.App.constructor | frontend/src/App.jsx:23-34 | the page starts with the default form, nothing loading, nothing shown, and submission enabled |
| Form.App.CanSubmitIff | frontend/src/App.jsx:53 | submission is enabled exactly when every field passes and no request is in flight |
| Form.App.OnChange | frontend/src/App.jsx:55-59 | the edited cell takes the typed text and the error is cleared; loading and the shown estimate stay; a shown failure becomes idle, and every other state is kept |
| Form.App.OnNumberChange | frontend/src/App.jsx:61-65 | the same update and the same guarantees as `onChange` |
| Form.App.BeginSubmit | frontend/src/App.jsx:67-83 | the estimate and error are always cleared; a payload is produced exactly when submission was enabled; it is then the coerced valid form and loading starts; otherwise loading is unchanged |
| Form.App.CompleteSubmit | frontend/src/App.jsx:91-101 | loading stops; success shows the returned charges; an unsuccessful response shows its detail or "Request failed."; an exception shows its message or "Something went wrong." |
| Form.SubmitWhileInFlight | frontend/src/App.jsx:67-102 | submitting the default form sends its payload; a second submit while the first is in flight sends nothing; the first response's estimate is shown |
| Form.FailureThenEdit | frontend/src/App.jsx:92-98 | a rejected request shows the server's detail, and editing any field then clears it |
| Form.SuccessThenEdit | frontend/src/App.jsx:55-69 | a shown estimate survives an edit; the next submit clears it, leaving the request in flight when the edited form passes every check and the page idle otherwise |
| JsNumber.ShowNatParses | frontend/src/App.jsx:38-40 | `Number()` of a decimal numeral gives back that whole number |
| JsNumber.DecimalParses | frontend/src/App.jsx:38-40 | `Number()` of `digits.digits` is the value of that decimal fraction |
| JsNumber.BlankIsZero | frontend/src/App.jsx:38-40 | `Number()` of an empty or all-blank string is 0 |
| JsNumber.LetterIsNotFinite | frontend/src/App.jsx:38-40 | `Number()` of a text whose first character is not a blank, a digit, a point or a sign (`abc`, `Infinity`) has no finite value |
| Api.ParseRequest | api/main.py:27-35 | a body is accepted exactly when no field is missing, unknown or invalid, and otherwise the rejection names exactly those fields; an accepted request meets every declared constraint and dumps back to exactly the body it was read from |
| Api.AcceptedIff | api/main.py:28-35 | acceptance holds exactly when the keys are the six declared ones and each value passes its type, bound or literal check |
| Api.ExtraFieldRejected | api/main.py:28 | a body with any unknown field is rejected, and the rejection names that field |
| Api.DumpIsAccepted | api/main.py:30-35 | the dump of every well-formed request is accepted back as the same request |
| Api.Dump | api/main.py:50 | the dumped dictionary has exactly the six declared keys |
| Api.Predict | api/main.py:48-57 | a returned value becomes the estimate; `FileNotFoundError` becomes status 500 with a "Model files missing: " detail; any other exception becomes status 400 with a "Prediction failed: " detail |
| Api.PredictRecoverable | api/main.py:50-57 | the response loses nothing: the original outcome, message included, can be rebuilt from it |
| Api.HandlePredict | api/main.py:47-57 | a validation error is returned exactly when the body is rejected, so an invalid body never reaches the model; an estimate comes only from an accepted body and is exactly what the model returned for it; for an accepted body, the model's outcome can be rebuilt from the response |
| DataLoader.SortedNames | src/data_loader.py:17 | `sorted()` of required names is strictly ascending in Python's string order and holds exactly those names |
| DataLoader.SortedUnique | src/data_loader.py:17 | two strictly ascending lists with the same elements are equal, so the sorted list is determined |
| DataLoader.LoadInsuranceCsv | src/data_loader.py:15-23 | loading succeeds exactly when every required column is present and there is at least one row, and it then returns the frame unchanged; a frame with every required column but no rows fails with the empty-dataset error |
| DataLoader.FailsIff | src/data_loader.py:15-21 | loading fails exactly when some required column is absent or there are no rows |
| DataLoader.MissingReportedFirst | src/data_loader.py:15-21 | a frame lacking columns fails with the missing-columns error, even when it is also empty; the names are sorted and are exactly the absent ones |
| DataLoader.EmptyReported | src/data_loader.py:20-21 | a frame with every required column and no rows fails with the empty-dataset error, whose text is `Loaded dataset is empty.` |
| DataLoader.JoinQuotedAppend | src/data_loader.py:17 | the printed list grows name by name: each further name follows a comma and a space, in quotes, in list order |
| DataLoader.ListReprTwo | src/data_loader.py:17 | any two names print as Python prints a two-element list of strings |
| DataLoader.ExtraColumnsPermitted | src/data_loader.py:15-23 | adding columns never makes a frame that loaded fail |
| DataLoader.TwoMissingReported | src/data_loader.py:15-17 | an empty frame lacking `age` and `charges` reports those two names, in that order |
| DataLoader.TwoMissingMessage | src/data_loader.py:17 | that error reads `Missing required columns: ['age', 'charges']` |
| Contract.OptionsAgree | frontend/src/App.jsx:5-7 | the form's option lists hold the service's literals |
| Contract.PayloadObjections | api/main.py:30-35 | a payload within the form's bounds and options draws objections on `age` unless it is whole, on `children` unless it is whole, and on nothing else |
| Contract.ServiceObjections | api/main.py:30-35 | for any form the frontend lets through, the service objects at most to `age` (unless whole) and `children` (unless whole) |
| Contract.GateVersusService | api/main.py:30-35 | a form the frontend lets through is accepted by the service exactly when age and children are whole, and the model then gets the values that were sent |
| Contract.FractionalAgePasses | frontend/src/App.jsx:42 | an in-range age typed with a fraction passes every check of the form |
| Contract.AgeAloneRejected | api/main.py:30 | a form the frontend lets through with a fractional age and whole children is rejected on `age` alone |
| Contract.FractionalAgeRejected | api/main.py:30 | such an age, if not whole, is rejected by the service on `age` alone |

## Left out

- Rendering: the JSX tree, `classNames` and `formatCurrency` are not modelled. `Form.App.Shown` stands for what the page shows.
- The browser's handling of the `<input type="number">` fields (frontend/src/App.jsx:125-167) is not modelled: value sanitisation, which hands non-numeric text to the handler as `""`, and the implicit `step` of 1 on the age and children inputs, which can keep a fractional age from being submitted. The model lets a cell hold any text.
- The network: `fetch`, `API_BASE` and `res.json()` are not modelled. `Form.Outcome` is the abstract result of a request, so `onSubmit` is split into `BeginSubmit` and `CompleteSubmit`.
- Form.App.CompleteSubmit: requires a request in flight. Responses arriving out of order, and a late response overwriting a newer one, are not modelled because the model has no concurrency.
- Form.Outcome: an unsuccessful response's `detail` is taken to be a string. A 422 detail is a list, and the message JavaScript builds from a list is not modelled.
- React state batching and stale closures are not modelled: each handler sees the state the previous one left.
- JsNumber.StringToNumber: covers decimal literals with an optional sign, fraction and exponent, and strips ASCII white space, line terminators, no-break space and the byte-order mark. It leaves out hexadecimal, octal and binary literals, and the Unicode space separators other than U+00A0. Rounding to a double is not modelled: every value is an exact real, so an overflowing literal such as `1e400` stays finite. The text `Infinity` reads as no finite value, as the form treats it.
- Api.ParseRequest: follows Pydantic's default validation, except its lax coercion of numeric strings and booleans into int and float fields, which is not modelled, so the model rejects such bodies. JSON numbers are exact reals, so `30` and `30.0` are one value, and an int field accepts either, as the default mode does.
- Api.HandlePredict: the 422 response is modelled by the set of faulty field names. FastAPI's error-list body is not modelled.
- Api.Predict: exceptions outside `Exception`, such as `KeyboardInterrupt`, are not modelled.
- `predict_one`, the model itself, training, evaluation, preprocessing and the pipeline are not modelled. The model is the `predictOne` parameter of `Api.HandlePredict`.
- CORS, `/health`, the app metadata and `PredictResponse` serialisation are not modelled because they involve no validation logic.
- `pd.read_csv` is not modelled. `DataLoader.Frame` records only the column names and the row count the checks look at.
- JSON: nested arrays and objects as field values, and non-finite numbers, are not modelled.
