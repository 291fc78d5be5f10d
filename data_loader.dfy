/**
 * The schema check of src/data_loader.py, run on the frame that
 * `pd.read_csv` produced: the frame is abstracted to its column names (in
 * order) and its number of rows.
 */
module DataLoader {
  import opened Wrappers

  const RequiredColumns: set<string> := {"age", "sex", "bmi", "children", "smoker", "region", "charges"}

  /** The required names in Python's string order, so that filtering it sorts any subset. */
  const SortedRequired: seq<string> := ["age", "bmi", "charges", "children", "region", "sex", "smoker"]

  datatype Frame = Frame(columns: seq<string>, rows: nat)

  /** `df.empty`: no rows or no columns. */
  predicate IsEmpty(df: Frame) {
    |df.columns| == 0 || df.rows == 0
  }

  /** The `ValueError`s the loader raises. */
  datatype LoadError = MissingColumns(names: seq<string>) | EmptyDataset

  /** `REQUIRED_COLUMNS - set(df.columns)`. */
  function Missing(df: Frame): (missing: set<string>)
    ensures forall c :: c in missing <==> c in RequiredColumns && c !in df.columns
  {
    RequiredColumns - set c | c in df.columns
  }

  /** Python's `<` on strings: code point by code point, a proper prefix first. */
  predicate Less(a: string, b: string) {
    if |a| == 0 then |b| > 0
    else if |b| == 0 then false
    else if a[0] != b[0] then a[0] < b[0]
    else Less(a[1..], b[1..])
  }

  predicate StrictlySorted(s: seq<string>) {
    forall i, j :: 0 <= i < j < |s| ==> Less(s[i], s[j])
  }

  /** The elements of `s` that are in `keep`, in their order in `s`. */
  function Filter(s: seq<string>, keep: set<string>): (r: seq<string>)
    ensures forall x :: x in r <==> x in s && x in keep
  {
    if s == [] then [] else (if s[0] in keep then [s[0]] else []) + Filter(s[1..], keep)
  }

  lemma {:induction false} FilterSorted(s: seq<string>, keep: set<string>)
    requires StrictlySorted(s)
    ensures StrictlySorted(Filter(s, keep))
  {
    if s != [] {
      var tail := Filter(s[1..], keep);
      assert StrictlySorted(s[1..]) by {
        forall i, j | 0 <= i < j < |s[1..]| ensures Less(s[1..][i], s[1..][j]) {
          assert s[1..][i] == s[i + 1] && s[1..][j] == s[j + 1];
        }
      }
      FilterSorted(s[1..], keep);
      if s[0] in keep {
        forall j | 0 <= j < |tail| ensures Less(s[0], tail[j]) {
          assert tail[j] in s[1..];
          var m :| 0 <= m < |s[1..]| && s[1..][m] == tail[j];
          assert s[m + 1] == tail[j];
        }
        assert Filter(s, keep) == [s[0]] + tail;
      } else {
        assert Filter(s, keep) == tail;
      }
    }
  }

  lemma SortedRequiredSorted()
    ensures StrictlySorted(SortedRequired)
  {
    var s := SortedRequired;
    assert Less(s[0], s[1]) && Less(s[1], s[2]) && Less(s[2], s[3]);
    assert Less(s[3], s[4]) && Less(s[4], s[5]) && Less(s[5], s[6]);
    forall i, j | 0 <= i < j < |s| ensures Less(s[i], s[j]) {
      AdjacentUp(s, i, j);
    }
  }

  lemma {:induction false} AdjacentUp(s: seq<string>, i: nat, j: nat)
    requires i < j < |s|
    requires forall k :: 0 <= k < |s| - 1 ==> Less(s[k], s[k + 1])
    ensures Less(s[i], s[j])
    decreases j - i
  {
    if i + 1 < j {
      AdjacentUp(s, i + 1, j);
      LessTransitive(s[i], s[i + 1], s[j]);
    }
  }

  lemma {:induction false} LessTransitive(a: string, b: string, c: string)
    requires Less(a, b) && Less(b, c)
    ensures Less(a, c)
  {
    if |a| > 0 && |b| > 0 && |c| > 0 && a[0] == b[0] && b[0] == c[0] {
      LessTransitive(a[1..], b[1..], c[1..]);
    }
  }

  /** `sorted(names)` for names drawn from the required columns. */
  function SortedNames(names: set<string>): (r: seq<string>)
    requires names <= RequiredColumns
    ensures StrictlySorted(r)
    ensures forall x :: x in r <==> x in names
  {
    SortedRequiredSorted();
    FilterSorted(SortedRequired, names);
    Filter(SortedRequired, names)
  }

  /** `load_insurance_csv` after the read: the missing-column check, then the empty check. */
  function LoadInsuranceCsv(df: Frame): (r: Result<Frame, LoadError>)
    ensures r.Success? ==> r.value == df
    ensures r.Success? <==> RequiredColumns <= (set c | c in df.columns) && df.rows > 0
    ensures Missing(df) == {} && df.rows == 0 ==> r == Failure(EmptyDataset)
  {
    var missing := Missing(df);
    if missing != {} then Failure(MissingColumns(SortedNames(missing)))
    else if IsEmpty(df) then Failure(EmptyDataset)
    else Success(df)
  }

  /** The text of the raised `ValueError`. */
  function Message(e: LoadError): string {
    match e
    case MissingColumns(names) => "Missing required columns: " + ListRepr(names)
    case EmptyDataset => "Loaded dataset is empty."
  }

  /** Python's `repr` of a list of plain names: `['age', 'bmi']`. */
  function ListRepr(names: seq<string>): string {
    "[" + JoinQuoted(names) + "]"
  }

  function JoinQuoted(names: seq<string>): string {
    if names == [] then ""
    else if |names| == 1 then "'" + names[0] + "'"
    else "'" + names[0] + "', " + JoinQuoted(names[1..])
  }

  /** The list repr grows name by name: each further name follows a comma and a space, in quotes. */
  lemma {:induction false} JoinQuotedAppend(names: seq<string>, n: string)
    ensures JoinQuoted(names + [n]) == if names == [] then "'" + n + "'" else JoinQuoted(names) + ", '" + n + "'"
  {
    if names == [] {
      assert names + [n] == [n];
    } else if |names| == 1 {
      assert names + [n] == [names[0], n];
      assert [names[0], n][1..] == [n];
    } else {
      assert (names + [n])[1..] == names[1..] + [n];
      JoinQuotedAppend(names[1..], n);
    }
  }

  /** Loading fails exactly when a required column is absent or the frame has no rows. */
  lemma FailsIff(df: Frame)
    ensures LoadInsuranceCsv(df).Failure? <==> (exists c :: c in RequiredColumns && c !in df.columns) || df.rows == 0
  {
  }

  /** A frame with every required column but no rows fails with the empty-dataset error and its text. */
  lemma EmptyReported(df: Frame)
    requires Missing(df) == {} && df.rows == 0
    ensures LoadInsuranceCsv(df) == Failure(EmptyDataset)
    ensures Message(LoadInsuranceCsv(df).error) == "Loaded dataset is empty."
  {
  }

  /** A frame lacking columns reports them, sorted, even when it is also empty. */
  lemma MissingReportedFirst(df: Frame)
    requires Missing(df) != {}
    ensures LoadInsuranceCsv(df).Failure? && LoadInsuranceCsv(df).error.MissingColumns?
    ensures StrictlySorted(LoadInsuranceCsv(df).error.names)
    ensures forall c :: c in LoadInsuranceCsv(df).error.names <==> c in RequiredColumns && c !in df.columns
  {
  }

  /** Columns beyond the required seven never make a frame fail. */
  lemma ExtraColumnsPermitted(df: Frame, extra: seq<string>)
    requires LoadInsuranceCsv(df).Success?
    ensures LoadInsuranceCsv(Frame(df.columns + extra, df.rows)) == Success(Frame(df.columns + extra, df.rows))
  {
    var wider := Frame(df.columns + extra, df.rows);
    assert forall c :: c in df.columns ==> c in wider.columns;
  }

  lemma {:induction false} LessAsymmetric(a: string, b: string)
    requires Less(a, b)
    ensures !Less(b, a)
  {
    if |a| > 0 && |b| > 0 && a[0] == b[0] {
      LessAsymmetric(a[1..], b[1..]);
    }
  }

  lemma SortedTail(s: seq<string>)
    requires StrictlySorted(s) && s != []
    ensures StrictlySorted(s[1..])
    ensures forall x :: x in s[1..] ==> Less(s[0], x) && x != s[0]
  {
    forall i, j | 0 <= i < j < |s[1..]| ensures Less(s[1..][i], s[1..][j]) {
      assert s[1..][i] == s[i + 1] && s[1..][j] == s[j + 1];
    }
    forall x | x in s[1..] ensures Less(s[0], x) && x != s[0] {
      var m :| 0 <= m < |s[1..]| && s[1..][m] == x;
      assert s[m + 1] == x;
      if x == s[0] {
        LessAsymmetric(x, x);
      }
    }
  }

  lemma FirstIsElement(s: seq<string>)
    ensures s != [] ==> s[0] in s
  {
  }

  /** `sorted` is well defined: two strictly sorted lists of the same names are equal. */
  lemma {:induction false} SortedUnique(a: seq<string>, b: seq<string>)
    requires StrictlySorted(a) && StrictlySorted(b)
    requires forall x :: x in a <==> x in b
    ensures a == b
    decreases |a|
  {
    if a == [] {
      FirstIsElement(b);
    } else {
      assert a[0] in a;
      assert b != [];
      SortedTail(a);
      SortedTail(b);
      assert a == [a[0]] + a[1..];
      assert b == [b[0]] + b[1..];
      if a[0] != b[0] {
        assert b[0] in a;
        assert b[0] in a[1..];
        assert a[0] in b[1..];
        LessAsymmetric(a[0], b[0]);
      }
      forall x ensures x in a[1..] <==> x in b[1..] {
        assert x in a <==> x in a[1..] || x == a[0];
        assert x in b <==> x in b[1..] || x == b[0];
      }
      SortedUnique(a[1..], b[1..]);
      assert a == [a[0]] + a[1..];
      assert b == [b[0]] + b[1..];
    }
  }

  /** A frame lacking `age` and `charges` reports exactly those two, in sorted order. */
  lemma TwoMissingReported()
    ensures LoadInsuranceCsv(Frame(["sex", "bmi", "children", "smoker", "region"], 0))
         == Failure(MissingColumns(["age", "charges"]))
  {
    var df := Frame(["sex", "bmi", "children", "smoker", "region"], 0);
    MissingAgeAndCharges(df);
    SortAgeAndCharges();
  }

  lemma SortAgeAndCharges()
    ensures SortedNames({"age", "charges"}) == ["age", "charges"]
  {
    assert Less("age", "charges");
    assert StrictlySorted(["age", "charges"]);
    SortedUnique(SortedNames({"age", "charges"}), ["age", "charges"]);
  }

  lemma MissingAgeAndCharges(df: Frame)
    requires df == Frame(["sex", "bmi", "children", "smoker", "region"], 0)
    ensures Missing(df) == {"age", "charges"}
  {
  }

  /** Two names are listed as Python prints a two-element list of strings. */
  lemma ListReprTwo(a: string, b: string)
    ensures ListRepr([a, b]) == "['" + a + "', '" + b + "']"
  {
    assert [a, b] == [a] + [b];
    JoinQuotedAppend([a], b);
  }

  /** The text of that report. */
  lemma TwoMissingMessage()
    ensures Message(MissingColumns(["age", "charges"])) == "Missing required columns: ['age', 'charges']"
  {
    ListReprTwo("age", "charges");
  }
}
