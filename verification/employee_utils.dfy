/** Turning parsed records into employees, and filtering employees by one field. */
module EmployeeUtils {
  import opened Outcomes
  import opened Text
  import opened Numerals
  import opened Values
  import opened Schema
  import opened Employees

  /** Rounds to the nearest integer, halves to the even neighbour (`Math.Round`'s default). */
  function RoundHalfEven(x: real): (n: int)
    ensures x - 1.0 / 2.0 <= n as real <= x + 1.0 / 2.0
    ensures x - 1.0 / 2.0 < n as real < x + 1.0 / 2.0 || n % 2 == 0
  {
    var f := x.Floor;
    var d := x - f as real;
    if d > 1.0 / 2.0 then f + 1
    else if d < 1.0 / 2.0 then f
    else if f % 2 == 0 then f else f + 1
  }

  /** `Convert.ToInt32(double)`: rounded half to even, and an overflow outside the 32-bit range. */
  function NumberToInt32(x: real): (r: Option<Int32>)
    ensures r.Some? <==> MinInt32 as real - 1.0 / 2.0 <= x < MaxInt32 as real + 1.0 / 2.0
    ensures r.Some? ==> r.value == RoundHalfEven(x)
  {
    if MinInt32 as real - 1.0 / 2.0 <= x < MaxInt32 as real + 1.0 / 2.0 then
      var n := RoundHalfEven(x);
      Some(n)
    else None
  }

  /** A whole number in range converts to itself. */
  lemma NumberToInt32Integral(n: Int32)
    ensures NumberToInt32(n as real) == Some(n)
  {
    assert (n as real).Floor == n;
  }

  /** `Convert.ToInt32(object)` on each kind of parsed value; `None` where it throws. */
  function ToInt32(v: Value): (r: Option<Int32>)
    ensures v.TextArray? ==> r.None?
    ensures v.Boolean? ==> r == Some(if v.b then 1 else 0)
    ensures v.Number? ==> (r.Some? <==> MinInt32 as real - 1.0 / 2.0 <= v.x < MaxInt32 as real + 1.0 / 2.0)
    ensures r.Some? && v.Number? && v.x == v.x.Floor as real ==> r.value == v.x.Floor
    ensures v.Number? ==> r == NumberToInt32(v.x)
    ensures v.Text? ==> r == ParseInt32(v.s)
    ensures r.Some? && v.Text? ==> |TrimWhite(v.s)| > 0
  {
    match v
    case Number(x) => NumberToInt32(x)
    case Boolean(b) => Some(if b then 1 else 0)
    case Text(s) => ParseInt32(s)
    case TextArray(_) => None
  }

  /** `Convert.ToBoolean(object)`. */
  function ToBoolean(v: Value): (r: Option<bool>)
    ensures v.TextArray? ==> r.None?
    ensures v.Boolean? ==> r == Some(v.b)
    ensures v.Number? ==> r == Some(v.x != 0.0)
    ensures v.Text? ==> r == ParseBool(v.s)
    ensures v.Text? && r.Some? ==> Lower(TrimWhite(v.s)) in {"true", "false"}
  {
    match v
    case Number(x) => Some(x != 0.0)
    case Boolean(b) => Some(b)
    case Text(s) => ParseBool(s)
    case TextArray(_) => None
  }

  /** `Convert.ToDouble(object, CultureInfo.InvariantCulture)`. */
  function ToDouble(v: Value): (r: Option<real>)
    ensures v.TextArray? <==> r.None? && !v.Text?
    ensures v.Number? ==> r == Some(v.x)
    ensures v.Boolean? ==> r == Some(if v.b then 1.0 else 0.0)
    ensures v.Text? ==> r == ParseNumber(v.s)
  {
    match v
    case Number(x) => Some(x)
    case Boolean(b) => Some(if b then 1.0 else 0.0)
    case Text(s) => ParseNumber(s)
    case TextArray(_) => None
  }

  /** A text holding a rendered 32-bit integer converts to that integer, as `int.Parse` reads it. */
  lemma TextToInt32(n: Int32)
    ensures ToInt32(Text(IntToString(n))) == Some(n)
  {
    ParseInt32IntToString(n);
  }

  /** A text holding a rendered integer converts to that number, as `Convert.ToDouble` reads it. */
  lemma TextToDouble(n: int)
    ensures ToDouble(Text(IntToString(n))) == Some(n as real)
  {
    ParseNumberIntToString(n);
  }

  /** The cast `(List<string>)obj`: only a parsed array is one. */
  function ToProjects(v: Value): (r: Option<seq<string>>)
    ensures r.Some? <==> v.TextArray?
    ensures r.Some? ==> r.value == v.items
  {
    match v
    case TextArray(items) => Some(items)
    case _ => None
  }

  /** A key read through a conversion; a missing key fails like a failed conversion. */
  function ReadInt(r: Record, key: string): Option<Int32> {
    match Lookup(r, key)
    case None => None
    case Some(v) => ToInt32(v)
  }

  function ReadText(r: Record, key: string, render: real -> string): Option<string> {
    match Lookup(r, key)
    case None => None
    case Some(v) => Some(StringForm(v, render))
  }

  function ReadBool(r: Record, key: string): Option<bool> {
    match Lookup(r, key)
    case None => None
    case Some(v) => ToBoolean(v)
  }

  function ReadDouble(r: Record, key: string): Option<real> {
    match Lookup(r, key)
    case None => None
    case Some(v) => ToDouble(v)
  }

  function ReadProjects(r: Record, key: string): Option<seq<string>> {
    match Lookup(r, key)
    case None => None
    case Some(v) => ToProjects(v)
  }

  /** Every field of the record converts. */
  predicate Convertible(r: Record, render: real -> string) {
    ReadInt(r, "employee_id").Some? && ReadText(r, "full_name", render).Some?
    && ReadInt(r, "age").Some? && ReadText(r, "department", render).Some?
    && ReadBool(r, "is_manager").Some? && ReadDouble(r, "salary").Some?
    && ReadProjects(r, "projects").Some?
  }

  /** The body of the conversion loop for one record: each field from the key of the
      same name, all or nothing. */
  function ToEmployee(r: Record, render: real -> string): (e: Option<Employee>)
    ensures e.Some? <==> Convertible(r, render)
    ensures e.Some? ==> ToInt32(Lookup(r, "employee_id").value) == Some(e.value.employeeId)
    ensures e.Some? ==> e.value.fullName == StringForm(Lookup(r, "full_name").value, render)
    ensures e.Some? ==> ToInt32(Lookup(r, "age").value) == Some(e.value.age)
    ensures e.Some? ==> e.value.department == StringForm(Lookup(r, "department").value, render)
    ensures e.Some? ==> ToBoolean(Lookup(r, "is_manager").value) == Some(e.value.isManager)
    ensures e.Some? ==> ToDouble(Lookup(r, "salary").value) == Some(e.value.salary)
    ensures e.Some? ==> ToProjects(Lookup(r, "projects").value) == Some(e.value.projects)
  {
    if Convertible(r, render) then
      Some(Employee(ReadInt(r, "employee_id").value, ReadText(r, "full_name", render).value,
                    ReadInt(r, "age").value, ReadText(r, "department", render).value,
                    ReadBool(r, "is_manager").value, ReadDouble(r, "salary").value,
                    ReadProjects(r, "projects").value))
    else None
  }

  /** The conversion of each record, in order. */
  function Conversions(data: seq<Record>, render: real -> string): (xs: seq<Option<Employee>>)
    ensures |xs| == |data|
    ensures forall i :: 0 <= i < |data| ==> xs[i] == ToEmployee(data[i], render)
  {
    seq(|data|, i requires 0 <= i < |data| => ToEmployee(data[i], render))
  }

  /** `GetEmployeesCollection`: one employee per record, in order, or a failure of the whole
      call when any record does not convert. */
  function GetEmployeesCollection(data: seq<Record>, render: real -> string): (r: Option<seq<Employee>>)
    ensures r.Some? <==> forall i :: 0 <= i < |data| ==> ToEmployee(data[i], render).Some?
    ensures r.Some? ==> |r.value| == |data|
    ensures r.Some? ==> forall i :: 0 <= i < |data| ==> ToEmployee(data[i], render) == Some(r.value[i])
  {
    var converted := Conversions(data, render);
    AllSome(converted)
  }

  /** A `projects` value that passes the schema's array check only because its text
      starts with `[` still fails the conversion, and with it the whole collection. */
  lemma {:induction false} BracketTextFailsConversion(data: seq<Record>, j: nat, s: string, render: real -> string)
    requires j < |data| && Conforms(data[j], render)
    requires data[j][6].1 == Text("[" + s)
    ensures GetEmployeesCollection(data, render).None?
  {
    assert Lookup(data[j], "projects") == Some(Text("[" + s)) by {
      LookupAt(data[j], 6);
    }
  }

  /** In a conforming record, the key at a position is found with its own value. */
  lemma {:induction false} LookupAt(r: Record, i: nat)
    requires i < |r| && UniqueKeys(r)
    ensures Lookup(r, r[i].0) == Some(r[i].1)
  {
    if i > 0 {
      assert r[1..][i - 1] == r[i];
      assert UniqueKeys(r[1..]);
      LookupAt(r[1..], i - 1);
    }
  }

  /** `FieldValueCheck`: what the prompt demands of the literal, by the field name it is given. */
  function FieldValueCheck(selectValue: string, userValue: string): (ok: bool)
    ensures selectValue in ["employee_id", "age", "salary"] ==> (ok <==> Parses(selectValue, userValue))
    ensures selectValue == "is_manager" ==> (ok <==> userValue == "true" || userValue == "false")
    ensures selectValue !in ["employee_id", "age", "is_manager", "salary"] ==> (ok <==> userValue != [])
  {
    if selectValue == "employee_id" || selectValue == "age" then ParseInt32(userValue).Some?
    else if selectValue == "is_manager" then userValue == "true" || userValue == "false"
    else if selectValue == "salary" then ParseNumber(userValue).Some?
    else userValue != []
  }

  /** The `int.Parse`, `bool.Parse` or `double.Parse` in the comparison threw. */
  datatype FilterError = UnparsableValue

  /** The literal parses as the type of the field, so comparing against it cannot throw. */
  predicate Parses(field: string, userValue: string) {
    if field == "employee_id" || field == "age" then ParseInt32(userValue).Some?
    else if field == "is_manager" then ParseBool(userValue).Some?
    else if field == "salary" then ParseNumber(userValue).Some?
    else true
  }

  /** The projects equal the comma-separated literal: empty pieces dropped before each piece
      is trimmed, then compared in order without regard to letter case. */
  predicate ProjectsMatch(projects: seq<string>, userValue: string) {
    var wanted := TrimAll(NonEmpty(Split(userValue, ',')));
    |projects| == |wanted| && forall i :: 0 <= i < |projects| ==> EqualsIgnoreCase(projects[i], wanted[i])
  }

  /** `EqualityCheck` against a lower-case field name. */
  function EqualityCheck(e: Employee, field: string, userValue: string): (r: Result<bool, FilterError>)
    ensures r.Err? <==> !Parses(field, userValue)
    ensures field == "employee_id" && r.Ok? ==> r.value == (ParseInt32(userValue) == Some(e.employeeId))
    ensures field == "full_name" ==> r == Ok(e.fullName == userValue)
    ensures field == "age" && r.Ok? ==> r.value == (ParseInt32(userValue) == Some(e.age))
    ensures field == "department" ==> r == Ok(e.department == userValue)
    ensures field == "is_manager" && r.Ok? ==> r.value == (ParseBool(userValue) == Some(e.isManager))
    ensures field == "salary" && r.Ok? ==> r.value == (ParseNumber(userValue) == Some(e.salary))
    ensures field == "projects" ==> r == Ok(ProjectsMatch(e.projects, userValue))
    ensures field !in FieldNames ==> r == Ok(false)
  {
    if field == "employee_id" then
      match ParseInt32(userValue)
      case None => Err(UnparsableValue)
      case Some(n) => Ok(e.employeeId == n)
    else if field == "full_name" then Ok(e.fullName == userValue)
    else if field == "age" then
      match ParseInt32(userValue)
      case None => Err(UnparsableValue)
      case Some(n) => Ok(e.age == n)
    else if field == "department" then Ok(e.department == userValue)
    else if field == "is_manager" then
      match ParseBool(userValue)
      case None => Err(UnparsableValue)
      case Some(b) => Ok(e.isManager == b)
    else if field == "salary" then
      match ParseNumber(userValue)
      case None => Err(UnparsableValue)
      case Some(x) => Ok(e.salary == x)
    else if field == "projects" then Ok(ProjectsMatch(e.projects, userValue))
    else Ok(false)
  }

  /** The employee matches: the comparison succeeds and holds. */
  predicate Matches(e: Employee, field: string, userValue: string) {
    EqualityCheck(e, field, userValue) == Ok(true)
  }

  /** `xs` is `ys` with some elements left out, the rest in their order. */
  predicate IsSubsequence<T(==)>(xs: seq<T>, ys: seq<T>)
    decreases |ys|
  {
    if |xs| == 0 then true
    else if |ys| == 0 then false
    else (xs[0] == ys[0] && IsSubsequence(xs[1..], ys[1..])) || IsSubsequence(xs, ys[1..])
  }

  /** The filter loop: keep the employees that match, in order. */
  function Filter(es: seq<Employee>, field: string, userValue: string): (r: Result<seq<Employee>, FilterError>)
    ensures r.Err? <==> |es| > 0 && !Parses(field, userValue)
    ensures r.Ok? ==> IsSubsequence(r.value, es)
    ensures r.Ok? ==> forall e :: e in r.value <==> e in es && Matches(e, field, userValue)
    ensures r.Ok? ==> forall e :: multiset(r.value)[e] == if Matches(e, field, userValue) then multiset(es)[e] else 0
  {
    if |es| == 0 then Ok([])
    else match EqualityCheck(es[0], field, userValue)
      case Err(x) => Err(x)
      case Ok(keep) =>
        match Filter(es[1..], field, userValue)
        case Err(x) => Err(x)
        case Ok(rest) =>
          assert forall e :: e in es <==> e == es[0] || e in es[1..];
          assert es == [es[0]] + es[1..];
          Ok(if keep then [es[0]] + rest else rest)
  }

  /** Every employee matches a field against its own value written as the prompt expects it. */
  lemma OwnNameMatches(e: Employee)
    ensures Matches(e, "full_name", e.fullName)
    ensures Matches(e, "employee_id", IntToString(e.employeeId))
    ensures Matches(e, "age", IntToString(e.age))
    ensures Matches(e, "is_manager", if e.isManager then "true" else "false")
  {
    ParseInt32IntToString(e.employeeId);
    ParseInt32IntToString(e.age);
    TrimUntouched("true", IsSpace);
    TrimUntouched("false", IsSpace);
  }

  /** The value of the field a lower-case schema name selects. */
  function FieldOf(e: Employee, field: string): Option<FieldValue> {
    match SchemaSelector(field)
    case None => None
    case Some(s) => Some(GetValue(e, s))
  }

  /** The comparison looks at the selected field only: two employees that agree on it
      compare alike against every literal. */
  lemma MatchesByFieldValue(a: Employee, b: Employee, field: string, userValue: string)
    requires FieldOf(a, field) == FieldOf(b, field)
    ensures EqualityCheck(a, field, userValue) == EqualityCheck(b, field, userValue)
  {
  }

  /** Filtering the selection again with the same field and literal keeps all of it. */
  lemma {:induction false} FilterIdempotent(es: seq<Employee>, field: string, userValue: string)
    requires Filter(es, field, userValue).Ok?
    ensures Filter(Filter(es, field, userValue).value, field, userValue) == Filter(es, field, userValue)
    decreases |es|
  {
    if |es| > 0 {
      FilterIdempotent(es[1..], field, userValue);
      var rest := Filter(es[1..], field, userValue).value;
      if Matches(es[0], field, userValue) {
        assert ([es[0]] + rest)[1..] == rest;
      }
    }
  }

  /** Keeping the non-empty pieces of pieces that are all non-empty keeps them all. */
  lemma {:induction false} NonEmptyKeeps(parts: seq<string>)
    requires forall i :: 0 <= i < |parts| ==> |parts[i]| > 0
    ensures NonEmpty(parts) == parts
    decreases |parts|
  {
    if |parts| > 0 {
      NonEmptyKeeps(parts[1..]);
      assert [parts[0]] + parts[1..] == parts;
    }
  }

  /** An employee matches on `projects` the literal that lists its own projects separated
      by commas, when no project is empty, holds a comma or has white space at either end. */
  lemma OwnProjectsMatch(e: Employee)
    requires forall i :: 0 <= i < |e.projects| ==>
      |e.projects[i]| > 0 && ',' !in e.projects[i] && TrimWhite(e.projects[i]) == e.projects[i]
    ensures Matches(e, "projects", Join(e.projects, ","))
  {
    var ps := e.projects;
    if |ps| == 0 {
      assert NonEmpty(Split("", ',')) == [];
    } else {
      SplitJoin(ps, ',');
      NonEmptyKeeps(ps);
      assert TrimAll(ps) == ps;
    }
  }

  /** A literal the prompt accepts for a lower-case field always parses. */
  lemma CheckedValueParses(field: string, userValue: string)
    requires field in FieldNames && FieldValueCheck(field, userValue)
    ensures Parses(field, userValue)
  {
    if field == "is_manager" {
      TrimUntouched(userValue, IsSpace);
    }
  }

  /** The prompt's demand on a manager flag is stricter than the `bool.Parse` in the
      comparison: `True` would compare, but is not accepted. */
  lemma ManagerPromptStricter()
    ensures Parses("is_manager", "True") && !FieldValueCheck("is_manager", "True")
  {
    TrimUntouched("True", IsSpace);
    assert Lower("True") == "true";
  }

  /** Why a field prompt gives up: the filter prompt and the sort prompt reject an empty
      or unknown field name alike; only the filter can then fail on the literal. */
  datatype SelectionError = EmptyFieldName | UnknownFieldName | SelectionFailed(cause: FilterError)

  /** The literal the prompt loop lets through for this field name: once the name is known
      to be valid, the check on `selectValue` as typed has passed. */
  predicate PromptAccepts(selectValue: string, userValue: string) {
    selectValue != [] && Lower(selectValue) in FieldNames ==> FieldValueCheck(selectValue, userValue)
  }

  /** `GenerateSelection` with the prompted literal as a parameter: the field name is
      checked without regard to case, then the lower-cased name drives the filter. */
  function GenerateSelection(employees: seq<Employee>, selectValue: string, userValue: string): (r: Result<seq<Employee>, SelectionError>)
    requires PromptAccepts(selectValue, userValue)
    ensures selectValue == [] <==> r == Err(EmptyFieldName)
    ensures r == Err(UnknownFieldName) <==> selectValue != [] && Lower(selectValue) !in FieldNames
    ensures r == Err(SelectionFailed(UnparsableValue)) <==>
      selectValue != [] && Lower(selectValue) in FieldNames && |employees| > 0 && !Parses(Lower(selectValue), userValue)
    ensures r.Ok? ==> forall e :: e in r.value <==> e in employees && Matches(e, Lower(selectValue), userValue)
    ensures r.Ok? ==> forall e :: multiset(r.value)[e] == if Matches(e, Lower(selectValue), userValue) then multiset(employees)[e] else 0
    ensures r.Ok? ==> IsSubsequence(r.value, employees)
  {
    if selectValue == [] then Err(EmptyFieldName)
    else if Lower(selectValue) !in FieldNames then Err(UnknownFieldName)
    else match Filter(employees, Lower(selectValue), userValue)
      case Err(x) => Err(SelectionFailed(x))
      case Ok(s) => Ok(s)
  }

  /** With the field name already in lower case the prompt's check suffices: the
      selection never fails once the name is valid. */
  lemma LowerCaseSelectionSucceeds(employees: seq<Employee>, selectValue: string, userValue: string)
    requires selectValue != [] && selectValue in FieldNames
    requires FieldValueCheck(selectValue, userValue)
    ensures PromptAccepts(selectValue, userValue)
    ensures GenerateSelection(employees, selectValue, userValue).Ok?
  {
    assert Lower(selectValue) == selectValue by {
      assert forall k :: 0 <= k < |selectValue| ==> !('A' <= selectValue[k] <= 'Z');
    }
    CheckedValueParses(selectValue, userValue);
  }

  /** A mixed-case field name gets only the non-empty check at the prompt, so a literal
      such as `ten` for `Age` is let through and the selection then fails. */
  lemma MixedCaseSelectionFails()
    ensures PromptAccepts("Age", "ten")
    ensures GenerateSelection([DefaultEmployee()], "Age", "ten") == Err(SelectionFailed(UnparsableValue))
  {
    assert Lower("Age") == "age";
    assert TrimWhite("ten") == "ten" by { TrimUntouched("ten", IsSpace); }
    assert !AllDigits("ten") by { assert !IsDigit("ten"[0]); }
  }

  /** The selection as intended: the prompt checks the literal against the lower-cased name. */
  predicate PromptAcceptsFixed(selectValue: string, userValue: string) {
    selectValue != [] && Lower(selectValue) in FieldNames ==> FieldValueCheck(Lower(selectValue), userValue)
  }

  function GenerateSelectionFixed(employees: seq<Employee>, selectValue: string, userValue: string): (r: Result<seq<Employee>, SelectionError>)
    requires PromptAcceptsFixed(selectValue, userValue)
    ensures selectValue == [] <==> r == Err(EmptyFieldName)
    ensures r == Err(UnknownFieldName) <==> selectValue != [] && Lower(selectValue) !in FieldNames
    ensures r.Ok? <==> selectValue != [] && Lower(selectValue) in FieldNames
    ensures r.Ok? ==> forall e :: e in r.value <==> e in employees && Matches(e, Lower(selectValue), userValue)
    ensures r.Ok? ==> forall e :: multiset(r.value)[e] == if Matches(e, Lower(selectValue), userValue) then multiset(employees)[e] else 0
    ensures r.Ok? ==> IsSubsequence(r.value, employees)
  {
    if selectValue == [] then Err(EmptyFieldName)
    else if Lower(selectValue) !in FieldNames then Err(UnknownFieldName)
    else
      CheckedValueParses(Lower(selectValue), userValue);
      match Filter(employees, Lower(selectValue), userValue)
      case Err(x) => Err(SelectionFailed(x))
      case Ok(s) => Ok(s)
  }
}
