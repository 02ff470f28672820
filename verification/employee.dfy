/** The typed employee record, its field-selected comparison and its serializer. */
module Employees {
  import opened Outcomes
  import opened Text
  import opened Numerals

  /** The seven typed fields, in schema order. */
  datatype Employee = Employee(
    employeeId: Int32,
    fullName: string,
    age: Int32,
    department: string,
    isManager: bool,
    salary: real,
    projects: seq<string>)

  /** The parameterless constructor: zero, empty strings, `false`, no projects. */
  function DefaultEmployee(): (e: Employee)
    ensures e.employeeId == 0 && e.age == 0 && e.salary == 0.0 && !e.isManager
    ensures e.fullName == "" && e.department == "" && e.projects == []
  {
    Employee(0, "", 0, "", false, 0.0, [])
  }

  /** One of the seven public properties a sort can name. */
  datatype Selector = EmployeeId | FullName | Age | Department | IsManager | Salary | Projects

  /** The C# property name of a field. */
  function PropertyName(s: Selector): string {
    match s
    case EmployeeId => "EmployeeId"
    case FullName => "FullName"
    case Age => "Age"
    case Department => "Department"
    case IsManager => "IsManager"
    case Salary => "Salary"
    case Projects => "Projects"
  }

  /** `typeof(Employee).GetProperty(name)`: the property with exactly this name, if any. */
  function PropertyFor(name: string): (s: Option<Selector>)
    ensures s.Some? ==> PropertyName(s.value) == name
  {
    if name == "EmployeeId" then Some(EmployeeId)
    else if name == "FullName" then Some(FullName)
    else if name == "Age" then Some(Age)
    else if name == "Department" then Some(Department)
    else if name == "IsManager" then Some(IsManager)
    else if name == "Salary" then Some(Salary)
    else if name == "Projects" then Some(Projects)
    else None
  }

  /** Every property is found under its own name: lookup and naming are inverse. */
  lemma PropertyForName(s: Selector)
    ensures PropertyFor(PropertyName(s)) == Some(s)
  {
  }

  /** The sort settings `SetSortOptions` stores, passed explicitly instead of kept in static fields. */
  datatype SortOptions = SortOptions(field: string, direction: int)

  /** `SetSortOptions`: ascending is direction 1, descending is -1. */
  function SetSortOptions(sortField: string, ascending: bool): (o: SortOptions)
    ensures o.field == sortField
    ensures o.direction == 1 || o.direction == -1
    ensures o.direction == 1 <==> ascending
  {
    SortOptions(sortField, if ascending then 1 else -1)
  }

  /** The value `GetValue` boxes, tagged with its runtime type. */
  datatype FieldValue =
    | IntValue(i: int)
    | TextValue(s: string)
    | BoolValue(b: bool)
    | RealValue(x: real)
    | ArrayValue(items: seq<string>)

  /** `propertyInfo.GetValue(e)` with the reflection replaced by a match. */
  function GetValue(e: Employee, s: Selector): (r: FieldValue)
    ensures r.IntValue? <==> s == EmployeeId || s == Age
    ensures r.TextValue? <==> s == FullName || s == Department
    ensures r.BoolValue? <==> s == IsManager
    ensures r.RealValue? <==> s == Salary
    ensures r.ArrayValue? <==> s == Projects
  {
    match s
    case EmployeeId => IntValue(e.employeeId)
    case FullName => TextValue(e.fullName)
    case Age => IntValue(e.age)
    case Department => TextValue(e.department)
    case IsManager => BoolValue(e.isManager)
    case Salary => RealValue(e.salary)
    case Projects => ArrayValue(e.projects)
  }

  /** The schema field names as the sort and filter prompts name the fields. */
  function SchemaSelector(name: string): Option<Selector> {
    if name == "employee_id" then Some(EmployeeId)
    else if name == "full_name" then Some(FullName)
    else if name == "age" then Some(Age)
    else if name == "department" then Some(Department)
    else if name == "is_manager" then Some(IsManager)
    else if name == "salary" then Some(Salary)
    else if name == "projects" then Some(Projects)
    else None
  }

  datatype CompareError = UnknownField(name: string) | UnsupportedType

  function Sign(x: int): (r: int)
    ensures r == -1 || r == 0 || r == 1
  {
    if x < 0 then -1 else if x > 0 then 1 else 0
  }

  /** The ordinal order of strings: character by character, a proper prefix first.
      (The culture-aware `string.CompareTo` is not modelled.) */
  function CompareText(a: string, b: string): (c: int)
    ensures c == -1 || c == 0 || c == 1
    decreases |a|
  {
    if |a| == 0 && |b| == 0 then 0
    else if |a| == 0 then -1
    else if |b| == 0 then 1
    else if a[0] < b[0] then -1
    else if a[0] > b[0] then 1
    else CompareText(a[1..], b[1..])
  }

  lemma {:induction false} CompareTextZero(a: string, b: string)
    ensures CompareText(a, b) == 0 <==> a == b
    decreases |a|
  {
    if |a| > 0 && |b| > 0 && a[0] == b[0] {
      CompareTextZero(a[1..], b[1..]);
      assert a == [a[0]] + a[1..] && b == [b[0]] + b[1..];
    }
  }

  lemma {:induction false} CompareTextAntisymmetric(a: string, b: string)
    ensures CompareText(a, b) == -CompareText(b, a)
    decreases |a|
  {
    if |a| > 0 && |b| > 0 && a[0] == b[0] {
      CompareTextAntisymmetric(a[1..], b[1..]);
    }
  }

  lemma {:induction false} CompareTextTransitive(a: string, b: string, c: string)
    requires CompareText(a, b) <= 0 && CompareText(b, c) <= 0
    ensures CompareText(a, c) <= 0
    decreases |a|
  {
    if |a| > 0 && |b| > 0 && |c| > 0 && a[0] == b[0] && b[0] == c[0] {
      CompareTextTransitive(a[1..], b[1..], c[1..]);
    }
  }

  /** Both values have the same runtime type. */
  predicate SameKind(a: FieldValue, b: FieldValue) {
    (a.IntValue? && b.IntValue?) || (a.TextValue? && b.TextValue?) || (a.BoolValue? && b.BoolValue?)
    || (a.RealValue? && b.RealValue?) || (a.ArrayValue? && b.ArrayValue?)
  }

  /** `CompareValues`: same-typed comparable values by their natural order, two arrays by
      their lengths only, and any other pair is unsupported. (The null cases cannot arise:
      no field of an `Employee` is null here.) */
  function CompareValues(a: FieldValue, b: FieldValue): (r: Result<int, CompareError>)
    ensures r.Ok? ==> r.value == -1 || r.value == 0 || r.value == 1
    ensures r.Err? <==> !SameKind(a, b)
  {
    match (a, b)
    case (IntValue(x), IntValue(y)) => Ok(Sign(x - y))
    case (TextValue(x), TextValue(y)) => Ok(CompareText(x, y))
    case (BoolValue(x), BoolValue(y)) => Ok(if x == y then 0 else if y then -1 else 1)
    case (RealValue(x), RealValue(y)) => Ok(if x < y then -1 else if x > y then 1 else 0)
    case (ArrayValue(x), ArrayValue(y)) => Ok(Sign(|x| - |y|))
    case _ => Err(UnsupportedType)
  }

  /** The order each field is sorted by: `CompareValues` of the two boxed values, which
      always have the same type since they come from the same property. */
  function FieldOrder(a: Employee, b: Employee, s: Selector): int {
    CompareValues(GetValue(a, s), GetValue(b, s)).value
  }

  /** Comparing one field of two employees never meets the unsupported-type case, and
      gives that field's order. */
  lemma CompareValuesOfField(a: Employee, b: Employee, s: Selector)
    ensures CompareValues(GetValue(a, s), GetValue(b, s)) == Ok(FieldOrder(a, b, s))
  {
  }

  /** `CompareTo`: 1 against null; an unknown sort field is an error before any value
      is read; otherwise the field comparison times the direction. */
  function CompareTo(self: Employee, other: Option<Employee>, options: SortOptions): (r: Result<int, CompareError>)
    ensures other.None? ==> r == Ok(1)
    ensures other.Some? && PropertyFor(options.field).None? ==> r == Err(UnknownField(options.field))
    ensures other.Some? && PropertyFor(options.field).Some? ==>
              r == Ok(FieldOrder(self, other.value, PropertyFor(options.field).value) * options.direction)
  {
    if other.None? then Ok(1)
    else match PropertyFor(options.field)
      case None => Err(UnknownField(options.field))
      case Some(s) =>
        match CompareValues(GetValue(self, s), GetValue(other.value, s))
        case Ok(c) => Ok(c * options.direction)
        case Err(e) => Err(e)
  }

  /** Every employee compares equal to itself. */
  lemma FieldOrderReflexive(a: Employee, s: Selector)
    ensures FieldOrder(a, a, s) == 0
  {
    if s == FullName {
      CompareTextZero(a.fullName, a.fullName);
    } else if s == Department {
      CompareTextZero(a.department, a.department);
    }
  }

  /** Swapping the operands negates the result. */
  lemma FieldOrderAntisymmetric(a: Employee, b: Employee, s: Selector)
    ensures FieldOrder(a, b, s) == -FieldOrder(b, a, s)
  {
    if s == FullName {
      CompareTextAntisymmetric(a.fullName, b.fullName);
    } else if s == Department {
      CompareTextAntisymmetric(a.department, b.department);
    }
  }

  lemma FieldOrderTransitive(a: Employee, b: Employee, c: Employee, s: Selector)
    requires FieldOrder(a, b, s) <= 0 && FieldOrder(b, c, s) <= 0
    ensures FieldOrder(a, c, s) <= 0
  {
    if s == FullName {
      CompareTextTransitive(a.fullName, b.fullName, c.fullName);
    } else if s == Department {
      CompareTextTransitive(a.department, b.department, c.department);
    }
  }

  /** Projects are compared by their count alone: two lists of equal length compare equal,
      whatever their contents. */
  lemma ProjectsCompareByCount(a: Employee, b: Employee)
    requires |a.projects| == |b.projects|
    ensures CompareTo(a, Some(b), SortOptions("Projects", 1)) == Ok(0)
    ensures CompareTo(a, Some(b), SortOptions("Projects", -1)) == Ok(0)
  {
  }

  /** Turning the direction round negates every comparison. */
  lemma DirectionNegates(a: Employee, b: Employee, field: string)
    requires PropertyFor(field).Some?
    ensures CompareTo(a, Some(b), SetSortOptions(field, true)).Ok?
    ensures CompareTo(a, Some(b), SetSortOptions(field, false)).value
            == -CompareTo(a, Some(b), SetSortOptions(field, true)).value
  {
  }

  /** With any known field and direction, `a.CompareTo(b)` and `b.CompareTo(a)` are opposite,
      and `a.CompareTo(a)` is 0. */
  lemma CompareToAntisymmetric(a: Employee, b: Employee, options: SortOptions)
    requires PropertyFor(options.field).Some?
    ensures CompareTo(a, Some(a), options) == Ok(0)
    ensures CompareTo(a, Some(b), options).Ok? && CompareTo(b, Some(a), options).Ok?
    ensures CompareTo(a, Some(b), options).value == -CompareTo(b, Some(a), options).value
  {
    var s := PropertyFor(options.field).value;
    var d := options.direction;
    var x, y := FieldOrder(a, b, s), FieldOrder(b, a, s);
    FieldOrderReflexive(a, s);
    FieldOrderAntisymmetric(a, b, s);
    assert CompareTo(a, Some(b), options) == Ok(x * d);
    assert CompareTo(b, Some(a), options) == Ok(y * d);
    assert x * d == -(y * d) by {
      assert x == -y;
    }
  }

  /** `bool.ToString().ToLower()`. */
  function BoolText(b: bool): string {
    if b then "true" else "false"
  }

  /** `$"\"{s}\""`. */
  function Quote(s: string): string {
    "\"" + s + "\""
  }

  function Quoted(ps: seq<string>): (r: seq<string>)
    ensures |r| == |ps|
    ensures forall i :: 0 <= i < |ps| ==> r[i] == Quote(ps[i])
  {
    seq(|ps|, i requires 0 <= i < |ps| => Quote(ps[i]))
  }

  /** The projects as a JSON array: each quoted on its own line, or `[]` when there are none. */
  function ProjectsList(ps: seq<string>): string {
    if |ps| > 0 then "[\n      " + Join(Quoted(ps), ",\n      ") + "\n    ]" else "[]"
  }

  /** The lines of `ToString` from `employee_id` to `salary`; each parenthesised piece
      is one interpolated string. `render` is the current culture's rendering of the salary. */
  function FieldLines(e: Employee, render: real -> string): string {
    ("    \"employee_id\": " + IntToString(e.employeeId) + ",\n") +
    ("    \"full_name\": " + Quote(e.fullName) + ",\n") +
    ("    \"age\": " + IntToString(e.age) + ",\n") +
    ("    \"department\": " + Quote(e.department) + ",\n") +
    ("    \"is_manager\": " + BoolText(e.isManager) + ",\n") +
    ("    \"salary\": " + render(e.salary) + ",\n")
  }

  /** The text `ToString` builds around a given rendering of the projects: the object
      opens on a line of its own and closes with `},` after the projects. */
  function Serialize(e: Employee, render: real -> string, projectsText: string): (r: string)
    ensures |r| >= |projectsText| + 9 && r[..4] == "  {\n"
    ensures r[|r| - |projectsText| - 5..] == projectsText + "\n  },"
  {
    var head := "  {\n" + FieldLines(e, render) + "    \"projects\": ";
    var tail := projectsText + "\n  },";
    assert (head + tail)[|head|..] == tail;
    head + tail
  }

  /** `ToString`: the record as the JSON-like text the program writes, with a trailing comma. */
  function ToString(e: Employee, render: real -> string): (r: string)
    ensures |r| > 8 && r[..4] == "  {\n" && r[|r| - 5..] == "\n  },"
    ensures |e.projects| == 0 ==> r[|r| - 7..] == "[]\n  },"
  {
    Serialize(e, render, ProjectsList(e.projects))
  }

  /** The projects array with its brackets always on lines of their own, as the line
      parser needs them. */
  function ProjectsListFixed(ps: seq<string>): string {
    if |ps| > 0 then ProjectsList(ps) else "[\n    ]"
  }

  function ToStringFixed(e: Employee, render: real -> string): string {
    Serialize(e, render, ProjectsListFixed(e.projects))
  }
}
