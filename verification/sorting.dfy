/** Sorting an employee array by one field, and the console's mapping from a schema
    field name and a menu choice to the sort options. */
module Sorting {
  import opened Outcomes
  import opened Employees
  import opened EmployeeUtils

  /** `a` may stand before `b` when sorting on `s` in `direction`. */
  predicate Precedes(a: Employee, b: Employee, s: Selector, direction: int) {
    FieldOrder(a, b, s) * direction <= 0
  }

  /** Each neighbour pair is in order. */
  predicate Sorted(xs: seq<Employee>, s: Selector, direction: int) {
    forall i :: 0 <= i < |xs| - 1 ==> Precedes(xs[i], xs[i + 1], s, direction)
  }

  /** Every pair is in order, not just each neighbour pair. */
  predicate SortedPairwise(xs: seq<Employee>, s: Selector, direction: int) {
    forall i, j :: 0 <= i < j < |xs| ==> Precedes(xs[i], xs[j], s, direction)
  }

  lemma PrecedesTotal(a: Employee, b: Employee, s: Selector, direction: int)
    requires direction == 1 || direction == -1
    ensures Precedes(a, b, s, direction) || Precedes(b, a, s, direction)
  {
    FieldOrderAntisymmetric(a, b, s);
  }

  lemma PrecedesTransitive(a: Employee, b: Employee, c: Employee, s: Selector, direction: int)
    requires direction == 1 || direction == -1
    requires Precedes(a, b, s, direction) && Precedes(b, c, s, direction)
    ensures Precedes(a, c, s, direction)
  {
    if direction == 1 {
      FieldOrderTransitive(a, b, c, s);
    } else {
      FieldOrderAntisymmetric(a, b, s);
      FieldOrderAntisymmetric(b, c, s);
      FieldOrderAntisymmetric(a, c, s);
      FieldOrderTransitive(c, b, a, s);
    }
  }

  /** Puts `x` in front of the first element it may precede. */
  function Insert(x: Employee, xs: seq<Employee>, s: Selector, direction: int): (r: seq<Employee>)
    ensures multiset(r) == multiset(xs) + multiset{x}
    ensures |r| == |xs| + 1
    ensures r[0] == x || (|xs| > 0 && r[0] == xs[0])
  {
    if |xs| == 0 then [x]
    else if Precedes(x, xs[0], s, direction) then [x] + xs
    else
      assert xs == [xs[0]] + xs[1..];
      [xs[0]] + Insert(x, xs[1..], s, direction)
  }

  lemma {:induction false} InsertSorted(x: Employee, xs: seq<Employee>, s: Selector, direction: int)
    requires direction == 1 || direction == -1
    requires Sorted(xs, s, direction)
    ensures Sorted(Insert(x, xs, s, direction), s, direction)
  {
    if |xs| > 0 && !Precedes(x, xs[0], s, direction) {
      var rest := Insert(x, xs[1..], s, direction);
      InsertSorted(x, xs[1..], s, direction);
      PrecedesTotal(x, xs[0], s, direction);
      assert Precedes(xs[0], rest[0], s, direction);
    }
  }

  lemma MultisetCons(xs: seq<Employee>)
    requires |xs| > 0
    ensures multiset(xs) == multiset(xs[1..]) + multiset{xs[0]}
  {
    assert xs == [xs[0]] + xs[1..];
  }

  /** `Array.Sort` on a known field: a sorted permutation of the input. Which of several
      equal elements comes first is not specified, so neither is stability. */
  function SortBy(xs: seq<Employee>, s: Selector, direction: int): (r: seq<Employee>)
    requires direction == 1 || direction == -1
    ensures multiset(r) == multiset(xs)
    ensures |r| == |xs|
    ensures Sorted(r, s, direction)
  {
    if |xs| == 0 then []
    else
      var rest := SortBy(xs[1..], s, direction);
      InsertSorted(xs[0], rest, s, direction);
      MultisetCons(xs);
      Insert(xs[0], rest, s, direction)
  }

  /** In a sorted sequence every earlier element precedes every later one. */
  lemma {:induction false} SortedIsPairwise(xs: seq<Employee>, s: Selector, direction: int)
    requires direction == 1 || direction == -1
    requires Sorted(xs, s, direction)
    ensures SortedPairwise(xs, s, direction)
  {
    forall i, j | 0 <= i < j < |xs|
      ensures Precedes(xs[i], xs[j], s, direction)
    {
      PrecedesUpTo(xs, s, direction, i, j);
    }
  }

  lemma {:induction false} PrecedesUpTo(xs: seq<Employee>, s: Selector, direction: int, i: int, j: int)
    requires direction == 1 || direction == -1
    requires Sorted(xs, s, direction)
    requires 0 <= i < j < |xs|
    ensures Precedes(xs[i], xs[j], s, direction)
    decreases j - i
  {
    if i + 1 < j {
      PrecedesUpTo(xs, s, direction, i + 1, j);
      PrecedesTransitive(xs[i], xs[i + 1], xs[j], s, direction);
    }
  }

  /** Sorting with `Employee.CompareTo` under the stored options. `Array.Sort` leaves an
      array of one element or none alone without comparing; on a longer one an unknown
      field name makes the comparison, and so the whole sort, fail. */
  function SortEmployees(xs: seq<Employee>, options: SortOptions): (r: Result<seq<Employee>, CompareError>)
    requires options.direction == 1 || options.direction == -1
    ensures r.Err? <==> |xs| > 1 && PropertyFor(options.field).None?
    ensures r.Err? ==> r.error == UnknownField(options.field)
    ensures |xs| <= 1 ==> r == Ok(xs)
    ensures r.Ok? ==> multiset(r.value) == multiset(xs)
  {
    if |xs| <= 1 then Ok(xs)
    else match PropertyFor(options.field)
      case None => Err(UnknownField(options.field))
      case Some(s) => Ok(SortBy(xs, s, options.direction))
  }

  /** After a successful sort, `CompareTo` puts no later element before an earlier one. */
  lemma SortEmployeesOrdered(xs: seq<Employee>, options: SortOptions, i: int, j: int)
    requires options.direction == 1 || options.direction == -1
    requires SortEmployees(xs, options).Ok?
    requires 0 <= i < j < |xs|
    ensures var r := SortEmployees(xs, options).value;
            CompareTo(r[i], Some(r[j]), options).Ok? && CompareTo(r[i], Some(r[j]), options).value <= 0
  {
    var s := PropertyFor(options.field).value;
    var r := SortEmployees(xs, options).value;
    SortedIsPairwise(r, s, options.direction);
    assert Precedes(r[i], r[j], s, options.direction);
  }

  /** `ChooseSortOptions` once its input is read: the schema name becomes the property
      name, and menu item 1 means ascending. `menuItem` is 1 or 2 after the prompt loop. */
  function ChooseSortOptions(selectValue: string, menuItem: int): (r: Result<(string, bool), SelectionError>)
    ensures selectValue == [] <==> r == Err(EmptyFieldName)
    ensures r == Err(UnknownFieldName) <==> selectValue != [] && SchemaSelector(selectValue).None?
    ensures r.Err? <==> SchemaSelector(selectValue).None?
    ensures r.Ok? ==> r.value.0 == PropertyName(SchemaSelector(selectValue).value)
    ensures r.Ok? ==> (r.value.1 <==> menuItem == 1)
  {
    if selectValue == [] then Err(EmptyFieldName)
    else match SchemaSelector(selectValue)
      case None => Err(UnknownFieldName)
      case Some(s) => Ok((PropertyName(s), menuItem == 1))
  }

  /** Options chosen at the prompt always name a real property, so the sort that follows
      never fails and orders by the chosen field. */
  lemma PromptedSortSucceeds(xs: seq<Employee>, selectValue: string, menuItem: int)
    requires ChooseSortOptions(selectValue, menuItem).Ok?
    ensures var (field, ascending) := ChooseSortOptions(selectValue, menuItem).value;
            var r := SortEmployees(xs, SetSortOptions(field, ascending));
            r.Ok? && r.value == SortBy(xs, SchemaSelector(selectValue).value, if menuItem == 1 then 1 else -1)
  {
    PropertyForName(SchemaSelector(selectValue).value);
  }
}
