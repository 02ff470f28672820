/** What the serializer writes, read back by the line parser, the schema check and the
    conversion; and the empty-projects case where that fails. */
module RoundTrip {
  import opened Outcomes
  import opened Text
  import opened Numerals
  import opened Values
  import opened LineParser
  import opened Schema
  import opened JsonReader
  import opened Employees
  import opened EmployeeUtils

  /** A key line of the serializer: four spaces, the quoted key, a colon and a space. */
  function KeyLine(k: string, v: string): string {
    "    \"" + k + "\": " + v
  }

  /** The element lines of a non-empty projects array: quoted, six spaces in, a comma after
      all but the last. */
  function ProjectLines(ps: seq<string>): seq<string>
    decreases |ps|
  {
    if |ps| == 0 then []
    else if |ps| == 1 then ["      " + Quote(ps[0])]
    else ["      " + Quote(ps[0]) + ","] + ProjectLines(ps[1..])
  }

  /** The six scalar key lines, in schema order, from the rendered field values. */
  function ScalarLinesOf(id: string, name: string, age: string, dept: string, mgr: string, pay: string): seq<string> {
    [KeyLine("employee_id", id + ","),
     KeyLine("full_name", Quote(name) + ","),
     KeyLine("age", age + ","),
     KeyLine("department", Quote(dept) + ","),
     KeyLine("is_manager", mgr + ","),
     KeyLine("salary", pay + ",")]
  }

  function ScalarLines(e: Employee, render: real -> string): seq<string> {
    ScalarLinesOf(IntToString(e.employeeId), e.fullName, IntToString(e.age), e.department,
                  BoolText(e.isManager), render(e.salary))
  }

  /** The lines of `ToString`'s output, `projects` lines given. */
  function ObjectLinesWith(e: Employee, render: real -> string, projectsLines: seq<string>): seq<string> {
    ["  {"] + ScalarLines(e, render) + projectsLines + ["  },"]
  }

  /** The projects key line, the element lines and the closing bracket line. */
  function ArrayBlock(ps: seq<string>): seq<string> {
    [KeyLine("projects", "[")] + ProjectLines(ps) + ["    ]"]
  }

  /** The lines of `ToString`'s output: an empty projects array stays on its key line. */
  function ObjectLines(e: Employee, render: real -> string): seq<string> {
    ObjectLinesWith(e, render, if |e.projects| > 0 then ArrayBlock(e.projects) else [KeyLine("projects", "[]")])
  }

  /** The lines of `ToStringFixed`'s output: the brackets always on lines of their own. */
  function ObjectLinesFixed(e: Employee, render: real -> string): seq<string> {
    ObjectLinesWith(e, render, ArrayBlock(e.projects))
  }

  lemma {:induction false} JoinCons(a: string, rest: seq<string>, sep: string)
    requires |rest| > 0
    ensures Join([a] + rest, sep) == a + sep + Join(rest, sep)
  {
    assert ([a] + rest)[1..] == rest;
  }

  lemma {:induction false} JoinAppend(a: seq<string>, b: seq<string>, sep: string)
    requires |a| > 0 && |b| > 0
    ensures Join(a + b, sep) == Join(a, sep) + sep + Join(b, sep)
    decreases |a|
  {
    if |a| == 1 {
      JoinCons(a[0], b, sep);
      assert a + b == [a[0]] + b;
    } else {
      JoinAppend(a[1..], b, sep);
      assert a + b == [a[0]] + (a[1..] + b);
      JoinCons(a[0], a[1..] + b, sep);
      JoinCons(a[0], a[1..], sep);
      assert [a[0]] + a[1..] == a;
    }
  }

  /** The element lines joined by line breaks are the quoted projects joined as the
      serializer joins them. */
  lemma {:induction false} ProjectLinesText(ps: seq<string>)
    requires |ps| > 0
    ensures Join(ProjectLines(ps), "\n") == "      " + Join(Quoted(ps), ",\n      ")
    decreases |ps|
  {
    var q := Quoted(ps);
    if |ps| > 1 {
      ProjectLinesText(ps[1..]);
      assert Quoted(ps[1..]) == q[1..];
      JoinCons("      " + Quote(ps[0]) + ",", ProjectLines(ps[1..]), "\n");
      JoinCons(q[0], q[1..], ",\n      ");
      assert [q[0]] + q[1..] == q;
    }
  }

  /** Seven lines joined by line breaks. */
  lemma JoinSeven(h0: string, h1: string, h2: string, h3: string, h4: string, h5: string, h6: string)
    ensures Join([h0, h1, h2, h3, h4, h5, h6], "\n") == h0 + "\n" + h1 + "\n" + h2 + "\n" + h3 + "\n" + h4 + "\n" + h5 + "\n" + h6
  {
    JoinCons(h5, [h6], "\n");
    assert [h5] + [h6] == [h5, h6];
    JoinCons(h4, [h5, h6], "\n");
    assert [h4] + [h5, h6] == [h4, h5, h6];
    JoinCons(h3, [h4, h5, h6], "\n");
    assert [h3] + [h4, h5, h6] == [h3, h4, h5, h6];
    JoinCons(h2, [h3, h4, h5, h6], "\n");
    assert [h2] + [h3, h4, h5, h6] == [h2, h3, h4, h5, h6];
    JoinCons(h1, [h2, h3, h4, h5, h6], "\n");
    assert [h1] + [h2, h3, h4, h5, h6] == [h1, h2, h3, h4, h5, h6];
    JoinCons(h0, [h1, h2, h3, h4, h5, h6], "\n");
    assert [h0] + [h1, h2, h3, h4, h5, h6] == [h0, h1, h2, h3, h4, h5, h6];
  }

  /** A key line with its line break is the serializer's interpolated piece for that key. */
  lemma KeyLineUnit(k: string, v: string)
    ensures KeyLine(k, v + ",") + "\n" == ("    \"" + k + "\": ") + v + ",\n"
  {
  }

  lemma Regroup(h0: string, h1: string, h2: string, h3: string, h4: string, h5: string, h6: string,
                u0: string, u1: string, u2: string, u3: string, u4: string, u5: string, u6: string, rest: string)
    requires u0 == h0 + "\n" && u1 == h1 + "\n" && u2 == h2 + "\n" && u3 == h3 + "\n"
    requires u4 == h4 + "\n" && u5 == h5 + "\n" && u6 == h6 + "\n"
    ensures h0 + "\n" + h1 + "\n" + h2 + "\n" + h3 + "\n" + h4 + "\n" + h5 + "\n" + h6 + "\n" + rest
            == u0 + u1 + u2 + u3 + u4 + u5 + u6 + rest
  {
  }

  /** The key prefixes as the serializer spells them. */
  lemma KeyPrefixes()
    ensures "    \"" + "employee_id" + "\": " == "    \"employee_id\": "
    ensures "    \"" + "full_name" + "\": " == "    \"full_name\": "
    ensures "    \"" + "age" + "\": " == "    \"age\": "
    ensures "    \"" + "department" + "\": " == "    \"department\": "
    ensures "    \"" + "is_manager" + "\": " == "    \"is_manager\": "
    ensures "    \"" + "salary" + "\": " == "    \"salary\": "
  {
  }

  lemma HeadText(id: string, name: string, age: string, dept: string, mgr: string, pay: string, rest: string)
    ensures Join(["  {"] + ScalarLinesOf(id, name, age, dept, mgr, pay), "\n") + "\n" + rest ==
      "  {\n" +
      ("    \"employee_id\": " + id + ",\n") +
      ("    \"full_name\": " + Quote(name) + ",\n") +
      ("    \"age\": " + age + ",\n") +
      ("    \"department\": " + Quote(dept) + ",\n") +
      ("    \"is_manager\": " + mgr + ",\n") +
      ("    \"salary\": " + pay + ",\n") + rest
  {
    var h := ScalarLinesOf(id, name, age, dept, mgr, pay);
    assert ["  {"] + h == ["  {", h[0], h[1], h[2], h[3], h[4], h[5]];
    JoinSeven("  {", h[0], h[1], h[2], h[3], h[4], h[5]);
    KeyPrefixes();
    KeyLineUnit("employee_id", id);
    KeyLineUnit("full_name", Quote(name));
    KeyLineUnit("age", age);
    KeyLineUnit("department", Quote(dept));
    KeyLineUnit("is_manager", mgr);
    KeyLineUnit("salary", pay);
    Regroup("  {", h[0], h[1], h[2], h[3], h[4], h[5],
            "  {\n",
            "    \"employee_id\": " + id + ",\n",
            "    \"full_name\": " + Quote(name) + ",\n",
            "    \"age\": " + age + ",\n",
            "    \"department\": " + Quote(dept) + ",\n",
            "    \"is_manager\": " + mgr + ",\n",
            "    \"salary\": " + pay + ",\n", rest);
  }

  lemma Assoc(a: string, b: string, c: string)
    ensures a + (b + c) == a + b + c
  {
  }

  /** An object's lines join to the head's text, the projects text and the closing brace. */
  lemma {:induction false} ObjectJoinSplit(head: seq<string>, projectsLines: seq<string>)
    requires |head| > 0 && |projectsLines| > 0
    ensures Join(head + projectsLines + ["  },"], "\n")
         == Join(head, "\n") + "\n" + (Join(projectsLines, "\n") + "\n" + "  },")
  {
    JoinAppend(projectsLines, ["  },"], "\n");
    JoinAppend(head, projectsLines + ["  },"], "\n");
    assert head + projectsLines + ["  },"] == head + (projectsLines + ["  },"]);
  }

  /** The serializer's text, with the projects line and the closing brace as one piece. */
  lemma SerializeShape(e: Employee, render: real -> string, projectsText: string)
    ensures Serialize(e, render, projectsText) ==
      "  {\n" +
      ("    \"employee_id\": " + IntToString(e.employeeId) + ",\n") +
      ("    \"full_name\": " + Quote(e.fullName) + ",\n") +
      ("    \"age\": " + IntToString(e.age) + ",\n") +
      ("    \"department\": " + Quote(e.department) + ",\n") +
      ("    \"is_manager\": " + BoolText(e.isManager) + ",\n") +
      ("    \"salary\": " + render(e.salary) + ",\n") +
      (("    \"projects\": " + projectsText + "\n") + "  },")
  {
    var x := "  {\n" +
      ("    \"employee_id\": " + IntToString(e.employeeId) + ",\n") +
      ("    \"full_name\": " + Quote(e.fullName) + ",\n") +
      ("    \"age\": " + IntToString(e.age) + ",\n") +
      ("    \"department\": " + Quote(e.department) + ",\n") +
      ("    \"is_manager\": " + BoolText(e.isManager) + ",\n") +
      ("    \"salary\": " + render(e.salary) + ",\n");
    Assoc(x, "    \"projects\": " + projectsText + "\n", "  },");
  }

  /** Joining the lines with line breaks gives the serializer's text back, whenever the
      projects lines join to the projects key line. */
  lemma {:induction false} ObjectLinesText(e: Employee, render: real -> string, projectsLines: seq<string>, projectsText: string)
    requires |projectsLines| > 0
    requires Join(projectsLines, "\n") == "    \"projects\": " + projectsText
    ensures Join(ObjectLinesWith(e, render, projectsLines), "\n") == Serialize(e, render, projectsText)
  {
    var head := ["  {"] + ScalarLines(e, render);
    var rest := ("    \"projects\": " + projectsText + "\n") + "  },";
    ObjectJoinSplit(head, projectsLines);
    HeadText(IntToString(e.employeeId), e.fullName, IntToString(e.age), e.department,
             BoolText(e.isManager), render(e.salary), rest);
    SerializeShape(e, render, projectsText);
  }

  lemma ArrayBlockRegroup(p: string, jq: string)
    ensures p + "[" + "\n" + ("      " + jq + "\n" + "    ]") == p + ("[\n      " + jq + "\n    ]")
  {
    assert "[" + "\n" + "      " == "[\n      ";
    assert "\n" + "    ]" == "\n    ]";
  }

  /** The array block joins to the projects key line with the serializer's array text. */
  lemma ArrayBlockText(ps: seq<string>)
    ensures Join(ArrayBlock(ps), "\n") == "    \"projects\": " + ProjectsListFixed(ps)
  {
    var p := "    \"projects\": ";
    var kl := KeyLine("projects", "[");
    assert kl == p + "[" by {
      assert "    \"" + "projects" + "\": " == p;
    }
    var pl := ProjectLines(ps);
    assert ArrayBlock(ps) == [kl] + (pl + ["    ]"]);
    JoinCons(kl, pl + ["    ]"], "\n");
    if |ps| > 0 {
      JoinAppend(pl, ["    ]"], "\n");
      ProjectLinesText(ps);
      ArrayBlockRegroup(p, Join(Quoted(ps), ",\n      "));
    } else {
      assert pl + ["    ]"] == ["    ]"];
      assert "[" + "\n" + "    ]" == "[\n    ]";
    }
  }

  /** The lines of `ToString`'s output joined by line breaks are that output. */
  lemma ToStringLines(e: Employee, render: real -> string)
    ensures Join(ObjectLines(e, render), "\n") == ToString(e, render)
  {
    if |e.projects| > 0 {
      ArrayBlockText(e.projects);
      ObjectLinesText(e, render, ArrayBlock(e.projects), ProjectsList(e.projects));
    } else {
      assert KeyLine("projects", "[]") == "    \"projects\": " + "[]" by {
        assert "    \"" + "projects" + "\": " == "    \"projects\": ";
      }
      ObjectLinesText(e, render, [KeyLine("projects", "[]")], "[]");
    }
  }

  lemma ToStringFixedLines(e: Employee, render: real -> string)
    ensures Join(ObjectLinesFixed(e, render), "\n") == ToStringFixed(e, render)
  {
    ArrayBlockText(e.projects);
    ObjectLinesText(e, render, ArrayBlock(e.projects), ProjectsListFixed(e.projects));
  }

  /** Neither of the characters at which `ReadLine` ends a line: line feed and carriage return. */
  predicate SingleLine(s: string) {
    '\n' !in s && '\r' !in s
  }

  /** No line break inside the name, the department, the rendered salary or a project. */
  predicate SingleLineFields(e: Employee, render: real -> string) {
    SingleLine(e.fullName) && SingleLine(e.department) && SingleLine(render(e.salary))
    && forall i :: 0 <= i < |e.projects| ==> SingleLine(e.projects[i])
  }

  /** Lines that `ReadLine` returns one by one as written: none holds a line break, and
      none is empty, since an empty line ends the reading. */
  predicate ConsoleLines(lines: seq<string>) {
    forall i :: 0 <= i < |lines| ==> SingleLine(lines[i]) && |lines[i]| > 0
  }

  lemma {:induction false} ProjectLinesSingle(ps: seq<string>)
    requires forall i :: 0 <= i < |ps| ==> SingleLine(ps[i])
    ensures ConsoleLines(ProjectLines(ps))
    decreases |ps|
  {
    if |ps| > 1 {
      ProjectLinesSingle(ps[1..]);
    }
  }

  lemma ConsoleLinesAppend(a: seq<string>, b: seq<string>)
    requires ConsoleLines(a) && ConsoleLines(b)
    ensures ConsoleLines(a + b)
  {
    assert forall i :: 0 <= i < |b| ==> (a + b)[|a| + i] == b[i];
  }

  /** A key line breaks no line unless its value does. */
  lemma KeyLineSingle(k: string, v: string)
    requires SingleLine(k) && SingleLine(v)
    ensures SingleLine(KeyLine(k, v))
  {
  }

  lemma ScalarLinesSingle(e: Employee, render: real -> string)
    requires SingleLineFields(e, render)
    ensures ConsoleLines(["  {"] + ScalarLines(e, render))
  {
    var id, age := IntToString(e.employeeId), IntToString(e.age);
    assert SingleLine(id) && SingleLine(age) && SingleLine(BoolText(e.isManager));
    ScalarLinesOfSingle(id, e.fullName, age, e.department, BoolText(e.isManager), render(e.salary));
  }

  lemma ScalarLinesOfSingle(id: string, name: string, age: string, dept: string, mgr: string, pay: string)
    requires SingleLine(id) && SingleLine(name) && SingleLine(age) && SingleLine(dept) && SingleLine(mgr) && SingleLine(pay)
    ensures ConsoleLines(["  {"] + ScalarLinesOf(id, name, age, dept, mgr, pay))
  {
    var ls := ["  {"] + ScalarLinesOf(id, name, age, dept, mgr, pay);
    KeyLineSingle("employee_id", id + ",");
    KeyLineSingle("full_name", Quote(name) + ",");
    KeyLineSingle("age", age + ",");
    KeyLineSingle("department", Quote(dept) + ",");
    KeyLineSingle("is_manager", mgr + ",");
    KeyLineSingle("salary", pay + ",");
    assert SingleLine(ls[0]);
  }

  lemma ObjectLinesSingle(e: Employee, render: real -> string, projectsLines: seq<string>)
    requires SingleLineFields(e, render) && ConsoleLines(projectsLines)
    ensures ConsoleLines(ObjectLinesWith(e, render, projectsLines))
  {
    ScalarLinesSingle(e, render);
    ConsoleLinesAppend(["  {"] + ScalarLines(e, render), projectsLines);
    ConsoleLinesAppend(["  {"] + ScalarLines(e, render) + projectsLines, ["  },"]);
  }

  /** Lines without line breaks are what splitting their join gives back. */
  lemma {:induction false} SplitOfJoin(text: string, lines: seq<string>)
    requires |lines| > 0 && ConsoleLines(lines) && Join(lines, "\n") == text
    ensures Split(text, '\n') == lines
  {
    SplitJoin(lines, '\n');
  }

  lemma ArrayBlockSingle(ps: seq<string>)
    requires forall i :: 0 <= i < |ps| ==> SingleLine(ps[i])
    ensures ConsoleLines(ArrayBlock(ps))
  {
    ProjectLinesSingle(ps);
    ConsoleLinesAppend([KeyLine("projects", "[")], ProjectLines(ps));
    ConsoleLinesAppend([KeyLine("projects", "[")] + ProjectLines(ps), ["    ]"]);
  }

  /** Splitting `ToString`'s output at its line breaks gives its lines, when no field holds one. */
  lemma SplitToString(e: Employee, render: real -> string)
    requires SingleLineFields(e, render)
    ensures Split(ToString(e, render), '\n') == ObjectLines(e, render)
  {
    if |e.projects| > 0 {
      ArrayBlockSingle(e.projects);
      ObjectLinesSingle(e, render, ArrayBlock(e.projects));
    } else {
      ObjectLinesSingle(e, render, [KeyLine("projects", "[]")]);
    }
    ToStringLines(e, render);
    SplitOfJoin(ToString(e, render), ObjectLines(e, render));
  }

  lemma SplitToStringFixed(e: Employee, render: real -> string)
    requires SingleLineFields(e, render)
    ensures Split(ToStringFixed(e, render), '\n') == ObjectLinesFixed(e, render)
  {
    ArrayBlockSingle(e.projects);
    ObjectLinesSingle(e, render, ArrayBlock(e.projects));
    ToStringFixedLines(e, render);
    SplitOfJoin(ToStringFixed(e, render), ObjectLinesFixed(e, render));
  }

  /** The record the parser should build from an employee's lines: every field under its
      schema name, in schema order. */
  function RecordOf(e: Employee): Record {
    [("employee_id", Number(e.employeeId as real)),
     ("full_name", Text(e.fullName)),
     ("age", Number(e.age as real)),
     ("department", Text(e.department)),
     ("is_manager", Boolean(e.isManager)),
     ("salary", Number(e.salary)),
     ("projects", TextArray(e.projects))]
  }

  /** Text the parser gives back unchanged between quotes: no quote at either end. */
  predicate Unquoted(s: string) {
    |s| > 0 ==> s[0] != '"' && s[|s| - 1] != '"'
  }

  /** A project the array element trimming leaves alone: no space, comma or quote at either end. */
  predicate Unpadded(p: string) {
    |p| > 0 ==> !IsItemPadding(p[0]) && !IsItemPadding(p[|p| - 1])
  }

  /** An employee the serializer writes in a form the parser reads back: single-line
      fields, names without edge quotes, projects without edge padding, and a salary whose
      rendering is a plain decimal numeral of its value. */
  predicate Writable(e: Employee, render: real -> string) {
    && SingleLineFields(e, render)
    && Unquoted(e.fullName) && Unquoted(e.department)
    && (forall i :: 0 <= i < |e.projects| ==> Unpadded(e.projects[i]))
    && Numeral(render(e.salary)) == Some(e.salary)
  }

  /** No entry of the record has key `k`. */
  predicate NewKey(r: Record, k: string) {
    forall i :: 0 <= i < |r| ==> r[i].0 != k
  }

  lemma {:induction false} RunCons(m: Machine, l: string, rest: seq<string>)
    ensures Run(m, [l] + rest) == Run(Step(m, l), rest)
  {
    assert ([l] + rest)[1..] == rest;
  }

  /** A value text the key regex hands over whole and that is inferred as `value`. */
  predicate ScalarToken(v: string, value: Value) {
    && '\n' !in v && |v| > 0 && !IsSpace(v[0]) && !IsSpace(v[|v| - 1]) && v[0] != '['
    && ParseValue(v) == value
  }

  /** A key the regex captures whole. */
  predicate PlainKey(k: string) {
    '"' !in k && '\n' !in k
  }

  /** A serializer key line with a scalar value appends the inferred value under its key. */
  lemma ScalarKeyStep(m: Machine, k: string, v: string, value: Value)
    requires m.state == InsideObject
    requires PlainKey(k) && ScalarToken(v, value) && NewKey(m.current, k)
    ensures Step(m, KeyLine(k, v)) == m.(key := k, current := m.current + [(k, value)])
  {
    NewKeyAbsent(m.current, k);
    KeyLineSpelled(k, v);
    ScalarLineStep(m, "    ", k, v);
    AssignAppends(m.current, k, value);
  }

  lemma {:induction false} KeyLineSpelled(k: string, v: string)
    ensures KeyLine(k, v) == "    " + "\"" + k + "\": " + v
  {
  }

  lemma {:induction false} NewKeyAbsent(r: Record, k: string)
    requires NewKey(r, k)
    ensures k !in Keys(r)
  {
  }

  /** How the serializer writes a scalar field: an interpolated integer, a quoted string,
      a lower-case boolean, or the culture's rendering `t` of the double `x`. */
  datatype Token = IntToken(n: int) | QuotedToken(s: string) | BoolToken(b: bool) | RenderedToken(t: string, x: real)

  /** The value text of a key line, with its trailing comma. */
  function TokenText(tok: Token): string {
    match tok
    case IntToken(n) => IntToString(n) + ","
    case QuotedToken(s) => Quote(s) + ","
    case BoolToken(b) => BoolText(b) + ","
    case RenderedToken(t, _) => t + ","
  }

  /** The value the field holds. */
  function TokenValue(tok: Token): Value {
    match tok
    case IntToken(n) => Number(n as real)
    case QuotedToken(s) => Text(s)
    case BoolToken(b) => Boolean(b)
    case RenderedToken(_, x) => Number(x)
  }

  /** The field is written so that it can be read back: a string with no line break and
      no quote at either end, a rendering that is a numeral of the double. */
  predicate TokenOk(tok: Token) {
    match tok
    case QuotedToken(s) => '\n' !in s && Unquoted(s)
    case RenderedToken(t, x) => Numeral(t) == Some(x)
    case _ => true
  }

  /** `n,` is read back as the number `n`. */
  lemma IntegerToken(n: int)
    ensures ScalarToken(IntToString(n) + ",", Number(n as real))
  {
    var v := IntToString(n) + ",";
    assert v[0] == IntToString(n)[0];
    assert '\n' !in IntToString(n);
    ParseValueInteger(n);
  }

  /** `"s",` is read back as the text `s`. */
  lemma TextToken(s: string)
    requires '\n' !in s && Unquoted(s)
    ensures ScalarToken(Quote(s) + ",", Text(s))
  {
    assert Quote(s) + "," == "\"" + s + "\",";
    ParseValueQuoted(s);
  }

  /** `true,` and `false,` are read back as the boolean. */
  lemma BooleanToken(b: bool)
    ensures ScalarToken(BoolText(b) + ",", Boolean(b))
  {
    ParseValueBoolean(b);
  }

  /** A numeral followed by a comma is read back as its value. */
  lemma NumeralToken(t: string)
    requires Numeral(t).Some?
    ensures ScalarToken(t + ",", Number(Numeral(t).value))
  {
    NumeralChars(t);
    assert |t| > 0;
    ParseValueNumeral(t, ",");
  }

  /** Every well-written field text is read back as the field's value. */
  lemma TokenReads(tok: Token)
    requires TokenOk(tok)
    ensures ScalarToken(TokenText(tok), TokenValue(tok))
  {
    match tok
    case IntToken(n) => IntegerToken(n);
    case QuotedToken(s) => TextToken(s);
    case BoolToken(b) => BooleanToken(b);
    case RenderedToken(t, x) => NumeralToken(t);
  }

  /** A scalar key line: the key and how its value is written. */
  type Entry = (string, Token)

  function EntryLines(es: seq<Entry>): (ls: seq<string>)
    ensures |ls| == |es|
    ensures forall i :: 0 <= i < |es| ==> ls[i] == KeyLine(es[i].0, TokenText(es[i].1))
  {
    seq(|es|, i requires 0 <= i < |es| => KeyLine(es[i].0, TokenText(es[i].1)))
  }

  function EntryRecord(es: seq<Entry>): (r: Record)
    ensures |r| == |es|
    ensures forall i :: 0 <= i < |es| ==> r[i] == (es[i].0, TokenValue(es[i].1))
  {
    seq(|es|, i requires 0 <= i < |es| => (es[i].0, TokenValue(es[i].1)))
  }

  /** Every entry has a plain key and a well-written value, and its key is not yet in the
      record it is added to. */
  predicate ReadableEntries(r: Record, es: seq<Entry>)
    decreases |es|
  {
    |es| > 0 ==>
    (PlainKey(es[0].0) && TokenOk(es[0].1) && NewKey(r, es[0].0)
     && ReadableEntries(r + [(es[0].0, TokenValue(es[0].1))], es[1..]))
  }

  /** The first scalar key line of a readable run appends the first entry. */
  lemma {:induction false} EntriesRunHead(m: Machine, r: Record, es: seq<Entry>)
    requires m.state == InsideObject && m.current == r && |es| > 0 && ReadableEntries(r, es)
    ensures Run(m, EntryLines(es))
         == Run(m.(key := es[0].0, current := r + [(es[0].0, TokenValue(es[0].1))]), EntryLines(es[1..]))
  {
    var ls := EntryLines(es);
    TokenReads(es[0].1);
    ScalarKeyStep(m, es[0].0, TokenText(es[0].1), TokenValue(es[0].1));
    assert ls == [ls[0]] + ls[1..];
    RunCons(m, ls[0], ls[1..]);
    assert ls[1..] == EntryLines(es[1..]);
  }

  lemma EntryRecordCons(r: Record, es: seq<Entry>)
    requires |es| > 0
    ensures r + EntryRecord(es) == (r + [(es[0].0, TokenValue(es[0].1))]) + EntryRecord(es[1..])
  {
    assert EntryRecord(es) == [(es[0].0, TokenValue(es[0].1))] + EntryRecord(es[1..]);
  }

  /** The key of the last entry, `k` when there is none. */
  function LastKey(k: string, es: seq<Entry>): string {
    if |es| > 0 then es[|es| - 1].0 else k
  }

  lemma LastKeyCons(k: string, es: seq<Entry>)
    requires |es| > 0
    ensures LastKey(k, es) == LastKey(es[0].0, es[1..])
  {
  }

  /** Scalar key lines, read inside an object, append their entries in order. */
  lemma {:induction false} EntriesRun(m: Machine, r: Record, es: seq<Entry>)
    requires m.state == InsideObject && m.current == r && ReadableEntries(r, es)
    ensures Run(m, EntryLines(es)) == m.(key := LastKey(m.key, es), current := r + EntryRecord(es))
    decreases |es|
  {
    if |es| > 0 {
      var r1 := r + [(es[0].0, TokenValue(es[0].1))];
      var m1 := m.(key := es[0].0, current := r1);
      EntriesRunHead(m, r, es);
      EntriesRun(m1, r1, es[1..]);
      var m2 := Run(m1, EntryLines(es[1..]));
      assert Run(m, EntryLines(es)) == m2;
      EntryRecordCons(r, es);
      LastKeyCons(m.key, es);
    } else {
      assert r + EntryRecord(es) == r;
    }
  }

  /** The six scalar entries of an employee as the serializer writes them. */
  function ScalarEntries(e: Employee, render: real -> string): seq<Entry> {
    [("employee_id", IntToken(e.employeeId)),
     ("full_name", QuotedToken(e.fullName)),
     ("age", IntToken(e.age)),
     ("department", QuotedToken(e.department)),
     ("is_manager", BoolToken(e.isManager)),
     ("salary", RenderedToken(render(e.salary), e.salary))]
  }

  lemma {:induction false} ReadableCons(r: Record, x: Entry, rest: seq<Entry>)
    requires PlainKey(x.0) && TokenOk(x.1) && NewKey(r, x.0)
    requires ReadableEntries(r + [(x.0, TokenValue(x.1))], rest)
    ensures ReadableEntries(r, [x] + rest)
  {
    assert ([x] + rest)[1..] == rest;
  }

  /** The schema's field names are pairwise different. */
  lemma FieldNamesDistinct()
    ensures forall i, j :: 0 <= i < j < |FieldNames| ==> FieldNames[i] != FieldNames[j]
  {
  }

  /** The key at position `k` of the scalar entries is not among the earlier ones. */
  lemma ScalarKeyNew(e: Employee, render: real -> string, k: nat)
    requires k < 6
    ensures NewKey(EntryRecord(ScalarEntries(e, render)[..k]), ScalarEntries(e, render)[k].0)
  {
    var es := ScalarEntries(e, render);
    FieldNamesDistinct();
    assert forall i :: 0 <= i < 6 ==> es[i].0 == FieldNames[i];
  }

  lemma ScalarTokenOk(e: Employee, render: real -> string, k: nat)
    requires Writable(e, render) && k < 6
    ensures PlainKey(ScalarEntries(e, render)[k].0) && TokenOk(ScalarEntries(e, render)[k].1)
  {
    var es := ScalarEntries(e, render);
    assert es[k].0 == FieldNames[k];
    FieldNamePlain(k);
    if k == 1 {
      assert es[1].1 == QuotedToken(e.fullName);
    } else if k == 3 {
      assert es[3].1 == QuotedToken(e.department);
    } else if k == 5 {
      assert es[5].1 == RenderedToken(render(e.salary), e.salary);
    }
  }

  /** No field name holds a quote or a line break. */
  lemma FieldNamePlain(k: nat)
    requires k < |FieldNames|
    ensures PlainKey(FieldNames[k])
  {
  }

  /** The scalar fields of a writable employee from position `k` on can be read in a row
      into an object that holds the fields before `k`. */
  lemma {:induction false} ScalarEntriesReadableFrom(e: Employee, render: real -> string, k: nat)
    requires Writable(e, render) && k <= 6
    ensures ReadableEntries(EntryRecord(ScalarEntries(e, render)[..k]), ScalarEntries(e, render)[k..])
    decreases 6 - k
  {
    var es := ScalarEntries(e, render);
    if k < 6 {
      var r := EntryRecord(es[..k]);
      ScalarEntriesReadableFrom(e, render, k + 1);
      EntryRecordSnoc(es, k);
      ScalarKeyNew(e, render, k);
      ScalarTokenOk(e, render, k);
      ReadableCons(r, es[k], es[k + 1..]);
    }
  }

  /** Taking one more entry extends the record by that entry. */
  lemma EntryRecordSnoc(es: seq<Entry>, k: nat)
    requires k < |es|
    ensures EntryRecord(es[..k]) + [(es[k].0, TokenValue(es[k].1))] == EntryRecord(es[..k + 1])
    ensures [es[k]] + es[k + 1..] == es[k..]
  {
  }

  lemma ScalarEntriesReadable(e: Employee, render: real -> string)
    requires Writable(e, render)
    ensures ReadableEntries([], ScalarEntries(e, render))
  {
    ScalarEntriesReadableFrom(e, render, 0);
    assert ScalarEntries(e, render)[0..] == ScalarEntries(e, render);
  }

  lemma ScalarEntriesShape(e: Employee, render: real -> string)
    ensures EntryLines(ScalarEntries(e, render)) == ScalarLines(e, render)
    ensures EntryRecord(ScalarEntries(e, render)) == RecordOf(e)[..6]
  {
    ScalarEntriesLines(e, render);
    ScalarEntriesRecord(e, render);
  }

  lemma ScalarEntriesLines(e: Employee, render: real -> string)
    ensures EntryLines(ScalarEntries(e, render)) == ScalarLines(e, render)
  {
    var es := ScalarEntries(e, render);
    var ls := ScalarLines(e, render);
    assert |ls| == 6;
    forall i | 0 <= i < 6 ensures EntryLines(es)[i] == ls[i] {
    }
  }

  lemma ScalarEntriesRecord(e: Employee, render: real -> string)
    ensures EntryRecord(ScalarEntries(e, render)) == RecordOf(e)[..6]
  {
    var es := ScalarEntries(e, render);
    var r := RecordOf(e)[..6];
    forall i | 0 <= i < 6 ensures EntryRecord(es)[i] == r[i] {
    }
  }

  /** The six scalar lines, read inside an object that is still empty, give the first six
      entries of the record. */
  lemma {:induction false} ScalarRun(m: Machine, e: Employee, render: real -> string)
    requires m.state == InsideObject && m.current == []
    requires Writable(e, render)
    ensures Run(m, ScalarLines(e, render)) == m.(key := "salary", current := RecordOf(e)[..6])
  {
    ScalarEntriesReadable(e, render);
    ScalarEntriesShape(e, render);
    EntriesRun(m, [], ScalarEntries(e, render));
  }

  /** Trimming a string made only of `drop` characters leaves nothing. */
  lemma TrimAllPadding(s: string, drop: char -> bool)
    requires forall k :: 0 <= k < |s| ==> drop(s[k])
    ensures Trim(s, drop) == ""
  {
    TrimStartSpec(s, drop);
  }

  /** An element line trims to the quoted project, with its comma if it has one. */
  lemma ProjectLineTrimmed(p: string, tail: string)
    requires tail == "" || tail == ","
    ensures TrimWhite("      " + Quote(p) + tail) == Quote(p) + tail
    ensures StartsWith(Quote(p) + tail, '"')
  {
    var t := Quote(p) + tail;
    assert "      " + Quote(p) + tail == "      " + t;
    assert t[0] == '"';
    assert t[|t| - 1] == '"' || t[|t| - 1] == ',';
    TrimStartPadding("      ", t, IsSpace);
    TrimUntouched(t, IsSpace);
  }

  /** The element trimming of a quoted project, with or without its comma, gives the project. */
  lemma ProjectItem(p: string, tail: string)
    requires Unpadded(p) && (tail == "" || tail == ",")
    ensures Item(Quote(p) + tail) == p
  {
    var t := Quote(p) + tail;
    if |p| > 0 {
      assert t == "\"" + (p + ("\"" + tail));
      TrimStartPadding("\"", p + ("\"" + tail), IsItemPadding);
      assert forall k :: 0 <= k < |"\"" + tail| ==> IsItemPadding(("\"" + tail)[k]);
      TrimEndPadding(p, "\"" + tail, IsItemPadding);
    } else {
      assert forall k :: 0 <= k < |t| ==> IsItemPadding(t[k]);
      TrimAllPadding(t, IsItemPadding);
    }
  }

  /** The element line of project `p`, with its comma when more elements follow. */
  lemma ProjectLine(p: string, tail: string)
    requires Unpadded(p) && (tail == "" || tail == ",")
    ensures !StartsWith(TrimWhite("      " + Quote(p) + tail), ']')
    ensures Item(TrimWhite("      " + Quote(p) + tail)) == p
  {
    ProjectLineTrimmed(p, tail);
    ProjectItem(p, tail);
  }

  /** The element lines hold no closing bracket, and are read back as the projects. */
  lemma {:induction false} ProjectLinesItems(ps: seq<string>)
    requires forall i :: 0 <= i < |ps| ==> Unpadded(ps[i])
    ensures NoneStartWith(ProjectLines(ps), ']')
    ensures Items(ProjectLines(ps)) == ps
    decreases |ps|
  {
    if |ps| == 1 {
      ProjectLine(ps[0], "");
      assert "      " + Quote(ps[0]) + "" == "      " + Quote(ps[0]);
    } else if |ps| > 1 {
      ProjectLine(ps[0], ",");
      ProjectLinesItems(ps[1..]);
      var ls := ProjectLines(ps);
      assert ls[1..] == ProjectLines(ps[1..]);
      assert [ps[0]] + ps[1..] == ps;
    }
  }

  /** The `projects` key line enters the array state whether the serializer wrote `[` (a
      list that continues on the next lines) or `[]` (an empty list closed on the same line). */
  lemma ArrayOpenStep(m: Machine, v: string)
    requires m.state == InsideObject
    requires v == "[" || v == "[]"
    ensures Step(m, KeyLine("projects", v)) == m.(state := InsideArray, key := "projects", items := [])
  {
    assert KeyLine("projects", v) == "    " + "\"" + "projects" + "\": " + v;
    ArrayLineStep(m, "    ", "projects", v);
  }

  /** The closing bracket line stores the elements under the array's key. */
  lemma ArrayCloseStep(m: Machine, r: Record)
    requires m.state == InsideArray && m.current == r && NewKey(r, m.key)
    ensures Step(m, "    ]") == m.(state := InsideObject, current := r + [(m.key, TextArray(m.items))])
  {
    assert TrimWhite("    ]") == "]";
    assert m.key !in Keys(r);
    AssignAppends(r, m.key, TextArray(m.items));
  }

  /** The element lines, read inside an empty array, collect the projects. */
  lemma {:induction false} ArrayItemsRun(m: Machine, ps: seq<string>)
    requires m.state == InsideArray && m.items == []
    requires forall i :: 0 <= i < |ps| ==> Unpadded(ps[i])
    ensures Run(m, ProjectLines(ps)) == m.(items := ps)
  {
    var ls := ProjectLines(ps);
    ProjectLinesItems(ps);
    ArrayAbsorbs(m, ls);
    assert m.items + Items(ls) == ps;
  }

  /** The element lines and the closing bracket line, read inside an empty array. */
  lemma {:induction false} ArrayBodyRun(m: Machine, r: Record, ps: seq<string>)
    requires m.state == InsideArray && m.items == [] && m.current == r && NewKey(r, m.key)
    requires forall i :: 0 <= i < |ps| ==> Unpadded(ps[i])
    ensures Run(m, ProjectLines(ps) + ["    ]"])
         == m.(state := InsideObject, items := ps, current := r + [(m.key, TextArray(ps))])
  {
    var m2 := m.(items := ps);
    ArrayItemsRun(m, ps);
    ArrayCloseStep(m2, r);
    assert Run(m2, ["    ]"]) == Step(m2, "    ]");
    RunAppend(m, ProjectLines(ps), ["    ]"]);
  }

  /** The projects block, read inside an object that has no `projects` entry yet, appends
      the projects as a list and leaves the parser inside the object. */
  lemma {:induction false} ArrayRun(m: Machine, r: Record, ps: seq<string>)
    requires m.state == InsideObject && m.current == r && NewKey(r, "projects")
    requires forall i :: 0 <= i < |ps| ==> Unpadded(ps[i])
    ensures Run(m, ArrayBlock(ps)) == m.(key := "projects", items := ps, current := r + [("projects", TextArray(ps))])
  {
    var m1 := m.(state := InsideArray, key := "projects", items := []);
    var rest := ProjectLines(ps) + ["    ]"];
    ArrayOpenStep(m, "[");
    ArrayBodyRun(m1, r, ps);
    assert ArrayBlock(ps) == [KeyLine("projects", "[")] + rest;
    RunCons(m, KeyLine("projects", "["), rest);
  }

  /** Running over four blocks is running over each in turn. */
  lemma {:induction false} RunFour(m: Machine, a: seq<string>, b: seq<string>, c: seq<string>, d: seq<string>)
    ensures Run(m, a + b + c + d) == Run(Run(Run(Run(m, a), b), c), d)
  {
    RunAppend(m, a + b + c, d);
    RunAppend(m, a + b, c);
    RunAppend(m, a, b);
  }

  /** The record of an employee holds the schema's field names in order. */
  lemma RecordOfKeys(e: Employee)
    ensures |RecordOf(e)| == |FieldNames|
    ensures forall i :: 0 <= i < |FieldNames| ==> RecordOf(e)[i].0 == FieldNames[i]
  {
  }

  /** The opening brace line starts an empty object. */
  lemma ObjectOpenStep(m: Machine)
    requires m.state == OutsideObject
    ensures Step(m, "  {") == m.(state := InsideObject, current := [])
  {
    assert TrimWhite("  {") == "{";
  }

  /** The closing brace line emits the object and leaves it. */
  lemma ObjectCloseStep(m: Machine)
    requires m.state == InsideObject
    ensures Step(m, "  },").state == OutsideObject
    ensures Step(m, "  },").records == m.records + [m.current]
  {
    assert TrimWhite("  },") == "},";
  }

  /** The scalar lines and the projects block, read inside an empty object, fill it with
      the employee's record. */
  lemma {:induction false} FieldsRun(m: Machine, e: Employee, render: real -> string)
    requires m.state == InsideObject && m.current == []
    requires Writable(e, render)
    ensures Run(Run(m, ScalarLines(e, render)), ArrayBlock(e.projects)).state == InsideObject
    ensures Run(Run(m, ScalarLines(e, render)), ArrayBlock(e.projects)).current == RecordOf(e)
    ensures Run(Run(m, ScalarLines(e, render)), ArrayBlock(e.projects)).records == m.records
  {
    var r := RecordOf(e);
    ScalarRun(m, e, render);
    var m2 := m.(key := "salary", current := r[..6]);
    RecordOfLast(e);
    ArrayRun(m2, r[..6], e.projects);
  }

  /** The projects entry is the last of an employee's record, and its key is new to the rest. */
  lemma RecordOfLast(e: Employee)
    ensures NewKey(RecordOf(e)[..6], "projects")
    ensures RecordOf(e)[..6] + [("projects", TextArray(e.projects))] == RecordOf(e)
  {
    var r := RecordOf(e);
    RecordOfKeys(e);
    FieldNamesDistinct();
    assert r[..6] + [r[6]] == r;
  }

  /** An object's lines, read outside any object: the brace lines around field lines that
      fill an empty object with `rec` emit exactly `rec`. */
  lemma {:induction false} ObjectBlockRun(m: Machine, fields: seq<string>, rec: Record)
    requires m.state == OutsideObject
    requires Run(m.(state := InsideObject, current := []), fields).state == InsideObject
    requires Run(m.(state := InsideObject, current := []), fields).current == rec
    requires Run(m.(state := InsideObject, current := []), fields).records == m.records
    ensures Run(m, ["  {"] + fields + ["  },"]).state == OutsideObject
    ensures Run(m, ["  {"] + fields + ["  },"]).records == m.records + [rec]
  {
    var m1 := m.(state := InsideObject, current := []);
    ObjectOpenStep(m);
    assert Run(m, ["  {"]) == m1;
    var m2 := Run(m1, fields);
    ObjectCloseStep(m2);
    assert Run(m2, ["  },"]) == Step(m2, "  },");
    RunAppend(m, ["  {"] + fields, ["  },"]);
    RunAppend(m, ["  {"], fields);
  }

  /** The lines of `ToStringFixed`, read outside any object, emit exactly the employee's record. */
  lemma {:induction false} ObjectRunFixed(m: Machine, e: Employee, render: real -> string)
    requires m.state == OutsideObject && Writable(e, render)
    ensures Run(m, ObjectLinesFixed(e, render)).state == OutsideObject
    ensures Run(m, ObjectLinesFixed(e, render)).records == m.records + [RecordOf(e)]
  {
    FieldsRunJoined(m.(state := InsideObject, current := []), e, render);
    ObjectBlockRun(m, ScalarLines(e, render) + ArrayBlock(e.projects), RecordOf(e));
    ObjectLinesFixedShape(e, render);
  }

  lemma {:induction false} FieldsRunJoined(m: Machine, e: Employee, render: real -> string)
    requires m.state == InsideObject && m.current == []
    requires Writable(e, render)
    ensures Run(m, ScalarLines(e, render) + ArrayBlock(e.projects)).state == InsideObject
    ensures Run(m, ScalarLines(e, render) + ArrayBlock(e.projects)).current == RecordOf(e)
    ensures Run(m, ScalarLines(e, render) + ArrayBlock(e.projects)).records == m.records
  {
    FieldsRun(m, e, render);
    RunAppend(m, ScalarLines(e, render), ArrayBlock(e.projects));
  }

  lemma ObjectLinesFixedShape(e: Employee, render: real -> string)
    ensures ObjectLinesFixed(e, render) == ["  {"] + (ScalarLines(e, render) + ArrayBlock(e.projects)) + ["  },"]
  {
  }

  /** What the save loop writes for one employee: `ToString`, or the corrected serializer. */
  function EmployeeText(e: Employee, render: real -> string, fixed: bool): string {
    if fixed then ToStringFixed(e, render) else ToString(e, render)
  }

  /** Each employee's text, split at its line breaks. */
  function Chunks(es: seq<Employee>, render: real -> string, fixed: bool): (cs: seq<seq<string>>)
    ensures |cs| == |es|
    ensures forall i :: 0 <= i < |es| ==> cs[i] == Split(EmployeeText(es[i], render, fixed), '\n')
  {
    seq(|es|, i requires 0 <= i < |es| => Split(EmployeeText(es[i], render, fixed), '\n'))
  }

  function Flatten(chunks: seq<seq<string>>): seq<string>
    decreases |chunks|
  {
    if |chunks| == 0 then [] else chunks[0] + Flatten(chunks[1..])
  }

  /** The lines the save loop writes between the brackets: each employee's text, split at
      its line breaks. */
  function BodyLines(es: seq<Employee>, render: real -> string, fixed: bool): seq<string> {
    Flatten(Chunks(es, render, fixed))
  }

  /** The saved file, line by line: `[`, one text per employee, `]`, each written as a line. */
  function SavedLines(es: seq<Employee>, render: real -> string, fixed: bool): seq<string> {
    ["["] + BodyLines(es, render, fixed) + ["]"]
  }

  lemma {:induction false} FlattenSingle(chunks: seq<seq<string>>)
    requires forall i :: 0 <= i < |chunks| ==> ConsoleLines(chunks[i])
    ensures ConsoleLines(Flatten(chunks))
    decreases |chunks|
  {
    if |chunks| > 0 {
      FlattenSingle(chunks[1..]);
      ConsoleLinesAppend(chunks[0], Flatten(chunks[1..]));
    }
  }

  /** No line of the corrected save file of writable employees is empty or holds a line
      feed or a carriage return, so `ReadLine` returns exactly the lines the model splits
      the file into, and the reading stops only after the last of them. */
  lemma SavedLinesSingle(es: seq<Employee>, render: real -> string)
    requires AllWritable(es, render)
    ensures ConsoleLines(SavedLines(es, render, true))
  {
    var cs := Chunks(es, render, true);
    forall i | 0 <= i < |es| ensures ConsoleLines(cs[i]) {
      SplitToStringFixed(es[i], render);
      ArrayBlockSingle(es[i].projects);
      ObjectLinesSingle(es[i], render, ArrayBlock(es[i].projects));
    }
    FlattenSingle(cs);
    ConsoleLinesAppend(["["], BodyLines(es, render, true));
    ConsoleLinesAppend(["["] + BodyLines(es, render, true), ["]"]);
  }

  /** The save loop always writes the envelope the reader checks for. */
  lemma SavedEnvelope(es: seq<Employee>, render: real -> string, fixed: bool)
    ensures HasEnvelope(SavedLines(es, render, fixed))
  {
    var lines := SavedLines(es, render, fixed);
    assert lines[0] == "[" && lines[|lines| - 1] == "]";
    assert TrimWhite("[") == "[" && TrimWhite("]") == "]";
  }

  /** The records the parser should give back for a list of employees. */
  function RecordsOf(es: seq<Employee>): (rs: seq<Record>)
    ensures |rs| == |es|
    ensures forall i :: 0 <= i < |es| ==> rs[i] == RecordOf(es[i])
  {
    seq(|es|, i requires 0 <= i < |es| => RecordOf(es[i]))
  }

  predicate AllWritable(es: seq<Employee>, render: real -> string) {
    forall i :: 0 <= i < |es| ==> Writable(es[i], render)
  }

  /** Lines that, read outside any object, emit exactly `rec` and end outside again. */
  ghost predicate EmitsOne(lines: seq<string>, rec: Record) {
    forall m: Machine :: m.state == OutsideObject ==>
      Run(m, lines).state == OutsideObject && Run(m, lines).records == m.records + [rec]
  }

  /** One use of `EmitsOne`, at the machine `m`. */
  lemma {:induction false} EmitsAt(m: Machine, lines: seq<string>, rec: Record)
    requires m.state == OutsideObject && EmitsOne(lines, rec)
    ensures Run(m, lines).state == OutsideObject && Run(m, lines).records == m.records + [rec]
  {
  }

  lemma {:induction false} FlattenCons(m: Machine, chunks: seq<seq<string>>)
    requires |chunks| > 0
    ensures Run(m, Flatten(chunks)) == Run(Run(m, chunks[0]), Flatten(chunks[1..]))
  {
    RunAppend(m, chunks[0], Flatten(chunks[1..]));
  }

  /** Each block emits the record at the same position. */
  ghost predicate AllEmit(chunks: seq<seq<string>>, recs: seq<Record>)
    decreases |chunks|
  {
    |chunks| == |recs| && (|chunks| > 0 ==> EmitsOne(chunks[0], recs[0]) && AllEmit(chunks[1..], recs[1..]))
  }

  lemma RecordsChain(a: seq<Record>, b: seq<Record>, c: seq<Record>, recs: seq<Record>)
    requires |recs| > 0 && b == a + [recs[0]] && c == b + recs[1..]
    ensures c == a + recs
  {
    assert recs == [recs[0]] + recs[1..];
  }

  /** Blocks that each emit one record emit those records in order. */
  lemma {:induction false} FlattenRun(m: Machine, chunks: seq<seq<string>>, recs: seq<Record>)
    requires m.state == OutsideObject && AllEmit(chunks, recs)
    ensures Run(m, Flatten(chunks)).state == OutsideObject
    ensures Run(m, Flatten(chunks)).records == m.records + recs
    decreases |chunks|
  {
    if |chunks| == 0 {
      assert m.records + recs == m.records;
    } else {
      var m1 := Run(m, chunks[0]);
      EmitsAt(m, chunks[0], recs[0]);
      FlattenRun(m1, chunks[1..], recs[1..]);
      FlattenCons(m, chunks);
      var m2 := Run(m1, Flatten(chunks[1..]));
      assert Run(m, Flatten(chunks)) == m2;
      RecordsChain(m.records, m1.records, m2.records, recs);
    }
  }

  /** The corrected text of a writable employee emits exactly its record. */
  lemma ChunkEmits(e: Employee, render: real -> string)
    requires Writable(e, render)
    ensures EmitsOne(Split(EmployeeText(e, render, true), '\n'), RecordOf(e))
  {
    SplitToStringFixed(e, render);
    forall m: Machine | m.state == OutsideObject
      ensures Run(m, ObjectLinesFixed(e, render)).state == OutsideObject
      ensures Run(m, ObjectLinesFixed(e, render)).records == m.records + [RecordOf(e)]
    {
      ObjectRunFixed(m, e, render);
    }
  }

  lemma {:induction false} ChunksTail(es: seq<Employee>, render: real -> string, fixed: bool)
    requires |es| > 0
    ensures Chunks(es, render, fixed)[1..] == Chunks(es[1..], render, fixed)
    ensures RecordsOf(es)[1..] == RecordsOf(es[1..])
  {
    assert Chunks(es, render, fixed)[1..] == Chunks(es[1..], render, fixed);
    assert RecordsOf(es)[1..] == RecordsOf(es[1..]);
  }

  lemma {:induction false} FirstChunkEmits(es: seq<Employee>, render: real -> string)
    requires |es| > 0 && Writable(es[0], render)
    ensures EmitsOne(Chunks(es, render, true)[0], RecordsOf(es)[0])
  {
    ChunkEmits(es[0], render);
  }

  /** Each corrected text of writable employees emits its employee's record. */
  lemma {:induction false} AllEmitFixed(es: seq<Employee>, render: real -> string)
    requires AllWritable(es, render)
    ensures AllEmit(Chunks(es, render, true), RecordsOf(es))
    decreases |es|
  {
    if |es| > 0 {
      FirstChunkEmits(es, render);
      assert AllWritable(es[1..], render);
      AllEmitFixed(es[1..], render);
      ChunksTail(es, render, true);
    }
  }

  /** The corrected texts of writable employees, read outside any object, emit their
      records in order. */
  lemma {:induction false} BodyRunFixed(m: Machine, es: seq<Employee>, render: real -> string)
    requires m.state == OutsideObject && AllWritable(es, render)
    ensures Run(m, BodyLines(es, render, true)).state == OutsideObject
    ensures Run(m, BodyLines(es, render, true)).records == m.records + RecordsOf(es)
  {
    AllEmitFixed(es, render);
    FlattenRun(m, Chunks(es, render, true), RecordsOf(es));
  }

  /** The bracket lines around the objects change nothing outside an object. */
  lemma BracketStep(m: Machine, line: string)
    requires m.state == OutsideObject && (line == "[" || line == "]")
    ensures Step(m, line) == m
  {
    assert TrimWhite(line) == line;
  }

  /** The corrected save file of writable employees parses to their records. */
  lemma SavedFixedParses(es: seq<Employee>, render: real -> string)
    requires AllWritable(es, render)
    ensures StateMachine(SavedLines(es, render, true)) == RecordsOf(es)
  {
    var body := BodyLines(es, render, true);
    BracketStep(Initial, "[");
    assert Run(Initial, ["["]) == Initial;
    BodyRunFixed(Initial, es, render);
    var m := Run(Initial, body);
    BracketStep(m, "]");
    assert Run(m, ["]"]) == m;
    RunAppend(Initial, ["["], body);
    RunAppend(Initial, ["["] + body, ["]"]);
  }

  /** The culture renders a whole number as its digits, as for the id and the age. */
  predicate RendersIntegers(e: Employee, render: real -> string) {
    render(e.employeeId as real) == IntToString(e.employeeId) && render(e.age as real) == IntToString(e.age)
  }

  /** A whole number the culture renders as its digits passes the integer check. */
  lemma IntFieldPasses(n: Int32, render: real -> string)
    requires render(n as real) == IntToString(n)
    ensures IsIntValue(Number(n as real), render)
  {
    ParseInt32IntToString(n);
  }

  /** A number the culture renders as a numeral that reads back passes the number check. */
  lemma NumberFieldPasses(x: real, render: real -> string)
    requires Numeral(render(x)) == Some(x)
    ensures IsDoubleValue(Number(x), render)
  {
    var pay := render(x);
    NumeralChars(pay);
    assert |pay| > 0 && !IsSpace(pay[0]) && !IsSpace(pay[|pay| - 1]);
    TrimUntouched(pay, IsSpace);
  }

  /** The record of a writable employee passes the schema check. */
  lemma RecordOfConforms(e: Employee, render: real -> string)
    requires Writable(e, render) && RendersIntegers(e, render)
    ensures Conforms(RecordOf(e), render)
  {
    RecordOfKeys(e);
    RecordOfTyped(e, render);
    ConformsByPosition(RecordOf(e), render);
  }

  /** The typed fields of a writable employee's record pass their checks. */
  lemma RecordOfTyped(e: Employee, render: real -> string)
    requires Numeral(render(e.salary)) == Some(e.salary) && RendersIntegers(e, render)
    ensures var r := RecordOf(e);
      && IsIntValue(r[0].1, render) && IsIntValue(r[2].1, render) && IsBoolValue(r[4].1)
      && IsDoubleValue(r[5].1, render) && IsArrayValue(r[6].1, render)
  {
    var r := RecordOf(e);
    assert r[0].1 == Number(e.employeeId as real) && r[2].1 == Number(e.age as real);
    assert r[5].1 == Number(e.salary) && r[6].1 == TextArray(e.projects);
    IntFieldPasses(e.employeeId, render);
    IntFieldPasses(e.age, render);
    NumberFieldPasses(e.salary, render);
    ArrayValuePasses(e.projects, render);
  }

  /** A seven-entry record with the expected keys conforms once its typed positions pass. */
  lemma ConformsByPosition(r: Record, render: real -> string)
    requires |r| == 7 && forall i :: 0 <= i < 7 ==> r[i].0 == FieldNames[i]
    requires IsIntValue(r[0].1, render) && IsIntValue(r[2].1, render) && IsBoolValue(r[4].1)
    requires IsDoubleValue(r[5].1, render) && IsArrayValue(r[6].1, render)
    ensures Conforms(r, render)
  {
    forall i | 0 <= i < 7 ensures TypeOk(i, r[i].1, render) {
    }
  }

  /** The record of an employee has every key once. */
  lemma RecordOfUnique(e: Employee)
    ensures UniqueKeys(RecordOf(e))
  {
    RecordOfKeys(e);
    FieldNamesDistinct();
  }

  /** Each field of an employee's record is found under its name. */
  lemma RecordOfLookups(e: Employee)
    ensures Lookup(RecordOf(e), "employee_id") == Some(Number(e.employeeId as real))
    ensures Lookup(RecordOf(e), "full_name") == Some(Text(e.fullName))
    ensures Lookup(RecordOf(e), "age") == Some(Number(e.age as real))
    ensures Lookup(RecordOf(e), "department") == Some(Text(e.department))
    ensures Lookup(RecordOf(e), "is_manager") == Some(Boolean(e.isManager))
    ensures Lookup(RecordOf(e), "salary") == Some(Number(e.salary))
    ensures Lookup(RecordOf(e), "projects") == Some(TextArray(e.projects))
  {
    var r := RecordOf(e);
    RecordOfUnique(e);
    LookupAt(r, 0);
    LookupAt(r, 1);
    LookupAt(r, 2);
    LookupAt(r, 3);
    LookupAt(r, 4);
    LookupAt(r, 5);
    LookupAt(r, 6);
  }

  lemma {:induction false} ReadsInt(r: Record, key: string, n: Int32)
    requires Lookup(r, key) == Some(Number(n as real))
    ensures ReadInt(r, key) == Some(n)
  {
    NumberToInt32Integral(n);
  }

  lemma {:induction false} ReadsText(r: Record, key: string, s: string, render: real -> string)
    requires Lookup(r, key) == Some(Text(s))
    ensures ReadText(r, key, render) == Some(s)
  {
  }

  /** A record whose keys hold the employee's fields converts to that employee. */
  lemma {:induction false} ConvertsFromLookups(r: Record, e: Employee, render: real -> string)
    requires Lookup(r, "employee_id") == Some(Number(e.employeeId as real))
    requires Lookup(r, "full_name") == Some(Text(e.fullName))
    requires Lookup(r, "age") == Some(Number(e.age as real))
    requires Lookup(r, "department") == Some(Text(e.department))
    requires Lookup(r, "is_manager") == Some(Boolean(e.isManager))
    requires Lookup(r, "salary") == Some(Number(e.salary))
    requires Lookup(r, "projects") == Some(TextArray(e.projects))
    ensures ToEmployee(r, render) == Some(e)
  {
    ReadsInt(r, "employee_id", e.employeeId);
    ReadsInt(r, "age", e.age);
    ReadsText(r, "full_name", e.fullName, render);
    ReadsText(r, "department", e.department, render);
    assert ReadBool(r, "is_manager") == Some(e.isManager);
    assert ReadDouble(r, "salary") == Some(e.salary);
    assert ReadProjects(r, "projects") == Some(e.projects);
  }

  /** The conversion gives back the employee the record was made from. */
  lemma RecordOfConverts(e: Employee, render: real -> string)
    ensures ToEmployee(RecordOf(e), render) == Some(e)
  {
    RecordOfLookups(e);
    ConvertsFromLookups(RecordOf(e), e, render);
  }

  /** Records that each convert to the matching employee convert, as a batch, to the list. */
  lemma SameOptions(data: seq<Record>, es: seq<Employee>, fs: seq<Employee>, render: real -> string)
    requires |data| == |es| == |fs|
    requires forall i :: 0 <= i < |es| ==> ToEmployee(data[i], render) == Some(es[i])
    requires forall i :: 0 <= i < |fs| ==> ToEmployee(data[i], render) == Some(fs[i])
    ensures fs == es
  {
    forall i | 0 <= i < |es| ensures fs[i] == es[i] {
      assert Some(fs[i]) == Some(es[i]);
    }
  }

  lemma {:induction false} CollectionOfConverted(data: seq<Record>, es: seq<Employee>, render: real -> string)
    requires |data| == |es|
    requires forall i :: 0 <= i < |es| ==> ToEmployee(data[i], render) == Some(es[i])
    ensures GetEmployeesCollection(data, render) == Some(es)
  {
    var r := GetEmployeesCollection(data, render);
    assert r.Some?;
    SameOptions(data, es, r.value, render);
  }

  /** Converting the records of a list of employees gives the list back. */
  lemma RecordsOfConvert(es: seq<Employee>, render: real -> string)
    ensures GetEmployeesCollection(RecordsOf(es), render) == Some(es)
  {
    forall i | 0 <= i < |es| ensures ToEmployee(RecordsOf(es)[i], render) == Some(es[i]) {
      RecordOfConverts(es[i], render);
    }
    CollectionOfConverted(RecordsOf(es), es, render);
  }

  /** Saving a non-empty list of writable employees with the corrected serializer and
      loading the file back gives the same employees: `ReadJson` accepts the file and
      `GetEmployeesCollection` rebuilds the list. */
  lemma SaveThenLoad(es: seq<Employee>, render: real -> string)
    requires |es| > 0 && AllWritable(es, render)
    requires forall i :: 0 <= i < |es| ==> RendersIntegers(es[i], render)
    ensures ConsoleLines(SavedLines(es, render, true))
    ensures ReadJson(SavedLines(es, render, true), render) == Ok(RecordsOf(es))
    ensures GetEmployeesCollection(ReadJson(SavedLines(es, render, true), render).value, render) == Some(es)
  {
    SavedLinesSingle(es, render);
    SavedFixedParses(es, render);
    SavedEnvelope(es, render, true);
    RecordsOfConform(es, render);
    ConformingBatchRead(SavedLines(es, render, true), RecordsOf(es), render);
    RecordsOfConvert(es, render);
  }

  lemma RecordsOfConform(es: seq<Employee>, render: real -> string)
    requires AllWritable(es, render)
    requires forall i :: 0 <= i < |es| ==> RendersIntegers(es[i], render)
    ensures forall i :: 0 <= i < |es| ==> Conforms(RecordsOf(es)[i], render)
  {
    forall i | 0 <= i < |es| ensures Conforms(RecordsOf(es)[i], render) {
      RecordOfConforms(es[i], render);
    }
  }

  /** A file in its envelope whose records all conform reads as those records. */
  lemma ConformingBatchRead(lines: seq<string>, rs: seq<Record>, render: real -> string)
    requires HasEnvelope(lines) && StateMachine(lines) == rs && |rs| > 0
    requires forall i :: 0 <= i < |rs| ==> Conforms(rs[i], render)
    ensures ReadJson(lines, render) == Ok(rs)
  {
  }

  /** With every projects list non-empty, `ToString` and the corrected serializer write
      the same file, so the save as written reads back too. */
  lemma SavedAsWrittenAgrees(es: seq<Employee>, render: real -> string)
    requires forall i :: 0 <= i < |es| ==> |es[i].projects| > 0
    ensures SavedLines(es, render, false) == SavedLines(es, render, true)
  {
    assert Chunks(es, render, false) == Chunks(es, render, true);
  }

  /** The object's closing brace, read inside that array, becomes one of its elements. */
  lemma BraceItemStep(m: Machine)
    requires m.state == InsideArray
    ensures Step(m, "  },") == m.(items := m.items + ["}"])
  {
    assert TrimWhite("  },") == "},";
    assert TrimStart("},", IsItemPadding) == "},";
    assert "},"[..1] == "}";
    assert Item("},") == "}";
    ArrayItemStep(m, "  },");
  }

  /** The lines of `ToString` for an employee with no projects, read outside any object,
      leave the parser inside an array holding the brace: no record is emitted. */
  lemma {:induction false} EmptyProjectsObjectRun(m: Machine, e: Employee, render: real -> string)
    requires m.state == OutsideObject && Writable(e, render) && |e.projects| == 0
    ensures Run(m, ObjectLines(e, render)).state == InsideArray
    ensures Run(m, ObjectLines(e, render)).records == m.records
    ensures Run(m, ObjectLines(e, render)).items == ["}"]
  {
    var m1 := m.(state := InsideObject, current := []);
    ObjectOpenStep(m);
    assert Run(m, ["  {"]) == m1;
    ScalarRun(m1, e, render);
    var m2 := Run(m1, ScalarLines(e, render));
    ArrayOpenStep(m2, "[]");
    var m3 := m2.(state := InsideArray, key := "projects", items := []);
    assert Run(m2, [KeyLine("projects", "[]")]) == m3;
    BraceItemStep(m3);
    assert Run(m3, ["  },"]) == m3.(items := ["}"]);
    assert ObjectLines(e, render) == ["  {"] + ScalarLines(e, render) + [KeyLine("projects", "[]")] + ["  },"];
    RunFour(m, ["  {"], ScalarLines(e, render), [KeyLine("projects", "[]")], ["  },"]);
  }

  /** The closing `]` of the file, read inside that array, only closes the array. */
  lemma FileCloseInArray(m: Machine)
    requires m.state == InsideArray
    ensures Step(m, "]").state == InsideObject && Step(m, "]").records == m.records
  {
    assert TrimWhite("]") == "]";
  }

  /** The body of a file of one employee is that employee's lines. */
  lemma SingleBody(e: Employee, render: real -> string)
    requires SingleLineFields(e, render)
    ensures BodyLines([e], render, false) == ObjectLines(e, render)
  {
    var body := ObjectLines(e, render);
    SplitToString(e, render);
    assert Chunks([e], render, false) == [body];
    assert Flatten([body]) == body + Flatten([]);
  }

  /** Lines that leave the parser inside an array with nothing emitted, between the file's
      brackets, parse to no records. */
  lemma {:induction false} StuckInArray(body: seq<string>)
    requires Run(Initial, body).state == InsideArray && Run(Initial, body).records == []
    ensures StateMachine(["["] + body + ["]"]) == []
  {
    BracketStep(Initial, "[");
    assert Run(Initial, ["["]) == Initial;
    var m := Run(Initial, body);
    FileCloseInArray(m);
    assert Run(m, ["]"]) == Step(m, "]");
    RunAppend(Initial, ["["], body);
    RunAppend(Initial, ["["] + body, ["]"]);
  }

  /** Saving a single employee with no projects through `ToString` gives a file the
      reader rejects as holding no data. */
  lemma EmptyProjectsLost(e: Employee, render: real -> string)
    requires Writable(e, render) && |e.projects| == 0
    ensures StateMachine(SavedLines([e], render, false)) == []
    ensures ReadJson(SavedLines([e], render, false), render) == Err(InvalidData(EmptyData))
  {
    SingleBody(e, render);
    EmptyProjectsObjectRun(Initial, e, render);
    StuckInArray(ObjectLines(e, render));
    SavedEnvelope([e], render, false);
    EmptyBatchRejected(SavedLines([e], render, false), render);
  }

  /** A file in its envelope from which the parser takes no record is rejected as empty. */
  lemma EmptyBatchRejected(lines: seq<string>, render: real -> string)
    requires HasEnvelope(lines) && StateMachine(lines) == []
    ensures ReadJson(lines, render) == Err(InvalidData(EmptyData))
  {
  }
}
