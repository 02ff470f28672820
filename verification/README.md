# Employee JSON reader, validator, sorter and filter — a Dafny model

This project models the pure core of a console program that loads employee records. The records come from a JSON-like text file, are checked against a fixed seven-field schema, become typed `Employee` objects, and can be sorted, filtered and written back out.

The model covers:

- **The line parser.** `JsonParser.StateMachine` reads the file line by line with three states: outside an object, inside an object, inside an array. A regex extracts each `"key": value` pair, and `ParseValue` infers a number, a boolean or a text from the value. The envelope check in `ReadJson` requires a first line `[` and a last line `]`.
- **The schema check.** `CheckDataStructure` is fail-fast: the batch must be non-empty, each record must hold seven entries, each key must be the expected one at its position, and the value at each typed position must pass its check on the value's string form.
- **Conversion to employees.** `GetEmployeesCollection` works all or nothing: one employee per record, or a failure of the whole call.
- **Comparison and sorting.** `Employee.CompareTo` and `CompareValues` compare on one field in one direction. The console's `Array.Sort` call and its `ChooseSortOptions` mapping are modelled too.
- **Filtering.** The model covers `GenerateSelection` with `FieldValueCheck` and `EqualityCheck`.
- **Serializing.** `Employee.ToString` is modelled, together with the save loop that writes `[`, one text per employee, then `]`.

Modules follow the program's structure:

| module | file | models |
|---|---|---|
| `Outcomes` | outcomes.dfy | `Option`, `Result`, `Outcome`: the C# code's exceptions become return values |
| `Text` | text.dfy | `Trim`, `TrimStart`, `TrimEnd`, `Split`, `string.Join`, ASCII `ToLower`/`ToUpper` |
| `Numerals` | numerals.dfy | `{n}` rendering, `int.TryParse`, `double.TryParse` on decimal numerals |
| `Values` | values.dfy | the parser's untyped values, the dictionary as an insertion-ordered entry list, `ParseValue`, `Convert.ToString` |
| `LineParser` | line_parser.dfy | the key regex, one step of the state machine, the loop, the envelope predicate |
| `Schema` | schema.dfy | `CheckDataStructure`, `CheckKey` and the four value checks |
| `JsonReader` | json_reader.dfy | `ReadJson` after the console reading |
| `Employees` | employee.dfy | `Employee`, `SetSortOptions`, `CompareTo`, `CompareValues`, `ToString` |
| `EmployeeUtils` | employee_utils.dfy | `Convert.ToInt32`/`ToBoolean`/`ToDouble`, `GetEmployeesCollection`, `FieldValueCheck`, `EqualityCheck`, `GenerateSelection` |
| `Sorting` | sorting.dfy | `Array.Sort` with `CompareTo`, `ChooseSortOptions` |
| `RoundTrip` | round_trip.dfy | the saved file read back through parser, schema check and conversion, and where that fails |

Modelling choices:

- **Parameters for what the code cannot see.** The culture's rendering of a `double` becomes the parameter `render: real -> string`. Both `Convert.ToString(double)` and the `{_salary}` interpolation go through it. The console input becomes parameters: `ReadJson` takes the lines read up to the first empty one, and `GenerateSelection` takes the literal the prompt loop accepted.
- **Static state made explicit.** The static sort settings become an explicit `SortOptions` argument.
- **Reflection replaced.** A seven-variant `Selector` stands in for the reflection lookup (`PropertyFor`, `GetValue`).
- **Dictionaries as entry lists.** A `Dictionary<string, object>` that is only ever inserted into enumerates in insertion order. It is therefore a `seq<(string, Value)>` in which assignment overwrites in place or appends.

## Model

| member | source | states |
|---|---|---|
| Outcomes.AllSome | Task_2v/EmployeeUtils.cs:23-46 | all values in order exactly when none is missing, otherwise nothing: no partial list |
| Numerals.ParseInt32IntToString | JsonUtils/JsonParser.cs:322-330 | `int.TryParse` reads every rendered 32-bit integer back as itself |
| Numerals.ParseNumberIntToString | JsonUtils/JsonParser.cs:207 | `double.TryParse` reads every rendered integer back as that integer |
| Numerals.NotANumber | JsonUtils/JsonParser.cs:207 | a string whose trimmed form starts with a character no numeral can hold is not a number |
| Numerals.NumeralChars | JsonUtils/JsonParser.cs:207 | a numeral holds only digits, signs and decimal points |
| Numerals.ParseInt32 | JsonUtils/JsonParser.cs:326 | `int.TryParse` accepts only a non-empty trimmed text of digits and signs, never a decimal point |
| Numerals.ParseNumber | JsonUtils/JsonParser.cs:360-361 | `double.TryParse` accepts only a non-empty trimmed text of digits, signs and decimal points |
| Values.Lookup | Task_2v/EmployeeUtils.cs:28-34 | the indexer read fails exactly when the key is absent, and a found value is stored under that key |
| Values.Assign | JsonUtils/JsonParser.cs:166 | after `obj[key] = v` the key holds `v` and every other key holds what it held |
| Values.AssignInPlace | JsonUtils/JsonParser.cs:166 | overwriting an existing key keeps the keys and their order |
| Values.AssignAppends | JsonUtils/JsonParser.cs:166 | assigning a new key appends it as the last entry |
| Values.AssignKeepsUniqueKeys | JsonUtils/JsonParser.cs:166 | assignment never makes a key occur twice |
| Values.ParseValue | JsonUtils/JsonParser.cs:201-221 | an inferred text has no quote at either end |
| Values.ParseBool | JsonUtils/JsonParser.cs:212 | `bool.TryParse` accepts exactly `true` and `false` in any letter case, white space around ignored, and reads the four-letter word as true |
| Values.StringForm | JsonUtils/JsonParser.cs:375-379 | `Convert.ToString` of a boolean reads back through `bool.TryParse` as that boolean; of a parsed array it is a type name ending in `]` but not starting with `[` |
| Values.ParseValueNumeral | JsonUtils/JsonParser.cs:204-210 | a numeral followed by any run of commas and spaces is inferred as its number |
| Values.ParseValueInteger | JsonUtils/JsonParser.cs:204-210 | a rendered integer with its comma is inferred as that number |
| Values.ParseValueBoolean | JsonUtils/JsonParser.cs:211-215 | `true,` and `false,` are inferred as booleans, not as numbers or text |
| Values.QuotedTokenNotScalar | JsonUtils/JsonParser.cs:207-215 | a quoted token is neither a number nor a boolean |
| Values.ParseValueQuoted | JsonUtils/JsonParser.cs:216-220 | `"s",` is inferred as the text `s`, so `"42"` is text and not a number |
| LineParser.Step | JsonUtils/JsonParser.cs:119-187 | a record is emitted exactly when a line starting with `}` is read inside an object, and then the parser is outside |
| LineParser.Run | JsonUtils/JsonParser.cs:119-188 | the loop only appends records, at most one per line read |
| LineParser.StateMachine | JsonUtils/JsonParser.cs:108-192 | the parser emits at most one record per line |
| LineParser.HasEnvelope | JsonUtils/JsonParser.cs:49-53 | a file passing the envelope check has at least two lines, since no line trims to both `[` and `]` |
| LineParser.MatchFrom | JsonUtils/JsonParser.cs:148 | a regex match needs a quote at or after the start, and neither group spans a line break |
| LineParser.KeyValue | JsonUtils/JsonParser.cs:148-154 | a line without a quote has no key; a key holds no line break, and the value part has no white space at either end |
| LineParser.RunAppend | JsonUtils/JsonParser.cs:119-188 | reading two blocks of lines is reading the first, then the second from where it left off |
| LineParser.RecordsOnlyGrow | JsonUtils/JsonParser.cs:141 | emitted records are never removed or changed |
| LineParser.NoCloseNoRecord | JsonUtils/JsonParser.cs:119-191 | without a closing-brace line nothing is emitted, so an object left open at the end is dropped |
| LineParser.OutsideIgnores | JsonUtils/JsonParser.cs:126-134 | outside an object, lines not starting with `{` change nothing |
| LineParser.InsideIgnores | JsonUtils/JsonParser.cs:145-169 | inside an object, a line that neither closes it nor matches the key regex changes nothing |
| LineParser.ArrayItemStep | JsonUtils/JsonParser.cs:181-185 | inside an array, a line not starting with `]` becomes the next element, trimmed of spaces, commas and quotes |
| LineParser.ArrayAbsorbs | JsonUtils/JsonParser.cs:172-186 | inside an array, every line up to one starting with `]` is an element, closing braces and key lines included |
| LineParser.RecordsHaveUniqueKeys | JsonUtils/JsonParser.cs:108-192 | no emitted record holds a key twice: a repeated key overwrites |
| LineParser.KeyEndAt | JsonUtils/JsonParser.cs:148 | the lazy key group stops at the first `":` when no quote or line break comes before it |
| LineParser.KeyValueLine | JsonUtils/JsonParser.cs:148-154 | a `"k": v` line matches with exactly key `k` and value `v` |
| LineParser.ScalarLineStep | JsonUtils/JsonParser.cs:147-167 | a key line whose value does not start with `[` stores the inferred value under the key |
| LineParser.ArrayLineStep | JsonUtils/JsonParser.cs:156-162 | a key line whose value starts with `[` enters the array state, even for `[]` on one line |
| Schema.CheckValue | JsonUtils/JsonParser.cs:322-383 | a position's type check passes exactly when its type predicate holds; the `full_name` and `department` positions always pass; a failure at the `employee_id` or `age` position is `NotInteger` of that key, at `is_manager` `NotBoolean`, at `salary` `NotNumber`, at `projects` `NotArray` |
| Schema.CheckEntry | JsonUtils/JsonParser.cs:260-288 | an entry passes exactly when it has the expected key and a value of the expected type |
| Schema.CheckFrom | JsonUtils/JsonParser.cs:252-289 | the positions from `i` on pass exactly when each has the expected key and type |
| Schema.CheckRecord | JsonUtils/JsonParser.cs:243-289 | a record passes exactly when it conforms: seven entries, expected keys, expected types |
| Schema.FirstFail | JsonUtils/JsonParser.cs:241-290 | passes exactly when every check passes, and otherwise is the first failure with all earlier checks passed |
| Schema.ChecksPass | JsonUtils/JsonParser.cs:241-290 | every record check passes exactly when every record conforms |
| Schema.Validate | JsonUtils/JsonParser.cs:232-291 | a batch passes exactly when it is non-empty and every record conforms |
| Schema.CheckEntries | JsonUtils/JsonParser.cs:243-289 | the inner loop computes the record check |
| Schema.CheckRecords | JsonUtils/JsonParser.cs:241-290 | the outer loop stops at the first failing record and reports it |
| Schema.CheckDataStructure | JsonUtils/JsonParser.cs:232-291 | the method with its loops computes `Validate` |
| Schema.WrongKeyIsPrecise | JsonUtils/JsonParser.cs:304-312 | a key error names the expected key and the 1-based position of a wrong key, with every earlier entry correct |
| Schema.MissingFieldRejectsBatch | JsonUtils/JsonParser.cs:246-249 | one six-entry record rejects the whole batch |
| Schema.ArrayValuePasses | JsonUtils/JsonParser.cs:375-383 | a parsed array always passes the array check, since its string form is the type name ending in `]` |
| Schema.BracketTextPasses | JsonUtils/JsonParser.cs:379 | any text ending in `]` passes the array check too |
| Schema.BooleanIsNotInt | JsonUtils/JsonParser.cs:322-330 | a boolean never passes the integer check |
| JsonReader.ReadJson | JsonUtils/JsonParser.cs:26-69 | malformed input exactly when the envelope is missing; accepted records are the parser's output, non-empty and all conforming |
| JsonReader.ReadRecordsHaveUniqueKeys | JsonUtils/JsonParser.cs:56-65 | every accepted record holds each key once |
| Employees.DefaultEmployee | JsonUtils/Employee.cs:30-39 | the parameterless constructor gives zeros, empty strings, `false` and no projects |
| Employees.PropertyFor | JsonUtils/Employee.cs:80-85 | a found property carries exactly the requested name |
| Employees.PropertyForName | JsonUtils/Employee.cs:80 | every property is found under its own name |
| Employees.GetValue | JsonUtils/Employee.cs:88-89 | each property boxes its declared type: `int` for id and age, `string` for name and department, `bool` for the flag, `double` for the salary, `string[]` for the projects |
| Employees.SetSortOptions | JsonUtils/Employee.cs:58-63 | ascending is direction 1, descending is -1, and the field is stored unchanged |
| Employees.CompareValues | JsonUtils/Employee.cs:105-127 | values of the same type compare to -1, 0 or 1, and a pair of different types is unsupported |
| Employees.CompareValuesOfField | JsonUtils/Employee.cs:88-92 | the two values read from one property always have the same type, so comparing them never meets the unsupported case; the field order is that comparison |
| Employees.CompareTo | JsonUtils/Employee.cs:71-96 | 1 against null; an unknown field name is an error before any value is read; otherwise the field order times the direction |
| Employees.CompareTextZero | JsonUtils/Employee.cs:118-119 | two strings compare equal exactly when they are the same |
| Employees.CompareTextAntisymmetric | JsonUtils/Employee.cs:118-119 | swapping two strings negates their comparison |
| Employees.CompareTextTransitive | JsonUtils/Employee.cs:118-119 | the string order is transitive |
| Employees.FieldOrderReflexive | JsonUtils/Employee.cs:115-122 | every employee compares equal to itself on every field |
| Employees.FieldOrderAntisymmetric | JsonUtils/Employee.cs:115-122 | swapping the employees negates the field order |
| Employees.FieldOrderTransitive | JsonUtils/Employee.cs:115-122 | the field order is transitive |
| Employees.ProjectsCompareByCount | JsonUtils/Employee.cs:121-122 | project lists of equal length compare equal in both directions, whatever their contents |
| Employees.DirectionNegates | JsonUtils/Employee.cs:94-95 | turning the direction round negates every comparison |
| Employees.CompareToAntisymmetric | JsonUtils/Employee.cs:71-96 | `a.CompareTo(a)` is 0 and `a.CompareTo(b)` is minus `b.CompareTo(a)` for every known field |
| EmployeeUtils.RoundHalfEven | Task_2v/EmployeeUtils.cs:28 | the result is within one half of the input, and an exact half goes to the even neighbour |
| EmployeeUtils.NumberToInt32 | Task_2v/EmployeeUtils.cs:28 | `Convert.ToInt32(double)` succeeds exactly inside the rounded 32-bit range, with the half-to-even rounding |
| EmployeeUtils.NumberToInt32Integral | Task_2v/EmployeeUtils.cs:28 | a whole number in range converts to itself |
| EmployeeUtils.ToInt32 | Task_2v/EmployeeUtils.cs:28 | `Convert.ToInt32(object)`: a boolean gives 1 or 0; a number is rounded half to even and converts exactly inside the rounded 32-bit range, a whole one to itself; a text is read as `int.Parse` reads it (`ParseInt32`), so only a non-empty trimmed text converts; a list never |
| EmployeeUtils.ToBoolean | Task_2v/EmployeeUtils.cs:32 | `Convert.ToBoolean(object)`: a number is true exactly when non-zero; a text is read as `bool.Parse` reads it (`ParseBool`), so only `true` or `false` in some letter case converts; a list never |
| EmployeeUtils.ToDouble | Task_2v/EmployeeUtils.cs:33 | `Convert.ToDouble(object)`: a number is itself, a boolean 1 or 0, a text is read as the invariant-culture numeral parse reads it (`ParseNumber`), and only a list always fails |
| EmployeeUtils.TextToInt32 | Task_2v/EmployeeUtils.cs:28 | a text holding a rendered 32-bit integer converts to that integer |
| EmployeeUtils.TextToDouble | Task_2v/EmployeeUtils.cs:33 | a text holding a rendered integer converts to that number |
| EmployeeUtils.ToProjects | Task_2v/EmployeeUtils.cs:34 | the cast to `List<string>` succeeds exactly on a parsed array and yields its elements |
| EmployeeUtils.ToEmployee | Task_2v/EmployeeUtils.cs:25-45 | a record converts exactly when every field converts; each field of the employee is the conversion of the value under its own key: `employee_id` and `age` through `Convert.ToInt32`, `full_name` and `department` through `Convert.ToString`, `is_manager` through `Convert.ToBoolean`, `salary` through `Convert.ToDouble`, `projects` through the list cast |
| EmployeeUtils.GetEmployeesCollection | Task_2v/EmployeeUtils.cs:19-50 | succeeds exactly when every record converts, with one employee per record in order |
| EmployeeUtils.BracketTextFailsConversion | Task_2v/EmployeeUtils.cs:34 | a `projects` text that passed the array check by starting with `[` still fails the cast and the whole call |
| EmployeeUtils.FieldValueCheck | Task_2v/EmployeeUtils.cs:121-148 | for `employee_id`, `age` and `salary` the prompt accepts exactly the literals that parse as the field's type; for `is_manager` exactly `true` and `false`; for any other name exactly the non-empty literals |
| EmployeeUtils.CheckedValueParses | Task_2v/EmployeeUtils.cs:126-144 | a literal the prompt accepts for a lower-case field name parses as that field's type |
| EmployeeUtils.ManagerPromptStricter | Task_2v/EmployeeUtils.cs:132-134 | the prompt's demand on `is_manager` is stricter than the `bool.Parse` at 186: `True` parses but is not accepted |
| EmployeeUtils.EqualityCheck | Task_2v/EmployeeUtils.cs:161-203 | fails exactly when the literal does not parse as the field's type; otherwise id and age match exactly when the literal parses to the employee's value, the manager flag likewise through `bool.Parse`, the salary through `double.Parse`; name and department compare exactly and case-sensitively; projects follow the split-trim-compare rule; an unknown name never matches |
| EmployeeUtils.Filter | Task_2v/EmployeeUtils.cs:98-109 | fails exactly when the list is non-empty and the literal does not parse; the kept employees are an order-preserving subsequence in which each matching employee occurs as often as in the input and no other occurs |
| EmployeeUtils.MatchesByFieldValue | Task_2v/EmployeeUtils.cs:166-199 | two employees with the same value in the selected field compare alike against every literal |
| EmployeeUtils.FilterIdempotent | Task_2v/EmployeeUtils.cs:98-109 | filtering a selection again with the same field and literal gives the same selection |
| EmployeeUtils.OwnNameMatches | Task_2v/EmployeeUtils.cs:168-186 | an employee matches its own name, its own id and age as rendered, and its own manager flag written `true` or `false` |
| EmployeeUtils.NonEmptyKeeps | Task_2v/EmployeeUtils.cs:194 | dropping empty pieces keeps a list without empty pieces whole |
| EmployeeUtils.OwnProjectsMatch | Task_2v/EmployeeUtils.cs:192-198 | an employee matches its own projects listed with commas |
| EmployeeUtils.GenerateSelection | Task_2v/EmployeeUtils.cs:62-110 | empty and unknown names are rejected, the name is checked case-insensitively; the selection fails exactly when the name is valid, the list non-empty and the literal does not parse for the lower-cased name; otherwise the result is the matching subsequence with every match kept as often as it occurs |
| EmployeeUtils.LowerCaseSelectionSucceeds | Task_2v/EmployeeUtils.cs:71-106 | with a valid lower-case name and a literal the prompt accepts, the selection succeeds |
| EmployeeUtils.MixedCaseSelectionFails | Task_2v/EmployeeUtils.cs:88 | name `Age` with literal `ten` passes the prompt, then the selection fails |
| EmployeeUtils.GenerateSelectionFixed | Task_2v/EmployeeUtils.cs:62-110 | with the prompt checking the lower-cased name, the selection succeeds exactly when the name is valid, and keeps every match as often as it occurs, in order |
| Sorting.PrecedesTotal | JsonUtils/Employee.cs:92-95 | any two employees are ordered one way or the other |
| Sorting.PrecedesTransitive | JsonUtils/Employee.cs:92-95 | the order a sort uses is transitive in both directions |
| Sorting.Insert | Task_2v/ConsoleUtils.cs:166 | insertion adds exactly one element |
| Sorting.InsertSorted | Task_2v/ConsoleUtils.cs:166 | insertion keeps a sorted list sorted |
| Sorting.SortBy | Task_2v/ConsoleUtils.cs:166 | the result is a sorted permutation of the input |
| Sorting.SortedIsPairwise | Task_2v/ConsoleUtils.cs:166 | in a sorted list every earlier element may precede every later one |
| Sorting.SortEmployees | Task_2v/ConsoleUtils.cs:164-166 | a list of one element or none comes back unchanged; a longer one fails exactly when the field is unknown; otherwise the result is a permutation |
| Sorting.SortEmployeesOrdered | Task_2v/ConsoleUtils.cs:166 | after a sort, `CompareTo` puts no later element before an earlier one |
| Sorting.ChooseSortOptions | Task_2v/ConsoleUtils.cs:188-251 | an empty name, and only an empty name, is rejected as empty (195-198); a non-empty name outside the schema is rejected as unknown (227); a schema name maps to its property name; menu item 1 means ascending |
| Sorting.PromptedSortSucceeds | Task_2v/ConsoleUtils.cs:162-166 | options from the prompt always name a property, so the sort succeeds and orders by the chosen field |
| Employees.Serialize | JsonUtils/Employee.cs:141-149 | the object text opens with `{` on its own line and ends with the projects text, a line break and `},` |
| Employees.ToString | JsonUtils/Employee.cs:133-150 | the text opens with `{` on its own line and ends with a line break and `},`; with no projects the array is written `[]` on the projects line |
| RoundTrip.ToStringLines | JsonUtils/Employee.cs:133-150 | `ToString`'s lines joined by line breaks are its text |
| RoundTrip.ToStringFixedLines | JsonUtils/Employee.cs:133-150 | the same for the corrected serializer |
| RoundTrip.ArrayBlockText | JsonUtils/Employee.cs:136-138 | the projects block joins to the projects key line with the array text |
| RoundTrip.ProjectLinesText | JsonUtils/Employee.cs:137 | the element lines join to the quoted projects as the serializer joins them |
| RoundTrip.SplitToString | JsonUtils/Employee.cs:133-150 | splitting `ToString`'s text at line breaks gives its lines when no field holds a line break |
| RoundTrip.SplitToStringFixed | JsonUtils/Employee.cs:133-150 | the same for the corrected serializer |
| RoundTrip.IntegerToken | JsonUtils/Employee.cs:142 | a rendered integer with its comma is read back as that number |
| RoundTrip.TextToken | JsonUtils/Employee.cs:143 | a quoted string with its comma is read back as that text |
| RoundTrip.BooleanToken | JsonUtils/Employee.cs:146 | a lower-case boolean with its comma is read back as that boolean |
| RoundTrip.NumeralToken | JsonUtils/Employee.cs:147 | a rendered salary that is a numeral is read back as its value |
| RoundTrip.TokenReads | JsonUtils/JsonParser.cs:201-221 | every well-written scalar field is read back as the field's value |
| RoundTrip.ScalarKeyStep | JsonUtils/JsonParser.cs:147-167 | a serializer key line with a new key appends the inferred value |
| RoundTrip.EntriesRun | JsonUtils/JsonParser.cs:145-167 | scalar key lines read inside an object append their entries in order |
| RoundTrip.ScalarRun | JsonUtils/Employee.cs:142-147 | the six scalar lines fill an empty object with the first six entries of the record |
| RoundTrip.ProjectItem | JsonUtils/JsonParser.cs:184 | an element line's trimming gives the project back |
| RoundTrip.ProjectLinesItems | JsonUtils/JsonParser.cs:172-186 | the element lines hold no closing bracket and read back as the projects |
| RoundTrip.ArrayOpenStep | JsonUtils/JsonParser.cs:156-162 | the projects key line enters the array state both for `[` and for the one-line `"projects": []` written for an empty list |
| RoundTrip.ArrayCloseStep | JsonUtils/JsonParser.cs:174-180 | the closing bracket stores the elements under the array's key |
| RoundTrip.ArrayRun | JsonUtils/JsonParser.cs:156-180 | the projects block appends the projects as a list and leaves the parser inside the object |
| RoundTrip.FieldsRun | JsonUtils/Employee.cs:141-149 | the scalar lines and the projects block fill an empty object with the employee's record |
| RoundTrip.ObjectOpenStep | JsonUtils/JsonParser.cs:128-133 | the opening brace line starts an empty object |
| RoundTrip.ObjectCloseStep | JsonUtils/JsonParser.cs:138-144 | the closing brace line emits the object |
| RoundTrip.ObjectBlockRun | JsonUtils/JsonParser.cs:126-144 | brace lines around lines that fill an object with `rec` emit exactly `rec` |
| RoundTrip.ObjectRunFixed | JsonUtils/Employee.cs:133-150 | the corrected serializer's lines emit exactly the employee's record |
| RoundTrip.FlattenRun | Task_2v/ConsoleUtils.cs:386-389 | blocks that each emit one record emit those records in order |
| RoundTrip.BodyRunFixed | Task_2v/ConsoleUtils.cs:386-389 | the corrected texts of writable employees emit their records in order |
| RoundTrip.BracketStep | JsonUtils/JsonParser.cs:126-134 | the file's bracket lines change nothing outside an object |
| RoundTrip.SavedEnvelope | Task_2v/ConsoleUtils.cs:385-390 | the save loop always writes the envelope the reader checks for |
| RoundTrip.SavedLinesSingle | Task_2v/ConsoleUtils.cs:385-390 | no line of the corrected save file is empty or holds a line feed or carriage return, so reading it line by line gives back exactly those lines |
| RoundTrip.SavedFixedParses | Task_2v/ConsoleUtils.cs:385-390 | the corrected save file of writable employees parses to their records |
| RoundTrip.IntFieldPasses | JsonUtils/JsonParser.cs:322-330 | a whole number rendered as its digits passes the integer check |
| RoundTrip.NumberFieldPasses | JsonUtils/JsonParser.cs:356-365 | a number rendered as a numeral of itself passes the number check |
| RoundTrip.RecordOfConforms | JsonUtils/JsonParser.cs:232-291 | the record of a writable employee passes the schema check |
| RoundTrip.RecordOfLookups | Task_2v/EmployeeUtils.cs:28-34 | each field of an employee's record is found under its schema name |
| RoundTrip.ConvertsFromLookups | Task_2v/EmployeeUtils.cs:28-37 | a record whose keys hold an employee's fields converts to that employee |
| RoundTrip.RecordOfConverts | Task_2v/EmployeeUtils.cs:28-37 | converting an employee's record gives the employee back |
| RoundTrip.RecordsOfConvert | Task_2v/EmployeeUtils.cs:19-50 | converting the records of a list of employees gives the list back |
| RoundTrip.ConformingBatchRead | JsonUtils/JsonParser.cs:49-68 | a file with its envelope whose records all conform is read as those records |
| RoundTrip.EmptyBatchRejected | JsonUtils/JsonParser.cs:235-238 | a file with its envelope from which no record is parsed is rejected as empty |
| RoundTrip.SaveThenLoad | Task_2v/ConsoleUtils.cs:382-391 | saving writable employees with the corrected serializer gives lines read back one by one as written, and loading them gives back the same employees |
| RoundTrip.SavedAsWrittenAgrees | JsonUtils/Employee.cs:136-138 | when every project list is non-empty, `ToString` and the corrected serializer write the same file |
| RoundTrip.BraceItemStep | JsonUtils/JsonParser.cs:181-185 | the object's closing brace read inside that array becomes the element `}` |
| RoundTrip.EmptyProjectsObjectRun | JsonUtils/Employee.cs:136-149 | `ToString`'s lines for an employee with no projects leave the parser inside an array, with nothing emitted |
| RoundTrip.FileCloseInArray | JsonUtils/JsonParser.cs:174-180 | the file's closing `]` read inside that array only closes the array |
| RoundTrip.StuckInArray | JsonUtils/JsonParser.cs:172-191 | lines that leave the parser inside an array with nothing emitted parse, between brackets, to no records |
| RoundTrip.EmptyProjectsLost | JsonUtils/Employee.cs:136-138 | a saved single employee with no projects is read back as an empty batch and rejected |

## Behaviour worth noting

- **Trailing commas.** `ParseValue` strips every trailing comma and space from a value, however many there are (`Values.ParseValueNumeral`).
- **Quoted numbers.** A quoted numeral such as `"42"` is text: the quotes make `double.TryParse` fail before they are removed (`Values.ParseValueQuoted`).
- **The array check.** It fails only when the string form neither starts with `[` nor ends with `]`, so one bracket is enough (`Schema.BracketTextPasses`).
- **Sort order.** `Array.Sort` is not stable; the sort is specified as a sorted permutation, and the order among equal elements is left open.
- **Unknown sort fields.** The field name is looked up by every `CompareTo` call, so an unknown name fails a sort of two or more employees and goes unnoticed on a shorter list (`Sorting.SortEmployees`).
- **Unparsable filter literals.** The prompt loop asks again for a literal it does not accept. Only a mixed-case field name lets an unparsable literal through, and it then fails inside the filter (Findings, row 2).
- **Line ends.** `ReadLine` ends a line at a line feed, a carriage return or both together. The model splits the saved text at line feeds, and `Writable` keeps both characters out of the fields, so no saved line holds either (`RoundTrip.SavedLinesSingle`).

## Left out

- **Console I/O.** Reading lines from the console, `WriteJson`, the menus, the coloured output, the file-path prompts and the stream redirection are not modelled. `ReadJson` takes the lines read before the first empty line, and `GenerateSelection` takes the literal the prompt loop accepted.
- **The `InsideString` state.** The enum declares it but no transition enters it, so it is omitted.
- **The null branches of `CompareValues`.** No field of an `Employee` is null here, so they cannot arise.
- **A `null` line from `ReadLine`.** It ends reading like an empty line does, and that case is covered by taking the lines read up to that point.
- **Culture-sensitive prefix tests.** `StartsWith(string)` in `StateMachine` (JsonUtils/JsonParser.cs:128, 138, 156, 174) compares under the current culture, which skips ignorable code points such as a soft hyphen (U+00AD): a line `\u00AD{` opens an object there. The model tests the first character (`Text.StartsWith`).
- **Culture-sensitive lower-casing.** `selectValue.ToLower()` (Task_2v/EmployeeUtils.cs:71) lowers under the current culture: under Turkish, `EMPLOYEE_ID` becomes `employee_ıd` with a dotless ı and is rejected. The model lowers ASCII letters only (`Text.Lower`).
- **Culture-aware string ordering.** `string.CompareTo` is culture-aware; text is compared ordinally instead (`Employees.CompareText`).
- **The culture's rendering of doubles.** It is the parameter `render`, so its output is whatever the caller supplies. Round-trip lemmas assume only that the rendering of the salary is a numeral of its value, and that whole numbers render as their digits.
- **Other number forms.** `double.TryParse` and `double.Parse` with `NumberStyles.Any` also accept exponents, thousands separators, currency symbols, parentheses, trailing signs, `NaN` and infinities. `Convert.ToDouble` of a text, under the invariant culture, accepts exponents, thousands separators, `NaN` and infinities. The model reads only plain decimal numerals in all three places. A `double` is a mathematical real, so rounding and `NaN` ordering are out of scope.
- **Unicode.** White space is space and U+0009 to U+000D only. Case folding covers ASCII letters only. `bool.TryParse` also trims `'\0'`, and that is not modelled.
- **Negative numbers.** `{n}` and `int.TryParse` use the current culture's negative sign; the model writes and reads `-`.
- **Runtime types.** Values carry their runtime type as a datatype tag instead of through reflection.
- **Sort stability.** The order among equal elements after `Array.Sort` is left unspecified.

## Findings

| source | as written | input that shows it | evidently intended | confidence | as-written member | corrected member |
|---|---|---|---|---|---|---|
| JsonUtils/Employee.cs:136-138 | an employee with no projects is written as `"projects": []` on one line; the parser enters the array state on that line and takes the closing `},` and the file's `]` as array content | saving one writable employee whose projects list is empty, then loading the file: no record is parsed and `ReadJson` rejects the file as empty data | the brackets of an empty list on lines of their own (`[` on the key line, `    ]` below), as for a non-empty list, so the saved file reads back | high (proved in the model; not executed) | RoundTrip.EmptyProjectsLost | RoundTrip.SaveThenLoad |
| Task_2v/EmployeeUtils.cs:88 | `FieldValueCheck` is given the field name as typed, while the name was validated and the filter runs on its lower-cased form | field name `Age` with literal `ten`: the prompt accepts the literal because it is non-empty, then `int.Parse` throws inside `EqualityCheck` | the prompt checks the literal against the lower-cased name, so an accepted literal always parses | high (proved in the model; not executed) | EmployeeUtils.MixedCaseSelectionFails | EmployeeUtils.GenerateSelectionFixed |
