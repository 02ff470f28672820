/** The line-oriented state machine that turns the lines of a JSON array of flat
    objects into untyped records. */
module LineParser {
  import opened Outcomes
  import opened Text
  import opened Values

  /** Where the parser is (the C# enum also declares `InsideString`, which no transition enters). */
  datatype State = OutsideObject | InsideObject | InsideArray

  /** The loop variables of `StateMachine`: the state, the records emitted so far, the
      object being filled, the last key read and the elements of the array being read. */
  datatype Machine = Machine(state: State, records: seq<Record>, current: Record, key: string, items: seq<string>)

  const Initial: Machine := Machine(OutsideObject, [], [], "", [])

  /** The envelope check: there is a first line, it trims to `[`, and the last line trims to `]`. */
  function HasEnvelope(lines: seq<string>): (b: bool)
    ensures b ==> |lines| >= 2
  {
    |lines| > 0 && TrimWhite(lines[0]) == "[" && TrimWhite(lines[|lines| - 1]) == "]"
  }

  /** Where the lazy group of `"(.*?)":` can stop when it starts at `i`: the first `":`
      at or after `i`, provided no line break comes before it (`.` does not match `\n`). */
  function KeyEnd(s: string, i: nat): (q: Option<nat>)
    ensures q.Some? ==> i <= q.value && q.value + 1 < |s| && s[q.value] == '"' && s[q.value + 1] == ':'
    ensures q.Some? ==> '\n' !in s[i..q.value]
    decreases |s| - i
  {
    if i + 1 >= |s| then None
    else if s[i] == '"' && s[i + 1] == ':' then Some(i)
    else if s[i] == '\n' then None
    else KeyEnd(s, i + 1)
  }

  /** The text before the first line break (what a greedy `(.*)` captures). */
  function TakeLine(s: string): (r: string)
    ensures |r| <= |s| && r == s[..|r|] && '\n' !in r
  {
    if |s| == 0 || s[0] == '\n' then "" else [s[0]] + TakeLine(s[1..])
  }

  /** The unanchored regex `"(.*?)":\s*(.*)` tried at `p` and then at every later start:
      the key group and the value group of the leftmost match. */
  function MatchFrom(s: string, p: nat): (r: Option<(string, string)>)
    ensures r.Some? ==> '\n' !in r.value.0 && '\n' !in r.value.1
    ensures r.Some? ==> p < |s| && '"' in s[p..]
    decreases |s| - p
  {
    if p >= |s| then None
    else if s[p] == '"' && KeyEnd(s, p + 1).Some? then
      var q := KeyEnd(s, p + 1).value;
      Some((s[p + 1..q], TakeLine(TrimStart(s[q + 2..], IsSpace))))
    else MatchFrom(s, p + 1)
  }

  /** The key and the trimmed value of a `"key": value` line, if the regex matches. */
  function KeyValue(line: string): (r: Option<(string, string)>)
    ensures r.Some? ==> '\n' !in r.value.0
    ensures r.Some? && |r.value.1| > 0 ==> !IsSpace(r.value.1[0]) && !IsSpace(r.value.1[|r.value.1| - 1])
    ensures '"' !in line ==> r.None?
  {
    match MatchFrom(line, 0)
    case None => None
    case Some((k, raw)) => TrimEnds(raw, IsSpace); Some((k, TrimWhite(raw)))
  }

  /** An array element line, trimmed of spaces, commas and quotes. */
  function Item(trimmed: string): string {
    Trim(trimmed, IsItemPadding)
  }

  /** One iteration of the `foreach` loop of `StateMachine`. */
  function Step(m: Machine, line: string): (m': Machine)
    ensures m.state == InsideObject && StartsWith(TrimWhite(line), '}') ==>
              m'.records == m.records + [m.current] && m'.state == OutsideObject
    ensures !(m.state == InsideObject && StartsWith(TrimWhite(line), '}')) ==> m'.records == m.records
  {
    var t := TrimWhite(line);
    match m.state
    case OutsideObject =>
      if StartsWith(t, '{') then m.(state := InsideObject, current := []) else m
    case InsideObject =>
      if StartsWith(t, '}') then m.(state := OutsideObject, records := m.records + [m.current])
      else (
        match KeyValue(t)
        case None => m
        case Some((k, value)) =>
          if StartsWith(value, '[') then m.(state := InsideArray, key := k, items := [])
          else m.(key := k, current := Assign(m.current, k, ParseValue(value))))
    case InsideArray =>
      if StartsWith(t, ']') then m.(state := InsideObject, current := Assign(m.current, m.key, TextArray(m.items)))
      else m.(items := m.items + [Item(t)])
  }

  /** The `foreach` loop over the lines. */
  function Run(m: Machine, lines: seq<string>): (m': Machine)
    ensures m.records <= m'.records
    ensures |m'.records| <= |m.records| + |lines|
    decreases |lines|
  {
    if |lines| == 0 then m else Run(Step(m, lines[0]), lines[1..])
  }

  /** `StateMachine`: the records emitted while running from the initial state. Nothing is
      flushed after the loop, so an object still open at the end is not among them. */
  function StateMachine(lines: seq<string>): (r: seq<Record>)
    ensures |r| <= |lines|
  {
    Run(Initial, lines).records
  }

  /** No line, once trimmed, starts with `c`. */
  predicate NoneStartWith(lines: seq<string>, c: char)
    decreases |lines|
  {
    |lines| > 0 ==> !StartsWith(TrimWhite(lines[0]), c) && NoneStartWith(lines[1..], c)
  }

  /** Running over two blocks of lines is running over the first, then the second. */
  lemma {:induction false} RunAppend(m: Machine, a: seq<string>, b: seq<string>)
    ensures Run(m, a + b) == Run(Run(m, a), b)
    decreases |a|
  {
    if |a| > 0 {
      assert (a + b)[1..] == a[1..] + b;
      RunAppend(Step(m, a[0]), a[1..], b);
    } else {
      assert a + b == b;
    }
  }

  /** Records are only ever appended: what was emitted stays, in order. */
  lemma {:induction false} RecordsOnlyGrow(m: Machine, lines: seq<string>)
    ensures |m.records| <= |Run(m, lines).records|
    ensures Run(m, lines).records[..|m.records|] == m.records
    decreases |lines|
  {
    if |lines| > 0 {
      RecordsOnlyGrow(Step(m, lines[0]), lines[1..]);
    }
  }

  /** Without a line starting with `}` no record is emitted: an object left open by the
      end of the input is dropped. */
  lemma {:induction false} NoCloseNoRecord(m: Machine, lines: seq<string>)
    requires NoneStartWith(lines, '}')
    ensures Run(m, lines).records == m.records
    decreases |lines|
  {
    if |lines| > 0 {
      NoCloseNoRecord(Step(m, lines[0]), lines[1..]);
    }
  }

  /** Outside an object, lines that do not start with `{` change nothing. */
  lemma {:induction false} OutsideIgnores(m: Machine, lines: seq<string>)
    requires m.state == OutsideObject
    requires NoneStartWith(lines, '{')
    ensures Run(m, lines) == m
    decreases |lines|
  {
    if |lines| > 0 {
      OutsideIgnores(Step(m, lines[0]), lines[1..]);
    }
  }

  /** Inside an object, a line that neither closes it nor matches the key regex changes nothing. */
  lemma InsideIgnores(m: Machine, line: string)
    requires m.state == InsideObject
    requires !StartsWith(TrimWhite(line), '}') && KeyValue(TrimWhite(line)).None?
    ensures Step(m, line) == m
  {
  }

  /** The elements that array lines contribute. */
  function Items(lines: seq<string>): seq<string> {
    if |lines| == 0 then [] else [Item(TrimWhite(lines[0]))] + Items(lines[1..])
  }

  /** Inside an array a line not starting with `]` becomes the next element. */
  lemma ArrayItemStep(m: Machine, line: string)
    requires m.state == InsideArray && !StartsWith(TrimWhite(line), ']')
    ensures Step(m, line) == m.(items := m.items + [Item(TrimWhite(line))])
  {
  }

  /** Inside an array every line up to one starting with `]` is an element, whatever it
      looks like: closing braces and key lines included. */
  lemma {:induction false} ArrayAbsorbs(m: Machine, lines: seq<string>)
    requires m.state == InsideArray
    requires NoneStartWith(lines, ']')
    ensures Run(m, lines) == m.(items := m.items + Items(lines))
    decreases |lines|
  {
    if |lines| > 0 {
      var x := Item(TrimWhite(lines[0]));
      var m1 := m.(items := m.items + [x]);
      assert Run(m, lines) == Run(m1, lines[1..]) by {
        ArrayItemStep(m, lines[0]);
      }
      ArrayAbsorbs(m1, lines[1..]);
      assert m.items + Items(lines) == m1.items + Items(lines[1..]) by {
        assert Items(lines) == [x] + Items(lines[1..]);
      }
    } else {
      assert m.items + Items(lines) == m.items;
    }
  }

  /** The records emitted and the open object never hold a key twice. */
  predicate KeysUnique(m: Machine) {
    UniqueKeys(m.current) && forall i :: 0 <= i < |m.records| ==> UniqueKeys(m.records[i])
  }

  lemma StepKeepsKeysUnique(m: Machine, line: string)
    requires KeysUnique(m)
    ensures KeysUnique(Step(m, line))
  {
    var t := TrimWhite(line);
    match m.state {
      case OutsideObject =>
      case InsideObject =>
        if !StartsWith(t, '}') {
          match KeyValue(t) {
            case None =>
            case Some((k, value)) =>
              if !StartsWith(value, '[') {
                AssignKeepsUniqueKeys(m.current, k, ParseValue(value));
              }
          }
        }
      case InsideArray =>
        if StartsWith(t, ']') {
          AssignKeepsUniqueKeys(m.current, m.key, TextArray(m.items));
        }
    }
  }

  lemma {:induction false} RunKeepsKeysUnique(m: Machine, lines: seq<string>)
    requires KeysUnique(m)
    ensures KeysUnique(Run(m, lines))
    decreases |lines|
  {
    if |lines| > 0 {
      StepKeepsKeysUnique(m, lines[0]);
      RunKeepsKeysUnique(Step(m, lines[0]), lines[1..]);
    }
  }

  /** A key repeated within one object overwrites the earlier value: no emitted record
      holds a key twice. */
  lemma RecordsHaveUniqueKeys(lines: seq<string>)
    ensures forall i :: 0 <= i < |StateMachine(lines)| ==> UniqueKeys(StateMachine(lines)[i])
  {
    RunKeepsKeysUnique(Initial, lines);
  }

  /** The lazy key group stops at the first `":`, provided nothing before it is a
      quote or a line break. */
  lemma {:induction false} KeyEndAt(s: string, i: nat, q: nat)
    requires i <= q && q + 1 < |s| && s[q] == '"' && s[q + 1] == ':'
    requires forall k :: i <= k < q ==> s[k] != '"' && s[k] != '\n'
    ensures KeyEnd(s, i) == Some(q)
    decreases q - i
  {
    if i < q {
      KeyEndAt(s, i + 1, q);
    }
  }

  lemma {:induction false} TakeLineWhole(s: string)
    requires '\n' !in s
    ensures TakeLine(s) == s
    decreases |s|
  {
    if |s| > 0 {
      TakeLineWhole(s[1..]);
      assert [s[0]] + s[1..] == s;
    }
  }

  /** A line `"k": v` with a quote-free key and a value without edge white space
      matches the key regex with exactly that key and value. */
  lemma KeyValueLine(k: string, v: string)
    requires '"' !in k && '\n' !in k && '\n' !in v
    requires |v| > 0 && !IsSpace(v[0]) && !IsSpace(v[|v| - 1])
    ensures KeyValue("\"" + k + "\": " + v) == Some((k, v))
  {
    var s := "\"" + k + "\": " + v;
    var q := |k| + 1;
    KeyEndAt(s, 1, q);
    assert s[1..q] == k;
    assert s[q + 2..] == " " + v;
    TrimStartPadding(" ", v, IsSpace);
    TakeLineWhole(v);
    TrimUntouched(v, IsSpace);
  }

  /** An indented key line trims to the bare `"k": v`. */
  lemma IndentedLine(indent: string, k: string, v: string)
    requires forall i :: 0 <= i < |indent| ==> indent[i] == ' '
    requires |v| > 0 && !IsSpace(v[|v| - 1])
    ensures TrimWhite(indent + "\"" + k + "\": " + v) == "\"" + k + "\": " + v
  {
    var t := "\"" + k + "\": " + v;
    assert indent + "\"" + k + "\": " + v == indent + t;
    TrimStartPadding(indent, t, IsSpace);
    TrimUntouched(t, IsSpace);
  }

  /** Inside an object, a key line whose value does not start with `[` stores the
      inferred value under the key. */
  lemma {:induction false} ScalarLineStep(m: Machine, indent: string, k: string, v: string)
    requires m.state == InsideObject
    requires forall i :: 0 <= i < |indent| ==> indent[i] == ' '
    requires '"' !in k && '\n' !in k && '\n' !in v
    requires |v| > 0 && !IsSpace(v[0]) && !IsSpace(v[|v| - 1]) && v[0] != '['
    ensures Step(m, indent + "\"" + k + "\": " + v) == m.(key := k, current := Assign(m.current, k, ParseValue(v)))
  {
    IndentedLine(indent, k, v);
    KeyValueLine(k, v);
  }

  /** Inside an object, a key line whose value starts with `[` opens an array, even when
      the array is closed on the same line, as in `"projects": []`. */
  lemma ArrayLineStep(m: Machine, indent: string, k: string, v: string)
    requires m.state == InsideObject
    requires forall i :: 0 <= i < |indent| ==> indent[i] == ' '
    requires '"' !in k && '\n' !in k && '\n' !in v
    requires |v| > 0 && v[0] == '[' && !IsSpace(v[|v| - 1])
    ensures Step(m, indent + "\"" + k + "\": " + v) == m.(state := InsideArray, key := k, items := [])
  {
    IndentedLine(indent, k, v);
    KeyValueLine(k, v);
  }
}
