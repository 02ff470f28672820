/** The untyped values and records the line parser produces, and scalar type inference. */
module Values {
  import opened Outcomes
  import opened Text
  import opened Numerals

  /** What the parser stores for a key: a `double`, a `bool`, a `string` or a `List<string>`. */
  datatype Value = Number(x: real) | Boolean(b: bool) | Text(s: string) | TextArray(items: seq<string>)

  /** A `Dictionary<string, object>` whose entries are only ever inserted or overwritten:
      its enumeration order is insertion order. */
  type Record = seq<(string, Value)>

  function Keys(r: Record): (ks: seq<string>)
    ensures |ks| == |r|
    ensures forall i :: 0 <= i < |r| ==> ks[i] == r[i].0
  {
    seq(|r|, i requires 0 <= i < |r| => r[i].0)
  }

  /** No key occurs twice, as in any dictionary. */
  predicate UniqueKeys(r: Record) {
    forall i, j :: 0 <= i < j < |r| ==> r[i].0 != r[j].0
  }

  /** The indexer read `obj[key]`; `None` where it would throw `KeyNotFoundException`. */
  function Lookup(r: Record, key: string): (v: Option<Value>)
    ensures v.None? <==> key !in Keys(r)
    ensures v.Some? ==> (key, v.value) in r
  {
    if |r| == 0 then None
    else if r[0].0 == key then Some(r[0].1)
    else
      assert Keys(r) == [r[0].0] + Keys(r[1..]);
      Lookup(r[1..], key)
  }

  /** The indexer write `obj[key] = v`: overwrite in place, or append a new entry. */
  function Assign(r: Record, key: string, v: Value): (r': Record)
    ensures Lookup(r', key) == Some(v)
    ensures forall k :: k != key ==> Lookup(r', k) == Lookup(r, k)
    decreases |r|
  {
    if |r| == 0 then [(key, v)]
    else if r[0].0 == key then [(key, v)] + r[1..]
    else [r[0]] + Assign(r[1..], key, v)
  }

  lemma KeysCons(x: (string, Value), rest: Record)
    ensures Keys([x] + rest) == [x.0] + Keys(rest)
  {
  }

  /** Overwriting an existing key keeps the keys and their order. */
  lemma {:induction false} AssignInPlace(r: Record, key: string, v: Value)
    requires key in Keys(r)
    ensures Keys(Assign(r, key, v)) == Keys(r)
    decreases |r|
  {
    assert r == [r[0]] + r[1..];
    KeysCons(r[0], r[1..]);
    if r[0].0 != key {
      AssignInPlace(r[1..], key, v);
      KeysCons(r[0], Assign(r[1..], key, v));
    } else {
      KeysCons((key, v), r[1..]);
    }
  }

  lemma KeysTail(r: Record, key: string)
    requires |r| > 0 && key !in Keys(r)
    ensures r[0].0 != key && key !in Keys(r[1..])
  {
    assert Keys(r) == [r[0].0] + Keys(r[1..]);
  }

  lemma ConsAppend(r: Record, x: (string, Value))
    requires |r| > 0
    ensures [r[0]] + (r[1..] + [x]) == r + [x]
  {
    assert r == [r[0]] + r[1..];
  }

  /** Assigning a new key appends it as the last entry. */
  lemma {:induction false} AssignAppends(r: Record, key: string, v: Value)
    requires key !in Keys(r)
    ensures Assign(r, key, v) == r + [(key, v)]
    decreases |r|
  {
    if |r| > 0 {
      KeysTail(r, key);
      AssignAppends(r[1..], key, v);
      ConsAppend(r, (key, v));
    }
  }

  /** A record built by assignments never holds a key twice. */
  lemma {:induction false} AssignKeepsUniqueKeys(r: Record, key: string, v: Value)
    requires UniqueKeys(r)
    ensures UniqueKeys(Assign(r, key, v))
  {
    var r' := Assign(r, key, v);
    if key in Keys(r) {
      AssignInPlace(r, key, v);
      assert Keys(r') == Keys(r);
    } else {
      AssignAppends(r, key, v);
      forall i | 0 <= i < |r| ensures r[i].0 != key {
        assert Keys(r)[i] == r[i].0;
      }
    }
  }

  /** `bool.TryParse`: `true` or `false` in any letter case, white space around ignored. */
  function ParseBool(s: string): (r: Option<bool>)
    ensures r.Some? <==> Lower(TrimWhite(s)) in {"true", "false"}
    ensures r.Some? ==> (r.value <==> |TrimWhite(s)| == 4)
  {
    var t := Lower(TrimWhite(s));
    if t == "true" then Some(true) else if t == "false" then Some(false) else None
  }

  /** `ParseValue`: strip trailing commas and spaces, then a number, else a boolean,
      else the text with its enclosing quotes removed. */
  function ParseValue(token: string): (v: Value)
    ensures v.Text? ==> |v.s| == 0 || (v.s[0] != '"' && v.s[|v.s| - 1] != '"')
  {
    Infer(TrimEnd(token, IsCommaOrSpace))
  }

  /** The precedence of inference: number, then boolean, then unquoted text. */
  function Infer(t: string): (v: Value)
    ensures v.Text? ==> |v.s| == 0 || (v.s[0] != '"' && v.s[|v.s| - 1] != '"')
  {
    match ParseNumber(t)
    case Some(x) => Number(x)
    case None =>
      match ParseBool(t)
      case Some(b) => Boolean(b)
      case None => TrimEnds(t, IsQuote); Text(Trim(t, IsQuote))
  }

  /** What `Convert.ToString(List<string>)` returns: the type name. */
  const ListTypeName: string := "System." + "Collections.Generic." + "List`1[System.String]"

  /** `Convert.ToString(value)`; `render` is the current culture's rendering of a `double`. */
  function StringForm(v: Value, render: real -> string): (r: string)
    ensures v.Boolean? ==> ParseBool(r) == Some(v.b)
    ensures v.TextArray? ==> !StartsWith(r, '[') && EndsWith(r, ']')
  {
    match v
    case Number(x) => render(x)
    case Boolean(b) => if b then "True" else "False"
    case Text(s) => s
    case TextArray(_) => ListTypeName
  }

  /** A numeral followed by commas and spaces is inferred as that number. */
  lemma ParseValueNumeral(t: string, pad: string)
    requires Numeral(t).Some?
    requires forall k :: 0 <= k < |pad| ==> IsCommaOrSpace(pad[k])
    ensures ParseValue(t + pad) == Number(Numeral(t).value)
  {
    NumeralChars(t);
    assert |t| > 0 && !IsCommaOrSpace(t[|t| - 1]);
    TrimEndPadding(t, pad, IsCommaOrSpace);
    assert !IsSpace(t[0]) && !IsSpace(t[|t| - 1]);
    TrimUntouched(t, IsSpace);
  }

  /** A rendered integer followed by a comma is inferred as that number. */
  lemma ParseValueInteger(n: int)
    ensures ParseValue(IntToString(n) + ",") == Number(n as real)
  {
    ParseNumberIntToString(n);
    IntToStringTrimmed(n);
    ParseValueNumeral(IntToString(n), ",");
  }

  /** `true,` and `false,` are inferred as booleans. */
  lemma ParseValueBoolean(b: bool)
    ensures ParseValue((if b then "true" else "false") + ",") == Boolean(b)
  {
    var w := if b then "true" else "false";
    TrimEndPadding(w, ",", IsCommaOrSpace);
    TrimUntouched(w, IsSpace);
    NotANumber(w);
    assert Lower(w) == w;
  }

  /** Stripping the trailing comma of `"s",` leaves the quoted token. */
  lemma {:induction false} QuotedTokenTrimmed(s: string)
    ensures TrimEnd("\"" + s + "\",", IsCommaOrSpace) == "\"" + s + "\""
  {
    var q := "\"" + s + "\"";
    assert q + "," == "\"" + s + "\",";
    TrimEndPadding(q, ",", IsCommaOrSpace);
  }

  /** A quoted token is neither a number nor a boolean. */
  lemma QuotedTokenNotScalar(s: string)
    ensures ParseNumber("\"" + s + "\"").None?
    ensures ParseBool("\"" + s + "\"").None?
  {
    var q := "\"" + s + "\"";
    TrimUntouched(q, IsSpace);
    NotANumber(q);
    assert Lower(q)[0] == '"';
  }

  /** Removing the enclosing quotes of `"s"` gives `s` back. */
  lemma QuotedTokenUnquoted(s: string)
    requires |s| > 0 ==> s[0] != '"' && s[|s| - 1] != '"'
    ensures Trim("\"" + s + "\"", IsQuote) == s
  {
    var q := "\"" + s + "\"";
    if |s| > 0 {
      assert q == "\"" + (s + "\"");
      TrimStartPadding("\"", s + "\"", IsQuote);
      TrimEndPadding(s, "\"", IsQuote);
    } else {
      assert TrimStart(q, IsQuote) == "";
    }
  }

  /** A quoted string followed by a comma is inferred as the text between the quotes,
      even when that text looks like a number (`"42"` is text). */
  lemma ParseValueQuoted(s: string)
    requires |s| > 0 ==> s[0] != '"' && s[|s| - 1] != '"'
    ensures ParseValue("\"" + s + "\",") == Text(s)
  {
    QuotedTokenTrimmed(s);
    QuotedTokenNotScalar(s);
    QuotedTokenUnquoted(s);
  }
}
