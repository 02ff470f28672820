/** The fixed seven-field schema and the fail-fast check of parsed records against it. */
module Schema {
  import opened Outcomes
  import opened Text
  import opened Numerals
  import opened Values

  /** The expected key at each position of a record. */
  const FieldNames: seq<string> := ["employee_id", "full_name", "age", "department", "is_manager", "salary", "projects"]

  /** Why a batch of records was rejected. Positions in `WrongKey` count from 1, as in the message. */
  datatype SchemaError =
    | EmptyData
    | WrongPairCount
    | WrongKey(expected: string, position: nat)
    | NotInteger(key: string)
    | NotBoolean(key: string)
    | NotNumber(key: string)
    | NotArray(key: string)

  /** `CheckIntValue`: the string form of the value passes `int.TryParse`. */
  predicate IsIntValue(v: Value, render: real -> string) {
    ParseInt32(StringForm(v, render)).Some?
  }

  /** `CheckBoolValue`: the value is a `bool`, not text that spells one. */
  predicate IsBoolValue(v: Value) {
    v.Boolean?
  }

  /** `CheckDoubleValue`: the string form of the value passes `double.TryParse`. */
  predicate IsDoubleValue(v: Value, render: real -> string) {
    ParseNumber(StringForm(v, render)).Some?
  }

  /** `CheckArrayValue`: fails only when the string form neither starts with `[` nor ends with `]`. */
  predicate IsArrayValue(v: Value, render: real -> string) {
    var s := StringForm(v, render);
    StartsWith(s, '[') || EndsWith(s, ']')
  }

  /** The type a position demands; positions 1 and 3 demand nothing. */
  predicate TypeOk(i: nat, v: Value, render: real -> string) {
    if i == 0 || i == 2 then IsIntValue(v, render)
    else if i == 4 then IsBoolValue(v)
    else if i == 5 then IsDoubleValue(v, render)
    else if i == 6 then IsArrayValue(v, render)
    else true
  }

  /** A record the schema accepts: seven entries, the expected key at each position,
      and a value of the expected type. */
  predicate Conforms(r: Record, render: real -> string) {
    |r| == 7 && forall i :: 0 <= i < 7 ==> r[i].0 == FieldNames[i] && TypeOk(i, r[i].1, render)
  }

  /** The type check of position `i` with its error. */
  function CheckValue(i: nat, v: Value, render: real -> string): (o: Outcome<SchemaError>)
    requires i < 7
    ensures o == Pass <==> TypeOk(i, v, render)
    ensures i == 1 || i == 3 ==> o == Pass
    ensures (i == 0 || i == 2) && o.Fail? ==> o.error == NotInteger(FieldNames[i]) && !IsIntValue(v, render)
    ensures i == 4 && o.Fail? ==> o.error == NotBoolean("is_manager") && !v.Boolean?
    ensures i == 5 && o.Fail? ==> o.error == NotNumber("salary") && ParseNumber(StringForm(v, render)).None?
    ensures i == 6 && o.Fail? ==> o.error == NotArray("projects")
  {
    if TypeOk(i, v, render) then Pass
    else if i == 4 then Fail(NotBoolean(FieldNames[i]))
    else if i == 5 then Fail(NotNumber(FieldNames[i]))
    else if i == 6 then Fail(NotArray(FieldNames[i]))
    else Fail(NotInteger(FieldNames[i]))
  }

  /** `CheckKey` then the type check, for position `i`. */
  function CheckEntry(i: nat, entry: (string, Value), render: real -> string): (o: Outcome<SchemaError>)
    requires i < 7
    ensures o == Pass <==> entry.0 == FieldNames[i] && TypeOk(i, entry.1, render)
  {
    if entry.0 != FieldNames[i] then Fail(WrongKey(FieldNames[i], i + 1)) else CheckValue(i, entry.1, render)
  }

  /** The first failing position from `i` on. */
  function CheckFrom(r: Record, i: nat, render: real -> string): (o: Outcome<SchemaError>)
    requires |r| == 7 && i <= 7
    ensures o == Pass <==> forall j :: i <= j < 7 ==> r[j].0 == FieldNames[j] && TypeOk(j, r[j].1, render)
    decreases 7 - i
  {
    if i == 7 then Pass
    else
      var head := CheckEntry(i, r[i], render);
      if head.Fail? then head else CheckFrom(r, i + 1, render)
  }

  /** The check of one record: the entry count, then position by position. */
  function CheckRecord(r: Record, render: real -> string): (o: Outcome<SchemaError>)
    ensures o == Pass <==> Conforms(r, render)
  {
    if |r| != 7 then Fail(WrongPairCount) else CheckFrom(r, 0, render)
  }

  /** The first failure among outcomes, in order; `Pass` when there is none. */
  function FirstFail(os: seq<Outcome<SchemaError>>): (o: Outcome<SchemaError>)
    ensures o == Pass <==> forall k :: 0 <= k < |os| ==> os[k] == Pass
    ensures o != Pass ==> exists k :: 0 <= k < |os| && o == os[k] && forall l :: 0 <= l < k ==> os[l] == Pass
  {
    if |os| == 0 then Pass
    else if os[0].Fail? then os[0]
    else
      var rest := FirstFail(os[1..]);
      assert forall k :: 1 <= k < |os| ==> os[1..][k - 1] == os[k];
      rest
  }

  /** The check of each record, in order. */
  function RecordChecks(data: seq<Record>, render: real -> string): (os: seq<Outcome<SchemaError>>)
    ensures |os| == |data|
    ensures forall k :: 0 <= k < |data| ==> os[k] == CheckRecord(data[k], render)
  {
    seq(|data|, k requires 0 <= k < |data| => CheckRecord(data[k], render))
  }

  /** Every record check passes exactly when every record conforms. */
  lemma ChecksPass(data: seq<Record>, render: real -> string)
    ensures (forall k :: 0 <= k < |data| ==> RecordChecks(data, render)[k] == Pass)
        <==> (forall k :: 0 <= k < |data| ==> Conforms(data[k], render))
  {
    var os := RecordChecks(data, render);
    if forall k :: 0 <= k < |data| ==> os[k] == Pass {
      forall k | 0 <= k < |data| ensures Conforms(data[k], render) {
        assert os[k] == CheckRecord(data[k], render);
      }
    } else {
      var k :| 0 <= k < |data| && os[k] != Pass;
      assert os[k] == CheckRecord(data[k], render);
    }
  }

  /** `CheckDataStructure`, as a function: an empty batch is rejected, and otherwise the
      first nonconforming record decides the error. */
  function Validate(data: seq<Record>, render: real -> string): (o: Outcome<SchemaError>)
    ensures o == Pass <==> |data| > 0 && forall k :: 0 <= k < |data| ==> Conforms(data[k], render)
  {
    ChecksPass(data, render);
    if |data| == 0 then Fail(EmptyData) else FirstFail(RecordChecks(data, render))
  }

  /** The inner loop of `CheckDataStructure` over one record's entries. */
  method CheckEntries(r: Record, render: real -> string) returns (o: Outcome<SchemaError>)
    ensures o == CheckRecord(r, render)
  {
    if |r| != 7 {
      return Fail(WrongPairCount);
    }
    var i := 0;
    while i < 7
      invariant 0 <= i <= 7
      invariant CheckFrom(r, 0, render) == CheckFrom(r, i, render)
    {
      if r[i].0 != FieldNames[i] {
        return Fail(WrongKey(FieldNames[i], i + 1));
      }
      if !TypeOk(i, r[i].1, render) {
        return CheckValue(i, r[i].1, render);
      }
      i := i + 1;
    }
    return Pass;
  }

  lemma FirstFailFrom(os: seq<Outcome<SchemaError>>, j: nat)
    requires j < |os|
    ensures FirstFail(os[j..]) == if os[j].Fail? then os[j] else FirstFail(os[j + 1..])
  {
    assert os[j..][0] == os[j] && os[j..][1..] == os[j + 1..];
  }

  /** The outer loop of `CheckDataStructure`: the records in order, stopping at the first
      that fails. */
  method CheckRecords(data: seq<Record>, render: real -> string) returns (o: Outcome<SchemaError>)
    ensures o == FirstFail(RecordChecks(data, render))
  {
    ghost var os := RecordChecks(data, render);
    var j := 0;
    while j < |data|
      invariant 0 <= j <= |data|
      invariant FirstFail(os) == FirstFail(os[j..])
    {
      var checked := CheckEntries(data[j], render);
      FirstFailFrom(os, j);
      if checked.Fail? {
        return checked;
      }
      j := j + 1;
    }
    assert os[j..] == [];
    return Pass;
  }

  /** `CheckDataStructure`, with its loops: it passes exactly when the batch is non-empty
      and every record conforms, and otherwise reports the first failure it meets. */
  method CheckDataStructure(data: seq<Record>, render: real -> string) returns (o: Outcome<SchemaError>)
    ensures o == Validate(data, render)
  {
    if |data| == 0 {
      return Fail(EmptyData);
    }
    o := CheckRecords(data, render);
  }

  /** A key error names the expected key and the 1-based position of an entry that holds
      another key, with every earlier entry correct. */
  lemma WrongKeyIsPrecise(r: Record, render: real -> string, expected: string, position: nat)
    requires CheckRecord(r, render) == Fail(WrongKey(expected, position))
    ensures |r| == 7 && 1 <= position <= 7
    ensures expected == FieldNames[position - 1] && r[position - 1].0 != expected
    ensures forall i :: 0 <= i < position - 1 ==> r[i].0 == FieldNames[i] && TypeOk(i, r[i].1, render)
  {
    var i := 0;
    while i < 7 && CheckEntry(i, r[i], render) == Pass
      invariant 0 <= i <= 7
      invariant CheckFrom(r, 0, render) == CheckFrom(r, i, render)
      invariant forall j :: 0 <= j < i ==> r[j].0 == FieldNames[j] && TypeOk(j, r[j].1, render)
    {
      i := i + 1;
    }
    assert i < 7;
  }

  /** A record with a missing field (six entries) rejects the whole batch, whatever the
      other records are. */
  lemma MissingFieldRejectsBatch(data: seq<Record>, j: nat, render: real -> string)
    requires j < |data| && |data[j]| == 6
    ensures Validate(data, render).Fail?
  {
  }

  /** The string form of a list is its type name, which ends with `]`: an array value
      always passes the array check. */
  lemma ArrayValuePasses(items: seq<string>, render: real -> string)
    ensures IsArrayValue(TextArray(items), render)
  {
  }

  /** Any text ending with `]` passes the array check too: the check does not make sure
      the value is a list. */
  lemma BracketTextPasses(s: string, render: real -> string)
    requires EndsWith(s, ']')
    ensures IsArrayValue(Text(s), render)
  {
  }

  /** The string form of a boolean is `True` or `False`, so no boolean passes the integer check. */
  lemma BooleanIsNotInt(b: bool, render: real -> string)
    ensures !IsIntValue(Boolean(b), render)
  {
    var s := StringForm(Boolean(b), render);
    TrimUntouched(s, IsSpace);
    assert SplitSign(s).1 == s;
    assert !IsDigit(s[0]);
  }
}
