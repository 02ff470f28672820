/** `ReadJson` without the console: the envelope check, the state machine and the schema check. */
module JsonReader {
  import opened Outcomes
  import opened Text
  import opened Values
  import opened LineParser
  import opened Schema

  /** `MalformedInput` is the rethrown "error while reading data"; `InvalidData` carries
      the schema check's error. */
  datatype ReadError = MalformedInput | InvalidData(error: SchemaError)

  /** The lines read up to the first empty line, turned into validated records. */
  function ReadJson(lines: seq<string>, render: real -> string): (r: Result<seq<Record>, ReadError>)
    ensures r == Err(MalformedInput) <==> !HasEnvelope(lines)
    ensures r.Ok? ==> r.value == StateMachine(lines) && |r.value| > 0
    ensures r.Ok? ==> forall i :: 0 <= i < |r.value| ==> Conforms(r.value[i], render)
  {
    if !HasEnvelope(lines) then Err(MalformedInput)
    else
      var records := StateMachine(lines);
      match Validate(records, render)
      case Pass => Ok(records)
      case Fail(e) => Err(InvalidData(e))
  }

  /** A batch accepted by `ReadJson` holds, in every record, each key once. */
  lemma ReadRecordsHaveUniqueKeys(lines: seq<string>, render: real -> string)
    requires ReadJson(lines, render).Ok?
    ensures forall i :: 0 <= i < |ReadJson(lines, render).value| ==> UniqueKeys(ReadJson(lines, render).value[i])
  {
    RecordsHaveUniqueKeys(lines);
  }
}
