/**
 * The JSON values that encoding/json reads and writes, as a value tree.
 * The text syntax (escaping, whitespace, key order) is not part of this model.
 */
module Json {
  import opened Wrappers
  import opened Bytes

  datatype Json =
    | JBool(b: bool)
    | JNum(n: int)
    | JStr(s: string)
    | JArr(items: seq<Json>)
    | JObj(fields: map<string, Json>)

  /** Why json.Unmarshal into a Go value failed. */
  datatype CodecError =
    | NotAnArray          // the value is not an array (into a Go array)
    | MissingElement      // a Go array slot left empty: "unexpected end of JSON input"
    | NotAString          // a non-string where a Go string is expected
    | NotANumber          // a non-number where a Go int is expected
    | NumberOutOfRange    // a number that does not fit a Go int
    | NotAStringObject    // not an object whose values are all strings (into map[string]string)
    | CorruptBase64       // base64.CorruptInputError

  /** json.Unmarshal into a Go `string`. */
  function DecodeString(j: Json): Result<string, CodecError> {
    if j.JStr? then Ok(j.s) else Err(NotAString)
  }

  /** json.Unmarshal into a Go `int`. */
  function DecodeInt(j: Json): Result<Int, CodecError> {
    if !j.JNum? then Err(NotANumber)
    else if -0x8000_0000_0000_0000 <= j.n < 0x8000_0000_0000_0000 then Ok(j.n)
    else Err(NumberOutOfRange)
  }

  /**
   * Slot `i` of the Go array `[N]json.RawMessage` that json.Unmarshal filled from `items`:
   * a slot past the end of the JSON array stays empty, and decoding it fails.
   */
  function Slot(items: seq<Json>, i: nat): Result<Json, CodecError> {
    if i < |items| then Ok(items[i]) else Err(MissingElement)
  }

  /** A Go `map[string]string` as the JSON object json.Marshal writes for it. */
  function StringObject(m: map<string, string>): (j: Json)
    ensures j.JObj? && j.fields.Keys == m.Keys
    ensures forall k :: k in m ==> j.fields[k] == JStr(m[k])
  {
    JObj(map k | k in m :: JStr(m[k]))
  }

  /** json.Unmarshal into a Go `map[string]string`. */
  function DecodeStringObject(j: Json): (r: Result<map<string, string>, CodecError>)
    ensures r.Ok? <==> j.JObj? && forall k :: k in j.fields ==> j.fields[k].JStr?
    ensures r.Ok? ==> StringObject(r.value) == j
  {
    if j.JObj? && forall k :: k in j.fields ==> j.fields[k].JStr? then
      var m := map k | k in j.fields :: j.fields[k].s;
      assert StringObject(m) == j;
      Ok(m)
    else
      Err(NotAStringObject)
  }

  lemma {:induction false} StringObjectRoundTrip(m: map<string, string>)
    ensures DecodeStringObject(StringObject(m)) == Ok(m)
  {
    var j := StringObject(m);
    assert forall k :: k in j.fields ==> j.fields[k] == JStr(m[k]);
    var m' := DecodeStringObject(j).value;
    assert m'.Keys == m.Keys;
    assert forall k :: k in m ==> m'[k] == m[k];
    assert m' == m;
  }
}
