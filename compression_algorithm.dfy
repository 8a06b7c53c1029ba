/** The compression algorithm enum: a Go `uint8` whose named values are Unknown, None, GZip. */
module CompressionAlgorithms {
  import Wrappers
  import opened Json

  newtype CompressionAlgorithm = x: int | 0 <= x < 256

  const Unknown: CompressionAlgorithm := 0
  const None: CompressionAlgorithm := 1
  const GZip: CompressionAlgorithm := 2

  /** The values a successful decoding can produce. */
  predicate Named(v: CompressionAlgorithm) {
    v == Unknown || v == None || v == GZip
  }

  /** String: the label of a named value, "unknown" for every other value. */
  function String(v: CompressionAlgorithm): (s: string)
    ensures s == "none" <==> v == None
    ensures s == "zlib" <==> v == GZip
    ensures v != None && v != GZip ==> s == "unknown"
  {
    if v == None then "none"
    else if v == GZip then "zlib"
    else "unknown"
  }

  /** MarshalJSON: the label as a JSON string. */
  function MarshalJson(v: CompressionAlgorithm): (j: Json)
    ensures j.JStr? && j.s == String(v)
  {
    JStr(String(v))
  }

  /** The switch of UnmarshalJSON: the named value whose label is exactly `s`, else Unknown. */
  function FromLabel(s: string): (v: CompressionAlgorithm)
    ensures Named(v)
    ensures v == None <==> s == "none"
    ensures v == GZip <==> s == "zlib"
  {
    if s == "none" then None
    else if s == "zlib" then GZip
    else Unknown
  }

  /** UnmarshalJSON as a function: any string decodes, anything else is an error. */
  function Decode(j: Json): (r: Wrappers.Result<CompressionAlgorithm, CodecError>)
    ensures r.Ok? <==> j.JStr?
    ensures r.Ok? ==> Named(r.value) && r.value == FromLabel(j.s)
    ensures r.Err? ==> r.error == NotAString
  {
    var s :- DecodeString(j);
    Wrappers.Ok(FromLabel(s))
  }

  /**
   * UnmarshalJSON: decode the value as a string, choose the constant by its label and only
   * then write it through the receiver; on an error the receiver keeps its value.
   */
  method UnmarshalJson(dst: Wrappers.Ref<CompressionAlgorithm>, data: Json) returns (err: Wrappers.Option<CodecError>)
    modifies dst
    ensures err.None? <==> Decode(data).Ok?
    ensures err.None? ==> dst.value == Decode(data).value
    ensures err.Some? ==> err.value == Decode(data).error && dst.value == old(dst.value)
  {
    var s: string;
    match DecodeString(data) {
      case Err(e) =>
        return Wrappers.Some(e);
      case Ok(text) =>
        s := text;
    }
    var v: CompressionAlgorithm;
    if s == "none" {
      v := None;
    } else if s == "zlib" {
      v := GZip;
    } else {
      v := Unknown;
    }
    dst.value := v;
    return Wrappers.None;
  }

  /** Encoding then decoding gives every named value back, and Unknown for every other value. */
  lemma RoundTrip(v: CompressionAlgorithm)
    ensures Decode(MarshalJson(v)) == Wrappers.Ok(if Named(v) then v else Unknown)
  {
  }

  /** Whatever a decoding produces encodes to a label that decodes to it again. */
  lemma DecodeStable(j: Json)
    requires Decode(j).Ok?
    ensures Decode(MarshalJson(Decode(j).value)) == Decode(j)
  {
    RoundTrip(Decode(j).value);
  }
}
