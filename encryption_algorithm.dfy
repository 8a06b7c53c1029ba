/** The encryption algorithm enum: a Go `uint8` whose named values are Unknown, Aes. */
module EncryptionAlgorithms {
  import Wrappers
  import opened Json

  newtype EncryptionAlgorithm = x: int | 0 <= x < 256

  const Unknown: EncryptionAlgorithm := 0
  const Aes: EncryptionAlgorithm := 1

  /** The values a successful decoding can produce. */
  predicate Named(v: EncryptionAlgorithm) {
    v == Unknown || v == Aes
  }

  /** String: the label of a named value, "unknown" for every other value. */
  function String(v: EncryptionAlgorithm): (s: string)
    ensures s == "aes" <==> v == Aes
    ensures v != Aes ==> s == "unknown"
  {
    if v == Aes then "aes"
    else "unknown"
  }

  /** MarshalJSON: the label as a JSON string. */
  function MarshalJson(v: EncryptionAlgorithm): (j: Json)
    ensures j.JStr? && j.s == String(v)
  {
    JStr(String(v))
  }

  /** The switch of UnmarshalJSON: the named value whose label is exactly `s`, else Unknown. */
  function FromLabel(s: string): (v: EncryptionAlgorithm)
    ensures Named(v)
    ensures v == Aes <==> s == "aes"
  {
    if s == "aes" then Aes
    else Unknown
  }

  /** UnmarshalJSON as a function: any string decodes, anything else is an error. */
  function Decode(j: Json): (r: Wrappers.Result<EncryptionAlgorithm, CodecError>)
    ensures r.Ok? <==> j.JStr?
    ensures r.Ok? ==> Named(r.value) && r.value == FromLabel(j.s)
    ensures r.Err? ==> r.error == NotAString
  {
    var s :- DecodeString(j);
    Wrappers.Ok(FromLabel(s))
  }

  /**
   * UnmarshalJSON: decode the value as a string, choose the constant by its label and only
   * then write it through the receiver; on an error the receiver keeps its value.
   */
  method UnmarshalJson(dst: Wrappers.Ref<EncryptionAlgorithm>, data: Json) returns (err: Wrappers.Option<CodecError>)
    modifies dst
    ensures err.None? <==> Decode(data).Ok?
    ensures err.None? ==> dst.value == Decode(data).value
    ensures err.Some? ==> err.value == Decode(data).error && dst.value == old(dst.value)
  {
    var s: string;
    match DecodeString(data) {
      case Err(e) =>
        return Wrappers.Some(e);
      case Ok(text) =>
        s := text;
    }
    var v: EncryptionAlgorithm;
    if s == "aes" {
      v := Aes;
    } else {
      v := Unknown;
    }
    dst.value := v;
    return Wrappers.None;
  }

  /** Encoding then decoding gives every named value back, and Unknown for every other value. */
  lemma RoundTrip(v: EncryptionAlgorithm)
    ensures Decode(MarshalJson(v)) == Wrappers.Ok(if Named(v) then v else Unknown)
  {
  }

  /** Whatever a decoding produces encodes to a label that decodes to it again. */
  lemma DecodeStable(j: Json)
    requires Decode(j).Ok?
    ensures Decode(MarshalJson(Decode(j).value)) == Decode(j)
  {
    RoundTrip(Decode(j).value);
  }
}
