/**
 * The associated data of a paste: the cipher specification (an 8-slot JSON array) and the
 * paste options wrapped around it (a 4-slot JSON array), and how they are written and read.
 */
module AssociatedData {
  import opened Wrappers
  import opened Bytes
  import opened Json
  import opened Base64
  import opened Utils
  import EA = EncryptionAlgorithms
  import EM = EncryptionModes
  import CA = CompressionAlgorithms

  datatype Spec = Spec(
    iv: seq<byte>,
    salt: seq<byte>,
    iterations: Int,
    keySize: Int,
    tagSize: Int,
    algorithm: EA.EncryptionAlgorithm,
    mode: EM.EncryptionMode,
    compression: CA.CompressionAlgorithm)

  datatype AData = AData(spec: Spec, formatter: string, openDiscussion: bool, burnAfterReading: bool)

  /** Go's zero value of Spec. */
  const ZeroSpec: Spec := Spec([], [], 0, 0, 0, EA.Unknown, EM.Unknown, CA.Unknown)

  /** The enum fields hold values a decoding can produce. */
  predicate NamedEnums(s: Spec) {
    EA.Named(s.algorithm) && EM.Named(s.mode) && CA.Named(s.compression)
  }

  /**
   * Spec.MarshalJSON: IV, Salt (both unpadded base64), Iterations, KeySize, TagSize,
   * Algorithm, Mode, Compression.
   */
  function MarshalSpec(s: Spec): (j: Json)
    ensures j.JArr? && |j.items| == 8
    ensures j.items[0].JStr? && Pad !in j.items[0].s && RawStdDecode(j.items[0].s) == Some(s.iv)
    ensures j.items[1].JStr? && Pad !in j.items[1].s && RawStdDecode(j.items[1].s) == Some(s.salt)
  {
    PadNotInAlphabet();
    RawStdRoundTrip(s.iv);
    RawStdRoundTrip(s.salt);
    JArr([
      JStr(RawStdEncode(s.iv)),
      JStr(RawStdEncode(s.salt)),
      JNum(s.iterations),
      JNum(s.keySize),
      JNum(s.tagSize),
      EA.MarshalJson(s.algorithm),
      EM.MarshalJson(s.mode),
      CA.MarshalJson(s.compression)])
  }

  /** AData.MarshalJSON: the spec array, the formatter and the two flags as 0 or 1. */
  function MarshalAData(a: AData): (j: Json)
    ensures j.JArr? && |j.items| == 4
  {
    JArr([MarshalSpec(a.spec), JStr(a.formatter), JNum(Btoi(a.openDiscussion)), JNum(Btoi(a.burnAfterReading))])
  }

  /** json.Unmarshal into a Go array: only a JSON array will do. */
  function Items(j: Json): (r: Result<seq<Json>, CodecError>)
    ensures r.Ok? <==> j.JArr?
  {
    if j.JArr? then Ok(j.items) else Err(NotAnArray)
  }

  /** base64.RawStdEncoding.DecodeString, its failure reported as a decoding error. */
  function RawBytes(s: string): (r: Result<seq<byte>, CodecError>)
    ensures r.Ok? <==> RawStdDecode(s).Some?
    ensures r.Ok? ==> r.value == RawStdDecode(s).value
    ensures r.Err? ==> r.error == CorruptBase64
  {
    match RawStdDecode(s)
    case Some(b) => Ok(b)
    case None => Err(CorruptBase64)
  }

  /** Spec.UnmarshalJSON as a function: the slots are read in order and the first failure wins. */
  function DecodeSpec(j: Json): (r: Result<Spec, CodecError>)
    ensures !j.JArr? ==> r == Err(NotAnArray)
    ensures j.JArr? && |j.items| < 8 ==> r.Err?
    ensures r.Ok? ==> NamedEnums(r.value)
  {
    var items :- Items(j);
    var ivSlot :- Slot(items, 0);
    var encodedIv :- DecodeString(ivSlot);
    var iv :- RawBytes(encodedIv);
    var saltSlot :- Slot(items, 1);
    var encodedSalt :- DecodeString(saltSlot);
    var salt :- RawBytes(encodedSalt);
    var iterationsSlot :- Slot(items, 2);
    var iterations :- DecodeInt(iterationsSlot);
    var keySizeSlot :- Slot(items, 3);
    var keySize :- DecodeInt(keySizeSlot);
    var tagSizeSlot :- Slot(items, 4);
    var tagSize :- DecodeInt(tagSizeSlot);
    var algorithmSlot :- Slot(items, 5);
    var algorithm :- EA.Decode(algorithmSlot);
    var modeSlot :- Slot(items, 6);
    var mode :- EM.Decode(modeSlot);
    var compressionSlot :- Slot(items, 7);
    var compression :- CA.Decode(compressionSlot);
    Ok(Spec(iv, salt, iterations, keySize, tagSize, algorithm, mode, compression))
  }

  /** AData.UnmarshalJSON as a function; a flag is true exactly when its number is not zero. */
  function DecodeAData(j: Json): (r: Result<AData, CodecError>)
    ensures !j.JArr? ==> r == Err(NotAnArray)
    ensures j.JArr? && |j.items| < 4 ==> r.Err?
    ensures r.Ok? ==> NamedEnums(r.value.spec)
    ensures r.Ok? ==> j.items[2].JNum? && (r.value.openDiscussion <==> j.items[2].n != 0)
    ensures r.Ok? ==> j.items[3].JNum? && (r.value.burnAfterReading <==> j.items[3].n != 0)
  {
    var items :- Items(j);
    var specSlot :- Slot(items, 0);
    var spec :- DecodeSpec(specSlot);
    var formatterSlot :- Slot(items, 1);
    var formatter :- DecodeString(formatterSlot);
    var openSlot :- Slot(items, 2);
    var openDiscussion :- DecodeInt(openSlot);
    var burnSlot :- Slot(items, 3);
    var burnAfterReading :- DecodeInt(burnSlot);
    Ok(AData(spec, formatter, Itob(openDiscussion), Itob(burnAfterReading)))
  }

  /**
   * Spec.UnmarshalJSON: each slot is decoded into a local, returning at the first error, and
   * the receiver is overwritten only once every slot has decoded.
   */
  method UnmarshalSpec(dst: Ref<Spec>, data: Json) returns (err: Option<CodecError>)
    modifies dst
    ensures err.None? <==> DecodeSpec(data).Ok?
    ensures err.None? ==> dst.value == DecodeSpec(data).value
    ensures err.Some? ==> err.value == DecodeSpec(data).error && dst.value == old(dst.value)
  {
    if !data.JArr? {
      return Some(NotAnArray);
    }
    var values := data.items;
    var slot := Slot(values, 0);
    if slot.Err? { return Some(slot.error); }
    var encodedIv := DecodeString(slot.value);
    if encodedIv.Err? { return Some(encodedIv.error); }
    var iv := RawBytes(encodedIv.value);
    if iv.Err? { return Some(iv.error); }
    slot := Slot(values, 1);
    if slot.Err? { return Some(slot.error); }
    var encodedSalt := DecodeString(slot.value);
    if encodedSalt.Err? { return Some(encodedSalt.error); }
    var salt := RawBytes(encodedSalt.value);
    if salt.Err? { return Some(salt.error); }
    slot := Slot(values, 2);
    if slot.Err? { return Some(slot.error); }
    var iterations := DecodeInt(slot.value);
    if iterations.Err? { return Some(iterations.error); }
    slot := Slot(values, 3);
    if slot.Err? { return Some(slot.error); }
    var keySize := DecodeInt(slot.value);
    if keySize.Err? { return Some(keySize.error); }
    slot := Slot(values, 4);
    if slot.Err? { return Some(slot.error); }
    var tagSize := DecodeInt(slot.value);
    if tagSize.Err? { return Some(tagSize.error); }
    var algorithm := new Ref(EA.Unknown);
    var mode := new Ref(EM.Unknown);
    var compression := new Ref(CA.Unknown);
    slot := Slot(values, 5);
    if slot.Err? { return Some(slot.error); }
    err := EA.UnmarshalJson(algorithm, slot.value);
    if err.Some? { return; }
    slot := Slot(values, 6);
    if slot.Err? { return Some(slot.error); }
    err := EM.UnmarshalJson(mode, slot.value);
    if err.Some? { return; }
    slot := Slot(values, 7);
    if slot.Err? { return Some(slot.error); }
    err := CA.UnmarshalJson(compression, slot.value);
    if err.Some? { return; }
    dst.value := Spec(iv.value, salt.value, iterations.value, keySize.value, tagSize.value,
                      algorithm.value, mode.value, compression.value);
  }

  /**
   * AData.UnmarshalJSON: the spec slot goes through a Spec of its own, then the formatter and
   * the two flags; the receiver is overwritten only at the end.
   */
  method UnmarshalAData(dst: Ref<AData>, data: Json) returns (err: Option<CodecError>)
    modifies dst
    ensures err.None? <==> DecodeAData(data).Ok?
    ensures err.None? ==> dst.value == DecodeAData(data).value
    ensures err.Some? ==> err.value == DecodeAData(data).error && dst.value == old(dst.value)
  {
    if !data.JArr? {
      return Some(NotAnArray);
    }
    var values := data.items;
    var slot := Slot(values, 0);
    if slot.Err? { return Some(slot.error); }
    var spec := new Ref(ZeroSpec);
    err := UnmarshalSpec(spec, slot.value);
    if err.Some? { return; }
    slot := Slot(values, 1);
    if slot.Err? { return Some(slot.error); }
    var formatter := DecodeString(slot.value);
    if formatter.Err? { return Some(formatter.error); }
    slot := Slot(values, 2);
    if slot.Err? { return Some(slot.error); }
    var openDiscussion := DecodeInt(slot.value);
    if openDiscussion.Err? { return Some(openDiscussion.error); }
    slot := Slot(values, 3);
    if slot.Err? { return Some(slot.error); }
    var burnAfterReading := DecodeInt(slot.value);
    if burnAfterReading.Err? { return Some(burnAfterReading.error); }
    dst.value := AData(spec.value, formatter.value, Itob(openDiscussion.value), Itob(burnAfterReading.value));
  }

  /** Decoding what Spec.MarshalJSON writes gives the spec back, for any bytes and integers. */
  lemma SpecRoundTrip(s: Spec)
    requires NamedEnums(s)
    ensures DecodeSpec(MarshalSpec(s)) == Ok(s)
  {
    var items := MarshalSpec(s).items;
    assert items == [JStr(RawStdEncode(s.iv)), JStr(RawStdEncode(s.salt)), JNum(s.iterations), JNum(s.keySize),
      JNum(s.tagSize), EA.MarshalJson(s.algorithm), EM.MarshalJson(s.mode), CA.MarshalJson(s.compression)];
    EA.RoundTrip(s.algorithm);
    EM.RoundTrip(s.mode);
    CA.RoundTrip(s.compression);
  }

  /** Decoding what AData.MarshalJSON writes gives the associated data back. */
  lemma ADataRoundTrip(a: AData)
    requires NamedEnums(a.spec)
    ensures DecodeAData(MarshalAData(a)) == Ok(a)
  {
    SpecRoundTrip(a.spec);
  }

  /** What a successful decoding produced is written so that it decodes the same again. */
  lemma SpecDecodeStable(j: Json)
    requires DecodeSpec(j).Ok?
    ensures DecodeSpec(MarshalSpec(DecodeSpec(j).value)) == DecodeSpec(j)
  {
    SpecRoundTrip(DecodeSpec(j).value);
  }

  lemma ADataDecodeStable(j: Json)
    requires DecodeAData(j).Ok?
    ensures DecodeAData(MarshalAData(DecodeAData(j).value)) == DecodeAData(j)
  {
    ADataRoundTrip(DecodeAData(j).value);
  }

  /** Elements past the eighth are dropped by the fixed array and change nothing. */
  lemma SpecIgnoresTrailing(items: seq<Json>, extra: seq<Json>)
    requires |items| >= 8
    ensures DecodeSpec(JArr(items + extra)) == DecodeSpec(JArr(items))
  {
    assert forall i :: 0 <= i < 8 ==> Slot(items + extra, i) == Slot(items, i);
  }

  /** Elements past the fourth are dropped by the fixed array and change nothing. */
  lemma ADataIgnoresTrailing(items: seq<Json>, extra: seq<Json>)
    requires |items| >= 4
    ensures DecodeAData(JArr(items + extra)) == DecodeAData(JArr(items))
  {
    assert forall i :: 0 <= i < 4 ==> Slot(items + extra, i) == Slot(items, i);
  }

  /** Flags decode by truthiness: 0 is false, any other number, 42 and -1 among them, is true. */
  lemma LooseFlags(s: Spec, formatter: string, open: Int, burn: Int)
    requires NamedEnums(s)
    ensures DecodeAData(JArr([MarshalSpec(s), JStr(formatter), JNum(open), JNum(burn)]))
         == Ok(AData(s, formatter, open != 0, burn != 0))
  {
    SpecRoundTrip(s);
  }

  /**
   * A slot of the wrong kind is an error: an object in the spec slot, a non-string formatter,
   * a non-number in either flag slot.
   */
  lemma ADataWrongKinds(items: seq<Json>)
    requires |items| >= 4
    ensures items[0].JObj? ==> DecodeAData(JArr(items)) == Err(NotAnArray)
    ensures DecodeSpec(items[0]).Ok? && !items[1].JStr? ==> DecodeAData(JArr(items)) == Err(NotAString)
    ensures DecodeSpec(items[0]).Ok? && items[1].JStr? && !items[2].JNum?
      ==> DecodeAData(JArr(items)) == Err(NotANumber)
    ensures DecodeSpec(items[0]).Ok? && items[1].JStr? && DecodeInt(items[2]).Ok? && !items[3].JNum?
      ==> DecodeAData(JArr(items)) == Err(NotANumber)
  {
  }

  /** An IV or a salt that is not unpadded base64 is an error. */
  lemma SpecCorruptBase64(items: seq<Json>)
    requires |items| >= 2 && items[0].JStr? && items[1].JStr?
    ensures RawStdDecode(items[0].s).None? ==> DecodeSpec(JArr(items)) == Err(CorruptBase64)
    ensures RawStdDecode(items[0].s).Some? && RawStdDecode(items[1].s).None?
      ==> DecodeSpec(JArr(items)) == Err(CorruptBase64)
  {
  }

  /**
   * A spec whose IV was written with padding, as StdEncoding writes a length that is not a
   * multiple of three, is rejected: IV and Salt are read with the unpadded alphabet only.
   */
  lemma PaddedIvRejected(iv: seq<byte>, rest: seq<Json>)
    requires |iv| % 3 != 0
    ensures DecodeSpec(JArr([JStr(StdEncode(iv))] + rest)) == Err(CorruptBase64)
  {
    PaddingPresent(iv);
    RawRejectsPadding(StdEncode(iv));
  }

  /** The same holds for a padded salt after a valid IV. */
  lemma PaddedSaltRejected(iv: seq<byte>, salt: seq<byte>, rest: seq<Json>)
    requires |salt| % 3 != 0
    ensures DecodeSpec(JArr([JStr(RawStdEncode(iv)), JStr(StdEncode(salt))] + rest)) == Err(CorruptBase64)
  {
    RawStdRoundTrip(iv);
    PaddingPresent(salt);
    RawRejectsPadding(StdEncode(salt));
  }
}
