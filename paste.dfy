/**
 * The plaintext body of a paste: a JSON object of strings with the text under "paste" and an
 * attachment as a data URL ("data:<mime>;base64,<padded base64>") under "attachment".
 */
module PasteCodec {
  import opened Wrappers
  import opened Bytes
  import opened Json
  import opened Base64
  import opened Strings
  import opened Urls
  import opened Utf8
  import opened Utils

  /** Paste; `attachment` is the field paste.go spells Attachement. */
  datatype Paste = Paste(data: seq<byte>, attachment: seq<byte>, attachmentName: string, mimeType: string)

  datatype PasteError =
    | BadJson(codec: CodecError)     // the body is not an object of strings
    | BadUrl(url: UrlError)          // "invalid attachment: error parsing url"
    | InvalidDataUrlFormat           // "invalid attachment: invalid data URL format"
    | MissingBase64Encoding          // "invalid attachment: missing or invalid base64 encoding"
    | CannotBase64Decode             // "invalid attachment: cannot base64 decode data"

  /** mime.TypeByExtension, which the model takes as given. */
  type MimeLookup = string -> string

  const OctetStream: string := "application/octet-stream"
  const Base64Marker: string := ";base64"

  /** The data URL of an attachment. */
  function DataUrl(mimeType: string, content: seq<byte>): string {
    "data:" + mimeType + Base64Marker + "," + StdEncode(content)
  }

  /**
   * The MIME type MarshalJSON writes. The extension lookup happens but its result is
   * discarded, because the second test is again on the field, which is still empty.
   */
  function AttachmentMime(p: Paste, typeByExtension: MimeLookup): (m: string)
    ensures m == if p.mimeType != "" then p.mimeType else OctetStream
  {
    var mimeType := p.mimeType;
    if mimeType == "" then
      var ext := Ext(p.attachmentName);
      var inferred := typeByExtension(ext);
      if p.mimeType == "" then OctetStream else inferred
    else mimeType
  }

  /** The map MarshalJSON fills, key by key. */
  function Output(p: Paste, typeByExtension: MimeLookup): map<string, string> {
    var named: map<string, string> :=
      if |p.attachment| > 0 && p.attachmentName != "" then map["attachment_name" := p.attachmentName] else map[];
    var withAttachment :=
      if |p.attachment| > 0 then named["attachment" := DataUrl(AttachmentMime(p, typeByExtension), p.attachment)]
      else named;
    if |p.data| > 0 then withAttachment["paste" := TextOf(p.data)] else withAttachment
  }

  /** Paste.MarshalJSON. */
  function MarshalPaste(p: Paste, typeByExtension: MimeLookup): (j: Json)
    ensures j.JObj? && j.fields.Keys <= {"paste", "attachment", "attachment_name"}
    ensures "paste" in j.fields <==> |p.data| > 0
    ensures "paste" in j.fields ==> j.fields["paste"] == JStr(TextOf(p.data))
    ensures "attachment" in j.fields <==> |p.attachment| > 0
    ensures "attachment" in j.fields
      ==> j.fields["attachment"] == JStr(DataUrl(AttachmentMime(p, typeByExtension), p.attachment))
    ensures "attachment_name" in j.fields <==> |p.attachment| > 0 && p.attachmentName != ""
    ensures "attachment_name" in j.fields ==> j.fields["attachment_name"] == JStr(p.attachmentName)
  {
    StringObject(Output(p, typeByExtension))
  }

  /** A Go map lookup: the zero value for a missing key. */
  function Get(m: map<string, string>, key: string): string {
    if key in m then m[key] else ""
  }

  /** The attachment bytes and MIME type carried by a data URL, or why there are none. */
  function DecodeDataUrl(attachmentUrl: string): Result<(seq<byte>, string), PasteError> {
    match Parse(attachmentUrl)
    case Err(e) => Err(BadUrl(e))
    case Ok(parsed) =>
      var parts := Strings.Split(parsed.opaquePart, ',');
      if |parts| != 2 then Err(InvalidDataUrlFormat)
      else if !HasSuffix(parts[0], Base64Marker) then Err(MissingBase64Encoding)
      else
        var trimmed := TrimPrefix(parts[0], Base64Marker);
        var mimeType := if trimmed == "" then OctetStream else trimmed;
        match Decode64(parts[1])
        case None => Err(CannotBase64Decode)
        case Some(content) => Ok((content, mimeType))
  }

  /** Paste.UnmarshalJSON as a function. */
  function DecodePaste(j: Json): (r: Result<Paste, PasteError>)
    ensures DecodeStringObject(j).Err? ==> r == Err(BadJson(NotAStringObject))
    ensures r.Ok? ==> j.JObj?
    ensures r.Ok? ==> r.value.attachmentName == (if "attachment_name" in j.fields then j.fields["attachment_name"].s else "")
    ensures r.Ok? ==> r.value.data == BytesOf(if "paste" in j.fields then j.fields["paste"].s else "")
    ensures r.Ok? ==> (r.value.mimeType != "" <==> "attachment" in j.fields)
    ensures r.Ok? && "attachment" !in j.fields ==> r.value.attachment == []
  {
    match DecodeStringObject(j)
    case Err(e) => Err(BadJson(e))
    case Ok(output) =>
      if "attachment" in output then
        match DecodeDataUrl(output["attachment"])
        case Err(e) => Err(e)
        case Ok((content, mimeType)) =>
          Ok(Paste(BytesOf(Get(output, "paste")), content, Get(output, "attachment_name"), mimeType))
      else
        Ok(Paste(BytesOf(Get(output, "paste")), [], Get(output, "attachment_name"), ""))
  }

  /**
   * Paste.UnmarshalJSON: read the object, then, when there is an attachment, parse its URL and
   * check and decode its parts one after the other; the receiver is overwritten at the end.
   */
  method UnmarshalPaste(dst: Ref<Paste>, data: Json) returns (err: Option<PasteError>)
    modifies dst
    ensures err.None? <==> DecodePaste(data).Ok?
    ensures err.None? ==> dst.value == DecodePaste(data).value
    ensures err.Some? ==> err.value == DecodePaste(data).error && dst.value == old(dst.value)
  {
    var decoded := DecodeStringObject(data);
    if decoded.Err? {
      return Some(BadJson(decoded.error));
    }
    var output := decoded.value;
    var attachment: seq<byte> := [];
    var mimeType: string := "";
    if "attachment" in output {
      var parsedUrl := Parse(output["attachment"]);
      if parsedUrl.Err? {
        return Some(BadUrl(parsedUrl.error));
      }
      var parts := Strings.Split(parsedUrl.value.opaquePart, ',');
      if |parts| != 2 {
        return Some(InvalidDataUrlFormat);
      }
      if !HasSuffix(parts[0], Base64Marker) {
        return Some(MissingBase64Encoding);
      }
      mimeType := TrimPrefix(parts[0], Base64Marker);
      if mimeType == "" {
        mimeType := OctetStream;
      }
      var content := Decode64(parts[1]);
      if content.None? {
        return Some(CannotBase64Decode);
      }
      attachment := content.value;
    }
    dst.value := Paste(BytesOf(Get(output, "paste")), attachment, Get(output, "attachment_name"), mimeType);
    return None;
  }

  /** The extension lookup never influences what is written. */
  lemma MimeLookupIsDead(p: Paste, f: MimeLookup, g: MimeLookup)
    ensures MarshalPaste(p, f) == MarshalPaste(p, g)
  {
  }

  /** Without an explicit MIME type, an attachment is always written as application/octet-stream. */
  lemma NoInference(p: Paste, typeByExtension: MimeLookup)
    requires |p.attachment| > 0 && p.mimeType == ""
    ensures MarshalPaste(p, typeByExtension).fields["attachment"] == JStr(DataUrl(OctetStream, p.attachment))
  {
  }

  /** A MIME type that survives being written into a data URL and parsed out again. */
  predicate UrlSafeMime(m: string) {
    m != "" && m[0] != '/' && m[0] != ';'
    && ',' !in m && '?' !in m && '#' !in m && !HasControl(m)
  }

  /** Decoding keeps the ";base64" marker on the MIME type: TrimPrefix removes nothing here. */
  lemma MarkerKept(m: string)
    requires m != "" && m[0] != ';'
    ensures TrimPrefix(m + Base64Marker, Base64Marker) == m + Base64Marker
  {
    assert (m + Base64Marker)[0] == m[0];
  }

  lemma EncodedAlphabet(content: seq<byte>)
    ensures var s := StdEncode(content); ',' !in s && '?' !in s && '#' !in s && !HasControl(s)
  {
    var s := StdEncode(content);
    assert forall i :: 0 <= i < |s| ==> InAlphabet(s[i]) || s[i] == Pad;
  }

  /** The text after "data:" in a data URL. */
  function Opaque(m: string, content: seq<byte>): string {
    m + Base64Marker + "," + StdEncode(content)
  }

  lemma OpaqueClean(m: string, content: seq<byte>)
    requires m == "" || UrlSafeMime(m)
    ensures var rest := Opaque(m, content);
      !HasControl(rest) && '#' !in rest && '?' !in rest && rest[0] != '/'
  {
    var b64 := StdEncode(content);
    var first := m + Base64Marker;
    EncodedAlphabet(content);
    assert !HasControl(Base64Marker);
    NoControlInConcat(m, Base64Marker);
    NoControlInConcat(first, ",");
    NoControlInConcat(first + ",", b64);
    if m == "" {
      assert Opaque(m, content)[0] == ';';
    } else {
      assert Opaque(m, content)[0] == m[0];
    }
  }

  /** A data URL parses as an opaque URL of scheme "data". */
  lemma ParseDataUrl(m: string, content: seq<byte>)
    requires m == "" || UrlSafeMime(m)
    ensures Parse(DataUrl(m, content)) == Ok(ParsedUrl("data", Opaque(m, content), ""))
  {
    var rest := Opaque(m, content);
    assert DataUrl(m, content) == "data" + ":" + rest;
    OpaqueClean(m, content);
    assert ValidScheme("data");
    OpaqueAfterScheme("data", rest);
    assert ToLower("data") == "data";
  }

  /** Its opaque part splits at the one ',' into the MIME type with marker and the base64 text. */
  lemma SplitOpaque(m: string, content: seq<byte>)
    requires m == "" || UrlSafeMime(m)
    ensures Strings.Split(Opaque(m, content), ',') == [m + Base64Marker, StdEncode(content)]
  {
    var first := m + Base64Marker;
    var b64 := StdEncode(content);
    EncodedAlphabet(content);
    assert ',' !in first;
    assert Opaque(m, content) == Join([first, b64], ',');
    SplitJoin([first, b64], ',');
  }

  /** A data URL with no MIME type decodes to its bytes and application/octet-stream. */
  lemma EmptyMimeDefaults(content: seq<byte>)
    ensures DecodeDataUrl("data:;base64," + StdEncode(content)) == Ok((content, OctetStream))
  {
    assert DataUrl("", content) == "data:;base64," + StdEncode(content);
    ParseDataUrl("", content);
    SplitOpaque("", content);
    assert "" + Base64Marker == Base64Marker;
    assert HasPrefix(Base64Marker, Base64Marker) && HasSuffix(Base64Marker, Base64Marker);
    Decode64OfStd(content);
  }

  /** The data URL of an attachment decodes to its bytes, the MIME type keeping its marker. */
  lemma DataUrlRoundTrip(m: string, content: seq<byte>)
    requires UrlSafeMime(m)
    ensures DecodeDataUrl(DataUrl(m, content)) == Ok((content, m + Base64Marker))
  {
    ParseDataUrl(m, content);
    SplitOpaque(m, content);
    assert HasSuffix(m + Base64Marker, Base64Marker);
    MarkerKept(m);
    Decode64OfStd(content);
  }

  /**
   * Decoding what MarshalJSON writes gives back text that is valid UTF-8, the attachment,
   * its name when there is an attachment, and a non-empty MIME type: the one written, with
   * ";base64" still attached.
   */
  lemma RoundTrip(p: Paste, typeByExtension: MimeLookup)
    requires Valid(p.data)
    requires |p.attachment| > 0 ==> UrlSafeMime(AttachmentMime(p, typeByExtension))
    ensures DecodePaste(MarshalPaste(p, typeByExtension)) == Ok(Paste(
      p.data,
      p.attachment,
      if |p.attachment| > 0 then p.attachmentName else "",
      if |p.attachment| > 0 then AttachmentMime(p, typeByExtension) + Base64Marker else ""))
  {
    var output := Output(p, typeByExtension);
    StringObjectRoundTrip(output);
    ValidRoundTrip(p.data);
    if |p.attachment| > 0 {
      DataUrlRoundTrip(AttachmentMime(p, typeByExtension), p.attachment);
    }
  }

  /** A body with empty text and an attachment decodes to the attachment, its name and its marked MIME type. */
  lemma AttachmentOnlyDecodes(name: string, m: string, content: seq<byte>)
    requires UrlSafeMime(m)
    ensures DecodePaste(StringObject(map["paste" := "", "attachment" := DataUrl(m, content), "attachment_name" := name]))
         == Ok(Paste([], content, name, m + Base64Marker))
  {
    var fields := map["paste" := "", "attachment" := DataUrl(m, content), "attachment_name" := name];
    StringObjectRoundTrip(fields);
    DataUrlRoundTrip(m, content);
    assert BytesOf("") == [];
  }

  /** An attachment sent as "data:;base64,..." decodes with the MIME type application/octet-stream. */
  lemma EmptyMimeAttachmentDecodes(name: string, content: seq<byte>)
    ensures DecodePaste(StringObject(map["attachment" := "data:;base64," + StdEncode(content), "attachment_name" := name]))
         == Ok(Paste([], content, name, OctetStream))
  {
    var fields := map["attachment" := "data:;base64," + StdEncode(content), "attachment_name" := name];
    StringObjectRoundTrip(fields);
    EmptyMimeDefaults(content);
    assert BytesOf("") == [];
  }

  /** A paste without attachment keeps its text exactly when the text is valid UTF-8. */
  lemma TextKeptIffValid(p: Paste, typeByExtension: MimeLookup)
    requires p.attachment == []
    ensures DecodePaste(MarshalPaste(p, typeByExtension)).Ok?
    ensures DecodePaste(MarshalPaste(p, typeByExtension)).value.data == p.data <==> Valid(p.data)
  {
    StringObjectRoundTrip(Output(p, typeByExtension));
    RoundTripIffValid(p.data);
  }

  /** The lone byte 0x92 comes back as EF BF BD. */
  lemma InvalidByteReplaced(typeByExtension: MimeLookup)
    ensures DecodePaste(MarshalPaste(Paste([0x92], [], "", ""), typeByExtension))
         == Ok(Paste([0xEF, 0xBF, 0xBD], [], "", ""))
  {
    var p := Paste([0x92], [], "", "");
    StringObjectRoundTrip(Output(p, typeByExtension));
    LoneContinuationByte();
  }

  const TextPlain: string := "text/plain"

  lemma TextPlainIsSafe()
    ensures UrlSafeMime(TextPlain)
  {
    var m := TextPlain;
    assert forall i :: 0 <= i < |m| ==> 'a' <= m[i] <= 'z' || m[i] == '/';
  }

  /** "text/plain;base64" is decoded as the MIME type "text/plain;base64". */
  lemma TextPlainKeepsMarker(content: seq<byte>)
    ensures DecodeDataUrl(DataUrl(TextPlain, content)) == Ok((content, "text/plain;base64"))
  {
    TextPlainIsSafe();
    DataUrlRoundTrip(TextPlain, content);
    TextPlainLabel();
  }

  lemma TextPlainLabel()
    ensures TextPlain + Base64Marker == "text/plain;base64"
  {
  }

  /**
   * A URL without ':' has no opaque part, so it is not a data URL of two parts. Without '%'
   * and a leading "//", url.Parse has no escape or authority to reject first.
   */
  lemma NotADataUrl(attachmentUrl: string)
    requires ':' !in attachmentUrl && '#' !in attachmentUrl && !HasControl(attachmentUrl)
    requires '%' !in attachmentUrl && !HasPrefix(attachmentUrl, "//")
    ensures DecodeDataUrl(attachmentUrl) == Err(InvalidDataUrlFormat)
  {
    assert Cut(attachmentUrl, '#').0 == attachmentUrl;
  }

  /** The checks on a data URL come in order: the two parts, the marker, then the base64. */
  lemma DataUrlChecks(mimeAndMarker: string, payload: string)
    requires ValidScheme("data")
    requires var rest := mimeAndMarker + "," + payload;
      !HasControl(rest) && '#' !in rest && '?' !in rest && rest[0] != '/'
    ensures ',' in payload ==> DecodeDataUrl("data:" + mimeAndMarker + "," + payload) == Err(InvalidDataUrlFormat)
    ensures ',' !in mimeAndMarker && ',' !in payload && !HasSuffix(mimeAndMarker, Base64Marker)
      ==> DecodeDataUrl("data:" + mimeAndMarker + "," + payload) == Err(MissingBase64Encoding)
    ensures ',' !in mimeAndMarker && ',' !in payload && HasSuffix(mimeAndMarker, Base64Marker) && Decode64(payload).None?
      ==> DecodeDataUrl("data:" + mimeAndMarker + "," + payload) == Err(CannotBase64Decode)
  {
    var rest := mimeAndMarker + "," + payload;
    assert "data:" + mimeAndMarker + "," + payload == "data" + ":" + rest;
    OpaqueAfterScheme("data", rest);
    assert ToLower("data") == "data";
    if ',' in payload {
      SplitCount(rest, ',');
      assert rest == mimeAndMarker + [','] + payload;
      assert multiset(rest)[','] == multiset(mimeAndMarker)[','] + 1 + multiset(payload)[','];
    }
    if ',' !in mimeAndMarker && ',' !in payload {
      assert rest == Join([mimeAndMarker, payload], ',');
      SplitJoin([mimeAndMarker, payload], ',');
    }
  }
}
