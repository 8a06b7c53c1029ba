/**
 * The create side of the client: the plaintext content built from a message, the cipher
 * parameters and associated data chosen by encrypt, the request body, and the URL returned
 * once the server has answered.
 */
module PrivateBin {
  import opened Wrappers
  import opened Bytes
  import opened Json
  import opened Base64
  import opened Strings
  import opened Urls
  import opened Utf8
  import opened Utils
  import opened PasteCodec
  import AD = AssociatedData
  import EA = EncryptionAlgorithms
  import EM = EncryptionModes
  import CA = CompressionAlgorithms

  const PrivateBinApiVersion: int := 2
  const Iterations: Int := 310_000
  const KeySize: Int := 256
  const TagSize: Int := 128
  /** The PBKDF2 output length in bytes: an AES-256 key. */
  const DerivedKeyLength: int := 32

  /**
   * The library functions the client calls and the model takes as given: mime.TypeByExtension,
   * raw DEFLATE at best compression, PBKDF2-HMAC-SHA256 (password, salt, iterations, key
   * length), AES-GCM Seal (key, nonce, plaintext, additional data), json.Marshal as text,
   * and base58 encoding.
   */
  datatype Library = Library(
    typeByExtension: MimeLookup,
    deflate: seq<byte> -> seq<byte>,
    pbkdf2: (seq<byte>, seq<byte>, int, int) -> seq<byte>,
    seal: (seq<byte>, seq<byte>, seq<byte>, seq<byte>) -> seq<byte>,
    marshal: Json -> seq<byte>,
    base58: seq<byte> -> string)

  datatype Client = Client(url: Url, username: string, password: string)

  datatype Response = Response(id: string, status: Int, message: string, url: string, deleteToken: string)

  datatype CreateError =
    | StatusNotZero(message: string)       // "status of the paste is not zero: <message>"
    | CannotParsePasteUrl(cause: UrlError) // "cannot parse paste url"

  /** PasteSpec: the cipher parameters as the request writes them, the enums as their labels. */
  datatype PasteSpec = PasteSpec(
    iv: string, salt: string, iterations: Int, keySize: Int, tagSize: Int,
    algorithm: string, mode: string, compression: string)

  datatype PasteData = PasteData(
    spec: PasteSpec, data: seq<byte>, formatter: string, openDiscussion: bool, burnAfterReading: bool)

  /**
   * PasteContent. `paste` is the text json.Marshal writes for string(message.Data), so it
   * holds U+FFFD where the data is not valid UTF-8.
   */
  datatype PasteContent = PasteContent(paste: string, attachment: string, attachmentName: string)

  datatype PasteMessage = PasteMessage(attachment: bool, filename: string, data: seq<byte>)

  /** PasteSpec.SpecArray. */
  function SpecArray(ps: PasteSpec): (j: Json)
    ensures j.JArr? && |j.items| == 8
  {
    JArr([JStr(ps.iv), JStr(ps.salt), JNum(ps.iterations), JNum(ps.keySize), JNum(ps.tagSize),
          JStr(ps.algorithm), JStr(ps.mode), JStr(ps.compression)])
  }

  /** PasteData.adata: the spec array, the formatter, and each flag as 0 or 1. */
  function ADataOf(p: PasteData): (j: Json)
    ensures j.JArr? && |j.items| == 4
  {
    JArr([SpecArray(p.spec), JStr(p.formatter), JNum(Btoi(p.openDiscussion)), JNum(Btoi(p.burnAfterReading))])
  }

  /** The PasteSpec whose array is the one AssociatedData writes for `s`. */
  function LabelledSpec(s: AD.Spec): PasteSpec {
    PasteSpec(RawStdEncode(s.iv), RawStdEncode(s.salt), s.iterations, s.keySize, s.tagSize,
              EA.String(s.algorithm), EM.String(s.mode), CA.String(s.compression))
  }

  /** The specification array the client writes is the one AssociatedData writes for the same values. */
  lemma SpecArrayAgrees(s: AD.Spec)
    ensures SpecArray(LabelledSpec(s)) == AD.MarshalSpec(s)
  {
  }

  /** The associated data the client writes is the one AssociatedData writes for the same values. */
  lemma ADataAgrees(a: AD.AData, data: seq<byte>)
    ensures ADataOf(PasteData(LabelledSpec(a.spec), data, a.formatter, a.openDiscussion, a.burnAfterReading))
         == AD.MarshalAData(a)
  {
    SpecArrayAgrees(a.spec);
  }

  /** The MIME type of an attachment: the one its extension names, or application/octet-stream. */
  function MimeFor(filename: string, typeByExtension: MimeLookup): (m: string)
    ensures m != ""
    ensures typeByExtension(Ext(filename)) != "" ==> m == typeByExtension(Ext(filename))
  {
    var mimeType := typeByExtension(Ext(filename));
    if mimeType == "" then OctetStream else mimeType
  }

  /** The content CreatePaste serialises for a message. */
  function ContentOf(message: PasteMessage, typeByExtension: MimeLookup): (c: PasteContent)
    ensures message.attachment ==> c.paste == "" && c.attachmentName != ""
    ensures message.attachment ==> c.attachmentName == if message.filename == "" then "stdin" else message.filename
    ensures message.attachment ==> c.attachment == DataUrl(MimeFor(message.filename, typeByExtension), message.data)
    ensures !message.attachment ==> c.attachment == "" && c.attachmentName == "" && c.paste == TextOf(message.data)
  {
    if message.attachment then
      PasteContent("", DataUrl(MimeFor(message.filename, typeByExtension), message.data),
                   if message.filename == "" then "stdin" else message.filename)
    else PasteContent(TextOf(message.data), "", "")
  }

  /** The content assembly in CreatePaste, field by field. */
  method BuildContent(message: PasteMessage, typeByExtension: MimeLookup) returns (content: PasteContent)
    ensures content == ContentOf(message, typeByExtension)
  {
    content := PasteContent("", "", "");
    if message.attachment {
      content := content.(attachmentName := message.filename);
      var ext := Ext(message.filename);
      var mimeType := typeByExtension(ext);
      if mimeType == "" {
        mimeType := OctetStream;
      }
      content := content.(attachmentName := message.filename);
      if content.attachmentName == "" {
        content := content.(attachmentName := "stdin");
      }
      content := content.(attachment := DataUrl(mimeType, message.data));
    } else {
      content := content.(paste := TextOf(message.data));
    }
  }

  /** json.Marshal of PasteContent: "paste" always, the two attachment keys only when not empty. */
  function MarshalContent(c: PasteContent): (j: Json)
    ensures j.JObj? && "paste" in j.fields && j.fields["paste"] == JStr(c.paste)
    ensures "attachment" in j.fields <==> c.attachment != ""
    ensures "attachment" in j.fields ==> j.fields["attachment"] == JStr(c.attachment)
    ensures "attachment_name" in j.fields <==> c.attachmentName != ""
    ensures "attachment_name" in j.fields ==> j.fields["attachment_name"] == JStr(c.attachmentName)
    ensures j.fields.Keys <= {"paste", "attachment", "attachment_name"}
  {
    var named: map<string, string> :=
      if c.attachmentName != "" then map["attachment_name" := c.attachmentName] else map[];
    var withAttachment := if c.attachment != "" then named["attachment" := c.attachment] else named;
    StringObject(withAttachment["paste" := c.paste])
  }

  lemma OctetStreamIsSafe()
    ensures UrlSafeMime(OctetStream)
  {
    var m := OctetStream;
    assert forall i :: 0 <= i < |m| ==> 'a' <= m[i] <= 'z' || m[i] == '/' || m[i] == '-';
  }

  /**
   * An attachment the client sends is read back by Paste.UnmarshalJSON as its bytes, under its
   * name (or "stdin"), with no text, and with the MIME type of its extension followed by ";base64".
   */
  lemma AttachmentContentDecodes(message: PasteMessage, typeByExtension: MimeLookup)
    requires message.attachment
    requires var m := typeByExtension(Ext(message.filename)); m == "" || UrlSafeMime(m)
    ensures DecodePaste(MarshalContent(ContentOf(message, typeByExtension))) == Ok(Paste(
      [], message.data, if message.filename == "" then "stdin" else message.filename,
      MimeFor(message.filename, typeByExtension) + Base64Marker))
  {
    var c := ContentOf(message, typeByExtension);
    var m := MimeFor(message.filename, typeByExtension);
    OctetStreamIsSafe();
    AttachmentObject(c);
    AttachmentOnlyDecodes(c.attachmentName, m, message.data);
  }

  lemma AttachmentObject(c: PasteContent)
    requires c.paste == "" && c.attachment != "" && c.attachmentName != ""
    ensures MarshalContent(c)
         == StringObject(map["paste" := "", "attachment" := c.attachment, "attachment_name" := c.attachmentName])
  {
    var fields := map["paste" := "", "attachment" := c.attachment, "attachment_name" := c.attachmentName];
    assert MarshalContent(c).fields == StringObject(fields).fields;
  }

  /** A text message is read back as its data exactly when the data is valid UTF-8. */
  lemma TextContentDecodes(message: PasteMessage, typeByExtension: MimeLookup)
    requires !message.attachment
    ensures DecodePaste(MarshalContent(ContentOf(message, typeByExtension))).Ok?
    ensures var p := DecodePaste(MarshalContent(ContentOf(message, typeByExtension))).value;
      p.attachment == [] && p.attachmentName == "" && p.mimeType == "" && (p.data == message.data <==> Valid(message.data))
  {
    var c := ContentOf(message, typeByExtension);
    var fields: map<string, string> := map["paste" := c.paste];
    assert MarshalContent(c) == StringObject(fields);
    StringObjectRoundTrip(fields);
    RoundTripIffValid(message.data);
  }

  /** The parameter record encrypt fills in before the optional compression. */
  function EncryptSpec(iv: seq<byte>, salt: seq<byte>, gzip: bool): PasteSpec {
    PasteSpec(RawStdEncode(iv), RawStdEncode(salt), Iterations, KeySize, TagSize, "aes", "gcm",
              if gzip then "zlib" else "none")
  }

  /**
   * encrypt, with the random IV and salt as parameters: fill the spec, compress the message
   * when asked, derive the key from the master key followed by the password, and seal the
   * message with the serialised associated data.
   */
  method Encrypt(
    lib: Library, masterKey: seq<byte>, password: string, iv: seq<byte>, salt: seq<byte>,
    message: seq<byte>, formatter: string, openDiscussion: bool, burnAfterReading: bool, gzipCompress: bool)
    returns (paste: PasteData)
    ensures paste.spec == EncryptSpec(iv, salt, gzipCompress)
    ensures paste.formatter == formatter && paste.openDiscussion == openDiscussion
    ensures paste.burnAfterReading == burnAfterReading
    ensures paste.data == lib.seal(
      lib.pbkdf2(masterKey + BytesOf(password), salt, Iterations, DerivedKeyLength),
      iv,
      if gzipCompress then lib.deflate(message) else message,
      lib.marshal(ADataOf(paste)))
  {
    var pasteSpec := PasteSpec(RawStdEncode(iv), RawStdEncode(salt), Iterations, KeySize, TagSize, "aes", "gcm", "none");
    var plaintext := message;
    if gzipCompress {
      pasteSpec := pasteSpec.(compression := "zlib");
      plaintext := lib.deflate(plaintext);
    }
    paste := PasteData(pasteSpec, [], formatter, openDiscussion, burnAfterReading);
    var keyInput := masterKey + BytesOf(password);
    var key := lib.pbkdf2(keyInput, salt, paste.spec.iterations, DerivedKeyLength);
    var adata := lib.marshal(ADataOf(paste));
    var data := lib.seal(key, iv, plaintext, adata);
    paste := paste.(data := data);
  }

  /**
   * The associated data of an encrypted paste reads back as AES in GCM mode with the fixed
   * iteration count, key size and tag size, the given IV and salt, and the zlib or no
   * compression that was asked for.
   */
  lemma EncryptedADataDecodes(p: PasteData, iv: seq<byte>, salt: seq<byte>, gzip: bool)
    requires p.spec == EncryptSpec(iv, salt, gzip)
    ensures AD.DecodeAData(ADataOf(p)) == Ok(AD.AData(
      AD.Spec(iv, salt, 310000, 256, 128, EA.Aes, EM.Gcm, if gzip then CA.GZip else CA.None),
      p.formatter, p.openDiscussion, p.burnAfterReading))
  {
    var s := AD.Spec(iv, salt, Iterations, KeySize, TagSize, EA.Aes, EM.Gcm, if gzip then CA.GZip else CA.None);
    var a := AD.AData(s, p.formatter, p.openDiscussion, p.burnAfterReading);
    assert LabelledSpec(s) == p.spec;
    ADataAgrees(a, p.data);
    AD.ADataRoundTrip(a);
  }

  /** The CreatePasteRequest body: API version, associated data, expiry and ciphertext. */
  function Request(p: PasteData, expire: string): (j: Json)
    ensures j.JObj? && j.fields.Keys == {"v", "adata", "meta", "ct"}
    ensures j.fields["v"] == JNum(PrivateBinApiVersion)
    ensures j.fields["adata"] == ADataOf(p)
    ensures j.fields["meta"] == JObj(map["expire" := JStr(expire)])
    ensures j.fields["ct"].JStr? && RawStdDecode(j.fields["ct"].s) == Some(p.data)
  {
    RawStdRoundTrip(p.data);
    JObj(map[
      "v" := JNum(PrivateBinApiVersion),
      "adata" := ADataOf(p),
      "meta" := JObj(map["expire" := JStr(expire)]),
      "ct" := JStr(RawStdEncode(p.data))])
  }

  /** The URL of the new paste: the client's scheme, host and path, the server's query, the key as fragment. */
  function PasteUrl(client: Client, query: string, fragment: string): Url {
    Url(client.url.scheme, client.url.host, client.url.path, query, fragment)
  }

  /** What CreatePaste does with the server's answer. */
  function Finish(client: Client, response: Response, masterKey: seq<byte>, base58: seq<byte> -> string)
    : (r: Result<Response, CreateError>)
    ensures response.status != 0 ==> r == Err(StatusNotZero(response.message))
    ensures response.status == 0 && Parse(response.url).Err?
      ==> r == Err(CannotParsePasteUrl(Parse(response.url).error))
    ensures r.Ok? <==> response.status == 0 && Parse(response.url).Ok?
    ensures r.Ok? ==> r.value.(url := response.url) == response
    ensures r.Ok? ==> r.value.url == ToString(PasteUrl(client, Parse(response.url).value.rawQuery, base58(masterKey)))
  {
    if response.status != 0 then Err(StatusNotZero(response.message))
    else
      match Parse(response.url)
      case Err(e) => Err(CannotParsePasteUrl(e))
      case Ok(pasteId) =>
        Ok(response.(url := ToString(PasteUrl(client, pasteId.rawQuery, base58(masterKey)))))
  }

  lemma NoPercentIsValid(s: string)
    requires '%' !in s
    ensures ValidEscapes(s)
    decreases |s|
  {
    if s != [] {
      assert s[0] != '%';
      NoPercentIsValid(s[1..]);
    }
  }

  /** A client URL that the client can compose a paste URL from. */
  predicate ComposableUrl(u: Url) {
    ValidScheme(u.scheme)
    && !HasControl(u.host) && !HasControl(u.path)
    && '#' !in u.host && '#' !in u.path && '?' !in u.host && '?' !in u.path
  }

  /**
   * Reading the returned URL back gives the query the server sent, and the text after its
   * '#' is the encoded master key.
   */
  lemma ResultUrlCarriesQueryAndKey(client: Client, response: Response, masterKey: seq<byte>, base58: seq<byte> -> string)
    requires ComposableUrl(client.url)
    requires Finish(client, response, masterKey, base58).Ok?
    requires var q := Parse(response.url).value.rawQuery; !HasControl(q) && '#' !in q
    requires var k := base58(masterKey); k != "" && '%' !in k
    ensures var url := Finish(client, response, masterKey, base58).value.url;
      Parse(url).Ok? && Parse(url).value.rawQuery == Parse(response.url).value.rawQuery
      && Cut(url, '#').1 == base58(masterKey)
  {
    var q := Parse(response.url).value.rawQuery;
    var k := base58(masterKey);
    assert Finish(client, response, masterKey, base58).value.url == ToString(PasteUrl(client, q, k));
    ComposedUrl(client.url, q, k);
  }

  lemma ComposedUrl(base: Url, q: string, k: string)
    requires ComposableUrl(base)
    requires !HasControl(q) && '#' !in q && '%' !in k
    ensures var u := Url(base.scheme, base.host, base.path, q, k);
      Parse(ToString(u)).Ok? && Parse(ToString(u)).value.rawQuery == q && Cut(ToString(u), '#').1 == k
  {
    var u := Url(base.scheme, base.host, base.path, q, k);
    NoPercentIsValid(k);
    QueryRoundTrip(u);
    assert '#' !in u.scheme by {
      assert forall i :: 0 <= i < |u.scheme| ==> IsLetter(u.scheme[i]) || IsSchemeTail(u.scheme[i]);
    }
    FragmentAfterHash(u);
  }
}
