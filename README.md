# PrivateBin client core, modelled in Dafny

This project models the encoding core of the Go PrivateBin client (gearnode/privatebin) and proves properties of it. PrivateBin stores pastes that are encrypted in the client. The server only ever sees ciphertext, the associated data, and the query part of the paste URL. The key travels in the URL fragment.

The model covers:

- **Associated data** (`adata.dfy`, module `AssociatedData`). The cipher specification is an 8-slot JSON array: IV, salt, iterations, key size, tag size, algorithm, mode and compression. It is wrapped in a 4-slot array with the formatter and the two flags. The model writes and reads both arrays. `UnmarshalSpec` and `UnmarshalAData` are imperative: they read slot by slot with early error returns, then overwrite the receiver.
- **Enumerations**: encryption algorithm, encryption mode and compression algorithm (`encryption_algorithm.dfy`, `encryption_mode.dfy`, `compression_algorithm.dfy`). Each is a `uint8` with named constants, a label, JSON encoding and decoding, and a receiver-writing `UnmarshalJson`.
- **Paste codec** (`paste.dfy`, module `PasteCodec`). The plaintext body is a JSON object of strings. The text goes under `paste`. An attachment goes under `attachment` as a data URL `data:<mime>;base64,<padded base64>`. Decoding checks the URL, then the two comma-separated parts, then the `;base64` marker, then the base64 payload, in that order.
- **Helpers** (`utils.dfy`, module `Utils`): `btoi`/`itob`; `decode64`, which picks padded or unpadded base64 by the input length modulo 4; and the guards of `newGCMWithNonceAndTagSize`.
- **GCM constructor choice** (`gcm.dfy`): which GCM constructor `newGCMWithNonceOrTagSize` uses for a nonce size and tag size, and when it refuses.
- **Create side** (`privatebin.dfy`, module `PrivateBin`):
  - the content built from a message;
  - the parameter record `encrypt` fills in;
  - the associated data that is both sealed and sent;
  - the request body;
  - how the server's answer becomes the paste URL.
- **Configuration** (`cfg.dfy`, module `Config`): the defaults; the loop that lets every bin inherit the global options it leaves unset, rewriting the bin array in place; and the search for a bin by name.

The Go library behaviour that the core depends on is modelled concretely enough to prove the round trips:

- `encoding/base64`, standard and raw alphabets, in `base64.dfy`.
- The UTF-8 decoding `json.Marshal` applies to strings in `utf8.dfy`: each invalid byte becomes U+FFFD.
- `strings` and `filepath.Ext` in `strings.dfy`.
- The part of `url.Parse` and `URL.String` the client relies on, in `url.dfy`.
- `encoding/json` as a value tree in `json.dfy`.

The cryptographic and library calls are fields of `PrivateBin.Library`, so the proofs hold for any implementation of them: PBKDF2, AES-GCM Seal, DEFLATE, base58, `mime.TypeByExtension` and JSON text output.

Where the written description of the client and its code differ, the model follows the code:

- `encrypt` uses 310000 PBKDF2 iterations, not 600000.
- The result URL's fragment is the base58 master key with no `-` prefix for burn-after-reading.
- `Paste.MarshalJSON` never uses the extension lookup (see below).

## Model

| member | source | states |
|---|---|---|
| AssociatedData.MarshalSpec | adata.go:91-105 | the spec is written as exactly 8 slots; the IV and salt slots are strings without '=' that unpadded base64 decodes back to the IV and salt |
| AssociatedData.MarshalAData | adata.go:42-51 | the associated data is written as exactly 4 slots, the flags as 0 or 1 |
| AssociatedData.DecodeSpec | adata.go:107-176 | a non-array fails with NotAnArray, fewer than 8 slots fail, and a decoded spec holds only named enum values |
| AssociatedData.DecodeAData | adata.go:53-89 | a non-array fails, fewer than 4 slots fail, and each flag is true exactly when its number is not zero |
| AssociatedData.UnmarshalSpec | adata.go:107-176 | succeeds exactly when DecodeSpec does; stores its value; leaves the receiver unchanged and reports DecodeSpec's error on failure |
| AssociatedData.UnmarshalAData | adata.go:53-89 | succeeds exactly when DecodeAData does; stores its value; leaves the receiver unchanged and reports the error on failure |
| AssociatedData.SpecRoundTrip | adata.go:91-176 | decoding a written spec with named enums gives the spec back |
| AssociatedData.ADataRoundTrip | adata.go:42-89 | decoding written associated data gives it back |
| AssociatedData.SpecDecodeStable | adata.go:91-176 | writing and re-reading a decoded spec decodes to the same value |
| AssociatedData.ADataDecodeStable | adata.go:42-89 | writing and re-reading decoded associated data decodes to the same value |
| AssociatedData.SpecIgnoresTrailing | adata.go:108-111 | elements after the eighth do not change the decoding |
| AssociatedData.ADataIgnoresTrailing | adata.go:54-58 | elements after the fourth do not change the decoding |
| AssociatedData.LooseFlags | adata.go:76-86 | any non-zero number decodes as true and zero as false |
| AssociatedData.ADataWrongKinds | adata.go:60-84 | a wrong kind in a slot fails with that slot's error, earlier slots first |
| AssociatedData.SpecCorruptBase64 | adata.go:123-141 | an IV or salt that is not unpadded base64 fails with CorruptBase64, the IV checked first |
| AssociatedData.PaddedIvRejected | adata.go:128-131 | an IV in padded base64 with padding present is rejected |
| AssociatedData.PaddedSaltRejected | adata.go:138-141 | a salt in padded base64 with padding present is rejected |
| EncryptionAlgorithms.String | encryption_algorithm.go:55-62 | "aes" exactly for AES, "unknown" for every other value |
| EncryptionAlgorithms.MarshalJson | encryption_algorithm.go:28-30 | the value is written as the JSON string of its label |
| EncryptionAlgorithms.FromLabel | encryption_algorithm.go:43-48 | "aes" gives AES; every other string gives Unknown |
| EncryptionAlgorithms.Decode | encryption_algorithm.go:32-53 | succeeds exactly on a JSON string, with a named value chosen by label |
| EncryptionAlgorithms.UnmarshalJson | encryption_algorithm.go:32-53 | writes the receiver exactly when Decode succeeds, and leaves it unchanged otherwise |
| EncryptionAlgorithms.RoundTrip | encryption_algorithm.go:28-62 | a named value survives writing and reading; any other value reads back as Unknown |
| EncryptionAlgorithms.DecodeStable | encryption_algorithm.go:28-53 | a decoded value re-encodes to the same decoding |
| EncryptionModes.String | encryption_mode.go:55-62 | "gcm" exactly for GCM, "unknown" for every other value |
| EncryptionModes.MarshalJson | encryption_mode.go:28-30 | the value is written as the JSON string of its label |
| EncryptionModes.FromLabel | encryption_mode.go:43-48 | "gcm" gives GCM; every other string gives Unknown |
| EncryptionModes.Decode | encryption_mode.go:32-53 | succeeds exactly on a JSON string, with a named value chosen by label |
| EncryptionModes.UnmarshalJson | encryption_mode.go:32-53 | writes the receiver exactly when Decode succeeds, and leaves it unchanged otherwise |
| EncryptionModes.RoundTrip | encryption_mode.go:28-62 | a named value survives writing and reading; any other value reads back as Unknown |
| EncryptionModes.DecodeStable | encryption_mode.go:28-53 | a decoded value re-encodes to the same decoding |
| CompressionAlgorithms.String | compression_algorithm_test.go:25-45 | "none" exactly for None, "zlib" exactly for GZip, "unknown" otherwise |
| CompressionAlgorithms.MarshalJson | compression_algorithm_test.go:56-76 | the value is written as the JSON string of its label |
| CompressionAlgorithms.FromLabel | compression_algorithm_test.go:88-113 | "none" gives None, "zlib" gives GZip, every other string gives Unknown |
| CompressionAlgorithms.Decode | compression_algorithm_test.go:88-113 | succeeds exactly on a JSON string, with a named value chosen by label |
| CompressionAlgorithms.UnmarshalJson | compression_algorithm_test.go:88-113 | writes the receiver exactly when Decode succeeds, and leaves it unchanged otherwise |
| CompressionAlgorithms.RoundTrip | compression_algorithm_test.go:56-113 | a named value survives writing and reading; any other value reads back as Unknown |
| CompressionAlgorithms.DecodeStable | compression_algorithm_test.go:88-113 | a decoded value re-encodes to the same decoding |
| Utils.Btoi | utils.go:29-35 | true gives 1 and false gives 0 |
| Utils.Itob | utils.go:37-39 | true exactly for a non-zero number |
| Utils.ItobBtoi | utils.go:29-39 | itob undoes btoi |
| Utils.BtoiItob | utils.go:29-39 | btoi after itob gives 0 for zero and 1 for any other number |
| Utils.Decode64 | utils.go:49-55 | a length divisible by 4 is decoded as padded base64, any other length as unpadded |
| Utils.Decode64OfStd | utils.go:49-55 | padded base64 of any bytes decodes back to them |
| Utils.Decode64OfRaw | utils.go:49-55 | unpadded base64 of any bytes decodes back to them |
| Utils.Decode64Reencode | utils.go:49-55 | decoded bytes, re-encoded in the form the input length selected, decode to the same bytes |
| Utils.Decode64RejectsStrayPadding | utils.go:49-55 | text whose length is not a multiple of 4 and that holds '=' is rejected |
| Utils.Decode64Examples | utils.go:49-55 | "QQ==" and "QQ" both give "A", "" gives nothing, and "SGVsbG8===" is rejected |
| Utils.NewGcmWithNonceAndTagSize | utils.go:97-112 | a tag size outside 12..16 fails first, then a non-positive nonce size; otherwise a cipher with the requested sizes, or the standard sizes when the block has no custom GCM |
| Utils.FallbackIgnoresSizes | utils.go:106-111 | without a custom GCM, any accepted sizes give the standard cipher |
| Gcm.NewGcmWithNonceOrTagSize | gcm.go:59-75 | standard sizes use NewGCM, only a custom nonce uses NewGCMWithNonceSize, only a custom tag uses NewGCMWithTagSize, and both custom is an error naming the sizes |
| Gcm.DecisionTable | gcm.go:59-75 | the four cases, each with the constructor chosen |
| Gcm.SelectionInjective | gcm.go:59-75 | different accepted size pairs never give the same cipher |
| PasteCodec.AttachmentMime | paste.go:40-48 | the MIME type written is the explicit one if set, otherwise application/octet-stream, whatever the extension |
| PasteCodec.MarshalPaste | paste.go:37-66 | "paste" exactly for non-empty data, holding its text; "attachment" exactly for a non-empty attachment, holding its data URL; "attachment_name" exactly when both attachment and name are non-empty; no other key |
| PasteCodec.DecodePaste | paste.go:68-113 | a body that is not an object of strings fails; the name is copied through; the data is the text's bytes; the MIME type is non-empty exactly when there is an attachment; no attachment gives no bytes |
| PasteCodec.UnmarshalPaste | paste.go:68-113 | overwrites the receiver exactly when DecodePaste succeeds, and leaves it unchanged with DecodePaste's error otherwise |
| PasteCodec.MimeLookupIsDead | paste.go:41-48 | the extension lookup never changes what is written |
| PasteCodec.NoInference | paste.go:41-48 | an attachment without a MIME type is written as application/octet-stream |
| PasteCodec.DataUrlRoundTrip | paste.go:54-58 | a data URL decodes to its bytes, with the MIME type keeping ";base64" |
| PasteCodec.RoundTrip | paste.go:37-113 | decoding what is written returns valid-UTF-8 text, the attachment, its name when there is an attachment, and the written MIME type with ";base64" |
| PasteCodec.TextKeptIffValid | paste.go:61-63 | text without an attachment comes back unchanged exactly when it is valid UTF-8 |
| PasteCodec.InvalidByteReplaced | paste.go:62 | the lone byte 0x92 comes back as EF BF BD |
| PasteCodec.TextPlainKeepsMarker | paste.go:93 | "data:text/plain;base64,..." decodes with MIME type "text/plain;base64" |
| PasteCodec.NotADataUrl | paste.go:79-87 | a URL without ':', '%' or a leading "//" parses with no opaque part and fails with "invalid data URL format" |
| PasteCodec.EmptyMimeDefaults | paste.go:93-96 | "data:;base64,<base64 of b>" decodes to b with the MIME type application/octet-stream |
| PasteCodec.EmptyMimeAttachmentDecodes | paste_test.go:181-188 | an attachment sent with no MIME type is read back as its bytes, its name and application/octet-stream |
| PasteCodec.DataUrlChecks | paste.go:84-101 | a second comma fails the format check; a missing marker fails next; bad base64 fails last |
| PrivateBin.SpecArrayAgrees | privatebin.go:82-93 | the client's specification array is the array AssociatedData writes for the same values |
| PrivateBin.ADataAgrees | privatebin.go:256-265 | the client's associated data is the array AssociatedData writes, the flags as 0 or 1 |
| PrivateBin.MimeFor | privatebin.go:130-134 | the attachment's MIME type is the one its extension names, otherwise application/octet-stream, and never empty |
| PrivateBin.ContentOf | privatebin.go:127-147 | an attachment has no text; its name is the filename, or "stdin"; it is the data URL of its bytes with the inferred MIME type; a text message sets only the text |
| PrivateBin.BuildContent | privatebin.go:127-147 | the content built field by field is ContentOf |
| PrivateBin.MarshalContent | privatebin.go:103-107 | "paste" is always written; "attachment" and "attachment_name" only when non-empty |
| PrivateBin.AttachmentContentDecodes | privatebin.go:127-149 | an attachment the client sends is read back by the paste codec as its bytes, its name and its MIME type with ";base64" |
| PrivateBin.TextContentDecodes | privatebin.go:145-149 | a text message is read back with no attachment, and as its data exactly when the data is valid UTF-8 |
| PrivateBin.Encrypt | privatebin.go:267-346 | the spec is the fixed record; zlib with DEFLATE only when gzip is asked for; the key is PBKDF2 over master key then password, 32 bytes; the seal's additional data is the serialised adata of the returned paste |
| PrivateBin.EncryptedADataDecodes | privatebin.go:284-297 | the adata of an encrypted paste reads back as AES, GCM, 310000 iterations, 256-bit key, 128-bit tag, the given IV and salt, and zlib or no compression as asked |
| PrivateBin.Request | privatebin.go:162-168 | the body has "v" = 2, the same adata as sealed, the expiry, and a ciphertext that decodes from unpadded base64 to the sealed data |
| PrivateBin.Finish | privatebin.go:216-234 | a non-zero status fails with the server's message; an unparsable URL fails; otherwise only the URL changes, to the client's scheme, host and path with the server's query and the base58 key |
| PrivateBin.ResultUrlCarriesQueryAndKey | privatebin.go:222-234 | the returned URL parses back to the server's query, and its fragment is the base58 master key |
| Config.Inherit | cmd/privatebin/cfg.go:86-104 | empty texts and unset flags take the global value; set fields are kept; name, host and auth are never changed |
| Config.InheritCompletes | cmd/privatebin/cfg.go:85-107 | after the merge every flag is set, and with non-empty globals every text is too |
| Config.CompleteUnchanged | cmd/privatebin/cfg.go:85-107 | a bin that sets everything is left as it is |
| Config.InheritIdempotent | cmd/privatebin/cfg.go:85-107 | merging twice gives the same bins as merging once |
| Config.Cfg.Default | cmd/privatebin/cfg.go:51-57 | no bins, expiry "1day", formatter "plaintext", gzip on, both flags off |
| Config.MergeBins | cmd/privatebin/cfg.go:85-107 | in place, bin i becomes the merge of the old bin i with the globals, for every i, with the same length |
| Config.FindBinCfg | cmd/privatebin/cfg.go:59-67 | the first bin with the name, or BinNotFound exactly when none has it |
| Base64.EncodeRoundTrip | paste.go:57 | decoding padded or unpadded base64 of any bytes gives the bytes back |
| Base64.WholeGroupsNeedNoPadding | utils.go:50-51 | for a length divisible by 3, padded and unpadded forms coincide |
| Base64.EncodedLengthMod4 | utils.go:50-54 | padded output is a multiple of 4 long; unpadded output is exactly when the byte count is a multiple of 3 |
| Base64.RawRejectsPadding | adata.go:128 | unpadded decoding rejects any text containing '=' |
| Utf8.RoundTripIffValid | paste.go:62 | writing bytes as JSON text and reading them back is the identity exactly on valid UTF-8 |
| Utf8.LoneContinuationByte | paste.go:62 | 0x92 is replaced by U+FFFD, whose bytes are EF BF BD |
| Strings.JoinSplit | paste.go:84 | joining the pieces of a split gives the input |
| Strings.SplitJoin | paste.go:84 | splitting a join of separator-free pieces gives the pieces |
| Strings.SplitCount | paste.go:84-87 | a split has one more piece than the separators |
| Strings.Ext | privatebin.go:130 | the extension is a suffix that starts with '.' and holds no further '.' or '/' |
| Strings.ExtEmpty | privatebin.go:130 | the extension is empty exactly when the last path element has no '.' |
| Urls.Parse | paste.go:79 | a control character before the fragment fails with InvalidControlCharacter |
| Urls.OpaqueAfterScheme | paste.go:79-84 | after a valid scheme, text not starting with '/' and without '?' or '#' is the opaque part |
| Urls.QueryRoundTrip | privatebin.go:222-234 | the raw query of a composed URL is what parsing its string form reads back |
| Urls.FragmentAfterHash | privatebin.go:232-234 | the text after the first '#' of a composed URL is its fragment |
| Json.StringObjectRoundTrip | paste.go:65-73 | a string map written as a JSON object reads back as the same map |

## Left out

- Cryptography: PBKDF2-HMAC-SHA256, AES, GCM Seal and raw DEFLATE are library calls. They are fields of `PrivateBin.Library`, with no properties assumed.
- The Go GCM constructors called by gcm.go and utils.go are likewise outside the model. The model records which one is chosen, and with which sizes.
- Randomness: `generateRandomBytes` is out. The master key (32 bytes), the IV (12 bytes) and the salt (8 bytes) are parameters.
- HTTP: building, sending and reading the request (privatebin.go:170-214), and `defaultPooledClient`, are out. `PrivateBin.Finish` starts from the decoded server response. The JSON decoding of that response is not modelled.
- File I/O: opening and reading the configuration file (cmd/privatebin/cfg.go:69-83) is out, and so is `json.Unmarshal` of it over the defaults. `Config.MergeBins` starts from the configuration as read.
- Config.MergeBins: a bin that inherits a flag holds its value, not the Go pointer to the global field. A later change to the global is therefore not seen through the bin.
- JSON text syntax: escaping, whitespace, key order, `null` and floating-point numbers are out. JSON is a value tree, and numbers decode into a Go `int` in the 64-bit range.
- PrivateBin.Request: the JSON text `json.Marshal` produces is `Library.marshal`, with no properties assumed. "Sealed adata equals sent adata" is therefore stated on the value tree.
- Urls.Parse: the escape check on the path (`setPath`) and the parsing of the authority after "//" are not modelled. As in Go, the opaque part and the query are kept raw. The scheme, the opaque part, the raw query, control characters and fragment escapes are modelled.
- PasteCodec.NotADataUrl: stated only for URLs without '%' and without a leading "//", because the path escape and authority errors of `url.Parse` (a `BadUrl` in Go) are not modelled.
- Urls.ToString: no percent-escaping is modelled. The URL results are stated for parts that need none.
- `mime.TypeByExtension` and base58 are parameters, with no properties assumed. `filepath.Ext` is modelled with '/' as the only separator.
- compression_algorithm.go is not part of this model's sources. The constants None and GZip and their labels "none" and "zlib" come from compression_algorithm_test.go. The numeric order Unknown = 0, None = 1, GZip = 2 is assumed, following the other enumerations.
- Decryption, ShowPaste and the burn-after-reading confirmation are not part of this model: no core source implements them.
- privatebin/privatebin.go, main.go and cmd/privatebin/main.go are older revisions and command-line entry points; they are not modelled.

## Code and tests disagree

The model follows the code. For each case below a lemma states what the code does.

- adata_test.go:117 and adata_test.go:264 expect padded IVs and salts such as "aW5pdGlhbGl6YXRpb24=" and "aXY=" to decode. `Spec.UnmarshalJSON` decodes them with the unpadded alphabet (adata.go:128, :138), which rejects '='. See `AssociatedData.PaddedIvRejected` and `AssociatedData.PaddedSaltRejected`.
- paste_test.go:255-281 expects the MIME type of an attachment to be inferred from its name. At paste.go:45 the second test is again on the empty field, so the inferred type is always replaced by application/octet-stream. See `PasteCodec.MimeLookupIsDead` and `PasteCodec.NoInference`.
- paste_test.go:177 and paste_test.go:478-487 expect "text/plain" from "data:text/plain;base64,...". `strings.TrimPrefix` at paste.go:93 removes ";base64" only from the front, so the code yields "text/plain;base64". See `PasteCodec.TextPlainKeepsMarker`.
