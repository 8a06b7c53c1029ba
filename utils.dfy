/** The small helpers of the client package. */
module Utils {
  import opened Wrappers
  import opened Bytes
  import opened Base64
  import opened Gcm

  /** btoi */
  function Btoi(v: bool): (n: Int)
    ensures n == 0 || n == 1
    ensures v <==> n == 1
  {
    if v then 1 else 0
  }

  /** itob: any non-zero number is true. */
  function Itob(v: Int): (b: bool)
    ensures b <==> v != 0
  {
    v != 0
  }

  lemma ItobBtoi(b: bool)
    ensures Itob(Btoi(b)) == b
  {
  }

  lemma BtoiItob(n: Int)
    ensures Btoi(Itob(n)) == if n == 0 then 0 else 1
  {
  }

  /**
   * decode64: padded decoding when the length is a multiple of four, unpadded otherwise.
   * The length is counted in characters; Go counts bytes, and the two differ only on text
   * holding a non-ASCII character, which both decodings reject.
   */
  function Decode64(s: string): (r: Option<seq<byte>>)
    ensures |s| % 4 == 0 ==> r == StdDecode(s)
    ensures |s| % 4 != 0 ==> r == RawStdDecode(s)
  {
    if |s| % 4 == 0 then StdDecode(s) else RawStdDecode(s)
  }

  /** Whatever StdEncoding writes, decode64 reads back. */
  lemma Decode64OfStd(b: seq<byte>)
    ensures Decode64(StdEncode(b)) == Some(b)
  {
    EncodedLengthMod4(b, true);
    StdRoundTrip(b);
  }

  /** Whatever RawStdEncoding writes, decode64 reads back, through either branch. */
  lemma Decode64OfRaw(b: seq<byte>)
    ensures Decode64(RawStdEncode(b)) == Some(b)
  {
    EncodedLengthMod4(b, false);
    if |b| % 3 == 0 {
      WholeGroupsNeedNoPadding(b);
      StdRoundTrip(b);
    } else {
      RawStdRoundTrip(b);
    }
  }

  /**
   * What decode64 accepts, re-encoded in the style its length picks, decodes to the same bytes.
   */
  lemma Decode64Reencode(s: string)
    requires Decode64(s).Some?
    ensures var b := Decode64(s).value;
      Decode64(if |s| % 4 == 0 then StdEncode(b) else RawStdEncode(b)) == Some(b)
  {
    Decode64OfStd(Decode64(s).value);
    Decode64OfRaw(Decode64(s).value);
  }

  /** A '=' in text of a length that is not a multiple of four is always rejected. */
  lemma Decode64RejectsStrayPadding(s: string)
    requires |s| % 4 != 0 && Pad in s
    ensures Decode64(s) == None
  {
    RawRejectsPadding(s);
  }

  /** "QQ==" and "QQ" both decode to "A"; "" decodes to nothing; "SGVsbG8===" is rejected. */
  lemma Decode64Examples()
    ensures Decode64("QQ==") == Some([65])
    ensures Decode64("QQ") == Some([65])
    ensures Decode64("") == Some([])
    ensures Decode64("SGVsbG8===") == None
  {
    assert CharOf(16) == 'Q';
    assert StdEncode([65]) == "QQ==";
    assert RawStdEncode([65]) == "QQ";
    Decode64OfStd([65]);
    Decode64OfRaw([65]);
    Decode64OfStd([]);
    assert "SGVsbG8==="[7] == Pad;
    Decode64RejectsStrayPadding("SGVsbG8===");
  }

  const GcmBlockSize: Int := 16
  const GcmMinimumTagSize: Int := 12

  /**
   * newGCMWithNonceAndTagSize. `gcmAble` says whether the block cipher offers its own
   * NewGCM(nonceSize, tagSize); without it the standard constructor is used.
   */
  function NewGcmWithNonceAndTagSize(gcmAble: bool, nonceSize: Int, tagSize: Int): (r: Result<Constructor, GcmError>)
    ensures (tagSize < GcmMinimumTagSize || tagSize > GcmBlockSize) ==> r == Err(IncorrectTagSize)
    ensures GcmMinimumTagSize <= tagSize <= GcmBlockSize && nonceSize <= 0 ==> r == Err(ZeroNonce)
    ensures r.Ok? <==> GcmMinimumTagSize <= tagSize <= GcmBlockSize && nonceSize > 0
    ensures r.Ok? && gcmAble ==> Sizes(r.value) == (nonceSize, tagSize)
    ensures r.Ok? && !gcmAble ==> Sizes(r.value) == (StandardNonceSize, StandardTagSize)
  {
    if tagSize < GcmMinimumTagSize || tagSize > GcmBlockSize then Err(IncorrectTagSize)
    else if nonceSize <= 0 then Err(ZeroNonce)
    else if gcmAble then Ok(WithNonceAndTagSize(nonceSize, tagSize))
    else Ok(Standard)
  }

  /** Without the capability, the sizes asked for make no difference once the guards pass. */
  lemma FallbackIgnoresSizes(n1: Int, t1: Int, n2: Int, t2: Int)
    requires NewGcmWithNonceAndTagSize(false, n1, t1).Ok? && NewGcmWithNonceAndTagSize(false, n2, t2).Ok?
    ensures NewGcmWithNonceAndTagSize(false, n1, t1) == NewGcmWithNonceAndTagSize(false, n2, t2)
  {
  }
}
