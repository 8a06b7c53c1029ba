/**
 * The two encodings of Go's encoding/base64 that the client uses: StdEncoding (RFC 4648
 * section 4 alphabet, padded with '=') and RawStdEncoding (same alphabet, no padding).
 * Decoding is Go's default, non-strict decoding: '\r' and '\n' are skipped wherever they
 * occur, and the unused low bits of a final partial quantum are ignored.
 */
module Base64 {
  import opened Wrappers
  import opened Bytes

  /** A 6-bit digit. */
  type sextet = x: int | 0 <= x < 64

  const Pad: char := '='

  /** The character of the standard alphabet for digit `v`. */
  function CharOf(v: sextet): (c: char)
    ensures c != Pad && c != '\r' && c != '\n'
    ensures InAlphabet(c)
  {
    if v < 26 then ('A' as int + v) as char
    else if v < 52 then ('a' as int + (v - 26)) as char
    else if v < 62 then ('0' as int + (v - 52)) as char
    else if v == 62 then '+'
    else '/'
  }

  /** The digit a character stands for, if it belongs to the standard alphabet. */
  function SextetOf(c: char): Option<sextet> {
    if 'A' <= c <= 'Z' then Some(c as int - 'A' as int)
    else if 'a' <= c <= 'z' then Some(c as int - 'a' as int + 26)
    else if '0' <= c <= '9' then Some(c as int - '0' as int + 52)
    else if c == '+' then Some(62)
    else if c == '/' then Some(63)
    else None
  }

  predicate InAlphabet(c: char) {
    SextetOf(c).Some?
  }

  lemma SextetOfCharOf(v: sextet)
    ensures SextetOf(CharOf(v)) == Some(v)
  {
  }

  lemma PadNotInAlphabet()
    ensures !InAlphabet(Pad) && !InAlphabet('\r') && !InAlphabet('\n')
  {
  }

  /** The four digits of a 3-byte group, most significant first. */
  function Digits3(b0: byte, b1: byte, b2: byte): seq<sextet> {
    [b0 / 4, (b0 % 4) * 16 + b1 / 16, (b1 % 16) * 4 + b2 / 64, b2 % 64]
  }

  /** The bytes carried by two, three or four digits; the bits past the last whole byte are dropped. */
  function Bytes2(d0: sextet, d1: sextet): seq<byte> {
    [d0 * 4 + d1 / 16]
  }

  function Bytes3(d0: sextet, d1: sextet, d2: sextet): seq<byte> {
    [d0 * 4 + d1 / 16, (d1 % 16) * 16 + d2 / 4]
  }

  function Bytes4(d0: sextet, d1: sextet, d2: sextet, d3: sextet): seq<byte> {
    [d0 * 4 + d1 / 16, (d1 % 16) * 16 + d2 / 4, (d2 % 4) * 64 + d3]
  }

  function Chars(ds: seq<sextet>): (s: string)
    ensures |s| == |ds|
    ensures forall i :: 0 <= i < |s| ==> s[i] == CharOf(ds[i]) && InAlphabet(s[i])
  {
    if ds == [] then "" else [CharOf(ds[0])] + Chars(ds[1..])
  }

  /**
   * Encode `b`, three bytes to four characters; a final group of one or two bytes gives two
   * or three characters, followed by "==" or "=" when `padded`.
   */
  function Encode(b: seq<byte>, padded: bool): (s: string)
    ensures padded ==> |s| == 4 * ((|b| + 2) / 3)
    ensures !padded ==> |s| == 4 * (|b| / 3) + (if |b| % 3 == 0 then 0 else |b| % 3 + 1)
    ensures forall i :: 0 <= i < |s| ==> InAlphabet(s[i]) || (padded && s[i] == Pad)
    decreases |b|
  {
    if |b| == 0 then ""
    else if |b| == 1 then
      Chars([b[0] / 4, (b[0] % 4) * 16]) + (if padded then "==" else "")
    else if |b| == 2 then
      Chars([b[0] / 4, (b[0] % 4) * 16 + b[1] / 16, (b[1] % 16) * 4]) + (if padded then "=" else "")
    else
      GroupStep(|b|);
      Chars(Digits3(b[0], b[1], b[2])) + Encode(b[3..], padded)
  }

  /** Dropping one whole group of three bytes drops one group from the counts. */
  lemma GroupStep(n: int)
    requires n >= 3
    ensures (n + 2) / 3 == (n - 1) / 3 + 1 && n / 3 == (n - 3) / 3 + 1 && n % 3 == (n - 3) % 3
  {
  }

  /** base64.StdEncoding.EncodeToString */
  function StdEncode(b: seq<byte>): string {
    Encode(b, true)
  }

  /** base64.RawStdEncoding.EncodeToString */
  function RawStdEncode(b: seq<byte>): string {
    Encode(b, false)
  }

  /** The input with every '\r' and '\n' removed: the characters Go's decoder skips. */
  function RemoveNewlines(s: string): (t: string)
    ensures '\r' !in t && '\n' !in t
    ensures |t| <= |s|
    ensures ('\r' !in s && '\n' !in s) ==> t == s
  {
    if s == [] then ""
    else if s[0] == '\r' || s[0] == '\n' then RemoveNewlines(s[1..])
    else [s[0]] + RemoveNewlines(s[1..])
  }

  /**
   * Decode input that holds no newline. Whole groups of four alphabet characters come first.
   * Padded: the input ends with a group of four, which may be "xx==" or "xxx="; any other '=',
   * any other character or a short final group is an error. Unpadded: the final group may have
   * two or three characters, and a '=' anywhere is an error.
   */
  function DecodeClean(s: string, padded: bool): Option<seq<byte>>
    decreases |s|
  {
    if |s| == 0 then Some([])
    else if |s| >= 4 && InAlphabet(s[0]) && InAlphabet(s[1]) && InAlphabet(s[2]) && InAlphabet(s[3]) then
      var rest :- DecodeClean(s[4..], padded);
      Some(Bytes4(SextetOf(s[0]).value, SextetOf(s[1]).value, SextetOf(s[2]).value, SextetOf(s[3]).value) + rest)
    else if padded then
      if |s| == 4 && InAlphabet(s[0]) && InAlphabet(s[1]) && s[2] == Pad && s[3] == Pad then
        Some(Bytes2(SextetOf(s[0]).value, SextetOf(s[1]).value))
      else if |s| == 4 && InAlphabet(s[0]) && InAlphabet(s[1]) && InAlphabet(s[2]) && s[3] == Pad then
        Some(Bytes3(SextetOf(s[0]).value, SextetOf(s[1]).value, SextetOf(s[2]).value))
      else None
    else
      if |s| == 2 && InAlphabet(s[0]) && InAlphabet(s[1]) then
        Some(Bytes2(SextetOf(s[0]).value, SextetOf(s[1]).value))
      else if |s| == 3 && InAlphabet(s[0]) && InAlphabet(s[1]) && InAlphabet(s[2]) then
        Some(Bytes3(SextetOf(s[0]).value, SextetOf(s[1]).value, SextetOf(s[2]).value))
      else None
  }

  /** base64.StdEncoding.DecodeString; None is a CorruptInputError. */
  function StdDecode(s: string): Option<seq<byte>> {
    DecodeClean(RemoveNewlines(s), true)
  }

  /** base64.RawStdEncoding.DecodeString; None is a CorruptInputError. */
  function RawStdDecode(s: string): Option<seq<byte>> {
    DecodeClean(RemoveNewlines(s), false)
  }

  lemma Group3RoundTrip(b0: byte, b1: byte, b2: byte)
    ensures var d := Digits3(b0, b1, b2); Bytes4(d[0], d[1], d[2], d[3]) == [b0, b1, b2]
  {
  }

  lemma Group2RoundTrip(b0: byte, b1: byte)
    ensures Bytes3(b0 / 4, (b0 % 4) * 16 + b1 / 16, (b1 % 16) * 4) == [b0, b1]
  {
  }

  lemma Group1RoundTrip(b0: byte)
    ensures Bytes2(b0 / 4, (b0 % 4) * 16) == [b0]
  {
  }

  lemma Tail1RoundTrip(b0: byte, padded: bool)
    ensures DecodeClean(Encode([b0], padded), padded) == Some([b0])
  {
    Group1RoundTrip(b0);
    SextetOfCharOf(b0 / 4);
    SextetOfCharOf((b0 % 4) * 16);
    PadNotInAlphabet();
  }

  lemma Tail2RoundTrip(b0: byte, b1: byte, padded: bool)
    ensures DecodeClean(Encode([b0, b1], padded), padded) == Some([b0, b1])
  {
    Group2RoundTrip(b0, b1);
    SextetOfCharOf(b0 / 4);
    SextetOfCharOf((b0 % 4) * 16 + b1 / 16);
    SextetOfCharOf((b1 % 16) * 4);
    PadNotInAlphabet();
  }

  /** A whole group in front of decodable text decodes to its three bytes in front. */
  lemma GroupDecodes(b0: byte, b1: byte, b2: byte, rest: string, padded: bool, t: seq<byte>)
    requires DecodeClean(rest, padded) == Some(t)
    ensures DecodeClean(Chars(Digits3(b0, b1, b2)) + rest, padded) == Some([b0, b1, b2] + t)
  {
    var d := Digits3(b0, b1, b2);
    var s := Chars(d) + rest;
    Group3RoundTrip(b0, b1, b2);
    SextetOfCharOf(d[0]);
    SextetOfCharOf(d[1]);
    SextetOfCharOf(d[2]);
    SextetOfCharOf(d[3]);
    assert s[4..] == rest;
  }

  lemma {:induction false} EncodeRoundTrip(b: seq<byte>, padded: bool)
    ensures DecodeClean(Encode(b, padded), padded) == Some(b)
    decreases |b|
  {
    if |b| == 0 {
    } else if |b| == 1 {
      assert b == [b[0]];
      Tail1RoundTrip(b[0], padded);
    } else if |b| == 2 {
      assert b == [b[0], b[1]];
      Tail2RoundTrip(b[0], b[1], padded);
    } else {
      var rest := Encode(b[3..], padded);
      assert Encode(b, padded) == Chars(Digits3(b[0], b[1], b[2])) + rest;
      EncodeRoundTrip(b[3..], padded);
      GroupDecodes(b[0], b[1], b[2], rest, padded, b[3..]);
      assert [b[0], b[1], b[2]] + b[3..] == b;
    }
  }

  lemma NoNewlinesInEncoding(b: seq<byte>, padded: bool)
    ensures RemoveNewlines(Encode(b, padded)) == Encode(b, padded)
  {
    var s := Encode(b, padded);
    PadNotInAlphabet();
    assert forall i :: 0 <= i < |s| ==> s[i] != '\r' && s[i] != '\n';
  }

  /** Whatever StdEncoding writes, StdEncoding reads back. */
  lemma StdRoundTrip(b: seq<byte>)
    ensures StdDecode(StdEncode(b)) == Some(b)
  {
    NoNewlinesInEncoding(b, true);
    EncodeRoundTrip(b, true);
  }

  /** Whatever RawStdEncoding writes, RawStdEncoding reads back. */
  lemma RawStdRoundTrip(b: seq<byte>)
    ensures RawStdDecode(RawStdEncode(b)) == Some(b)
  {
    NoNewlinesInEncoding(b, false);
    EncodeRoundTrip(b, false);
  }

  /** When the input fills whole 3-byte groups the two encodings write the same text. */
  lemma {:induction false} WholeGroupsNeedNoPadding(b: seq<byte>)
    requires |b| % 3 == 0
    ensures StdEncode(b) == RawStdEncode(b)
    decreases |b|
  {
    if |b| > 0 {
      WholeGroupsNeedNoPadding(b[3..]);
    }
  }

  lemma {:induction false} NoPadInClean(s: string,  idx: nat)
    requires idx < |s| && s[idx] == Pad
    ensures DecodeClean(s, false) == None
    decreases |s|
  {
    PadNotInAlphabet();
    if |s| >= 4 && InAlphabet(s[0]) && InAlphabet(s[1]) && InAlphabet(s[2]) && InAlphabet(s[3]) {
      assert idx >= 4;
      NoPadInClean(s[4..], idx - 4);
    }
  }

  lemma {:induction false} RemoveNewlinesKeepsPad(s: string, idx: nat) returns (j: nat)
    requires idx < |s| && s[idx] == Pad
    ensures j < |RemoveNewlines(s)| && RemoveNewlines(s)[j] == Pad
    decreases |s|
  {
    if idx == 0 {
      j := 0;
    } else if s[0] == '\r' || s[0] == '\n' {
      j := RemoveNewlinesKeepsPad(s[1..], idx - 1);
    } else {
      j := RemoveNewlinesKeepsPad(s[1..], idx - 1);
      j := j + 1;
    }
  }

  /** RawStdEncoding rejects every input holding a '='. */
  lemma RawRejectsPadding(s: string)
    requires Pad in s
    ensures RawStdDecode(s) == None
  {
    var idx :| 0 <= idx < |s| && s[idx] == Pad;
    var j := RemoveNewlinesKeepsPad(s, idx);
    NoPadInClean(RemoveNewlines(s), j);
  }

  lemma GroupOfFour(n: int)
    requires n >= 4
    ensures n % 4 == (n - 4) % 4
  {
  }

  /** A padded decoding only succeeds on a whole number of 4-character groups. */
  lemma {:induction false} PaddedNeedsWholeGroups(s: string)
    requires DecodeClean(s, true).Some?
    ensures |s| % 4 == 0
    decreases |s|
  {
    if |s| >= 4 && InAlphabet(s[0]) && InAlphabet(s[1]) && InAlphabet(s[2]) && InAlphabet(s[3]) {
      PaddedNeedsWholeGroups(s[4..]);
      GroupOfFour(|s|);
    } else {
      assert |s| == 0 || |s| == 4;
    }
  }

  /** An unpadded decoding fails exactly when one character is left over after the whole groups. */
  lemma {:induction false} UnpaddedRemainder(s: string)
    requires DecodeClean(s, false).Some?
    ensures |s| % 4 != 1
    decreases |s|
  {
    if |s| >= 4 && InAlphabet(s[0]) && InAlphabet(s[1]) && InAlphabet(s[2]) && InAlphabet(s[3]) {
      UnpaddedRemainder(s[4..]);
      GroupOfFour(|s|);
    } else {
      assert |s| == 0 || |s| == 2 || |s| == 3;
    }
  }

  /** Padded text comes in whole groups of four; unpadded text does exactly when no byte is left over. */
  lemma EncodedLengthMod4(b: seq<byte>, padded: bool)
    ensures padded ==> |Encode(b, padded)| % 4 == 0
    ensures !padded ==> (|Encode(b, padded)| % 4 == 0 <==> |b| % 3 == 0)
  {
    var len := |Encode(b, padded)|;
    if padded {
      GroupsLength((|b| + 2) / 3, 0, len);
    } else {
      GroupsLength(|b| / 3, if |b| % 3 == 0 then 0 else |b| % 3 + 1, len);
    }
  }

  /** Arithmetic for EncodedLengthMod4: whole groups of four plus a short tail of 0, 2 or 3. */
  lemma GroupsLength(groups: int, tail: int, len: int)
    requires tail == 0 || tail == 2 || tail == 3
    requires len == 4 * groups + tail
    ensures len % 4 == 0 <==> tail == 0
  {
  }

  /** StdEncoding writes a '=' exactly when the last group is short. */
  lemma {:induction false} PaddingPresent(b: seq<byte>)
    ensures Pad in StdEncode(b) <==> |b| % 3 != 0
    decreases |b|
  {
    var s := StdEncode(b);
    if |b| == 1 {
      assert s[3] == Pad;
    } else if |b| == 2 {
      assert s[3] == Pad;
    } else if |b| >= 3 {
      PaddingPresent(b[3..]);
      GroupStep(|b|);
      var head := Chars(Digits3(b[0], b[1], b[2]));
      var rest := StdEncode(b[3..]);
      assert s == head + rest;
      assert Pad !in head;
      assert Pad in s <==> Pad in rest by {
        assert forall k :: 0 <= k < |s| ==> s[k] == if k < |head| then head[k] else rest[k - |head|];
      }
    }
  }
}
