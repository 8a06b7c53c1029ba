/**
 * UTF-8 as Go's unicode/utf8 package reads and writes it, and the two places the client
 * crosses between bytes and text: `string(b)` followed by json.Marshal, which writes U+FFFD
 * for every byte that does not start a valid encoding, and `[]byte(s)`, which writes the
 * UTF-8 encoding of each character.
 */
module Utf8 {
  import opened Bytes

  /** What utf8.DecodeRune finds at the start of its input; Invalid is (RuneError, 1). */
  datatype Decoded = Rune(c: char, width: nat) | Invalid

  /** U+FFFD, the character json.Marshal writes for a byte that starts no valid encoding. */
  const Replacement: char := '�'

  predicate Continuation(x: byte) {
    0x80 <= x < 0xC0
  }

  /** Six more payload bits appended to `acc`. */
  function Shift(acc: int, next: byte): int {
    acc * 64 + (next as int - 0x80)
  }

  /**
   * utf8.DecodeRune: the shortest-form encodings only, with the second byte restricted the way
   * Go's accept ranges restrict it (no overlong forms, no surrogates, nothing above U+10FFFF).
   */
  function DecodeRune(b: seq<byte>): (d: Decoded)
    requires |b| > 0
    ensures d.Rune? ==> 1 <= d.width <= 4 && d.width <= |b|
  {
    var b0 := b[0] as int;
    if b0 < 0x80 then Rune(b0 as char, 1)
    else if 0xC2 <= b0 < 0xE0 then
      if |b| >= 2 && Continuation(b[1]) then
        Rune(Shift(b0 - 0xC0, b[1]) as char, 2)
      else Invalid
    else if 0xE0 <= b0 < 0xF0 then
      var lo := if b0 == 0xE0 then 0xA0 else 0x80;
      var hi := if b0 == 0xED then 0xA0 else 0xC0;
      if |b| >= 3 && lo <= b[1] < hi && Continuation(b[2]) then
        Rune(Shift(Shift(b0 - 0xE0, b[1]), b[2]) as char, 3)
      else Invalid
    else if 0xF0 <= b0 < 0xF5 then
      var lo := if b0 == 0xF0 then 0x90 else 0x80;
      var hi := if b0 == 0xF4 then 0x90 else 0xC0;
      if |b| >= 4 && lo <= b[1] < hi && Continuation(b[2]) && Continuation(b[3]) then
        Rune(Shift(Shift(Shift(b0 - 0xF0, b[1]), b[2]), b[3]) as char, 4)
      else Invalid
    else Invalid
  }

  /** utf8.EncodeRune. */
  function EncodeRune(c: char): (b: seq<byte>)
    ensures 1 <= |b| <= 4
  {
    var x := c as int;
    if x < 0x80 then [x]
    else if x < 0x800 then [0xC0 + x / 64, 0x80 + x % 64]
    else if x < 0x10000 then [0xE0 + x / 64 / 64, 0x80 + x / 64 % 64, 0x80 + x % 64]
    else [0xF0 + x / 64 / 64 / 64, 0x80 + x / 64 / 64 % 64, 0x80 + x / 64 % 64, 0x80 + x % 64]
  }

  /** The text json.Marshal writes for the Go string `string(b)`. */
  function TextOf(b: seq<byte>): string
    decreases |b|
  {
    if b == [] then ""
    else match DecodeRune(b)
      case Rune(c, w) => [c] + TextOf(b[w..])
      case Invalid => [Replacement] + TextOf(b[1..])
  }

  /** `[]byte(s)`: the UTF-8 encoding of each character in turn. */
  function BytesOf(s: string): seq<byte> {
    if s == [] then [] else EncodeRune(s[0]) + BytesOf(s[1..])
  }

  /** utf8.Valid: the input splits into valid encodings with nothing left over. */
  predicate Valid(b: seq<byte>)
    decreases |b|
  {
    b == [] || (DecodeRune(b).Rune? && Valid(b[DecodeRune(b).width..]))
  }

  lemma BytesOfCons(c: char, s: string)
    ensures BytesOf([c] + s) == EncodeRune(c) + BytesOf(s)
  {
    assert ([c] + s)[0] == c;
    assert ([c] + s)[1..] == s;
  }

  lemma ShiftDivMod(acc: int, next: byte)
    requires Continuation(next)
    ensures Shift(acc, next) / 64 == acc && Shift(acc, next) % 64 == next as int - 0x80
  {
  }

  lemma Split(x: int)
    requires x >= 0
    ensures x == Shift(x / 64, 0x80 + x % 64)
  {
  }

  /** Decoding a whole encoding gives its character back, whatever follows it. */
  lemma DecodeEncodedRune(c: char, rest: seq<byte>)
    ensures DecodeRune(EncodeRune(c) + rest) == Rune(c, |EncodeRune(c)|)
  {
    var x := c as int;
    var b := EncodeRune(c) + rest;
    if x < 0x80 {
    } else if x < 0x800 {
      Split(x);
    } else if x < 0x10000 {
      Split(x);
      Split(x / 64);
      assert b[0] as int - 0xE0 == x / 64 / 64;
      assert Shift(Shift(b[0] as int - 0xE0, b[1]), b[2]) == x;
    } else {
      Split(x);
      Split(x / 64);
      Split(x / 64 / 64);
      assert b[0] as int - 0xF0 == x / 64 / 64 / 64;
      assert Shift(Shift(Shift(b[0] as int - 0xF0, b[1]), b[2]), b[3]) == x;
    }
  }

  /** A decoded character encodes to exactly the bytes it was decoded from. */
  lemma EncodeDecodedRune(b: seq<byte>)
    requires |b| > 0 && DecodeRune(b).Rune?
    ensures EncodeRune(DecodeRune(b).c) == b[..DecodeRune(b).width]
  {
    var d := DecodeRune(b);
    if d.width == 2 {
      ShiftDivMod(b[0] as int - 0xC0, b[1]);
    } else if d.width == 3 {
      ShiftDivMod(b[0] as int - 0xE0, b[1]);
      ShiftDivMod(Shift(b[0] as int - 0xE0, b[1]), b[2]);
    } else if d.width == 4 {
      ShiftDivMod(b[0] as int - 0xF0, b[1]);
      ShiftDivMod(Shift(b[0] as int - 0xF0, b[1]), b[2]);
      ShiftDivMod(Shift(Shift(b[0] as int - 0xF0, b[1]), b[2]), b[3]);
    }
  }

  lemma TextOfStep(b: seq<byte>)
    requires b != []
    ensures DecodeRune(b).Rune? ==> TextOf(b) == [DecodeRune(b).c] + TextOf(b[DecodeRune(b).width..])
    ensures DecodeRune(b).Invalid? ==> TextOf(b) == [Replacement] + TextOf(b[1..])
  {
  }

  /** Valid UTF-8 survives the trip through text unchanged. */
  lemma {:induction false} ValidRoundTrip(b: seq<byte>)
    requires Valid(b)
    ensures BytesOf(TextOf(b)) == b
    decreases |b|
  {
    if b != [] {
      var d := DecodeRune(b);
      var tail := b[d.width..];
      TextOfStep(b);
      EncodeDecodedRune(b);
      ValidRoundTrip(tail);
      BytesOfCons(d.c, TextOf(tail));
      assert b[..d.width] + tail == b;
    }
  }

  /** Every text encodes to valid UTF-8 and decodes back to itself. */
  lemma {:induction false} TextRoundTrip(s: string)
    ensures Valid(BytesOf(s)) && TextOf(BytesOf(s)) == s
  {
    if s != [] {
      var e := EncodeRune(s[0]);
      var rest := BytesOf(s[1..]);
      DecodeEncodedRune(s[0], rest);
      TextRoundTrip(s[1..]);
      assert (e + rest)[|e|..] == rest;
      assert [s[0]] + s[1..] == s;
    }
  }

  /** Each byte that starts no valid encoding comes back as the three bytes of U+FFFD. */
  lemma {:induction false} TextOfGrows(b: seq<byte>)
    ensures |BytesOf(TextOf(b))| >= |b|
    ensures !Valid(b) ==> |BytesOf(TextOf(b))| >= |b| + 2
    decreases |b|
  {
    if b != [] {
      match DecodeRune(b)
      case Rune(c, w) =>
        TextOfGrows(b[w..]);
        BytesOfCons(c, TextOf(b[w..]));
        EncodeDecodedRune(b);
        assert |EncodeRune(c)| == w;
      case Invalid =>
        TextOfGrows(b[1..]);
        BytesOfCons(Replacement, TextOf(b[1..]));
        assert |EncodeRune(Replacement)| == 3;
    }
  }

  /** The bytes survive the trip through text exactly when they are valid UTF-8. */
  lemma RoundTripIffValid(b: seq<byte>)
    ensures BytesOf(TextOf(b)) == b <==> Valid(b)
  {
    if Valid(b) {
      ValidRoundTrip(b);
    } else {
      TextOfGrows(b);
    }
  }

  /** The lone byte 0x92 is not UTF-8; it comes back as EF BF BD. */
  lemma LoneContinuationByte()
    ensures TextOf([0x92]) == [Replacement]
    ensures BytesOf(TextOf([0x92])) == [0xEF, 0xBF, 0xBD]
  {
    var b: seq<byte> := [0x92];
    assert DecodeRune(b) == Invalid;
    assert b[1..] == [];
  }
}
