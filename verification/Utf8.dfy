/** UTF-8 as in sections 3 and 4 of RFC 3629, and how a decoder stops at the first bad byte. */
module Utf8 {
  import opened Sequences

  type Byte = x: int | 0 <= x < 256

  /** A Unicode scalar value. */
  type Scalar = x: int | 0 <= x < 0xD800 || 0xE000 <= x < 0x110000

  /** A character read from the start of some bytes. */
  datatype Char = Char(scalar: Scalar, width: nat)

  type Decoder = seq<Byte> -> Option<Char>

  type Encoder = Scalar -> seq<Byte>

  // ----------------------------------------------------------------------------- one character

  /** Six bits more. */
  function Shift(high: int, low: int): int { high * 64 + (low - 0x80) }

  function EncodeScalar(c: Scalar): seq<Byte> {
    if c < 0x80 then [c]
    else if c < 0x800 then [0xC0 + c / 64, 0x80 + c % 64]
    else if c < 0x10000 then [0xE0 + c / 64 / 64, 0x80 + c / 64 % 64, 0x80 + c % 64]
    else [0xF0 + c / 64 / 64 / 64, 0x80 + c / 64 / 64 % 64, 0x80 + c / 64 % 64, 0x80 + c % 64]
  }

  predicate Tail(b: Byte) { 0x80 <= b <= 0xBF }

  /** The length of a character, by its first byte. */
  function Width(b: Byte): (n: nat)
    ensures n <= 4
  {
    if b <= 0x7F then 1
    else if 0xC2 <= b <= 0xDF then 2
    else if 0xE0 <= b <= 0xEF then 3
    else if 0xF0 <= b <= 0xF4 then 4
    else 0
  }

  /** The second byte is restricted after some first bytes: no overlong forms, no surrogates, nothing above
      the last code point. */
  predicate Second(first: Byte, b: Byte) {
    && Tail(b)
    && (first == 0xE0 ==> b >= 0xA0) && (first == 0xED ==> b <= 0x9F)
    && (first == 0xF0 ==> b >= 0x90) && (first == 0xF4 ==> b <= 0x8F)
  }

  /** The character at the start, if a whole well-formed one stands there. */
  function DecodeFirst(b: seq<Byte>): Option<Char> {
    if b == [] then None
    else
      var n := Width(b[0]);
      if n == 0 || n > |b| then None
      else if n == 1 then Some(Char(b[0], 1))
      else if !Second(b[0], b[1]) then None
      else if n == 2 then Some(Char(Shift(b[0] - 0xC0, b[1]), 2))
      else if !Tail(b[2]) then None
      else if n == 3 then Some(Char(Shift(Shift(b[0] - 0xE0, b[1]), b[2]), 3))
      else if !Tail(b[3]) then None
      else Some(Char(Shift(Shift(Shift(b[0] - 0xF0, b[1]), b[2]), b[3]), 4))
  }

  lemma Unshift(high: int, low: Byte)
    requires Tail(low)
    ensures Shift(high, low) / 64 == high && Shift(high, low) % 64 == low - 0x80
  {
  }

  lemma Reshift(c: int)
    requires 0 <= c
    ensures Shift(c / 64, 0x80 + c % 64) == c
  {
  }

  /** What is read as a character is written as the bytes it was read from. */
  lemma FirstEncoded(b: seq<Byte>)
    requires DecodeFirst(b).Some?
    ensures var c := DecodeFirst(b).value;
      0 < c.width <= |b| && EncodeScalar(c.scalar) == b[..c.width]
  {
    var n := Width(b[0]);
    if n == 2 {
      Unshift(b[0] - 0xC0, b[1]);
    } else if n == 3 {
      Unshift(b[0] - 0xE0, b[1]);
      Unshift(Shift(b[0] - 0xE0, b[1]), b[2]);
    } else if n == 4 {
      Unshift(b[0] - 0xF0, b[1]);
      Unshift(Shift(b[0] - 0xF0, b[1]), b[2]);
      Unshift(Shift(Shift(b[0] - 0xF0, b[1]), b[2]), b[3]);
    }
  }

  /** What is written for a character is read as that character, whatever follows. */
  lemma FirstDecoded(c: Scalar, rest: seq<Byte>)
    ensures DecodeFirst(EncodeScalar(c) + rest) == Some(Char(c, |EncodeScalar(c)|))
    ensures 1 <= |EncodeScalar(c)| <= 4
  {
    Reshift(c);
    Reshift(c / 64);
    Reshift(c / 64 / 64);
  }

  // ----------------------------------------------------------------------------- whole strings

  function EncodeBy(text: seq<Scalar>, enc: Encoder): seq<Byte> {
    if text == [] then [] else enc(text[0]) + EncodeBy(text[1..], enc)
  }

  predicate Reads(b: seq<Byte>, dec: Decoder) { dec(b).Some? && 0 < dec(b).value.width <= |b| }

  /** The characters before the first bad byte. */
  function TextBy(b: seq<Byte>, dec: Decoder): seq<Scalar>
    decreases |b|
  {
    if !Reads(b, dec) then [] else [dec(b).value.scalar] + TextBy(b[dec(b).value.width..], dec)
  }

  function StopBy(b: seq<Byte>, dec: Decoder): (n: nat)
    ensures n <= |b|
    decreases |b|
  {
    if !Reads(b, dec) then 0 else dec(b).value.width + StopBy(b[dec(b).value.width..], dec)
  }

  function Encode(text: seq<Scalar>): seq<Byte> { EncodeBy(text, EncodeScalar) }

  function Text(b: seq<Byte>): seq<Scalar> { TextBy(b, DecodeFirst) }

  /** `UnicodeDecodeError.start`, or the length when nothing is wrong. */
  function Stop(b: seq<Byte>): (n: nat)
    ensures n <= |b|
  {
    StopBy(b, DecodeFirst)
  }

  predicate Valid(b: seq<Byte>) { Stop(b) == |b| }

  // ------------------------------------------------------------------------------ round trips

  /** The two directions agree on every character. */
  ghost predicate Agree(dec: Decoder, enc: Encoder) {
    && (forall b :: dec(b).Some? ==>
        0 < dec(b).value.width <= |b| && enc(dec(b).value.scalar) == b[..dec(b).value.width])
    && (forall c, rest :: dec(enc(c) + rest) == Some(Char(c, |enc(c)|)))
    && (forall c :: 1 <= |enc(c)| <= 4)
  }

  lemma Utf8Agrees()
    ensures Agree(DecodeFirst, EncodeScalar)
  {
    forall b | DecodeFirst(b).Some?
      ensures 0 < DecodeFirst(b).value.width <= |b|
      ensures EncodeScalar(DecodeFirst(b).value.scalar) == b[..DecodeFirst(b).value.width]
    {
      FirstEncoded(b);
    }
    forall c, rest ensures DecodeFirst(EncodeScalar(c) + rest) == Some(Char(c, |EncodeScalar(c)|)) {
      FirstDecoded(c, rest);
    }
    forall c ensures 1 <= |EncodeScalar(c)| <= 4 { FirstDecoded(c, []); }
  }

  lemma {:induction false} TextEncodedBy(b: seq<Byte>, dec: Decoder, enc: Encoder)
    requires Agree(dec, enc)
    ensures EncodeBy(TextBy(b, dec), enc) == b[..StopBy(b, dec)]
    decreases |b|
  {
    if Reads(b, dec) {
      var n := dec(b).value.width;
      TextEncodedBy(b[n..], dec, enc);
      assert b[..StopBy(b, dec)] == b[..n] + b[n..][..StopBy(b[n..], dec)];
    }
  }

  lemma {:induction false} DecodedBy(text: seq<Scalar>, dec: Decoder, enc: Encoder)
    requires Agree(dec, enc)
    ensures var b := EncodeBy(text, enc);
      StopBy(b, dec) == |b| && TextBy(b, dec) == text
  {
    if text != [] {
      DecodedBy(text[1..], dec, enc);
      var (first, rest) := (enc(text[0]), EncodeBy(text[1..], enc));
      assert dec(first + rest) == Some(Char(text[0], |first|));
      assert (first + rest)[|first|..] == rest;
    }
  }

  /** A cut before the end of the first character leaves nothing to read; a later one leaves it. */
  lemma FirstCut(b: seq<Byte>, limit: nat, dec: Decoder, enc: Encoder)
    requires Agree(dec, enc) && Reads(b, dec) && limit <= |b|
    ensures dec(b).value.width <= 4
    ensures dec(b[..limit]) == if limit < dec(b).value.width then None else dec(b)
  {
    var c := dec(b).value;
    var cut := b[..limit];
    assert |enc(c.scalar)| == c.width;
    if dec(cut).Some? {
      var c' := dec(cut).value;
      assert b == enc(c'.scalar) + b[c'.width..];
    }
    if c.width <= limit {
      assert cut == enc(c.scalar) + cut[c.width..];
    }
  }

  ghost predicate CutAt(dec: Decoder, b: seq<Byte>, limit: nat) {
    Reads(b, dec) && limit <= |b| ==>
      dec(b).value.width <= 4 && dec(b[..limit]) == if limit < dec(b).value.width then None else dec(b)
  }

  ghost predicate CutsWhole(dec: Decoder) { forall b: seq<Byte>, limit: nat :: CutAt(dec, b, limit) }

  lemma AgreeCuts(dec: Decoder, enc: Encoder)
    requires Agree(dec, enc)
    ensures CutsWhole(dec)
  {
    forall b: seq<Byte>, limit: nat ensures CutAt(dec, b, limit) {
      if Reads(b, dec) && limit <= |b| {
        FirstCut(b, limit, dec, enc);
      }
    }
  }

  lemma {:induction false} CutLosesLittleBy(b: seq<Byte>, limit: nat, dec: Decoder)
    requires CutsWhole(dec) && StopBy(b, dec) == |b| && limit <= |b|
    ensures StopBy(b[..limit], dec) >= limit - 3
    ensures TextBy(b[..limit], dec) <= TextBy(b, dec)
    decreases |b|
  {
    if b != [] {
      var n := dec(b).value.width;
      assert CutAt(dec, b, limit);
      if limit >= n {
        CutLosesLittleBy(b[n..], limit - n, dec);
        assert b[..limit][n..] == b[n..][..limit - n];
      }
    }
  }

  /** What is decoded is written back as the bytes it was read from. */
  lemma TextEncoded(b: seq<Byte>)
    ensures Encode(Text(b)) == b[..Stop(b)]
  {
    Utf8Agrees();
    TextEncodedBy(b, DecodeFirst, EncodeScalar);
  }

  /** Every encoding is valid, and decoding undoes it. */
  lemma Decoded(text: seq<Scalar>)
    ensures Valid(Encode(text)) && Text(Encode(text)) == text
  {
    Utf8Agrees();
    DecodedBy(text, DecodeFirst, EncodeScalar);
  }

  /** The part before the first bad byte is valid, and reads the same. */
  lemma StopValid(b: seq<Byte>)
    ensures Valid(b[..Stop(b)]) && Text(b[..Stop(b)]) == Text(b)
  {
    TextEncoded(b);
    Decoded(Text(b));
  }

  /** Cutting a valid string loses at most the three bytes of an unfinished character. */
  lemma CutLosesLittle(b: seq<Byte>, limit: nat)
    requires Valid(b) && limit <= |b|
    ensures Stop(b[..limit]) >= limit - 3
    ensures Text(b[..limit]) <= Text(b)
  {
    Utf8Agrees();
    AgreeCuts(DecodeFirst, EncodeScalar);
    CutLosesLittleBy(b, limit, DecodeFirst);
  }

  lemma {:induction false} EncodedLeadBy(text: seq<Scalar>, rest: seq<Byte>, dec: Decoder, enc: Encoder)
    requires Agree(dec, enc)
    ensures StopBy(EncodeBy(text, enc) + rest, dec) >= |EncodeBy(text, enc)|
  {
    if text != [] {
      var (head, tail) := (enc(text[0]), EncodeBy(text[1..], enc));
      EncodedLeadBy(text[1..], rest, dec, enc);
      assert EncodeBy(text, enc) + rest == head + (tail + rest);
      assert dec(head + (tail + rest)) == Some(Char(text[0], |head|));
      assert (head + (tail + rest))[|head|..] == tail + rest;
    }
  }

  /** Bytes stay good up to the end of every good beginning. */
  lemma GoodLead(b: seq<Byte>, n: nat)
    requires n <= |b| && Valid(b[..n])
    ensures Stop(b) >= n
  {
    var (lead, rest) := (b[..n], b[n..]);
    assert b == lead + rest;
    EncodedLead(lead, rest);
  }

  lemma EncodedLead(lead: seq<Byte>, rest: seq<Byte>)
    requires Valid(lead)
    ensures Stop(lead + rest) >= |lead|
  {
    TextEncoded(lead);
    Utf8Agrees();
    EncodedLeadBy(Text(lead), rest, DecodeFirst, EncodeScalar);
    assert lead[..|lead|] == lead;
  }
}
