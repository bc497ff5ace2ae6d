/** The URL-safe alphabet of section 5 of RFC 4648, encoded with padding and decoded leniently: characters
    outside the alphabet are skipped, and padding that completes a group ends the text.
 */
module Base64Url {
  import opened Sequences
  import opened Utf8

  type Six = x: int | 0 <= x < 64

  type Four = x: int | 0 <= x < 16

  type Two = x: int | 0 <= x < 4

  function Symbol(n: Six): char {
    if n < 26 then ('A' as int + n) as char
    else if n < 52 then ('a' as int + n - 26) as char
    else if n < 62 then ('0' as int + n - 52) as char
    else if n == 62 then '-' else '_'
  }

  /** Both alphabets are read. */
  function SixOf(c: char): Option<Six> {
    if 'A' <= c <= 'Z' then Some(c as int - 'A' as int)
    else if 'a' <= c <= 'z' then Some(c as int - 'a' as int + 26)
    else if '0' <= c <= '9' then Some(c as int - '0' as int + 52)
    else if c == '-' || c == '+' then Some(62)
    else if c == '_' || c == '/' then Some(63)
    else None
  }

  /** `base64.urlsafe_b64encode(bytes).decode("ascii")` */
  function EncodeBytes(b: seq<Byte>): string {
    if |b| == 0 then ""
    else if |b| == 1 then [Symbol(b[0] / 4), Symbol(b[0] % 4 * 16), '=', '=']
    else if |b| == 2 then [Symbol(b[0] / 4), Symbol(b[0] % 4 * 16 + b[1] / 16), Symbol(b[1] % 16 * 4), '=']
    else Group(b[0], b[1], b[2]) + EncodeBytes(b[3..])
  }

  function Group(x: Byte, y: Byte, z: Byte): string {
    [Symbol(x / 4), Symbol(x % 4 * 16 + y / 16), Symbol(y % 16 * 4 + z / 64), Symbol(z % 64)]
  }

  /** The bits held back from the characters read so far. */
  datatype Held = Held0 | Held1(six: Six) | Held2(four: Four) | Held3(two: Two)

  function Put(first: Byte, rest: Option<seq<Byte>>): Option<seq<Byte>> {
    if rest.None? then None else Some([first] + rest.value)
  }

  function DecodeFrom(t: string, held: Held, pads: nat): Option<seq<Byte>> {
    if t == [] then if held.Held0? then Some([]) else None
    else if t[0] == '=' then
      if held.Held3? || (held.Held2? && pads >= 1) then Some([])
      else DecodeFrom(t[1..], held, if held.Held2? then pads + 1 else pads)
    else
      match SixOf(t[0])
      case None => DecodeFrom(t[1..], held, pads)
      case Some(v) =>
        match held
        case Held0 => DecodeFrom(t[1..], Held1(v), 0)
        case Held1(six) => Put(six * 4 + v / 16, DecodeFrom(t[1..], Held2(v % 16), 0))
        case Held2(four) => Put(four * 16 + v / 4, DecodeFrom(t[1..], Held3(v % 4), 0))
        case Held3(two) => Put(two * 64 + v, DecodeFrom(t[1..], Held0, 0))
  }

  predicate Ascii(t: string) { forall c :: c in t ==> c as int < 128 }

  /** `base64.urlsafe_b64decode(t.encode("ascii"))` */
  function DecodeText(t: string): Option<seq<Byte>> {
    if Ascii(t) then DecodeFrom(t, Held0, 0) else None
  }

  /** `t.rstrip("=")` */
  function Stripped(t: string): string {
    if t != [] && t[|t| - 1] == '=' then Stripped(t[..|t| - 1]) else t
  }

  /** `t + "=" * (-len(t) % 4)` */
  function Padded(t: string): string {
    t + if |t| % 4 == 0 then "" else if |t| % 4 == 1 then "===" else if |t| % 4 == 2 then "==" else "="
  }

  // ------------------------------------------------------------------------------- round trip

  lemma SymbolRead(n: Six)
    ensures SixOf(Symbol(n)) == Some(n) && Symbol(n) != '=' && Symbol(n) as int < 128
  {
  }

  /** The alphabet of table 2 of RFC 4648: the capitals, the small letters, the digits, a minus and an underline. */
  lemma Alphabet(n: Six)
    ensures Symbol(0) == 'A' && Symbol(25) == 'Z' && Symbol(26) == 'a' && Symbol(51) == 'z'
    ensures Symbol(52) == '0' && Symbol(61) == '9' && Symbol(62) == '-' && Symbol(63) == '_'
    ensures n !in {25, 51, 61, 62, 63} ==> Symbol(n + 1) as int == Symbol(n) as int + 1
  {
  }

  predicate UrlSafe(c: char) {
    'A' <= c <= 'Z' || 'a' <= c <= 'z' || '0' <= c <= '9' || c == '-' || c == '_' || c == '='
  }

  /** An encoding consists of that alphabet and padding only, whatever is encoded. */
  lemma {:induction false} EncodedUrlSafe(b: seq<Byte>)
    ensures forall c :: c in EncodeBytes(b) ==> UrlSafe(c)
    decreases |b|
  {
    if |b| >= 3 {
      EncodedUrlSafe(b[3..]);
    }
  }

  /** One character of the alphabet in front. */
  lemma OneMore(n: Six, rest: string, held: Held, pads: nat)
    ensures DecodeFrom([Symbol(n)] + rest, held, pads) ==
              match held
              case Held0 => DecodeFrom(rest, Held1(n), 0)
              case Held1(six) => Put(six * 4 + n / 16, DecodeFrom(rest, Held2(n % 16), 0))
              case Held2(four) => Put(four * 16 + n / 4, DecodeFrom(rest, Held3(n % 4), 0))
              case Held3(two) => Put(two * 64 + n, DecodeFrom(rest, Held0, 0))
  {
    SymbolRead(n);
    assert ([Symbol(n)] + rest)[1..] == rest;
  }

  type Reader = (string, Held, nat) -> Option<seq<Byte>>

  ghost predicate TakesSymbols(dec: Reader) {
    forall n: Six, rest, held, pads :: dec([Symbol(n)] + rest, held, pads) ==
      match held
      case Held0 => dec(rest, Held1(n), 0)
      case Held1(six) => Put(six * 4 + n / 16, dec(rest, Held2(n % 16), 0))
      case Held2(four) => Put(four * 16 + n / 4, dec(rest, Held3(n % 4), 0))
      case Held3(two) => Put(two * 64 + n, dec(rest, Held0, 0))
  }

  lemma DecoderTakesSymbols()
    ensures TakesSymbols(DecodeFrom)
  {
    forall n: Six, rest, held, pads
      ensures DecodeFrom([Symbol(n)] + rest, held, pads) ==
                match held
                case Held0 => DecodeFrom(rest, Held1(n), 0)
                case Held1(six) => Put(six * 4 + n / 16, DecodeFrom(rest, Held2(n % 16), 0))
                case Held2(four) => Put(four * 16 + n / 4, DecodeFrom(rest, Held3(n % 4), 0))
                case Held3(two) => Put(two * 64 + n, DecodeFrom(rest, Held0, 0))
    {
      OneMore(n, rest, held, pads);
    }
  }

  lemma SplitByFour(high: Two, low: Four)
    ensures (high * 16 + low) / 16 == high && (high * 16 + low) % 16 == low
  {
  }

  lemma SplitBySixteen(high: Four, low: Two)
    ensures (high * 4 + low) / 4 == high && (high * 4 + low) % 4 == low
  {
  }

  /** The first two characters of a group give its first byte. */
  lemma FirstByte(dec: Reader, x: Byte, low: Four, rest: string)
    requires TakesSymbols(dec)
    ensures dec([Symbol(x / 4)] + ([Symbol(x % 4 * 16 + low)] + rest), Held0, 0) == Put(x, dec(rest, Held2(low), 0))
  {
    SplitByFour(x % 4, low);
    assert x / 4 * 4 + x % 4 == x;
    var b := x % 4 * 16 + low;
    assert dec([Symbol(b)] + rest, Held1(x / 4), 0) == Put(x / 4 * 4 + b / 16, dec(rest, Held2(b % 16), 0));
  }

  lemma SecondByte(dec: Reader, y: Byte, low: Two, rest: string)
    requires TakesSymbols(dec)
    ensures dec([Symbol(y % 16 * 4 + low)] + rest, Held2(y / 16), 0) == Put(y, dec(rest, Held3(low), 0))
  {
    SplitBySixteen(y % 16, low);
    assert y / 16 * 16 + y % 16 == y;
  }

  lemma GroupRead(dec: Reader, x: Byte, y: Byte, z: Byte, rest: string)
    requires TakesSymbols(dec)
    ensures dec(Group(x, y, z) + rest, Held0, 0) == Put(x, Put(y, Put(z, dec(rest, Held0, 0))))
  {
    var t3 := [Symbol(z % 64)] + rest;
    var t2 := [Symbol(y % 16 * 4 + z / 64)] + t3;
    assert Group(x, y, z) + rest == [Symbol(x / 4)] + ([Symbol(x % 4 * 16 + y / 16)] + t2);
    FirstByte(dec, x, y / 16, t2);
    SecondByte(dec, y, z / 64, t3);
    assert z / 64 * 64 + z % 64 == z;
  }

  ghost predicate TakesEnds(dec: Reader) {
    && dec("", Held0, 0) == Some([]) && (forall four :: dec("==", Held2(four), 0) == Some([]))
    && (forall two :: dec("=", Held3(two), 0) == Some([]))
  }

  lemma DecoderTakesEnds()
    ensures TakesEnds(DecodeFrom)
  {
    assert "=="[1..] == "=";
    forall four ensures DecodeFrom("==", Held2(four), 0) == Some([]) {
      assert DecodeFrom("=", Held2(four), 1) == Some([]);
    }
  }

  lemma OneByteRead(dec: Reader, x: Byte)
    requires TakesSymbols(dec) && TakesEnds(dec)
    ensures dec([Symbol(x / 4), Symbol(x % 4 * 16), '=', '='], Held0, 0) == Some([x])
  {
    assert [Symbol(x / 4), Symbol(x % 4 * 16), '=', '='] == [Symbol(x / 4)] + ([Symbol(x % 4 * 16 + 0)] + "==");
    FirstByte(dec, x, 0, "==");
    assert [x] + [] == [x];
  }

  lemma TwoBytesRead(dec: Reader, x: Byte, y: Byte)
    requires TakesSymbols(dec) && TakesEnds(dec)
    ensures dec([Symbol(x / 4), Symbol(x % 4 * 16 + y / 16), Symbol(y % 16 * 4), '='], Held0, 0) == Some([x, y])
  {
    var t2 := [Symbol(y % 16 * 4 + 0)] + "=";
    assert [Symbol(x / 4), Symbol(x % 4 * 16 + y / 16), Symbol(y % 16 * 4), '=']
        == [Symbol(x / 4)] + ([Symbol(x % 4 * 16 + y / 16)] + t2);
    FirstByte(dec, x, y / 16, t2);
    SecondByte(dec, y, 0, "=");
    assert [y] + [] == [y] && [x] + [y] == [x, y];
  }

  lemma {:induction false} EncodedRead(dec: Reader, b: seq<Byte>)
    requires TakesSymbols(dec) && TakesEnds(dec)
    ensures dec(EncodeBytes(b), Held0, 0) == Some(b)
    decreases |b|
  {
    if |b| == 1 {
      assert b == [b[0]];
      OneByteRead(dec, b[0]);
    } else if |b| == 2 {
      assert b == [b[0], b[1]];
      TwoBytesRead(dec, b[0], b[1]);
    } else if |b| >= 3 {
      EncodedRead(dec, b[3..]);
      GroupRead(dec, b[0], b[1], b[2], EncodeBytes(b[3..]));
      assert b == [b[0]] + ([b[1]] + ([b[2]] + b[3..]));
    }
  }

  lemma {:induction false} EncodedAscii(b: seq<Byte>)
    ensures Ascii(EncodeBytes(b))
  {
    forall n: Six ensures Symbol(n) as int < 128 { SymbolRead(n); }
    if |b| >= 3 {
      EncodedAscii(b[3..]);
      assert EncodeBytes(b) == Group(b[0], b[1], b[2]) + EncodeBytes(b[3..]);
      assert Ascii(Group(b[0], b[1], b[2]));
    }
  }

  /** Decoding undoes encoding. */
  lemma Decoded64(b: seq<Byte>)
    ensures DecodeText(EncodeBytes(b)) == Some(b)
  {
    DecoderTakesSymbols();
    DecoderTakesEnds();
    EncodedRead(DecodeFrom, b);
    EncodedAscii(b);
  }

  /** The encoding without its padding. */
  function Bare(b: seq<Byte>): string {
    if |b| == 0 then ""
    else if |b| == 1 then [Symbol(b[0] / 4), Symbol(b[0] % 4 * 16)]
    else if |b| == 2 then [Symbol(b[0] / 4), Symbol(b[0] % 4 * 16 + b[1] / 16), Symbol(b[1] % 16 * 4)]
    else Group(b[0], b[1], b[2]) + Bare(b[3..])
  }

  function Padding(n: nat): string { if n % 3 == 0 then "" else if n % 3 == 1 then "==" else "=" }

  lemma {:induction false} BareEnds(b: seq<Byte>)
    requires b != []
    ensures Bare(b) != [] && Bare(b)[|Bare(b)| - 1] != '='
  {
    forall n: Six ensures Symbol(n) != '=' { SymbolRead(n); }
    if |b| > 3 {
      BareEnds(b[3..]);
    } else if |b| == 3 {
      assert Bare(b[3..]) == "";
    }
  }

  lemma GroupPadded(g: string, bare: string, n: nat)
    requires n >= 3
    ensures g + (bare + Padding(n - 3)) == g + bare + Padding(n)
  {
  }

  lemma {:induction false} EncodedParts(b: seq<Byte>)
    ensures EncodeBytes(b) == Bare(b) + Padding(|b|)
  {
    if |b| >= 3 {
      EncodedParts(b[3..]);
      GroupPadded(Group(b[0], b[1], b[2]), Bare(b[3..]), |b|);
    }
  }

  function BareLength(n: nat): nat { n / 3 * 4 + if n % 3 == 0 then 0 else n % 3 + 1 }

  lemma BareLengthStep(n: nat)
    requires n >= 3
    ensures BareLength(n) == 4 + BareLength(n - 3)
  {
  }

  lemma {:induction false} BarePadded(b: seq<Byte>)
    ensures |Bare(b)| == BareLength(|b|)
  {
    if |b| >= 3 {
      BareLengthStep(|b|);
      BarePadded(b[3..]);
      assert Bare(b) == Group(b[0], b[1], b[2]) + Bare(b[3..]);
    }
  }

  lemma {:induction false} StrippedTwice(t: string)
    requires t != [] && t[|t| - 1] != '='
    ensures Stripped(t) == t && Stripped(t + "=") == t && Stripped(t + "==") == t
  {
    assert (t + "=")[..|t|] == t;
    assert (t + "==")[..|t| + 1] == t + "=";
  }

  lemma PadsBack(whole: string, bare: string, n: nat)
    requires whole == bare + Padding(n) && |bare| == BareLength(n)
    requires bare != [] ==> bare[|bare| - 1] != '='
    ensures Padded(Stripped(whole)) == whole && Stripped(whole) == bare
  {
    assert |bare| % 4 == if n % 3 == 0 then 0 else n % 3 + 1;
    if bare != [] {
      StrippedTwice(bare);
      assert bare + "" == bare;
    }
  }

  /** Padding what was stripped gives the encoding back. */
  lemma StrippedPadded(b: seq<Byte>)
    ensures Padded(Stripped(EncodeBytes(b))) == EncodeBytes(b)
    ensures Stripped(EncodeBytes(b)) == Bare(b) && (b != [] ==> Bare(b) != [])
  {
    EncodedParts(b);
    BarePadded(b);
    if b != [] {
      BareEnds(b);
    }
    PadsBack(EncodeBytes(b), Bare(b), |b|);
  }

  /** The token of the assurance API: stripped when written, padded when read. */
  lemma StrippedDecoded(b: seq<Byte>)
    ensures DecodeText(Padded(Stripped(EncodeBytes(b)))) == Some(b)
  {
    StrippedPadded(b);
    Decoded64(b);
  }

  // -------------------------------------------------------------------------- lenient reading

  /** A character outside both alphabets, and no padding. */
  predicate Stray(c: char) {
    && !('A' <= c <= 'Z') && !('a' <= c <= 'z') && !('0' <= c <= '9')
    && c != '-' && c != '_' && c != '+' && c != '/' && c != '='
  }

  /** The texts are read alike, whatever is held back before them. */
  ghost predicate ReadAlike(t: string, u: string) {
    AlikeBy(DecodeFrom, t, u)
  }

  /** One character more, read by what reads the others. */
  function ReadOne(dec: Reader, x: char, rest: string, held: Held, pads: nat): Option<seq<Byte>> {
    if x == '=' then
      if held.Held3? || (held.Held2? && pads >= 1) then Some([])
      else dec(rest, held, if held.Held2? then pads + 1 else pads)
    else
      match SixOf(x)
      case None => dec(rest, held, pads)
      case Some(v) =>
        match held
        case Held0 => dec(rest, Held1(v), 0)
        case Held1(six) => Put(six * 4 + v / 16, dec(rest, Held2(v % 16), 0))
        case Held2(four) => Put(four * 16 + v / 4, dec(rest, Held3(v % 4), 0))
        case Held3(two) => Put(two * 64 + v, dec(rest, Held0, 0))
  }

  lemma ReadUnfolded(x: char, rest: string, held: Held, pads: nat)
    ensures DecodeFrom([x] + rest, held, pads) == ReadOne(DecodeFrom, x, rest, held, pads)
  {
    assert ([x] + rest)[1..] == rest;
  }

  ghost predicate AlikeBy(dec: Reader, t: string, u: string) {
    forall held, pads :: dec(t, held, pads) == dec(u, held, pads)
  }

  lemma OneAlike(dec: Reader, x: char, t: string, u: string, held: Held, pads: nat)
    requires AlikeBy(dec, t, u)
    ensures ReadOne(dec, x, t, held, pads) == ReadOne(dec, x, u, held, pads)
  {
  }

  lemma AlikeAfter(x: char, t: string, u: string)
    requires ReadAlike(t, u)
    ensures ReadAlike([x] + t, [x] + u)
  {
    forall held, pads ensures DecodeFrom([x] + t, held, pads) == DecodeFrom([x] + u, held, pads) {
      ReadUnfolded(x, t, held, pads);
      ReadUnfolded(x, u, held, pads);
      OneAlike(DecodeFrom, x, t, u, held, pads);
    }
  }

  lemma StrayFirst(c: char, rest: string)
    requires Stray(c)
    ensures ReadAlike([c] + rest, rest)
  {
    assert ([c] + rest)[1..] == rest && SixOf(c) == None;
  }

  lemma {:induction false} StrayAnywhere(t: string, c: char, rest: string)
    requires Stray(c)
    ensures ReadAlike(t + ([c] + rest), t + rest)
  {
    if t == [] {
      assert t + ([c] + rest) == [c] + rest && t + rest == rest;
      StrayFirst(c, rest);
    } else {
      StrayAnywhere(t[1..], c, rest);
      AlikeAfter(t[0], t[1..] + ([c] + rest), t[1..] + rest);
      assert t + ([c] + rest) == [t[0]] + (t[1..] + ([c] + rest)) && t + rest == [t[0]] + (t[1..] + rest);
    }
  }

  /** A stray character anywhere makes no difference, and a text that is not ASCII is not read. */
  lemma StraySkipped(t: string, c: char, rest: string)
    requires Stray(c)
    ensures DecodeText(t + [c] + rest) == if c as int < 128 then DecodeText(t + rest) else None
  {
    var (with, without) := (t + [c] + rest, t + rest);
    assert with == t + ([c] + rest);
    assert c in with && forall x :: x in with <==> x in without || x == c;
    StrayAnywhere(t, c, rest);
  }
}
