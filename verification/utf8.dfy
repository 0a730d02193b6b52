/** Python's `bytes.decode()` with its default codec: strict UTF-8 as
    table 3-7 of the Unicode Standard defines well-formed sequences. Any
    byte sequence outside that table (a stray continuation byte, an overlong
    form, an encoded surrogate, a code point above U+10FFFF or a truncated
    sequence) raises `UnicodeDecodeError`. */
module Utf8 {
  import opened Wrappers
  import Base64

  type Byte = Base64.Byte

  predicate IsContinuation(b: Byte)
  {
    0x80 <= b < 0xC0
  }

  /** The scalar value and the length of the well-formed sequence `b` starts
      with, or None when `b` does not start with one. */
  function Leading(b: seq<Byte>): (r: Option<(char, nat)>)
    requires b != []
    ensures r.Some? ==> 1 <= r.value.1 <= 4 && r.value.1 <= |b|
    ensures r.Some? && b[0] < 0x80 ==> r.value == (b[0] as char, 1)
  {
    var b0: int := b[0];
    if b0 < 0x80 then Some((b0 as char, 1))
    else if 0xC2 <= b0 < 0xE0 then
      if |b| < 2 || !IsContinuation(b[1]) then None
      else Some((Two(b0, b[1]) as char, 2))
    else if 0xE0 <= b0 < 0xF0 then
      var lo, hi := if b0 == 0xE0 then 0xA0 else 0x80, if b0 == 0xED then 0xA0 else 0xC0;
      if |b| < 3 || !(lo <= b[1] < hi) || !IsContinuation(b[2]) then None
      else Some((Three(b0, b[1], b[2]) as char, 3))
    else if 0xF0 <= b0 < 0xF5 then
      var lo, hi := if b0 == 0xF0 then 0x90 else 0x80, if b0 == 0xF4 then 0x90 else 0xC0;
      if |b| < 4 || !(lo <= b[1] < hi) || !IsContinuation(b[2]) || !IsContinuation(b[3]) then None
      else Some((Four(b0, b[1], b[2], b[3]) as char, 4))
    else None
  }

  /** The code point of a two-byte sequence. */
  function Two(b0: int, b1: int): int
  {
    (b0 - 0xC0) * 64 + (b1 - 0x80)
  }

  /** The code point of a three-byte sequence. */
  function Three(b0: int, b1: int, b2: int): int
  {
    (b0 - 0xE0) * 4096 + (b1 - 0x80) * 64 + (b2 - 0x80)
  }

  /** The code point of a four-byte sequence. */
  function Four(b0: int, b1: int, b2: int, b3: int): int
  {
    (b0 - 0xF0) * 262144 + (b1 - 0x80) * 4096 + (b2 - 0x80) * 64 + (b3 - 0x80)
  }

  /** `b.decode()`: the text, or None for `UnicodeDecodeError`. */
  function Decode(b: seq<Byte>): (r: Option<string>)
    ensures r.Some? ==> |r.value| <= |b|
    decreases |b|
  {
    if b == [] then Some([])
    else
      match Leading(b)
      case None => None
      case Some((c, n)) =>
        match Decode(b[n..])
        case None => None
        case Some(rest) => Some([c] + rest)
  }

  /** The UTF-8 encoding of one character: the reference encoder. */
  function EncodeChar(c: char): (b: seq<Byte>)
    ensures 1 <= |b| <= 4
  {
    var v := c as int;
    if v < 0x80 then [v]
    else if v < 0x800 then [0xC0 + v / 64, 0x80 + v % 64]
    else if v < 0x10000 then [0xE0 + v / 4096, 0x80 + v / 64 % 64, 0x80 + v % 64]
    else [0xF0 + v / 262144, 0x80 + v / 4096 % 64, 0x80 + v / 64 % 64, 0x80 + v % 64]
  }

  /** `s.encode()`. */
  function Encode(s: string): (b: seq<Byte>)
    ensures |s| <= |b|
  {
    if s == [] then [] else EncodeChar(s[0]) + Encode(s[1..])
  }

  /** The encoding of a character is one well-formed sequence, whatever
      follows it. */
  lemma LeadingEncodeChar(c: char, rest: seq<Byte>)
    ensures Leading(EncodeChar(c) + rest) == Some((c, |EncodeChar(c)|))
  {
    var v := c as int;
    if v < 0x80 {
    } else if v < 0x800 {
      TwoBytes(v);
    } else if v < 0x10000 {
      ThreeBytes(v);
    } else {
      FourBytes(v);
    }
  }

  lemma TwoBytes(v: int)
    requires 0x80 <= v < 0x800
    ensures Two(0xC0 + v / 64, 0x80 + v % 64) == v
  {
  }

  lemma ThreeBytes(v: int)
    requires 0x800 <= v < 0x10000
    ensures Three(0xE0 + v / 4096, 0x80 + v / 64 % 64, 0x80 + v % 64) == v
  {
    assert v / 64 == v / 4096 * 64 + v / 64 % 64;
  }

  lemma FourBytes(v: int)
    requires 0x10000 <= v < 0x110000
    ensures Four(0xF0 + v / 262144, 0x80 + v / 4096 % 64, 0x80 + v / 64 % 64, 0x80 + v % 64) == v
  {
    assert v / 4096 == v / 262144 * 64 + v / 4096 % 64;
    assert v / 64 == v / 4096 * 64 + v / 64 % 64;
  }

  /** Decoding undoes encoding: every text survives `s.encode().decode()`. */
  lemma {:induction false} RoundTrip(s: string)
    ensures Decode(Encode(s)) == Some(s)
  {
    if s != [] {
      var e, rest := EncodeChar(s[0]), Encode(s[1..]);
      LeadingEncodeChar(s[0], rest);
      assert (e + rest)[|e|..] == rest;
      RoundTrip(s[1..]);
      assert s == [s[0]] + s[1..];
    }
  }

  /** ASCII bytes decode to the characters with the same codes. */
  lemma {:induction false} DecodeAscii(b: seq<Byte>)
    requires forall i | 0 <= i < |b| :: b[i] < 0x80
    ensures Decode(b).Some?
    ensures |Decode(b).value| == |b| && forall i | 0 <= i < |b| :: Decode(b).value[i] as int == b[i]
  {
    if b != [] {
      DecodeAscii(b[1..]);
    }
  }

  /** A well-formed sequence is the encoding of the character it decodes
      to: the decoder accepts nothing the encoder does not produce. */
  lemma EncodeLeading(b: seq<Byte>)
    requires b != [] && Leading(b).Some?
    ensures EncodeChar(Leading(b).value.0) == b[..Leading(b).value.1]
  {
    var b0: int := b[0];
    if 0xC2 <= b0 < 0xE0 {
      TwoBytesBack(b0, b[1]);
    } else if 0xE0 <= b0 < 0xF0 {
      ThreeBytesBack(b0, b[1], b[2]);
    } else if 0xF0 <= b0 < 0xF5 {
      FourBytesBack(b0, b[1], b[2], b[3]);
    }
  }

  lemma TwoBytesBack(b0: int, b1: int)
    requires 0xC2 <= b0 < 0xE0 && 0x80 <= b1 < 0xC0
    ensures var v := Two(b0, b1); 0x80 <= v < 0x800 && 0xC0 + v / 64 == b0 && 0x80 + v % 64 == b1
  {
  }

  lemma ThreeBytesBack(b0: int, b1: int, b2: int)
    requires 0xE0 <= b0 < 0xF0 && 0x80 <= b1 < 0xC0 && 0x80 <= b2 < 0xC0
    requires b0 == 0xE0 ==> b1 >= 0xA0
    ensures var v := Three(b0, b1, b2);
            0x800 <= v < 0x10000 && 0xE0 + v / 4096 == b0 && 0x80 + v / 64 % 64 == b1 && 0x80 + v % 64 == b2
  {
    var v := Three(b0, b1, b2);
    assert v / 64 == (b0 - 0xE0) * 64 + (b1 - 0x80);
  }

  lemma FourBytesBack(b0: int, b1: int, b2: int, b3: int)
    requires 0xF0 <= b0 < 0xF5 && 0x80 <= b1 < 0xC0 && 0x80 <= b2 < 0xC0 && 0x80 <= b3 < 0xC0
    requires b0 == 0xF0 ==> b1 >= 0x90
    ensures var v := Four(b0, b1, b2, b3);
            0x10000 <= v && 0xF0 + v / 262144 == b0 && 0x80 + v / 4096 % 64 == b1 &&
            0x80 + v / 64 % 64 == b2 && 0x80 + v % 64 == b3
  {
    var v := Four(b0, b1, b2, b3);
    assert v / 64 == (b0 - 0xF0) * 4096 + (b1 - 0x80) * 64 + (b2 - 0x80);
    assert v / 4096 == (b0 - 0xF0) * 64 + (b1 - 0x80);
  }

  /** Whatever decodes is the encoding of its text, so with RoundTrip,
      `b.decode()` succeeds exactly on the encodings of texts. */
  lemma {:induction false} DecodedIsEncoding(b: seq<Byte>)
    requires Decode(b).Some?
    ensures Encode(Decode(b).value) == b
    decreases |b|
  {
    if b != [] {
      DecodeStep(b);
      var s, c, n := Decode(b).value, Leading(b).value.0, Leading(b).value.1;
      calc {
        Encode(s);
        EncodeChar(c) + Encode(Decode(b[n..]).value);
        { EncodeLeading(b); DecodedIsEncoding(b[n..]); }
        b[..n] + b[n..];
        b;
      }
    }
  }

  /** One step of the decoder: the first character, then the rest. */
  lemma DecodeStep(b: seq<Byte>)
    requires b != [] && Decode(b).Some?
    ensures Leading(b).Some?
    ensures var c, n := Leading(b).value.0, Leading(b).value.1;
            Decode(b[n..]).Some? && Decode(b).value != [] &&
            Decode(b).value[0] == c && Decode(b).value[1..] == Decode(b[n..]).value
  {
  }

  /** A lone lead byte is a truncated sequence: `b'\xe9'.decode()` raises,
      although 0xE9 is the Latin-1 code of 'é'. */
  lemma LoneLeadByte()
    ensures Decode([0xE9]) == None
  {
  }
}
