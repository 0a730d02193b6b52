/** Python's `base64.b64decode(s)` for a `str` argument with the default
    `validate=False`: the text must be ASCII; then CPython's non-strict
    `binascii.a2b_base64` loop discards every character outside the base64
    alphabet of section 4 of RFC 4648, stops at a complete padding sequence,
    and fails when the data characters do not make whole quanta. */
module Base64 {
  import opened Wrappers

  type Byte = b: int | 0 <= b < 256

  datatype Error =
    | NonAsciiInput     // "string argument should contain only ASCII characters"
    | ExcessDataChar    // one data character more than a multiple of four
    | IncorrectPadding  // two or three data characters left without padding

  predicate IsAscii(s: string)
  {
    forall i | 0 <= i < |s| :: s[i] as int < 128
  }

  /** The 64 characters of the base64 alphabet (section 4 of RFC 4648). */
  predicate InAlphabet(c: char)
  {
    'A' <= c <= 'Z' || 'a' <= c <= 'z' || '0' <= c <= '9' || c == '+' || c == '/'
  }

  /** The 6-bit value a base64 character stands for. */
  function ValueOf(c: char): (v: nat)
    requires InAlphabet(c)
    ensures v < 64
  {
    if 'A' <= c <= 'Z' then c as int - 'A' as int
    else if 'a' <= c <= 'z' then c as int - 'a' as int + 26
    else if '0' <= c <= '9' then c as int - '0' as int + 52
    else if c == '+' then 62
    else 63
  }

  /** The base64 character for a 6-bit value; the inverse of ValueOf. */
  function CharOf(v: nat): (c: char)
    requires v < 64
    ensures InAlphabet(c) && ValueOf(c) == v
  {
    if v < 26 then (v + 'A' as int) as char
    else if v < 52 then (v - 26 + 'a' as int) as char
    else if v < 62 then (v - 52 + '0' as int) as char
    else if v == 62 then '+'
    else '/'
  }

  /** The bits a decoder keeps between the characters of one quantum: six
      after the first, four after the second, two after the third. */
  function LeftBound(quad: nat): nat
  {
    if quad == 0 then 1 else if quad == 1 then 64 else if quad == 2 then 16 else 4
  }

  /** The non-strict decoding loop from a given state: `quad` data characters
      of the current quantum seen, `pads` padding characters seen since the
      last data character, `left` the bits not yet emitted, `acc` the bytes
      emitted so far. */
  function DecodeFrom(s: string, quad: nat, pads: nat, left: nat, acc: seq<Byte>): (r: Result<seq<Byte>, Error>)
    requires quad < 4 && left < LeftBound(quad)
    ensures r != Failure(NonAsciiInput)
    decreases |s|
  {
    if s == [] then
      if quad == 0 then Success(acc)
      else if quad == 1 then Failure(ExcessDataChar)
      else Failure(IncorrectPadding)
    else if s[0] == '=' then
      if quad >= 2 && quad + pads + 1 >= 4 then Success(acc)
      else DecodeFrom(s[1..], quad, if quad >= 2 then pads + 1 else pads, left, acc)
    else if !InAlphabet(s[0]) then
      DecodeFrom(s[1..], quad, pads, left, acc)
    else
      var v := ValueOf(s[0]);
      if quad == 0 then DecodeFrom(s[1..], 1, 0, v, acc)
      else if quad == 1 then DecodeFrom(s[1..], 2, 0, v % 16, acc + [left * 4 + v / 16])
      else if quad == 2 then DecodeFrom(s[1..], 3, 0, v % 4, acc + [left * 16 + v / 4])
      else DecodeFrom(s[1..], 0, 0, 0, acc + [left * 64 + v])
  }

  /** `base64.b64decode(s)`. */
  function Decode(s: string): (r: Result<seq<Byte>, Error>)
    ensures r == Failure(NonAsciiInput) <==> !IsAscii(s)
  {
    if !IsAscii(s) then Failure(NonAsciiInput) else DecodeFrom(s, 0, 0, 0, [])
  }

  /** The four characters that encode three bytes. */
  function Quantum(b0: Byte, b1: Byte, b2: Byte): string
  {
    [CharOf(b0 / 4), CharOf(b0 % 4 * 16 + b1 / 16), CharOf(b1 % 16 * 4 + b2 / 64), CharOf(b2 % 64)]
  }

  /** The final quantum for one leftover byte: two characters and two pads. */
  function PadOne(b0: Byte): string
  {
    [CharOf(b0 / 4), CharOf(b0 % 4 * 16), '=', '=']
  }

  /** The final quantum for two leftover bytes: three characters and a pad. */
  function PadTwo(b0: Byte, b1: Byte): string
  {
    [CharOf(b0 / 4), CharOf(b0 % 4 * 16 + b1 / 16), CharOf(b1 % 16 * 4), '=']
  }

  /** Standard base64 encoding with padding (section 4 of RFC 4648): the
      reference the decoder is checked against. */
  function Encode(b: seq<Byte>): (s: string)
    ensures |s| == (|b| + 2) / 3 * 4
  {
    if |b| == 0 then []
    else if |b| == 1 then PadOne(b[0])
    else if |b| == 2 then PadTwo(b[0], b[1])
    else Quantum(b[0], b[1], b[2]) + Encode(b[3..])
  }

  lemma DecodeQuantum(b0: Byte, b1: Byte, b2: Byte, t: string, acc: seq<Byte>)
    ensures DecodeFrom(Quantum(b0, b1, b2) + t, 0, 0, 0, acc) == DecodeFrom(t, 0, 0, 0, acc + [b0, b1, b2])
  {
    var v0, v1, v2, v3 := b0 / 4, b0 % 4 * 16 + b1 / 16, b1 % 16 * 4 + b2 / 64, b2 % 64;
    QuantumBits(b0, b1, b2);
    var t3 := [CharOf(v3)] + t;
    var t2 := [CharOf(v2)] + t3;
    var t1 := [CharOf(v1)] + t2;
    assert Quantum(b0, b1, b2) + t == [CharOf(v0)] + t1;
    calc {
      DecodeFrom([CharOf(v0)] + t1, 0, 0, 0, acc);
      { FirstDataChar(CharOf(v0), t1, acc); }
      DecodeFrom(t1, 1, 0, v0, acc);
      { DataChar(CharOf(v1), t2, 1, v0, acc, b0); }
      DecodeFrom(t2, 2, 0, v1 % 16, acc + [b0]);
      { DataChar(CharOf(v2), t3, 2, v1 % 16, acc + [b0], b1); }
      DecodeFrom(t3, 3, 0, v2 % 4, acc + [b0] + [b1]);
      { DataChar(CharOf(v3), t, 3, v2 % 4, acc + [b0] + [b1], b2); }
      DecodeFrom(t, 0, 0, 0, acc + [b0] + [b1] + [b2]);
      { assert acc + [b0] + [b1] + [b2] == acc + [b0, b1, b2]; }
      DecodeFrom(t, 0, 0, 0, acc + [b0, b1, b2]);
    }
  }

  /** A data character at the start of a quantum is only remembered. */
  lemma FirstDataChar(c: char, t: string, acc: seq<Byte>)
    requires InAlphabet(c)
    ensures DecodeFrom([c] + t, 0, 0, 0, acc) == DecodeFrom(t, 1, 0, ValueOf(c), acc)
  {
    assert ([c] + t)[1..] == t;
  }

  /** A later data character of a quantum completes the byte `b`: the
      remembered bits followed by the leading bits of the character. */
  lemma DataChar(c: char, t: string, quad: nat, left: nat, acc: seq<Byte>, b: Byte)
    requires InAlphabet(c) && 1 <= quad < 4 && left < LeftBound(quad)
    requires var v := ValueOf(c);
             b == if quad == 1 then left * 4 + v / 16 else if quad == 2 then left * 16 + v / 4 else left * 64 + v
    ensures var v := ValueOf(c);
            DecodeFrom([c] + t, quad, 0, left, acc) ==
            if quad == 1 then DecodeFrom(t, 2, 0, v % 16, acc + [b])
            else if quad == 2 then DecodeFrom(t, 3, 0, v % 4, acc + [b])
            else DecodeFrom(t, 0, 0, 0, acc + [b])
  {
    assert ([c] + t)[1..] == t;
  }

  /** The four 6-bit values of three bytes give the bytes back. */
  lemma QuantumBits(b0: Byte, b1: Byte, b2: Byte)
    ensures var v0, v1, v2, v3 := b0 / 4, b0 % 4 * 16 + b1 / 16, b1 % 16 * 4 + b2 / 64, b2 % 64;
            v0 < 64 && v1 < 64 && v2 < 64 && v3 < 64 &&
            v0 * 4 + v1 / 16 == b0 && v1 % 16 * 16 + v2 / 4 == b1 && v2 % 4 * 64 + v3 == b2
  {
  }

  lemma DecodePadOne(b0: Byte, t: string, acc: seq<Byte>)
    ensures DecodeFrom(PadOne(b0) + t, 0, 0, 0, acc) == Success(acc + [b0])
  {
    var v0, v1 := b0 / 4, b0 % 4 * 16;
    var s := PadOne(b0) + t;
    assert s[0] == CharOf(v0) && s[1..][0] == CharOf(v1) && s[2..][0] == '=' && s[3..][0] == '=';
    assert s[1..][1..] == s[2..] && s[2..][1..] == s[3..];
    assert v0 * 4 + v1 / 16 == b0 && v1 % 16 == 0;
    calc {
      DecodeFrom(s, 0, 0, 0, acc);
      DecodeFrom(s[1..], 1, 0, v0, acc);
      DecodeFrom(s[2..], 2, 0, 0, acc + [b0]);
      DecodeFrom(s[3..], 2, 1, 0, acc + [b0]);
      Success(acc + [b0]);
    }
  }

  lemma DecodePadTwo(b0: Byte, b1: Byte, t: string, acc: seq<Byte>)
    ensures DecodeFrom(PadTwo(b0, b1) + t, 0, 0, 0, acc) == Success(acc + [b0, b1])
  {
    var v0, v1, v2 := b0 / 4, b0 % 4 * 16 + b1 / 16, b1 % 16 * 4;
    var s := PadTwo(b0, b1) + t;
    assert s[0] == CharOf(v0) && s[1..][0] == CharOf(v1) && s[2..][0] == CharOf(v2) && s[3..][0] == '=';
    assert s[1..][1..] == s[2..] && s[2..][1..] == s[3..];
    assert v0 * 4 + v1 / 16 == b0;
    assert v1 % 16 * 16 + v2 / 4 == b1 && v2 % 4 == 0;
    calc {
      DecodeFrom(s, 0, 0, 0, acc);
      DecodeFrom(s[1..], 1, 0, v0, acc);
      DecodeFrom(s[2..], 2, 0, v1 % 16, acc + [b0]);
      DecodeFrom(s[3..], 3, 0, 0, acc + [b0] + [b1]);
      Success(acc + [b0] + [b1]);
      { assert acc + [b0] + [b1] == acc + [b0, b1]; }
      Success(acc + [b0, b1]);
    }
  }

  lemma DecodeShort(b: seq<Byte>, t: string, acc: seq<Byte>)
    requires |b| < 3
    ensures |b| == 0 ==> DecodeFrom(Encode(b) + t, 0, 0, 0, acc) == DecodeFrom(t, 0, 0, 0, acc + b)
    ensures |b| != 0 ==> DecodeFrom(Encode(b) + t, 0, 0, 0, acc) == Success(acc + b)
  {
    if |b| == 0 {
      assert Encode(b) + t == t && acc + b == acc;
    } else if |b| == 1 {
      DecodePadOne(b[0], t, acc);
      assert [b[0]] == b;
    } else {
      DecodePadTwo(b[0], b[1], t, acc);
      assert [b[0], b[1]] == b;
    }
  }

  lemma DecodeFirstQuantum(b: seq<Byte>, t: string, acc: seq<Byte>)
    requires |b| >= 3
    ensures DecodeFrom(Encode(b) + t, 0, 0, 0, acc) ==
            DecodeFrom(Encode(b[3..]) + t, 0, 0, 0, acc + [b[0], b[1], b[2]])
  {
    var tail := Encode(b[3..]) + t;
    assert Encode(b) + t == Quantum(b[0], b[1], b[2]) + tail;
    DecodeQuantum(b[0], b[1], b[2], tail, acc);
  }

  /** Decoding an encoding returns the bytes; after a padded encoding the
      decoder stops, so whatever follows it is ignored, and after an unpadded
      one it goes on with what follows. */
  lemma {:induction false} DecodeEncoded(b: seq<Byte>, t: string, acc: seq<Byte>)
    ensures |b| % 3 == 0 ==> DecodeFrom(Encode(b) + t, 0, 0, 0, acc) == DecodeFrom(t, 0, 0, 0, acc + b)
    ensures |b| % 3 != 0 ==> DecodeFrom(Encode(b) + t, 0, 0, 0, acc) == Success(acc + b)
  {
    if |b| < 3 {
      DecodeShort(b, t, acc);
    } else {
      var acc' := acc + [b[0], b[1], b[2]];
      var r := b[3..];
      assert acc' + r == acc + b && |r| % 3 == |b| % 3 by {
        assert b == [b[0], b[1], b[2]] + r;
      }
      DecodeFirstQuantum(b, t, acc);
      DecodeEncoded(r, t, acc');
    }
  }

  /** An encoding uses only alphabet characters and padding. */
  lemma {:induction false} EncodeCharacters(b: seq<Byte>)
    ensures forall i | 0 <= i < |Encode(b)| :: InAlphabet(Encode(b)[i]) || Encode(b)[i] == '='
  {
    if |b| >= 3 {
      EncodeCharacters(b[3..]);
      assert Encode(b) == Quantum(b[0], b[1], b[2]) + Encode(b[3..]);
    }
  }

  /** Decoding recovers exactly the bytes that were encoded. */
  lemma RoundTrip(b: seq<Byte>)
    ensures Decode(Encode(b)) == Success(b)
  {
    var e := Encode(b);
    assert IsAscii(e) by {
      EncodeCharacters(b);
    }
    DecodeEncoded(b, [], []);
    assert e + [] == e;
    assert [] + b == b;
  }

  /** The characters the decoder does not skip: the alphabet and the pad. */
  function Significant(s: string): (r: string)
    ensures forall i | 0 <= i < |r| :: InAlphabet(r[i]) || r[i] == '='
    ensures |r| <= |s|
  {
    if s == [] then []
    else if InAlphabet(s[0]) || s[0] == '=' then [s[0]] + Significant(s[1..])
    else Significant(s[1..])
  }

  lemma {:induction false} DecodeFromSkipsJunk(s: string, quad: nat, pads: nat, left: nat, acc: seq<Byte>)
    requires quad < 4 && left < LeftBound(quad)
    ensures DecodeFrom(s, quad, pads, left, acc) == DecodeFrom(Significant(s), quad, pads, left, acc)
    decreases |s|
  {
    if s != [] {
      var c := s[0];
      var k := Significant(s[1..]);
      if InAlphabet(c) || c == '=' {
        assert Significant(s) == [c] + k;
        assert ([c] + k)[0] == c && ([c] + k)[1..] == k;
        if c == '=' {
          if !(quad >= 2 && quad + pads + 1 >= 4) {
            DecodeFromSkipsJunk(s[1..], quad, if quad >= 2 then pads + 1 else pads, left, acc);
          }
        } else {
          var v := ValueOf(c);
          if quad == 0 {
            DecodeFromSkipsJunk(s[1..], 1, 0, v, acc);
          } else if quad == 1 {
            DecodeFromSkipsJunk(s[1..], 2, 0, v % 16, acc + [left * 4 + v / 16]);
          } else if quad == 2 {
            DecodeFromSkipsJunk(s[1..], 3, 0, v % 4, acc + [left * 16 + v / 4]);
          } else {
            DecodeFromSkipsJunk(s[1..], 0, 0, 0, acc + [left * 64 + v]);
          }
        }
      } else {
        DecodeFromSkipsJunk(s[1..], quad, pads, left, acc);
      }
    }
  }

  /** Non-validating decoding: characters outside the alphabet (other than
      the pad) are discarded before decoding. */
  lemma DecodeSkipsJunk(s: string)
    requires IsAscii(s)
    ensures IsAscii(Significant(s))
    ensures Decode(s) == Decode(Significant(s))
  {
    DecodeFromSkipsJunk(s, 0, 0, 0, []);
  }

  /** Bytes still owed for the current quantum: none at its start, otherwise
      one fewer than the data characters seen. */
  function Emitted(quad: nat): nat
  {
    if quad == 0 then 0 else quad - 1
  }

  lemma {:induction false} DecodeFromDataOnly(s: string, quad: nat, pads: nat, left: nat, acc: seq<Byte>)
    requires quad < 4 && left < LeftBound(quad)
    requires forall i | 0 <= i < |s| :: InAlphabet(s[i])
    ensures (quad + |s|) % 4 == 1 ==> DecodeFrom(s, quad, pads, left, acc) == Failure(ExcessDataChar)
    ensures (quad + |s|) % 4 >= 2 ==> DecodeFrom(s, quad, pads, left, acc) == Failure(IncorrectPadding)
    ensures (quad + |s|) % 4 == 0 ==>
              var r := DecodeFrom(s, quad, pads, left, acc);
              r.Success? && acc <= r.value && |r.value| + Emitted(quad) == |acc| + (quad + |s|) / 4 * 3
    decreases |s|
  {
    if s != [] {
      var v := ValueOf(s[0]);
      assert forall i | 0 <= i < |s[1..]| :: InAlphabet(s[1..][i]);
      if quad == 0 {
        DecodeFromDataOnly(s[1..], 1, 0, v, acc);
      } else if quad == 1 {
        DecodeFromDataOnly(s[1..], 2, 0, v % 16, acc + [left * 4 + v / 16]);
      } else if quad == 2 {
        DecodeFromDataOnly(s[1..], 3, 0, v % 4, acc + [left * 16 + v / 4]);
      } else {
        assert (quad + |s|) % 4 == |s[1..]| % 4 && (quad + |s|) / 4 == |s[1..]| / 4 + 1;
        DecodeFromDataOnly(s[1..], 0, 0, 0, acc + [left * 64 + v]);
      }
    }
  }

  /** On data characters alone, decoding succeeds exactly when they make
      whole quanta of four, giving three bytes per quantum; one character
      over is reported as such and two or three as incorrect padding. */
  lemma DecodeDataOnly(s: string)
    requires forall i | 0 <= i < |s| :: InAlphabet(s[i])
    ensures Decode(s).Success? <==> |s| % 4 == 0
    ensures Decode(s).Success? ==> |Decode(s).value| == |s| / 4 * 3
    ensures |s| % 4 == 1 ==> Decode(s) == Failure(ExcessDataChar)
    ensures |s| % 4 >= 2 ==> Decode(s) == Failure(IncorrectPadding)
  {
    DecodeFromDataOnly(s, 0, 0, 0, []);
  }

  /** `k` padding characters. */
  function Pads(k: nat): (p: string)
    ensures |p| == k && forall i | 0 <= i < k :: p[i] == '='
  {
    seq(k, _ => '=')
  }

  /** Before two data characters of a quantum, padding is skipped. */
  lemma {:induction false} SkipPads(quad: nat, left: nat, acc: seq<Byte>, k: nat)
    requires quad < 2 && left < LeftBound(quad)
    ensures DecodeFrom(Pads(k), quad, 0, left, acc) == DecodeFrom([], quad, 0, left, acc)
  {
    if k > 0 {
      assert Pads(k)[1..] == Pads(k - 1);
      SkipPads(quad, left, acc, k - 1);
    }
  }

  /** Data characters followed by padding: the quantum left open by the
      data decides. One character over is an excess data character; two
      need two pads, so a single pad is incorrect padding; three need one. */
  lemma {:induction false} DecodeFromDataPadded(s: string, quad: nat, left: nat, acc: seq<Byte>, k: nat)
    requires quad < 4 && left < LeftBound(quad) && k >= 1
    requires forall i | 0 <= i < |s| :: InAlphabet(s[i])
    ensures var q, r := (quad + |s|) % 4, DecodeFrom(s + Pads(k), quad, 0, left, acc);
            (q == 1 ==> r == Failure(ExcessDataChar)) &&
            (q == 2 && k == 1 ==> r == Failure(IncorrectPadding)) &&
            (q == 0 || q == 3 || (q == 2 && k >= 2) ==> r.Success?)
    decreases |s|
  {
    var p := Pads(k);
    if s == [] {
      assert s + p == p;
      if quad < 2 {
        SkipPads(quad, left, acc, k);
      } else if quad == 2 {
        assert p[1..] == Pads(k - 1);
        if k >= 2 {
          assert p[1..][0] == '=';
        }
      }
    } else {
      var v := ValueOf(s[0]);
      assert (s + p)[0] == s[0] && (s + p)[1..] == s[1..] + p;
      assert forall i | 0 <= i < |s[1..]| :: InAlphabet(s[1..][i]);
      if quad == 0 {
        DecodeFromDataPadded(s[1..], 1, v, acc, k);
      } else if quad == 1 {
        DecodeFromDataPadded(s[1..], 2, v % 16, acc + [left * 4 + v / 16], k);
      } else if quad == 2 {
        DecodeFromDataPadded(s[1..], 3, v % 4, acc + [left * 16 + v / 4], k);
      } else {
        assert (quad + |s|) % 4 == |s[1..]| % 4;
        DecodeFromDataPadded(s[1..], 0, 0, acc + [left * 64 + v], k);
      }
    }
  }

  /** `b64decode` of data characters followed by `k` pads: with two data
      characters over a multiple of four, one pad is incorrect padding and
      two decode; with three, one pad decodes; with one, it is an excess
      data character. */
  lemma DecodePadded(d: string, k: nat)
    requires k >= 1
    requires forall i | 0 <= i < |d| :: InAlphabet(d[i])
    ensures |d| % 4 == 1 ==> Decode(d + Pads(k)) == Failure(ExcessDataChar)
    ensures |d| % 4 == 2 && k == 1 ==> Decode(d + Pads(k)) == Failure(IncorrectPadding)
    ensures |d| % 4 == 0 || |d| % 4 == 3 || (|d| % 4 == 2 && k >= 2) ==> Decode(d + Pads(k)).Success?
  {
    var s := d + Pads(k);
    assert IsAscii(s) by {
      forall i | 0 <= i < |s|
        ensures s[i] as int < 128
      {
        if i < |d| {
          assert s[i] == d[i] && InAlphabet(d[i]);
        } else {
          assert s[i] == Pads(k)[i - |d|];
        }
      }
    }
    DecodeFromDataPadded(d, 0, 0, [], k);
  }

  /** "QQ=" is incorrect padding, while "QQ==" and "QUJ=" decode. */
  lemma ShortPadding()
    ensures Decode("QQ=") == Failure(IncorrectPadding)
    ensures Decode("QQ==").Success? && Decode("QUJ=").Success?
  {
    assert "QQ=" == "QQ" + Pads(1);
    assert "QQ==" == "QQ" + Pads(2);
    assert "QUJ=" == "QUJ" + Pads(1);
    DecodePadded("QQ", 1);
    DecodePadded("QQ", 2);
    DecodePadded("QUJ", 1);
  }
}
