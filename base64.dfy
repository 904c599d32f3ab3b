/**
 * The base 64 encoding of RFC 4648, section 4 (`base64.b64encode`): every
 * three bytes become four characters of the 64-character alphabet, and a
 * final group of one or two bytes is padded with `=` to four characters.
 */
module Base64 {

  /** An octet. */
  newtype byte = x: int | 0 <= x < 256

  /** The pad character. */
  const Pad: char := '='

  /** The character of a six-bit value: `A`-`Z`, `a`-`z`, `0`-`9`, `+`, `/` (table 1). */
  function Digit(v: nat): (c: char)
    requires v < 64
  {
    if v < 26 then 'A' + v as char
    else if v < 52 then 'a' + (v - 26) as char
    else if v < 62 then '0' + (v - 52) as char
    else if v == 62 then '+'
    else '/'
  }

  /** The six-bit value of an alphabet character, the inverse of `Digit`; the pad reads as zero. */
  function Sextet(c: char): (v: nat)
    ensures v < 64
  {
    if 'A' <= c <= 'Z' then (c - 'A') as nat
    else if 'a' <= c <= 'z' then (c - 'a') as nat + 26
    else if '0' <= c <= '9' then (c - '0') as nat + 52
    else if c == '+' then 62
    else if c == '/' then 63
    else 0
  }

  /** A character of the encoded alphabet. */
  predicate IsDigit(c: char) {
    'A' <= c <= 'Z' || 'a' <= c <= 'z' || '0' <= c <= '9' || c == '+' || c == '/'
  }

  lemma DigitValue(v: nat)
    requires v < 64
    ensures IsDigit(Digit(v)) && Sextet(Digit(v)) == v
  {
  }

  /**
   * The four six-bit groups of the 24 bits `b0 b1 b2`, most significant
   * first: the top six bits of `b0`; its low two and the top four of `b1`;
   * the low four of `b1` and the top two of `b2`; the low six of `b2`.
   */
  function Sextets(b0: byte, b1: byte, b2: byte): (s: seq<nat>)
    ensures |s| == 4 && forall i :: 0 <= i < 4 ==> s[i] < 64
  {
    [b0 as nat / 4, b0 as nat % 4 * 16 + b1 as nat / 16, b1 as nat % 16 * 4 + b2 as nat / 64, b2 as nat % 64]
  }

  /**
   * The four characters of the group `b0 b1 b2`; `kept` of them (2, 3 or 4)
   * carry data, the rest are padding.
   */
  function Quantum(b0: byte, b1: byte, b2: byte, kept: nat): (q: string)
    requires 2 <= kept <= 4
    ensures |q| == 4
  {
    var s := Sextets(b0, b1, b2);
    [Digit(s[0]), Digit(s[1])]
    + (if kept >= 3 then [Digit(s[2])] else [Pad])
    + (if kept == 4 then [Digit(s[3])] else [Pad])
  }

  /** `base64.b64encode(b)` */
  function Encode(b: seq<byte>): string
    decreases |b|
  {
    if |b| == 0 then ""
    else if |b| == 1 then Quantum(b[0], 0, 0, 2)
    else if |b| == 2 then Quantum(b[0], b[1], 0, 3)
    else Quantum(b[0], b[1], b[2], 4) + Encode(b[3..])
  }

  /** Four characters for every started group of three bytes. */
  lemma {:induction false} EncodeLength(b: seq<byte>)
    ensures |Encode(b)| == 4 * ((|b| + 2) / 3)
    decreases |b|
  {
    if |b| >= 3 {
      EncodeLength(b[3..]);
      assert (|b| + 2) / 3 == (|b[3..]| + 2) / 3 + 1;
    }
  }

  /** The output is alphabet characters, then at most two pads at the very end. */
  lemma {:induction false} EncodeAlphabet(b: seq<byte>)
    ensures forall i :: 0 <= i < |Encode(b)| ==>
      IsDigit(Encode(b)[i]) || (Encode(b)[i] == Pad && i >= |Encode(b)| - 2)
    decreases |b|
  {
    if |b| >= 3 {
      EncodeAlphabet(b[3..]);
      QuantumDigits(b[0], b[1], b[2], 4);
      EncodeLength(b[3..]);
    } else if |b| == 2 {
      QuantumDigits(b[0], b[1], 0, 3);
    } else if |b| == 1 {
      QuantumDigits(b[0], 0, 0, 2);
    }
  }

  /** The data characters of a quantum are alphabet characters that read back as its six-bit groups; the rest are pads. */
  lemma QuantumDigits(b0: byte, b1: byte, b2: byte, kept: nat)
    requires 2 <= kept <= 4
    ensures forall i :: 0 <= i < kept ==>
      IsDigit(Quantum(b0, b1, b2, kept)[i]) && Sextet(Quantum(b0, b1, b2, kept)[i]) == Sextets(b0, b1, b2)[i]
    ensures forall i :: kept <= i < 4 ==> Quantum(b0, b1, b2, kept)[i] == Pad
  {
    var s := Sextets(b0, b1, b2);
    DigitValue(s[0]);
    DigitValue(s[1]);
    DigitValue(s[2]);
    DigitValue(s[3]);
  }

  /** The three octets written by four six-bit groups. */
  function Octets(s0: nat, s1: nat, s2: nat, s3: nat): seq<byte>
    requires s0 < 64 && s1 < 64 && s2 < 64 && s3 < 64
  {
    [(s0 * 4 + s1 / 16) as byte, (s1 % 16 * 16 + s2 / 4) as byte, (s2 % 4 * 64 + s3) as byte]
  }

  /** `base64.b64decode(s)` for well-formed input: each quantum back to its bytes. */
  function Decode(s: string): seq<byte>
    decreases |s|
  {
    if |s| < 4 then []
    else
      var count := if s[2] == Pad then 1 else if s[3] == Pad then 2 else 3;
      Octets(Sextet(s[0]), Sextet(s[1]), Sextet(s[2]), Sextet(s[3]))[..count] + Decode(s[4..])
  }

  /** The octets of a group's six-bit groups are the group. */
  lemma OctetsOfSextets(b0: byte, b1: byte, b2: byte)
    ensures var s := Sextets(b0, b1, b2);
      Octets(s[0], s[1], s[2], s[3]) == [b0, b1, b2]
  {
    var s := Sextets(b0, b1, b2);
    Place16(b0 as nat % 4, b1 as nat / 16);
    Place4(b1 as nat % 16, b2 as nat / 64);
  }

  /** Sixteen times `x` plus a digit below sixteen splits back into the two. */
  lemma Place16(x: nat, y: nat)
    requires y < 16
    ensures (x * 16 + y) / 16 == x && (x * 16 + y) % 16 == y
  {
  }

  /** Four times `x` plus a digit below four splits back into the two. */
  lemma Place4(x: nat, y: nat)
    requires y < 4
    ensures (x * 4 + y) / 4 == x && (x * 4 + y) % 4 == y
  {
  }

  /** Decoding undoes encoding (RFC 4648, section 4). */
  lemma {:induction false} DecodeEncode(b: seq<byte>)
    ensures Decode(Encode(b)) == b
    decreases |b|
  {
    if |b| >= 3 {
      var rest := Encode(b[3..]);
      calc {
        Decode(Encode(b));
        Decode(Quantum(b[0], b[1], b[2], 4) + rest);
        { DecodeQuantum(b[0], b[1], b[2], 4, rest); }
        [b[0], b[1], b[2]] + Decode(rest);
        { DecodeEncode(b[3..]); }
        [b[0], b[1], b[2]] + b[3..];
        b;
      }
    } else if |b| == 2 {
      assert b == [b[0], b[1]];
      DecodeTwo(b[0], b[1]);
    } else if |b| == 1 {
      assert b == [b[0]];
      DecodeOne(b[0]);
    } else {
      assert Encode(b) == "";
    }
  }

  /** Two bytes come back from their quantum with one pad. */
  lemma DecodeTwo(b0: byte, b1: byte)
    ensures Decode(Encode([b0, b1])) == [b0, b1]
  {
    var q := Quantum(b0, b1, 0, 3);
    assert Encode([b0, b1]) == q + "";
    DecodeQuantum(b0, b1, 0, 3, "");
    var g: seq<byte> := [b0, b1, 0];
    assert g[..2] == [b0, b1];
  }

  /** One byte comes back from its quantum with two pads. */
  lemma DecodeOne(b0: byte)
    ensures Decode(Encode([b0])) == [b0]
  {
    var q := Quantum(b0, 0, 0, 2);
    assert Encode([b0]) == q + "";
    DecodeQuantum(b0, 0, 0, 2, "");
    var g: seq<byte> := [b0, 0, 0];
    assert g[..1] == [b0];
  }

  /** A quantum decodes to the bytes it carries, followed by the rest. */
  lemma DecodeQuantum(b0: byte, b1: byte, b2: byte, kept: nat, rest: string)
    requires 2 <= kept <= 4
    requires kept < 4 ==> b2 == 0
    requires kept < 3 ==> b1 == 0
    ensures Decode(Quantum(b0, b1, b2, kept) + rest) == [b0, b1, b2][..kept - 1] + Decode(rest)
  {
    var q := Quantum(b0, b1, b2, kept);
    var s := Sextets(b0, b1, b2);
    QuantumDigits(b0, b1, b2, kept);
    OctetsOfSextets(b0, b1, b2);
    assert !IsDigit(Pad);
    assert Sextet(q[0]) == s[0] && Sextet(q[1]) == s[1];
    assert Sextet(q[2]) == s[2] by {
      if kept < 3 {
        assert q[2] == Pad;
      }
    }
    assert Sextet(q[3]) == s[3] by {
      if kept < 4 {
        assert q[3] == Pad;
      }
    }
    var t := q + rest;
    assert t[..4] == q && t[4..] == rest;
  }
}
