/** The base64 encoding of section 4 of RFC 4648 (alphabet A-Z, a-z, 0-9, '+',
    '/', padding '='), as produced by Node's `buf.toString('base64')`, and a
    decoding that inverts it: groups of four characters, padding only at the
    end. The unused bits of a padded group are not checked. */
module Base64 {

  import opened Wrappers
  import opened Buffers

  type Sextet = i: int | 0 <= i < 64

  /** Entry `i` of the base64 alphabet (Table 1 of RFC 4648). */
  function CharOf(i: Sextet): (c: char)
    ensures c != '='
  {
    if i < 26 then ('A' as int + i) as char
    else if i < 52 then ('a' as int + (i - 26)) as char
    else if i < 62 then ('0' as int + (i - 52)) as char
    else if i == 62 then '+'
    else '/'
  }

  /** The position of `c` in the alphabet, if it is one of its letters. */
  function IndexOf(c: char): Option<Sextet> {
    if 'A' <= c <= 'Z' then Some(c as int - 'A' as int)
    else if 'a' <= c <= 'z' then Some(c as int - 'a' as int + 26)
    else if '0' <= c <= '9' then Some(c as int - '0' as int + 52)
    else if c == '+' then Some(62)
    else if c == '/' then Some(63)
    else None
  }

  lemma IndexOfCharOf(i: Sextet)
    ensures IndexOf(CharOf(i)) == Some(i)
  {
  }

  /** Every three bytes become four characters; a last group of one or two
      bytes is padded with "==" or "=". */
  function Encode(b: Buffer): (s: string)
    decreases |b|
  {
    if |b| == 0 then []
    else if |b| == 1 then
      [CharOf(b[0] / 4), CharOf((b[0] % 4) * 16), '=', '=']
    else if |b| == 2 then
      [CharOf(b[0] / 4), CharOf((b[0] % 4) * 16 + b[1] / 16), CharOf((b[1] % 16) * 4), '=']
    else
      [CharOf(b[0] / 4), CharOf((b[0] % 4) * 16 + b[1] / 16), CharOf((b[1] % 16) * 4 + b[2] / 64), CharOf(b[2] % 64)]
      + Encode(b[3..])
  }

  /** Decodes one group of four characters; padding is accepted only when the
      group is the last one. */
  function DecodeQuad(c0: char, c1: char, c2: char, c3: char, last: bool): Option<Buffer> {
    var i0, i1, i2, i3 := IndexOf(c0), IndexOf(c1), IndexOf(c2), IndexOf(c3);
    if i0.None? || i1.None? then None
    else
      var v0, v1 := i0.value as int, i1.value as int;
      if i2.Some? && i3.Some? then
        var v2, v3 := i2.value as int, i3.value as int;
        Some([v0 * 4 + v1 / 16, (v1 % 16) * 16 + v2 / 4, (v2 % 4) * 64 + v3])
      else if last && i2.Some? && c3 == '=' then
        var v2 := i2.value as int;
        Some([v0 * 4 + v1 / 16, (v1 % 16) * 16 + v2 / 4])
      else if last && c2 == '=' && c3 == '=' then
        Some([v0 * 4 + v1 / 16])
      else None
  }

  /** Groups of four characters, padding only in the last one; the unused
      low bits of a padded group are ignored, so "QR==" and "QQ==" both give "A". */
  function Decode(s: string): Option<Buffer>
    decreases |s|
  {
    if |s| == 0 then Some([])
    else if |s| < 4 then None
    else
      match DecodeQuad(s[0], s[1], s[2], s[3], |s| == 4)
      case None => None
      case Some(group) =>
        match Decode(s[4..])
        case None => None
        case Some(rest) => Some(group + rest)
  }

  /** The encoding has four characters per started group of three bytes. */
  lemma {:induction false} EncodeLength(b: Buffer)
    ensures |Encode(b)| == 4 * ((|b| + 2) / 3)
    decreases |b|
  {
    if |b| >= 3 {
      EncodeLength(b[3..]);
      assert |Encode(b)| == 4 + |Encode(b[3..])|;
      assert (|b| + 2) / 3 == 1 + (|b[3..]| + 2) / 3;
    } else {
      assert |b| == 0 || (|b| + 2) / 3 == 1;
    }
  }

  /** Only alphabet letters and '=' appear, so the encoding holds no line break. */
  lemma {:induction false} EncodeAlphabet(b: Buffer)
    ensures forall j :: 0 <= j < |Encode(b)| ==> Encode(b)[j] == '=' || IndexOf(Encode(b)[j]).Some?
    decreases |b|
  {
    if |b| >= 3 {
      EncodeAlphabet(b[3..]);
      IndexOfCharOf(b[0] / 4);
      IndexOfCharOf((b[0] % 4) * 16 + b[1] / 16);
      IndexOfCharOf((b[1] % 16) * 4 + b[2] / 64);
      IndexOfCharOf(b[2] % 64);
    } else if |b| > 0 {
      IndexOfCharOf(b[0] / 4);
      if |b| == 1 {
        IndexOfCharOf((b[0] % 4) * 16);
      } else {
        IndexOfCharOf((b[0] % 4) * 16 + b[1] / 16);
        IndexOfCharOf((b[1] % 16) * 4);
      }
    }
  }

  lemma GroupRoundTrip(b0: Byte, b1: Byte, b2: Byte)
    ensures b0 == (b0 / 4) * 4 + ((b0 % 4) * 16 + b1 / 16) / 16
    ensures b1 == (((b0 % 4) * 16 + b1 / 16) % 16) * 16 + ((b1 % 16) * 4 + b2 / 64) / 4
    ensures b2 == (((b1 % 16) * 4 + b2 / 64) % 4) * 64 + b2 % 64
  {
  }

  lemma DecodeQuadFull(b0: Byte, b1: Byte, b2: Byte, last: bool)
    ensures DecodeQuad(CharOf(b0 / 4), CharOf((b0 % 4) * 16 + b1 / 16),
                       CharOf((b1 % 16) * 4 + b2 / 64), CharOf(b2 % 64), last) == Some([b0, b1, b2])
  {
    IndexOfCharOf(b0 / 4);
    IndexOfCharOf((b0 % 4) * 16 + b1 / 16);
    IndexOfCharOf((b1 % 16) * 4 + b2 / 64);
    IndexOfCharOf(b2 % 64);
    GroupRoundTrip(b0, b1, b2);
  }

  lemma DecodeQuadTwo(b0: Byte, b1: Byte)
    ensures DecodeQuad(CharOf(b0 / 4), CharOf((b0 % 4) * 16 + b1 / 16), CharOf((b1 % 16) * 4), '=', true)
            == Some([b0, b1])
  {
    IndexOfCharOf(b0 / 4);
    IndexOfCharOf((b0 % 4) * 16 + b1 / 16);
    IndexOfCharOf((b1 % 16) * 4);
    GroupRoundTrip(b0, b1, 0);
  }

  lemma DecodeQuadOne(b0: Byte)
    ensures DecodeQuad(CharOf(b0 / 4), CharOf((b0 % 4) * 16), '=', '=', true) == Some([b0])
  {
    IndexOfCharOf(b0 / 4);
    IndexOfCharOf((b0 % 4) * 16);
    GroupRoundTrip(b0, 0, 0);
  }

  lemma DecodeEncodeTwo(b: Buffer)
    requires |b| == 2
    ensures Decode(Encode(b)) == Some(b)
  {
    var s := Encode(b);
    DecodeQuadTwo(b[0], b[1]);
    assert s == [CharOf(b[0] / 4), CharOf((b[0] % 4) * 16 + b[1] / 16), CharOf((b[1] % 16) * 4), '='];
    assert b == [b[0], b[1]];
    assert s[4..] == [];
    assert DecodeQuad(s[0], s[1], s[2], s[3], true) == Some(b);
    assert b + [] == b;
  }

  lemma DecodeEncodeOne(b: Buffer)
    requires |b| == 1
    ensures Decode(Encode(b)) == Some(b)
  {
    var s := Encode(b);
    DecodeQuadOne(b[0]);
    assert s == [CharOf(b[0] / 4), CharOf((b[0] % 4) * 16), '=', '='];
    assert b == [b[0]];
    assert s[4..] == [];
    assert DecodeQuad(s[0], s[1], s[2], s[3], true) == Some(b);
    assert b + [] == b;
  }

  /** A leading group that decodes, followed by a decodable rest. */
  lemma DecodeGroup(q: string, rest: string, group: Buffer, tail: Buffer)
    requires |q| == 4 && DecodeQuad(q[0], q[1], q[2], q[3], rest == []) == Some(group)
    requires Decode(rest) == Some(tail)
    ensures Decode(q + rest) == Some(group + tail)
  {
    var s := q + rest;
    assert s[0] == q[0] && s[1] == q[1] && s[2] == q[2] && s[3] == q[3];
    assert s[4..] == rest;
  }

  lemma EncodeStep(b: Buffer)
    requires |b| >= 3
    ensures Encode(b) == [CharOf(b[0] / 4), CharOf((b[0] % 4) * 16 + b[1] / 16),
                          CharOf((b[1] % 16) * 4 + b[2] / 64), CharOf(b[2] % 64)] + Encode(b[3..])
  {
  }

  lemma SplitGroup(b: Buffer)
    requires |b| >= 3
    ensures b == [b[0], b[1], b[2]] + b[3..]
  {
  }

  /** A group of three bytes in front of bytes that round-trip. */
  lemma DecodeEncodeStep(b: Buffer)
    requires |b| >= 3 && Decode(Encode(b[3..])) == Some(b[3..])
    ensures Decode(Encode(b)) == Some(b)
  {
    var b0, b1, b2 := b[0], b[1], b[2];
    var q := [CharOf(b0 / 4), CharOf((b0 % 4) * 16 + b1 / 16), CharOf((b1 % 16) * 4 + b2 / 64), CharOf(b2 % 64)];
    var rest := Encode(b[3..]);
    DecodeQuadFull(b0, b1, b2, rest == []);
    DecodeGroup(q, rest, [b0, b1, b2], b[3..]);
    SplitGroup(b);
    EncodeStep(b);
  }

  /** Decoding the encoding gives back the bytes. */
  lemma {:induction false} DecodeEncode(b: Buffer)
    ensures Decode(Encode(b)) == Some(b)
    decreases |b|
  {
    if |b| == 1 {
      DecodeEncodeOne(b);
    } else if |b| == 2 {
      DecodeEncodeTwo(b);
    } else if |b| >= 3 {
      DecodeEncode(b[3..]);
      DecodeEncodeStep(b);
    }
  }
}
