/** The Base64 encoding of section 4 of RFC 4648 that
    `Buffer.toString('base64')` produces: the standard alphabet, groups of
    three bytes written as four digits, and `=` padding to a multiple of four
    characters. The decoder accepts exactly the canonical encodings. */
module Base64 {
  import opened Common
  import opened Utf8
  import Seqs

  /** The digit for a six-bit value (Table 1 of RFC 4648): `A`-`Z`, `a`-`z`,
      `0`-`9`, `+`, `/`. */
  function Digit(v: int): (c: char)
    requires 0 <= v < 64
    ensures c != '='
  {
    if v < 26 then ('A' as int + v) as char
    else if v < 52 then ('a' as int + (v - 26)) as char
    else if v < 62 then ('0' as int + (v - 52)) as char
    else if v == 62 then '+'
    else '/'
  }

  /** The six-bit value of a digit; `None` for any other character, `=` included. */
  function DigitValue(c: char): (v: Option<int>)
    ensures v.Some? ==> 0 <= v.value < 64 && Digit(v.value) == c
  {
    if 'A' <= c <= 'Z' then Some(c as int - 'A' as int)
    else if 'a' <= c <= 'z' then Some(c as int - 'a' as int + 26)
    else if '0' <= c <= '9' then Some(c as int - '0' as int + 52)
    else if c == '+' then Some(62)
    else if c == '/' then Some(63)
    else None
  }

  lemma DigitValueOfDigit(v: int)
    requires 0 <= v < 64
    ensures DigitValue(Digit(v)) == Some(v)
  {
  }

  /** The four digits of a full group of three bytes. */
  function Quad(b0: byte, b1: byte, b2: byte): (q: string)
    ensures |q| == 4
  {
    var x0, x1, x2 := b0 as int, b1 as int, b2 as int;
    [Digit(x0 / 4), Digit((x0 % 4) * 16 + x1 / 16), Digit((x1 % 16) * 4 + x2 / 64), Digit(x2 % 64)]
  }

  /** The last group when it holds two bytes: three digits and one `=`. */
  function Pair(b0: byte, b1: byte): (q: string)
    ensures |q| == 4
  {
    var x0, x1 := b0 as int, b1 as int;
    [Digit(x0 / 4), Digit((x0 % 4) * 16 + x1 / 16), Digit((x1 % 16) * 4), '=']
  }

  /** The last group when it holds one byte: two digits and `==`. */
  function Single(b0: byte): (q: string)
    ensures |q| == 4
  {
    var x0 := b0 as int;
    [Digit(x0 / 4), Digit((x0 % 4) * 16), '=', '=']
  }

  /** Bytes to Base64 text, three bytes at a time from the front; a final
      group of one or two bytes is zero-filled and padded with `==` or `=`. */
  function Encode(bs: seq<byte>): (s: string)
    ensures |s| == 4 * ((|bs| + 2) / 3)
    decreases |bs|
  {
    if |bs| == 0 then []
    else if |bs| == 1 then Single(bs[0])
    else if |bs| == 2 then Pair(bs[0], bs[1])
    else Quad(bs[0], bs[1], bs[2]) + Encode(bs[3..])
  }

  /** The bytes that four six-bit values carry. */
  function Join(v0: int, v1: int, v2: int, v3: int): seq<byte>
    requires 0 <= v0 < 64 && 0 <= v1 < 64 && 0 <= v2 < 64 && 0 <= v3 < 64
  {
    [(v0 * 4 + v1 / 16) as byte, ((v1 % 16) * 16 + v2 / 4) as byte, ((v2 % 4) * 64 + v3) as byte]
  }

  /** The bytes of a group of four digits, with the padding rules of section
      3.5 of RFC 4648 for the last group: the bits the padding discards must be
      zero. `None` for anything else. */
  function DecodeGroup(q: string, last: bool): (r: Option<seq<byte>>)
    requires |q| == 4
    ensures r.Some? ==> 1 <= |r.value| <= 3
    ensures r.Some? && !last ==> |r.value| == 3
  {
    var d0, d1, d2, d3 := DigitValue(q[0]), DigitValue(q[1]), DigitValue(q[2]), DigitValue(q[3]);
    if d0.None? || d1.None? then None
    else if last && q[2] == '=' && q[3] == '=' then
      if d1.value % 16 == 0 then Some(Join(d0.value, d1.value, 0, 0)[..1]) else None
    else if d2.None? then None
    else if last && q[3] == '=' then
      if d2.value % 4 == 0 then Some(Join(d0.value, d1.value, d2.value, 0)[..2]) else None
    else if d3.None? then None
    else Some(Join(d0.value, d1.value, d2.value, d3.value))
  }

  /** Base64 text to bytes: groups of four digits, padding only in the last
      group. `None` for text that no byte sequence encodes to. */
  function Decode(s: string): Option<seq<byte>>
    decreases |s|
  {
    if s == [] then Some([])
    else if |s| < 4 then None
    else
      match DecodeGroup(s[..4], |s| == 4)
      case None => None
      case Some(group) =>
        match Decode(s[4..])
        case None => None
        case Some(rest) => Some(group + rest)
  }

  /** Joining the digits of three bytes gives the bytes back. */
  lemma JoinQuad(b0: byte, b1: byte, b2: byte)
    ensures var x0, x1, x2 := b0 as int, b1 as int, b2 as int;
            Join(x0 / 4, (x0 % 4) * 16 + x1 / 16, (x1 % 16) * 4 + x2 / 64, x2 % 64) == [b0, b1, b2]
  {
  }

  lemma JoinPair(b0: byte, b1: byte)
    ensures var x0, x1 := b0 as int, b1 as int;
            ((x0 % 4) * 16 + x1 / 16) % 16 == x1 / 16 && ((x1 % 16) * 4) % 4 == 0 &&
            Join(x0 / 4, (x0 % 4) * 16 + x1 / 16, (x1 % 16) * 4, 0)[..2] == [b0, b1]
  {
  }

  lemma JoinSingle(b0: byte)
    ensures var x0 := b0 as int;
            ((x0 % 4) * 16) % 16 == 0 && Join(x0 / 4, (x0 % 4) * 16, 0, 0)[..1] == [b0]
  {
  }

  /** The values of the digits of a group. */
  lemma DigitsOf(q: string, v0: int, v1: int, v2: int, v3: int)
    requires 0 <= v0 < 64 && 0 <= v1 < 64 && 0 <= v2 < 64 && 0 <= v3 < 64
    requires q == [Digit(v0), Digit(v1), Digit(v2), Digit(v3)]
    ensures DigitValue(q[0]) == Some(v0) && DigitValue(q[1]) == Some(v1)
    ensures DigitValue(q[2]) == Some(v2) && DigitValue(q[3]) == Some(v3)
  {
    DigitValueOfDigit(v0);
    DigitValueOfDigit(v1);
    DigitValueOfDigit(v2);
    DigitValueOfDigit(v3);
  }

  /** Each kind of group decodes to the bytes it encodes. */
  lemma DecodeQuad(b0: byte, b1: byte, b2: byte, last: bool)
    ensures DecodeGroup(Quad(b0, b1, b2), last) == Some([b0, b1, b2])
  {
    var x0, x1, x2 := b0 as int, b1 as int, b2 as int;
    DigitsOf(Quad(b0, b1, b2), x0 / 4, (x0 % 4) * 16 + x1 / 16, (x1 % 16) * 4 + x2 / 64, x2 % 64);
    JoinQuad(b0, b1, b2);
  }

  lemma DecodePair(b0: byte, b1: byte)
    ensures DecodeGroup(Pair(b0, b1), true) == Some([b0, b1])
  {
    var x0, x1 := b0 as int, b1 as int;
    DigitValueOfDigit(x0 / 4);
    DigitValueOfDigit((x0 % 4) * 16 + x1 / 16);
    DigitValueOfDigit((x1 % 16) * 4);
    JoinPair(b0, b1);
  }

  lemma DecodeSingle(b0: byte)
    ensures DecodeGroup(Single(b0), true) == Some([b0])
  {
    var x0 := b0 as int;
    DigitValueOfDigit(x0 / 4);
    DigitValueOfDigit((x0 % 4) * 16);
    JoinSingle(b0);
  }

  /** A group in front of text decodes to its bytes in front of the text's. */
  lemma DecodeCons(q: string, t: string, g: seq<byte>, r: seq<byte>)
    requires |q| == 4 && DecodeGroup(q, t == []) == Some(g) && Decode(t) == Some(r)
    ensures Decode(q + t) == Some(g + r)
  {
    var s := q + t;
    assert s[..4] == q && s[4..] == t;
  }

  /** Decoding inverts encoding. */
  lemma {:induction false} DecodeEncode(bs: seq<byte>)
    ensures Decode(Encode(bs)) == Some(bs)
    decreases |bs|
  {
    if |bs| == 1 {
      DecodeSingle(bs[0]);
      DecodeCons(Single(bs[0]), [], [bs[0]], []);
      assert Single(bs[0]) + [] == Encode(bs);
      assert [bs[0]] + [] == bs;
    } else if |bs| == 2 {
      DecodePair(bs[0], bs[1]);
      DecodeCons(Pair(bs[0], bs[1]), [], [bs[0], bs[1]], []);
      assert Pair(bs[0], bs[1]) + [] == Encode(bs);
      assert [bs[0], bs[1]] + [] == bs;
    } else if |bs| >= 3 {
      var t := Encode(bs[3..]);
      DecodeQuad(bs[0], bs[1], bs[2], t == []);
      DecodeEncode(bs[3..]);
      DecodeCons(Quad(bs[0], bs[1], bs[2]), t, [bs[0], bs[1], bs[2]], bs[3..]);
      Seqs.SplitThree(bs);
    }
  }

  /** Splitting the bytes that four values carry gives the values back. */
  lemma SplitJoin(v0: int, v1: int, v2: int, v3: int)
    requires 0 <= v0 < 64 && 0 <= v1 < 64 && 0 <= v2 < 64 && 0 <= v3 < 64
    ensures var g := Join(v0, v1, v2, v3);
            Quad(g[0], g[1], g[2]) == [Digit(v0), Digit(v1), Digit(v2), Digit(v3)]
  {
    var g := Join(v0, v1, v2, v3);
    var x0, x1, x2 := g[0] as int, g[1] as int, g[2] as int;
    assert x0 / 4 == v0 && (x0 % 4) * 16 + x1 / 16 == v1;
    assert (x1 % 16) * 4 + x2 / 64 == v2 && x2 % 64 == v3;
  }

  lemma SplitJoinPair(v0: int, v1: int, v2: int)
    requires 0 <= v0 < 64 && 0 <= v1 < 64 && 0 <= v2 < 64 && v2 % 4 == 0
    ensures var g := Join(v0, v1, v2, 0);
            Pair(g[0], g[1]) == [Digit(v0), Digit(v1), Digit(v2), '=']
  {
    var g := Join(v0, v1, v2, 0);
    var x0, x1 := g[0] as int, g[1] as int;
    assert x0 / 4 == v0 && (x0 % 4) * 16 + x1 / 16 == v1;
    assert (x1 % 16) * 4 == v2;
  }

  lemma SplitJoinSingle(v0: int, v1: int)
    requires 0 <= v0 < 64 && 0 <= v1 < 64 && v1 % 16 == 0
    ensures var g := Join(v0, v1, 0, 0);
            Single(g[0]) == [Digit(v0), Digit(v1), '=', '=']
  {
    var g := Join(v0, v1, 0, 0);
    var x0 := g[0] as int;
    assert x0 / 4 == v0 && (x0 % 4) * 16 == v1;
  }

  /** A group that decodes is the encoding of what it decodes to. */
  lemma EncodeGroup(q: string, last: bool)
    requires |q| == 4 && DecodeGroup(q, last).Some?
    ensures var g := DecodeGroup(q, last).value;
            (|g| == 3 ==> Quad(g[0], g[1], g[2]) == q) &&
            (|g| == 2 ==> Pair(g[0], g[1]) == q) &&
            (|g| == 1 ==> Single(g[0]) == q)
  {
    var d0, d1, d2, d3 := DigitValue(q[0]), DigitValue(q[1]), DigitValue(q[2]), DigitValue(q[3]);
    if last && q[2] == '=' && q[3] == '=' {
      SplitJoinSingle(d0.value, d1.value);
      assert q == [q[0], q[1], q[2], q[3]];
    } else if last && q[3] == '=' {
      SplitJoinPair(d0.value, d1.value, d2.value);
      assert q == [q[0], q[1], q[2], q[3]];
    } else {
      SplitJoin(d0.value, d1.value, d2.value, d3.value);
      assert q == [q[0], q[1], q[2], q[3]];
    }
  }

  /** The decoder accepts only canonical text: whatever decodes is the
      encoding of its result. */
  lemma {:induction false} EncodeDecode(s: string)
    requires Decode(s).Some?
    ensures Encode(Decode(s).value) == s
    decreases |s|
  {
    if s != [] {
      var q := s[..4];
      var g := DecodeGroup(q, |s| == 4).value;
      var rest := Decode(s[4..]).value;
      EncodeGroup(q, |s| == 4);
      EncodeDecode(s[4..]);
      assert Decode(s).value == g + rest;
      if |s| == 4 {
        assert rest == [];
        assert g + rest == g;
        assert s == q;
      } else {
        assert |g| == 3;
        assert (g + rest)[3..] == rest;
        assert s == q + s[4..];
      }
    }
  }
}
