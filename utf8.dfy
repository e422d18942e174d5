/** The UTF-8 encoding that `Buffer.from(string)` applies before Base64
    encoding a canonical location name (geo-targets.js), and its inverse.
    A Dafny `char` is a Unicode scalar value, so every string has exactly one
    UTF-8 form. */
module Utf8 {
  import opened Common

  newtype byte = x: int | 0 <= x < 256

  /** A code point that is neither a surrogate nor beyond U+10FFFF. */
  predicate IsScalar(cp: int) {
    (0 <= cp < 0xD800) || (0xE000 <= cp < 0x11_0000)
  }

  predicate IsContinuation(b: byte) {
    0x80 <= b < 0xC0
  }

  /** The one-to-four byte form of a single scalar value (section 3 of RFC 3629). */
  function EncodeScalar(c: char): (bs: seq<byte>)
    ensures 1 <= |bs| <= 4
    ensures (c as int < 0x80) <==> |bs| == 1
    ensures |bs| == 1 ==> bs[0] as int == c as int
    ensures forall k :: 1 <= k < |bs| ==> IsContinuation(bs[k])
  {
    var cp := c as int;
    if cp < 0x80 then
      [cp as byte]
    else if cp < 0x800 then
      [(0xC0 + cp / 64) as byte, (0x80 + cp % 64) as byte]
    else if cp < 0x1_0000 then
      [(0xE0 + cp / 4096) as byte, (0x80 + (cp / 64) % 64) as byte, (0x80 + cp % 64) as byte]
    else
      [(0xF0 + cp / 262144) as byte, (0x80 + (cp / 4096) % 64) as byte,
       (0x80 + (cp / 64) % 64) as byte, (0x80 + cp % 64) as byte]
  }

  /** The UTF-8 bytes of a string, character after character. */
  function Encode(s: string): (bs: seq<byte>)
    ensures |s| <= |bs| <= 4 * |s|
    decreases |s|
  {
    if s == [] then [] else EncodeScalar(s[0]) + Encode(s[1..])
  }

  /** Reads one scalar value off the front of `bs`: the character and the
      number of bytes it took, or `None` for a truncated, overlong, surrogate
      or out-of-range sequence. */
  function DecodeScalar(bs: seq<byte>): (r: Option<(char, nat)>)
    requires bs != []
    ensures r.Some? ==> 1 <= r.value.1 <= |bs|
  {
    var b0 := bs[0] as int;
    if b0 < 0x80 then
      Some((b0 as char, 1))
    else if 0xC2 <= b0 < 0xE0 then
      if |bs| < 2 || !IsContinuation(bs[1]) then None
      else
        var cp := (b0 - 0xC0) * 64 + (bs[1] as int - 0x80);
        Some((cp as char, 2))
    else if 0xE0 <= b0 < 0xF0 then
      if |bs| < 3 || !IsContinuation(bs[1]) || !IsContinuation(bs[2]) then None
      else
        var cp := (b0 - 0xE0) * 4096 + (bs[1] as int - 0x80) * 64 + (bs[2] as int - 0x80);
        if cp < 0x800 || !IsScalar(cp) then None else Some((cp as char, 3))
    else if 0xF0 <= b0 < 0xF5 then
      if |bs| < 4 || !IsContinuation(bs[1]) || !IsContinuation(bs[2]) || !IsContinuation(bs[3]) then None
      else
        var cp := (b0 - 0xF0) * 262144 + (bs[1] as int - 0x80) * 4096
                  + (bs[2] as int - 0x80) * 64 + (bs[3] as int - 0x80);
        if cp < 0x1_0000 || 0x11_0000 <= cp then None else Some((cp as char, 4))
    else
      None
  }

  /** The string whose UTF-8 form is `bs`, if `bs` is well-formed UTF-8. */
  function Decode(bs: seq<byte>): Option<string>
    decreases |bs|
  {
    if bs == [] then Some([])
    else
      match DecodeScalar(bs)
      case None => None
      case Some((c, n)) =>
        match Decode(bs[n..])
        case None => None
        case Some(cs) => Some([c] + cs)
  }

  /** A scalar's encoding is read back as that scalar, whatever follows it. */
  lemma DecodeEncodeScalar(c: char, rest: seq<byte>)
    ensures DecodeScalar(EncodeScalar(c) + rest) == Some((c, |EncodeScalar(c)|))
  {
    var cp := c as int;
    var bs := EncodeScalar(c) + rest;
    var q := cp / 64;
    assert cp == q * 64 + cp % 64;
    if 0x800 <= cp < 0x1_0000 {
      assert cp / 4096 == q / 64;
      assert q == (q / 64) * 64 + q % 64;
      assert (bs[0] as int - 0xE0) * 4096 + (bs[1] as int - 0x80) * 64 + (bs[2] as int - 0x80) == cp;
    } else if 0x1_0000 <= cp {
      var q2 := q / 64;
      assert cp / 4096 == q2;
      assert cp / 262144 == q2 / 64;
      assert q == q2 * 64 + q % 64;
      assert q2 == (q2 / 64) * 64 + q2 % 64;
      assert (bs[0] as int - 0xF0) * 262144 + (bs[1] as int - 0x80) * 4096
             + (bs[2] as int - 0x80) * 64 + (bs[3] as int - 0x80) == cp;
    }
  }

  /** Decoding inverts encoding. */
  lemma {:induction false} DecodeEncode(s: string)
    ensures Decode(Encode(s)) == Some(s)
    decreases |s|
  {
    if s != [] {
      var head := EncodeScalar(s[0]);
      var tail := Encode(s[1..]);
      DecodeEncodeScalar(s[0], tail);
      assert (head + tail)[|head|..] == tail;
      DecodeEncode(s[1..]);
      assert [s[0]] + s[1..] == s;
    }
  }

  /** What a scalar's bytes decode to is re-encoded as exactly those bytes,
      by the length of the form. */
  lemma EncodeDecodeScalar(bs: seq<byte>)
    requires bs != [] && DecodeScalar(bs).Some?
    ensures EncodeScalar(DecodeScalar(bs).value.0) == bs[..DecodeScalar(bs).value.1]
  {
    var n := DecodeScalar(bs).value.1;
    if n == 1 {
      assert bs[..1] == [bs[0]];
    } else if n == 2 {
      EncodeDecodeTwo(bs);
    } else if n == 3 {
      EncodeDecodeThree(bs);
    } else {
      EncodeDecodeFour(bs);
    }
  }

  lemma EncodeDecodeTwo(bs: seq<byte>)
    requires bs != [] && DecodeScalar(bs).Some? && DecodeScalar(bs).value.1 == 2
    ensures EncodeScalar(DecodeScalar(bs).value.0) == bs[..2]
  {
    var b0 := bs[0] as int;
    var cp := DecodeScalar(bs).value.0 as int;
    assert cp / 64 == b0 - 0xC0 && cp % 64 == bs[1] as int - 0x80;
    assert bs[..2] == [bs[0], bs[1]];
  }

  lemma EncodeDecodeThree(bs: seq<byte>)
    requires bs != [] && DecodeScalar(bs).Some? && DecodeScalar(bs).value.1 == 3
    ensures EncodeScalar(DecodeScalar(bs).value.0) == bs[..3]
  {
    var b0 := bs[0] as int;
    var cp := DecodeScalar(bs).value.0 as int;
    var q := cp / 64;
    assert q == (b0 - 0xE0) * 64 + (bs[1] as int - 0x80) && cp % 64 == bs[2] as int - 0x80;
    assert q / 64 == b0 - 0xE0 && q % 64 == bs[1] as int - 0x80;
    assert cp / 4096 == q / 64;
    assert bs[..3] == [bs[0], bs[1], bs[2]];
  }

  lemma EncodeDecodeFour(bs: seq<byte>)
    requires bs != [] && DecodeScalar(bs).Some? && DecodeScalar(bs).value.1 == 4
    ensures EncodeScalar(DecodeScalar(bs).value.0) == bs[..4]
  {
    var b0 := bs[0] as int;
    var cp := DecodeScalar(bs).value.0 as int;
    var q := cp / 64;
    var q2 := q / 64;
    assert q == ((b0 - 0xF0) * 64 + (bs[1] as int - 0x80)) * 64 + (bs[2] as int - 0x80);
    assert q % 64 == bs[2] as int - 0x80 && cp % 64 == bs[3] as int - 0x80;
    assert q2 == (b0 - 0xF0) * 64 + (bs[1] as int - 0x80);
    assert q2 / 64 == b0 - 0xF0 && q2 % 64 == bs[1] as int - 0x80;
    assert cp / 4096 == q2 && cp / 262144 == q2 / 64;
    assert bs[..4] == [bs[0], bs[1], bs[2], bs[3]];
  }

  /** The decoder accepts only well-formed UTF-8: whatever decodes is the
      encoding of its result. */
  lemma {:induction false} EncodeDecode(bs: seq<byte>)
    requires Decode(bs).Some?
    ensures Encode(Decode(bs).value) == bs
    decreases |bs|
  {
    if bs != [] {
      var (c, n) := DecodeScalar(bs).value;
      var cs := Decode(bs[n..]).value;
      EncodeDecodeScalar(bs);
      EncodeDecode(bs[n..]);
      assert Decode(bs).value == [c] + cs;
      assert ([c] + cs)[1..] == cs;
      assert bs[..n] + bs[n..] == bs;
    }
  }

  /** A string of ASCII characters is encoded one byte per character, each
      byte the character's code. */
  lemma {:induction false} EncodeAscii(s: string)
    requires forall k :: 0 <= k < |s| ==> s[k] as int < 0x80
    ensures |Encode(s)| == |s|
    ensures forall k :: 0 <= k < |s| ==> Encode(s)[k] as int == s[k] as int
    decreases |s|
  {
    if s != [] {
      EncodeAscii(s[1..]);
      assert Encode(s) == EncodeScalar(s[0]) + Encode(s[1..]);
      forall k | 0 <= k < |s|
        ensures Encode(s)[k] as int == s[k] as int
      {
        if k > 0 {
          assert Encode(s)[k] == Encode(s[1..])[k - 1];
          assert s[k] == s[1..][k - 1];
        }
      }
    }
  }
}
