/**
 * Base 64 encoding as section 4 of RFC 4648 defines it: the standard
 * alphabet, groups of three bytes to four characters, and "=" padding for
 * a final group of one or two bytes. The decoder accepts exactly the
 * canonical encodings (length a multiple of four, padding only at the end,
 * unused bits zero), so encoding and decoding are inverse both ways.
 */
module Base64 {
  import opened Wrappers

  type byte = x: int | 0 <= x < 256

  /** A six-bit value: the index of one alphabet character. */
  type sextet = x: int | 0 <= x < 64

  const Pad: char := '='

  /** The 64 characters of Table 1 of RFC 4648: A-Z, a-z, 0-9, "+" and "/". */
  predicate IsAlphabetChar(c: char) {
    ('A' <= c <= 'Z') || ('a' <= c <= 'z') || ('0' <= c <= '9') || c == '+' || c == '/'
  }

  /** The character that encodes value x: Table 1 of RFC 4648, in index order. */
  function CharOf(x: sextet): (c: char)
    ensures IsAlphabetChar(c)
  {
    if x < 26 then ('A' as int + x) as char
    else if x < 52 then ('a' as int + (x - 26)) as char
    else if x < 62 then ('0' as int + (x - 52)) as char
    else if x == 62 then '+'
    else '/'
  }

  /** The value a character encodes; None for "=" and for every character outside the alphabet. */
  function ValueOf(c: char): (r: Option<sextet>)
    ensures r.Some? <==> IsAlphabetChar(c)
    ensures r.Some? ==> CharOf(r.value) == c
  {
    if 'A' <= c <= 'Z' then Some(c as int - 'A' as int)
    else if 'a' <= c <= 'z' then Some(c as int - 'a' as int + 26)
    else if '0' <= c <= '9' then Some(c as int - '0' as int + 52)
    else if c == '+' then Some(62)
    else if c == '/' then Some(63)
    else None
  }

  lemma ValueOfCharOf(x: sextet)
    ensures ValueOf(CharOf(x)) == Some(x)
  {
  }

  /** Number of "=" characters a payload of n bytes ends with. */
  function PadCount(n: nat): nat {
    if n % 3 == 0 then 0 else 3 - n % 3
  }

  /** Three bytes, most significant bit first, cut into four six-bit values. */
  function Scatter(a: byte, b: byte, c: byte): (sextet, sextet, sextet, sextet)
  {
    (a / 4, a % 4 * 16 + b / 16, b % 16 * 4 + c / 64, c % 64)
  }

  /** Four six-bit values put back together as three bytes. */
  function Gather(x0: sextet, x1: sextet, x2: sextet, x3: sextet): (byte, byte, byte)
  {
    (x0 * 4 + x1 / 16, x1 % 16 * 16 + x2 / 4, x2 % 4 * 64 + x3)
  }

  lemma GatherScatter(a: byte, b: byte, c: byte)
    ensures var x := Scatter(a, b, c); Gather(x.0, x.1, x.2, x.3) == (a, b, c)
  {
    var (x0, x1, x2, x3) := Scatter(a, b, c);
    assert x1 / 16 == a % 4 && x1 % 16 == b / 16;
    assert x2 / 4 == b % 16 && x2 % 4 == c / 64;
  }

  lemma ScatterGather(x0: sextet, x1: sextet, x2: sextet, x3: sextet)
    ensures var r := Gather(x0, x1, x2, x3); Scatter(r.0, r.1, r.2) == (x0, x1, x2, x3)
  {
    var (a, b, c) := Gather(x0, x1, x2, x3);
    assert a / 4 == x0 && a % 4 == x1 / 16;
    assert b / 16 == x1 % 16 && b % 16 == x2 / 4;
    assert c / 64 == x2 % 4 && c % 64 == x3;
  }

  function EncodeTriple(a: byte, b: byte, c: byte): (r: string)
    ensures |r| == 4 && forall i :: 0 <= i < 4 ==> IsAlphabetChar(r[i])
  {
    var (x0, x1, x2, x3) := Scatter(a, b, c);
    [CharOf(x0), CharOf(x1), CharOf(x2), CharOf(x3)]
  }

  /** A final group of one or two bytes: the missing bytes count as zero and their characters become "=". */
  function EncodeTail(tail: seq<byte>): (r: string)
    requires 1 <= |tail| <= 2
    ensures |r| == 4
    ensures forall i :: 0 <= i < 4 - PadCount(|tail|) ==> IsAlphabetChar(r[i])
    ensures forall i :: 4 - PadCount(|tail|) <= i < 4 ==> r[i] == Pad
  {
    if |tail| == 1 then
      var (x0, x1, _, _) := Scatter(tail[0], 0, 0);
      [CharOf(x0), CharOf(x1), Pad, Pad]
    else
      var (x0, x1, x2, _) := Scatter(tail[0], tail[1], 0);
      [CharOf(x0), CharOf(x1), CharOf(x2), Pad]
  }

  /** Python's base64.b64encode: each group of three bytes becomes four characters, a final short group is padded. */
  function Encode(data: seq<byte>): (r: string)
    ensures |r| == 4 * ((|data| + 2) / 3)
    decreases |data|
  {
    if |data| == 0 then ""
    else if |data| <= 2 then EncodeTail(data)
    else
      assert (|data| + 2) / 3 == 1 + (|data| - 3 + 2) / 3;
      EncodeTriple(data[0], data[1], data[2]) + Encode(data[3..])
  }

  /** All characters are from the alphabet except the last pad ones, which are "=". */
  predicate WellPadded(r: string, pad: nat) {
    && pad <= |r|
    && (forall i :: 0 <= i < |r| - pad ==> IsAlphabetChar(r[i]))
    && (forall i :: |r| - pad <= i < |r| ==> r[i] == Pad)
  }

  /** The encoding of n bytes ends in exactly PadCount(n) "=" characters, after alphabet characters only. */
  lemma {:induction false} EncodeCharacters(data: seq<byte>)
    ensures WellPadded(Encode(data), PadCount(|data|))
    decreases |data|
  {
    if |data| == 0 {
    } else if |data| <= 2 {
      assert Encode(data) == EncodeTail(data);
    } else {
      var head, rest := EncodeTriple(data[0], data[1], data[2]), Encode(data[3..]);
      assert Encode(data) == head + rest;
      EncodeCharacters(data[3..]);
      assert PadCount(|data|) == PadCount(|data| - 3);
      WellPaddedAppend(head, rest, PadCount(|data|));
    }
  }

  lemma WellPaddedAppend(head: string, rest: string, p: nat)
    requires forall i :: 0 <= i < |head| ==> IsAlphabetChar(head[i])
    requires WellPadded(rest, p)
    ensures WellPadded(head + rest, p)
  {
    var r := head + rest;
    forall i | 0 <= i < |r| - p ensures IsAlphabetChar(r[i]) {
      if i < |head| {
        assert r[i] == head[i];
      } else {
        assert r[i] == rest[i - |head|];
      }
    }
    forall i | |r| - p <= i < |r| ensures r[i] == Pad {
      assert r[i] == rest[i - |head|];
    }
  }

  function DecodeQuad(c0: char, c1: char, c2: char, c3: char): (r: Option<seq<byte>>)
  {
    var x0 :- ValueOf(c0);
    var x1 :- ValueOf(c1);
    var x2 :- ValueOf(c2);
    var x3 :- ValueOf(c3);
    var (a, b, c) := Gather(x0, x1, x2, x3);
    Some([a, b, c])
  }

  /** The final group, which may carry one or two "=" characters; the bits a padded group leaves unused must be zero. */
  function DecodeFinal(c0: char, c1: char, c2: char, c3: char): (r: Option<seq<byte>>)
  {
    if c2 == Pad && c3 == Pad then
      var x0 :- ValueOf(c0);
      var x1 :- ValueOf(c1);
      var (a, b, _) := Gather(x0, x1, 0, 0);
      if b == 0 then Some([a]) else None
    else if c3 == Pad then
      var x0 :- ValueOf(c0);
      var x1 :- ValueOf(c1);
      var x2 :- ValueOf(c2);
      var (a, b, c) := Gather(x0, x1, x2, 0);
      if c == 0 then Some([a, b]) else None
    else DecodeQuad(c0, c1, c2, c3)
  }

  /** The inverse of Encode; None for every text that is not a canonical encoding. */
  function Decode(s: string): (r: Option<seq<byte>>)
    decreases |s|
  {
    if |s| == 0 then Some([])
    else if |s| < 4 then None
    else if |s| == 4 then DecodeFinal(s[0], s[1], s[2], s[3])
    else
      var head :- DecodeQuad(s[0], s[1], s[2], s[3]);
      var rest :- Decode(s[4..]);
      Some(head + rest)
  }

  lemma DecodeEncodeTriple(a: byte, b: byte, c: byte)
    ensures var e := EncodeTriple(a, b, c); DecodeQuad(e[0], e[1], e[2], e[3]) == Some([a, b, c])
  {
    var x := Scatter(a, b, c);
    GatherScatter(a, b, c);
    ValueOfCharOf(x.0);
    ValueOfCharOf(x.1);
    ValueOfCharOf(x.2);
    ValueOfCharOf(x.3);
  }

  lemma DecodeEncodeOne(a: byte)
    ensures var e := EncodeTail([a]); DecodeFinal(e[0], e[1], e[2], e[3]) == Some([a])
  {
    var x0, x1 := a / 4, a % 4 * 16;
    assert Scatter(a, 0, 0) == (x0, x1, 0, 0);
    assert Gather(x0, x1, 0, 0) == (a, 0, 0) by {
      assert x1 / 16 == a % 4 && x1 % 16 == 0;
    }
    var c0, c1 := CharOf(x0), CharOf(x1);
    assert EncodeTail([a]) == [c0, c1, Pad, Pad];
    ValueOfCharOf(x0);
    ValueOfCharOf(x1);
  }

  lemma DecodeEncodeTwo(a: byte, b: byte)
    ensures var e := EncodeTail([a, b]); DecodeFinal(e[0], e[1], e[2], e[3]) == Some([a, b])
  {
    var x0, x1, x2 := a / 4, a % 4 * 16 + b / 16, b % 16 * 4;
    assert Scatter(a, b, 0) == (x0, x1, x2, 0);
    assert Gather(x0, x1, x2, 0) == (a, b, 0) by {
      assert x1 / 16 == a % 4 && x1 % 16 == b / 16;
      assert x2 / 4 == b % 16 && x2 % 4 == 0;
    }
    var c0, c1, c2 := CharOf(x0), CharOf(x1), CharOf(x2);
    assert EncodeTail([a, b]) == [c0, c1, c2, Pad];
    ValueOfCharOf(x0);
    ValueOfCharOf(x1);
    ValueOfCharOf(x2);
    assert c2 != Pad;
  }

  lemma DecodeEncodeTail(tail: seq<byte>)
    requires 1 <= |tail| <= 2
    ensures var e := EncodeTail(tail); DecodeFinal(e[0], e[1], e[2], e[3]) == Some(tail)
  {
    if |tail| == 1 {
      assert tail == [tail[0]];
      DecodeEncodeOne(tail[0]);
    } else {
      assert tail == [tail[0], tail[1]];
      DecodeEncodeTwo(tail[0], tail[1]);
    }
  }

  lemma ConsThree<T>(s: seq<T>)
    requires |s| >= 3
    ensures s == [s[0], s[1], s[2]] + s[3..]
  {
  }

  lemma ConsFour<T>(s: seq<T>)
    requires |s| >= 4
    ensures s == [s[0], s[1], s[2], s[3]] + s[4..]
  {
  }

  /** A full group followed by a non-empty valid rest decodes group by group. */
  lemma DecodeCons(head: string, rest: string, h: seq<byte>, t: seq<byte>)
    requires |head| == 4 && |rest| > 0
    requires DecodeQuad(head[0], head[1], head[2], head[3]) == Some(h)
    requires Decode(rest) == Some(t)
    ensures Decode(head + rest) == Some(h + t)
  {
    var s := head + rest;
    assert s[..4] == head && s[4..] == rest;
    assert s[0] == head[0] && s[1] == head[1] && s[2] == head[2] && s[3] == head[3];
  }

  /** An unpadded last group decodes as a full group. */
  lemma DecodeLastTriple(a: byte, b: byte, c: byte)
    ensures Decode(EncodeTriple(a, b, c)) == Some([a, b, c])
  {
    var e := EncodeTriple(a, b, c);
    DecodeEncodeTriple(a, b, c);
    assert IsAlphabetChar(e[2]) && IsAlphabetChar(e[3]);
  }

  /** Decoding an encoding gives back the bytes. */
  lemma {:induction false} DecodeEncode(data: seq<byte>)
    ensures Decode(Encode(data)) == Some(data)
    decreases |data|
  {
    if |data| == 0 {
    } else if |data| <= 2 {
      DecodeEncodeTail(data);
    } else {
      var rest := data[3..];
      var a, b, c := data[0], data[1], data[2];
      var head := EncodeTriple(a, b, c);
      assert Encode(data) == head + Encode(rest);
      ConsThree(data);
      if |rest| == 0 {
        assert Encode(data) == head;
        assert data == [a, b, c];
        DecodeLastTriple(a, b, c);
      } else {
        DecodeEncode(rest);
        DecodeEncodeTriple(a, b, c);
        DecodeCons(head, Encode(rest), [a, b, c], rest);
      }
    }
  }

  lemma EncodeDecodeQuad(c0: char, c1: char, c2: char, c3: char)
    requires DecodeQuad(c0, c1, c2, c3).Some?
    ensures var d := DecodeQuad(c0, c1, c2, c3).value; |d| == 3 && EncodeTriple(d[0], d[1], d[2]) == [c0, c1, c2, c3]
  {
    var x0, x1, x2, x3 := ValueOf(c0).value, ValueOf(c1).value, ValueOf(c2).value, ValueOf(c3).value;
    ScatterGather(x0, x1, x2, x3);
  }

  lemma EncodeDecodeFinal(c0: char, c1: char, c2: char, c3: char)
    requires DecodeFinal(c0, c1, c2, c3).Some?
    ensures var d := DecodeFinal(c0, c1, c2, c3).value;
      1 <= |d| <= 3 && Encode(d) == [c0, c1, c2, c3]
  {
    if c2 == Pad && c3 == Pad {
      var x0, x1 := ValueOf(c0).value, ValueOf(c1).value;
      ScatterGather(x0, x1, 0, 0);
    } else if c3 == Pad {
      var x0, x1, x2 := ValueOf(c0).value, ValueOf(c1).value, ValueOf(c2).value;
      ScatterGather(x0, x1, x2, 0);
    } else {
      var d := DecodeQuad(c0, c1, c2, c3).value;
      EncodeDecodeQuad(c0, c1, c2, c3);
      assert d[3..] == [];
    }
  }

  /** Every text the decoder accepts is the encoding of what it decodes to. */
  lemma {:induction false} EncodeDecode(s: string)
    requires Decode(s).Some?
    ensures Encode(Decode(s).value) == s
    decreases |s|
  {
    if |s| == 0 {
    } else if |s| == 4 {
      EncodeDecodeFinal(s[0], s[1], s[2], s[3]);
    } else {
      var head := DecodeQuad(s[0], s[1], s[2], s[3]).value;
      var rest := Decode(s[4..]).value;
      EncodeDecode(s[4..]);
      EncodeDecodeQuad(s[0], s[1], s[2], s[3]);
      var d := head + rest;
      ConsFour(s);
      assert Decode(s).value == d;
      assert |d| > 2;
      assert d[0] == head[0] && d[1] == head[1] && d[2] == head[2];
      assert d[3..] == rest;
      assert Encode(d) == EncodeTriple(d[0], d[1], d[2]) + Encode(d[3..]);
    }
  }

  // The test vectors of section 10 of RFC 4648, which fix the bit order.

  lemma VectorF()
    ensures Encode([102]) == "Zg=="
  {
  }

  lemma VectorFo()
    ensures Encode([102, 111]) == "Zm8="
  {
  }

  lemma VectorFoo()
    ensures Encode([102, 111, 111]) == "Zm9v"
  {
  }

  lemma VectorFoobar()
    ensures Encode([102, 111, 111, 98, 97, 114]) == "Zm9vYmFy"
  {
    var foobar := [102, 111, 111, 98, 97, 114];
    assert foobar[3..] == [98, 97, 114];
    assert Encode(foobar) == EncodeTriple(102, 111, 111) + Encode([98, 97, 114]);
    assert Encode([98, 97, 114]) == "YmFy";
  }

  /** The top of the byte range uses the last two characters of the alphabet. */
  lemma HighBytes()
    ensures Encode([255, 254, 253]) == "//79"
  {
  }
}
