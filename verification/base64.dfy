/** Base64 as `Buffer.prototype.toString("base64")` writes it: the alphabet of
    section 4 of RFC 4648, each three octets becoming four characters, and a
    final group of one or two octets padded with "=". */
module Base64 {
  import opened Common

  /** The character for a six-bit value in the base64 alphabet. */
  function CharOf(i: nat): (c: char)
    requires i < 64
  {
    if i < 26 then ('A' as int + i) as char
    else if i < 52 then ('a' as int + (i - 26)) as char
    else if i < 62 then ('0' as int + (i - 52)) as char
    else if i == 62 then '+'
    else '/'
  }

  /** The six-bit value a base64 character stands for; None off the alphabet. */
  function ValueOf(c: char): (r: Option<nat>)
    ensures r.Some? ==> r.value < 64 && CharOf(r.value) == c
  {
    if 'A' <= c <= 'Z' then Some(c as int - 'A' as int)
    else if 'a' <= c <= 'z' then Some(c as int - 'a' as int + 26)
    else if '0' <= c <= '9' then Some(c as int - '0' as int + 52)
    else if c == '+' then Some(62)
    else if c == '/' then Some(63)
    else None
  }

  lemma ValueOfCharOf(i: nat)
    requires i < 64
    ensures ValueOf(CharOf(i)) == Some(i)
  {
  }

  /** Four characters for three octets. */
  function EncodeGroup(a: byte, b: byte, c: byte): (r: string)
    ensures |r| == 4
  {
    [CharOf(a / 4), CharOf(a % 4 * 16 + b / 16), CharOf(b % 16 * 4 + c / 64), CharOf(c % 64)]
  }

  /** The base64 text of an octet sequence. */
  function Encode(b: seq<byte>): (s: string)
    ensures |s| == 4 * ((|b| + 2) / 3)
  {
    if |b| == 0 then ""
    else if |b| == 1 then [CharOf(b[0] / 4), CharOf(b[0] % 4 * 16), '=', '=']
    else if |b| == 2 then [CharOf(b[0] / 4), CharOf(b[0] % 4 * 16 + b[1] / 16), CharOf(b[1] % 16 * 4), '=']
    else EncodeGroup(b[0], b[1], b[2]) + Encode(b[3..])
  }

  /** Three octets from four alphabet characters. */
  function DecodeGroup(w: char, x: char, y: char, z: char): Option<seq<byte>> {
    match (ValueOf(w), ValueOf(x), ValueOf(y), ValueOf(z))
    case (Some(d0), Some(d1), Some(d2), Some(d3)) =>
      Some([d0 * 4 + d1 / 16, d1 % 16 * 16 + d2 / 4, d2 % 4 * 64 + d3])
    case _ => None
  }

  /** The last group, which may carry one or two "=" of padding; the bits the
      padding leaves unused must be zero (the canonical form of section 3.5 of RFC 4648). */
  function DecodeLast(w: char, x: char, y: char, z: char): Option<seq<byte>> {
    if y == '=' && z == '=' then
      match (ValueOf(w), ValueOf(x))
      case (Some(d0), Some(d1)) =>
        if d1 % 16 == 0 then Some([d0 * 4 + d1 / 16]) else None
      case _ => None
    else if z == '=' then
      match (ValueOf(w), ValueOf(x), ValueOf(y))
      case (Some(d0), Some(d1), Some(d2)) =>
        if d2 % 4 == 0 then Some([d0 * 4 + d1 / 16, d1 % 16 * 16 + d2 / 4]) else None
      case _ => None
    else DecodeGroup(w, x, y, z)
  }

  /** The octets a canonical base64 text stands for, or None. */
  function Decode(s: string): Option<seq<byte>>
    decreases |s|
  {
    if |s| == 0 then Some([])
    else if |s| < 4 then None
    else if |s| == 4 then DecodeLast(s[0], s[1], s[2], s[3])
    else match DecodeGroup(s[0], s[1], s[2], s[3])
      case None => None
      case Some(g) =>
        match Decode(s[4..])
        case None => None
        case Some(rest) => Some(g + rest)
  }

  /** The bit arithmetic behind a group: the four six-bit values that
      encoding cuts from three octets put the octets back together. */
  lemma RegroupBits(a: byte, b: byte, c: byte)
    ensures a / 4 * 4 + (a % 4 * 16 + b / 16) / 16 == a
    ensures (a % 4 * 16 + b / 16) % 16 * 16 + (b % 16 * 4 + c / 64) / 4 == b
    ensures (b % 16 * 4 + c / 64) % 4 * 64 + c % 64 == c
    ensures (a % 4 * 16) % 16 == 0 && (b % 16 * 4) % 4 == 0
  {
    var x, y := a % 4, b / 16;
    assert (x * 16 + y) / 16 == x;
    assert (x * 16 + y) % 16 == y;
  }

  lemma DecodeGroupEncodeGroup(a: byte, b: byte, c: byte)
    ensures var g := EncodeGroup(a, b, c); DecodeGroup(g[0], g[1], g[2], g[3]) == Some([a, b, c])
  {
    var i0, i1, i2, i3 := a / 4, a % 4 * 16 + b / 16, b % 16 * 4 + c / 64, c % 64;
    ValueOfCharOf(i0);
    ValueOfCharOf(i1);
    ValueOfCharOf(i2);
    ValueOfCharOf(i3);
    RegroupBits(a, b, c);
    assert DecodeGroup(CharOf(i0), CharOf(i1), CharOf(i2), CharOf(i3))
        == Some([i0 * 4 + i1 / 16, i1 % 16 * 16 + i2 / 4, i2 % 4 * 64 + i3]);
  }

  /** A final group of one octet: two characters and "==". */
  lemma DecodeLastOne(a: byte)
    ensures DecodeLast(CharOf(a / 4), CharOf(a % 4 * 16), '=', '=') == Some([a])
  {
    var i0, i1 := a / 4, a % 4 * 16;
    ValueOfCharOf(i0);
    ValueOfCharOf(i1);
    assert i1 % 16 == 0 && i0 * 4 + i1 / 16 == a by {
      RegroupBits(a, 0, 0);
    }
  }

  /** A final group of two octets: three characters and "=". */
  lemma DecodeLastTwo(a: byte, c: byte)
    ensures DecodeLast(CharOf(a / 4), CharOf(a % 4 * 16 + c / 16), CharOf(c % 16 * 4), '=') == Some([a, c])
  {
    var i0, i1, i2 := a / 4, a % 4 * 16 + c / 16, c % 16 * 4;
    ValueOfCharOf(i0);
    ValueOfCharOf(i1);
    ValueOfCharOf(i2);
    assert i2 % 4 == 0 && i0 * 4 + i1 / 16 == a && i1 % 16 * 16 + i2 / 4 == c by {
      RegroupBits(a, c, 0);
    }
  }

  lemma DecodeEncodeOne(b: seq<byte>)
    requires |b| == 1
    ensures Decode(Encode(b)) == Some(b)
  {
    var a := b[0];
    var e := [CharOf(a / 4), CharOf(a % 4 * 16), '=', '='];
    assert Encode(b) == e;
    assert Decode(e) == DecodeLast(e[0], e[1], e[2], e[3]);
    DecodeLastOne(a);
    assert [a] == b;
  }

  lemma DecodeEncodeTwo(b: seq<byte>)
    requires |b| == 2
    ensures Decode(Encode(b)) == Some(b)
  {
    var a, c := b[0], b[1];
    var e := [CharOf(a / 4), CharOf(a % 4 * 16 + c / 16), CharOf(c % 16 * 4), '='];
    assert Encode(b) == e;
    assert Decode(e) == DecodeLast(e[0], e[1], e[2], e[3]);
    DecodeLastTwo(a, c);
    assert [a, c] == b;
  }

  lemma DecodeEncodeThree(b: seq<byte>)
    requires |b| == 3
    ensures Decode(Encode(b)) == Some(b)
  {
    var g := EncodeGroup(b[0], b[1], b[2]);
    assert Encode(b) == g + Encode(b[3..]) == g;
    DecodeGroupEncodeGroup(b[0], b[1], b[2]);
    assert ValueOf(g[2]).Some? && ValueOf(g[3]).Some?;
    assert DecodeLast(g[0], g[1], g[2], g[3]) == DecodeGroup(g[0], g[1], g[2], g[3]);
    assert [b[0], b[1], b[2]] == b;
  }

  lemma EncodeCons(a: byte, b: byte, c: byte, t: seq<byte>)
    requires |t| > 0
    ensures Encode([a, b, c] + t) == EncodeGroup(a, b, c) + Encode(t)
  {
    var u := [a, b, c] + t;
    assert u[0] == a && u[1] == b && u[2] == c && u[3..] == t;
  }

  lemma DecodeCons(g: string, rest: string)
    requires |g| == 4 && |rest| > 0
    requires DecodeGroup(g[0], g[1], g[2], g[3]).Some?
    requires Decode(rest).Some?
    ensures Decode(g + rest) == Some(DecodeGroup(g[0], g[1], g[2], g[3]).value + Decode(rest).value)
  {
    var s := g + rest;
    assert s[0] == g[0] && s[1] == g[1] && s[2] == g[2] && s[3] == g[3];
    assert s[4..] == rest;
  }

  lemma DecodeGroupThen(a: byte, b: byte, c: byte, e: string, t: seq<byte>)
    requires |e| > 0 && Decode(e) == Some(t)
    ensures Decode(EncodeGroup(a, b, c) + e) == Some([a, b, c] + t)
  {
    var g := EncodeGroup(a, b, c);
    DecodeGroupEncodeGroup(a, b, c);
    DecodeCons(g, e);
  }

  /** Decoding undoes encoding (RFC 4648 section 4): every octet sequence
      survives the trip through base64 text. */
  lemma {:induction false} DecodeEncode(b: seq<byte>)
    ensures Decode(Encode(b)) == Some(b)
  {
    if |b| == 1 {
      DecodeEncodeOne(b);
    } else if |b| == 2 {
      DecodeEncodeTwo(b);
    } else if |b| == 3 {
      DecodeEncodeThree(b);
    } else if |b| > 3 {
      var t := b[3..];
      assert [b[0], b[1], b[2]] + t == b;
      DecodeEncode(t);
      EncodeCons(b[0], b[1], b[2], t);
      DecodeGroupThen(b[0], b[1], b[2], Encode(t), t);
    }
  }

  /** Every character of the encoding is in the alphabet, or is padding at
      one of the last two positions. */
  lemma {:induction false} EncodeAlphabet(b: seq<byte>)
    ensures forall k :: 0 <= k < |Encode(b)| ==>
      ValueOf(Encode(b)[k]).Some? || (Encode(b)[k] == '=' && k >= |Encode(b)| - 2)
  {
    if |b| >= 3 {
      EncodeAlphabet(b[3..]);
      var g := EncodeGroup(b[0], b[1], b[2]);
      ValueOfCharOf(b[0] / 4);
      ValueOfCharOf(b[0] % 4 * 16 + b[1] / 16);
      ValueOfCharOf(b[1] % 16 * 4 + b[2] / 64);
      ValueOfCharOf(b[2] % 64);
      assert forall k :: 0 <= k < 4 ==> ValueOf(g[k]).Some?;
    } else if |b| == 2 {
      ValueOfCharOf(b[0] / 4);
      ValueOfCharOf(b[0] % 4 * 16 + b[1] / 16);
      ValueOfCharOf(b[1] % 16 * 4);
    } else if |b| == 1 {
      ValueOfCharOf(b[0] / 4);
      ValueOfCharOf(b[0] % 4 * 16);
    }
  }
}
