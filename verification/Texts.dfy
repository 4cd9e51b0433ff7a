/** UTF-8 with `surrogatepass`: the octets of a str, and which octets are those of one. */
module Texts {
  import opened Octets

  /** A code point, surrogates included. */
  type point = x: int | 0 <= x < 0x11_0000 witness 0

  function Utf8(p: point): (s: seq<byte>)
    ensures s != []
  {
    if p < 0x80 then [p]
    else if p < 0x800 then [0xC0 + p / 0x40, 0x80 + p % 0x40]
    else if p < 0x1_0000 then [0xE0 + p / 0x1000, 0x80 + p / 0x40 % 0x40, 0x80 + p % 0x40]
    else [0xF0 + p / 0x4_0000, 0x80 + p / 0x1000 % 0x40, 0x80 + p / 0x40 % 0x40, 0x80 + p % 0x40]
  }

  function Encode(points: seq<point>): seq<byte> {
    if points == [] then [] else Utf8(points[0]) + Encode(points[1..])
  }

  /** The first code point of a text, and how many octets it takes. */
  function First(s: seq<byte>): (r: (point, nat))
    requires s != [] && IsText(s)
    ensures 1 <= r.1 <= |s| && IsText(s[r.1..])
  {
    var a: int := s[0];
    if a < 0x80 then (a, 1)
    else if a < 0xE0 then (0x40 * (a - 0xC0) + Six(s[1]), 2)
    else if a < 0xF0 then (0x1000 * (a - 0xE0) + 0x40 * Six(s[1]) + Six(s[2]), 3)
    else (0x4_0000 * (a - 0xF0) + 0x1000 * Six(s[1]) + 0x40 * Six(s[2]) + Six(s[3]), 4)
  }

  /** The six bits that a continuation octet carries. */
  function Six(b: byte): (n: nat)
    requires Continuation(b)
    ensures n < 0x40
  {
    b - 0x80
  }

  function Decode(s: text): seq<point> {
    if s == [] then [] else var (p, n) := First(s); [p] + Decode(s[n..])
  }

  lemma Quotient64(p: nat, d: nat)
    requires d == 0x40 || d == 0x1000
    ensures p / (0x40 * d) == p / d / 0x40
  {
  }

  lemma Digits(p: nat)
    ensures p == 0x40 * (p / 0x40) + p % 0x40
    ensures p == 0x1000 * (p / 0x1000) + 0x40 * (p / 0x40 % 0x40) + p % 0x40
    ensures p == 0x4_0000 * (p / 0x4_0000) + 0x1000 * (p / 0x1000 % 0x40) + 0x40 * (p / 0x40 % 0x40) + p % 0x40
  {
    Quotient64(p, 0x40);
    Quotient64(p, 0x1000);
    var a, b, c := p / 0x40, p / 0x1000, p / 0x4_0000;
    assert p == 0x40 * a + p % 0x40;
    assert a == 0x40 * b + a % 0x40;
    assert b == 0x40 * c + b % 0x40;
  }

  lemma First1(a: byte, rest: seq<byte>)
    requires a < 0x80 && IsText(rest)
    ensures IsText([a] + rest) && First([a] + rest) == (a as int, 1)
  {
    assert ([a] + rest)[1..] == rest;
  }

  lemma First2(a: byte, b: byte, rest: seq<byte>)
    requires 0xC2 <= a < 0xE0 && Continuation(b) && IsText(rest)
    ensures IsText([a, b] + rest) && First([a, b] + rest) == (0x40 * (a - 0xC0) + Six(b), 2)
  {
    assert ([a, b] + rest)[2..] == rest;
  }

  lemma First3(a: byte, b: byte, c: byte, rest: seq<byte>)
    requires 0xE0 <= a < 0xF0 && Continuation(b) && Continuation(c) && (a == 0xE0 ==> b >= 0xA0) && IsText(rest)
    ensures IsText([a, b, c] + rest)
    ensures First([a, b, c] + rest) == (0x1000 * (a - 0xE0) + 0x40 * Six(b) + Six(c), 3)
  {
    assert ([a, b, c] + rest)[3..] == rest;
  }

  lemma First4(a: byte, b: byte, c: byte, d: byte, rest: seq<byte>)
    requires 0xF0 <= a < 0xF5 && Continuation(b) && Continuation(c) && Continuation(d) && IsText(rest)
    requires (a == 0xF0 ==> b >= 0x90) && (a == 0xF4 ==> b < 0x90)
    ensures IsText([a, b, c, d] + rest)
    ensures First([a, b, c, d] + rest) == (0x4_0000 * (a - 0xF0) + 0x1000 * Six(b) + 0x40 * Six(c) + Six(d), 4)
  {
    assert ([a, b, c, d] + rest)[4..] == rest;
  }

  lemma Utf8First(p: point, rest: seq<byte>)
    requires IsText(rest)
    ensures IsText(Utf8(p) + rest) && First(Utf8(p) + rest) == (p, |Utf8(p)|)
  {
    hide IsText, First;
    Digits(p);
    if p < 0x80 {
      First1(p, rest);
    } else if p < 0x800 {
      First2(0xC0 + p / 0x40, 0x80 + p % 0x40, rest);
    } else if p < 0x1_0000 {
      First3(0xE0 + p / 0x1000, 0x80 + p / 0x40 % 0x40, 0x80 + p % 0x40, rest);
    } else {
      First4(0xF0 + p / 0x4_0000, 0x80 + p / 0x1000 % 0x40, 0x80 + p / 0x40 % 0x40, 0x80 + p % 0x40, rest);
    }
  }

  lemma Compose(a: nat, b: nat)
    requires b < 0x40
    ensures (0x40 * a + b) / 0x40 == a && (0x40 * a + b) % 0x40 == b
  {
  }

  /** Four digits to the base of 64, taken apart again. */
  lemma Parts(a: nat, b: nat, c: nat, d: nat)
    requires b < 0x40 && c < 0x40 && d < 0x40
    ensures var p := 0x4_0000 * a + 0x1000 * b + 0x40 * c + d;
      && p / 0x4_0000 == a && p / 0x1000 == 0x40 * a + b && p / 0x40 == 0x1000 * a + 0x40 * b + c
      && p / 0x1000 % 0x40 == b && p / 0x40 % 0x40 == c && p % 0x40 == d
  {
    Compose(0x1000 * a + 0x40 * b + c, d);
    Compose(0x40 * a + b, c);
    Compose(a, b);
    Quotient64(0x4_0000 * a + 0x1000 * b + 0x40 * c + d, 0x40);
    Quotient64(0x4_0000 * a + 0x1000 * b + 0x40 * c + d, 0x1000);
  }

  lemma Back2(a: nat, b: nat)
    requires 2 <= a < 0x20 && b < 0x40
    ensures var p := 0x40 * a + b; p < 0x11_0000 && Utf8(p) == [0xC0 + a, 0x80 + b]
  {
    Parts(0, 0, a, b);
  }

  lemma Back3(a: nat, b: nat, c: nat)
    requires a < 0x10 && b < 0x40 && c < 0x40 && (a == 0 ==> b >= 0x20)
    ensures var p := 0x1000 * a + 0x40 * b + c; p < 0x11_0000 && Utf8(p) == [0xE0 + a, 0x80 + b, 0x80 + c]
  {
    Parts(0, a, b, c);
  }

  lemma Back4(a: nat, b: nat, c: nat, d: nat)
    requires a < 5 && b < 0x40 && c < 0x40 && d < 0x40 && (a == 0 ==> b >= 0x10) && (a == 4 ==> b < 0x10)
    ensures var p := 0x4_0000 * a + 0x1000 * b + 0x40 * c + d;
      p < 0x11_0000 && Utf8(p) == [0xF0 + a, 0x80 + b, 0x80 + c, 0x80 + d]
  {
    Parts(a, b, c, d);
  }

  lemma FirstUtf8(s: text)
    requires s != []
    ensures var (p, n) := First(s); Utf8(p) == s[..n]
  {
    hide Utf8;
    var (p, n) := First(s);
    if n == 1 {
      assert Utf8(p) == [s[0]] == s[..1] by { Back1(s[0]); }
    } else if n == 2 {
      Back2(s[0] - 0xC0, Six(s[1]));
      assert s[..2] == [s[0], s[1]];
    } else if n == 3 {
      Back3(s[0] - 0xE0, Six(s[1]), Six(s[2]));
      assert s[..3] == [s[0], s[1], s[2]];
    } else {
      Back4(s[0] - 0xF0, Six(s[1]), Six(s[2]), Six(s[3]));
      assert s[..4] == [s[0], s[1], s[2], s[3]];
    }
  }

  lemma Back1(a: nat)
    requires a < 0x80
    ensures Utf8(a) == [a]
  {
  }

  /** Every str is encoded as text and decoded again... */
  lemma {:induction false} EncodeDecode(points: seq<point>)
    ensures IsText(Encode(points)) && Decode(Encode(points)) == points
  {
    hide Utf8, First, IsText;
    if points == [] {
      assert IsText([]) by { EmptyText(); }
    } else {
      EncodeDecode(points[1..]);
      Utf8First(points[0], Encode(points[1..]));
      assert Encode(points)[|Utf8(points[0])|..] == Encode(points[1..]);
    }
  }

  lemma EmptyText()
    ensures IsText([])
  {
  }

  lemma EncodeCons(p: point, rest: seq<point>)
    ensures Encode([p] + rest) == Utf8(p) + Encode(rest)
  {
    hide Utf8;
    assert ([p] + rest)[1..] == rest;
  }

  /** ... and every text is the encoding of the str it is decoded as. */
  lemma {:induction false} DecodeEncode(s: text)
    ensures Encode(Decode(s)) == s
  {
    hide Utf8, First, IsText, Encode;
    if s == [] {
      EncodeNone();
    } else {
      var (p, n) := First(s);
      FirstUtf8(s);
      DecodeEncode(s[n..]);
      EncodeCons(p, Decode(s[n..]));
      assert s[..n] + s[n..] == s;
    }
  }

  lemma EncodeNone()
    ensures Encode([]) == []
  {
  }

  /** The texts are exactly the encodings of strs. */
  lemma TextExactly(s: seq<byte>)
    ensures IsText(s) <==> exists points: seq<point> :: Encode(points) == s
  {
    if IsText(s) {
      DecodeEncode(s);
    }
    if points: seq<point> :| Encode(points) == s {
      EncodeDecode(points);
    }
  }
}
