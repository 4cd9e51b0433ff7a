/** Octets, results, and the fixed-width big-endian words of the wire format. */
module Octets {

  type byte = x: int | 0 <= x < 256 witness 0

  const U16 := 0x1_0000
  const U32 := 0x1_0000_0000
  const U64 := 0x1_0000_0000_0000_0000

  /** The ways in which the codec and the framing layer raise. */
  datatype Error =
    | Truncated      // struct.error, IndexError or TypeError: the octets end too early
    | BadText        // UnicodeDecodeError
    | BadTime        // the seconds lie past the year 9999
    | UnknownTag     // FrameSyntaxError: unknown type tag or format character
    | OutOfRange     // struct.error: the number or length does not fit its field
    | TypeMismatch   // the value has no encoding under this format character
    | Unsupported    // FrameSyntaxError: a value of a type the codec does not handle
    | TooFewFormats  // IndexError: more values than format characters
    | UnknownClass   // KeyError: no property list for this class id
    | ZeroStep       // ValueError: a range with step zero

  datatype Result<+T> = Ok(value: T) | Err(error: Error) {
    predicate IsFailure() {
      Err?
    }

    function PropagateFailure<U>(): Result<U>
      requires Err?
    {
      Err(error)
    }

    function Extract(): T
      requires Ok?
    {
      value
    }
  }

  datatype Option<+T> = None | Some(value: T)

  // ---------------------------------------------------------------- words

  function Pow256(width: nat): nat {
    if width == 0 then 1 else 256 * Pow256(width - 1)
  }

  lemma Pow256Values()
    ensures Pow256(1) == 0x100 && Pow256(2) == U16 && Pow256(4) == U32 && Pow256(8) == U64
  {
    assert Pow256(3) == 256 * Pow256(2);
    assert Pow256(5) == 256 * Pow256(4);
    assert Pow256(6) == 256 * Pow256(5);
    assert Pow256(7) == 256 * Pow256(6);
  }

  /** `n` as `width` octets, most significant first. */
  function BigEndian(n: nat, width: nat): (s: seq<byte>)
    ensures |s| == width
  {
    if width == 0 then [] else BigEndian(n / 256, width - 1) + [n % 256]
  }

  /** The number whose big-endian octets are `s`. */
  function Number(s: seq<byte>): (n: nat)
    ensures n < Pow256(|s|)
  {
    if s == [] then 0 else 256 * Number(s[..|s| - 1]) + s[|s| - 1]
  }

  lemma {:induction false} NumberOfBigEndian(n: nat, width: nat)
    requires n < Pow256(width)
    ensures Number(BigEndian(n, width)) == n
  {
    if width > 0 {
      NumberOfBigEndian(n / 256, width - 1);
      var s := BigEndian(n, width);
      assert s[..width - 1] == BigEndian(n / 256, width - 1);
    }
  }

  lemma PowerStep(x: nat, n: nat)
    requires n > 0
    ensures x * Pow256(n) == 256 * (x * Pow256(n - 1))
  {
  }

  /** The first octet is the most significant. */
  lemma {:induction false} NumberFirst(x: byte, rest: seq<byte>)
    ensures Number([x] + rest) == x * Pow256(|rest|) + Number(rest)
  {
    var s, n := [x] + rest, |rest|;
    if n == 0 {
      assert s[..0] == [];
    } else {
      var before := rest[..n - 1];
      NumberFirst(x, before);
      assert s[..n] == [x] + before && s[n] == rest[n - 1];
      assert Number(s) == 256 * Number([x] + before) + rest[n - 1];
      assert Number(rest) == 256 * Number(before) + rest[n - 1];
      PowerStep(x, n);
    }
  }

  /** The two's-complement reading of a `width`-octet word, and its inverse. */
  function Signed(n: nat, width: nat): int
    requires n < Pow256(width)
  {
    if 2 * n < Pow256(width) then n else n - Pow256(width)
  }

  /** It differs from the unsigned one by the whole range or not at all, and lies around zero. */
  lemma SignedRange(n: nat, width: nat)
    requires n < Pow256(width) && width > 0
    ensures -2 * Signed(n, width) <= Pow256(width) && 2 * Signed(n, width) < Pow256(width)
    ensures Signed(n, width) == n || Signed(n, width) == n - Pow256(width)
  {
  }

  predicate FitsSigned(n: int, width: nat) {
    -2 * n <= Pow256(width) && 2 * n < Pow256(width)
  }

  function Unsigned(n: int, width: nat): (u: nat)
    requires FitsSigned(n, width)
    ensures u < Pow256(width) && Signed(u, width) == n
  {
    if n >= 0 then n else n + Pow256(width)
  }

  // ---------------------------------------------------------------- buffers

  /** `s` stands in `buf` at `offset`, whatever comes before and after it. */
  predicate At(buf: seq<byte>, offset: nat, s: seq<byte>) {
    offset + |s| <= |buf| && buf[offset..offset + |s|] == s
  }

  lemma AtSplit(buf: seq<byte>, offset: nat, a: seq<byte>, b: seq<byte>)
    ensures At(buf, offset, a + b) <==> At(buf, offset, a) && At(buf, offset + |a|, b)
  {
    var n, m := |a|, |b|;
    if At(buf, offset, a + b) {
      assert buf[offset..offset + n] == buf[offset..offset + n + m][..n] == (a + b)[..n];
      assert buf[offset + n..offset + n + m] == buf[offset..offset + n + m][n..] == (a + b)[n..];
    }
    if At(buf, offset, a) && At(buf, offset + n, b) {
      assert buf[offset..offset + n + m] == buf[offset..offset + n] + buf[offset + n..offset + n + m];
      assert buf[offset..offset + |a + b|] == a + b;
    }
  }

  /** Python's `buf[offset:offset + n]`, which stops silently at the end of `buf`. */
  function Slice(buf: seq<byte>, offset: nat, n: nat): (s: seq<byte>)
    ensures |s| <= n
  {
    if offset >= |buf| then []
    else if offset + n <= |buf| then buf[offset..offset + n]
    else buf[offset..]
  }

  lemma SliceContents(buf: seq<byte>, offset: nat, n: nat)
    ensures |Slice(buf, offset, n)| == if offset + n <= |buf| then n else if offset <= |buf| then |buf| - offset else 0
    ensures forall i :: 0 <= i < |Slice(buf, offset, n)| ==> Slice(buf, offset, n)[i] == buf[offset + i]
  {
  }

  /** `unpack_from` of one unsigned big-endian word. */
  function Unpack(buf: seq<byte>, offset: nat, width: nat): (r: Result<nat>)
    ensures r.Ok? <==> offset + width <= |buf|
    ensures r.Ok? ==> r.value < Pow256(width)
    ensures r.Err? ==> r.error == Truncated
  {
    if offset + width <= |buf| then Ok(Number(buf[offset..offset + width])) else Err(Truncated)
  }

  /** `pack` of one unsigned big-endian word. */
  function Pack(n: int, width: nat): (r: Result<seq<byte>>)
    ensures r.Ok? <==> 0 <= n < Pow256(width)
    ensures r.Ok? ==> |r.value| == width && Number(r.value) == n
    ensures r.Err? ==> r.error == OutOfRange
  {
    if 0 <= n < Pow256(width) then
      NumberOfBigEndian(n, width);
      Ok(BigEndian(n, width))
    else Err(OutOfRange)
  }

  // ---------------------------------------------------------------- division

  lemma {:induction false} Times(a: nat, b: nat, d: nat)
    requires a <= b
    ensures a * d <= b * d
    decreases b
  {
    if a < b {
      Times(a, b - 1, d);
      assert b * d == (b - 1) * d + d;
    }
  }

  lemma Division(m: nat, d: nat, q: nat, r: nat)
    requires d > 0 && m == q * d + r && r < d
    ensures m / d == q && m % d == r
  {
    var p := m / d;
    assert m == p * d + m % d && (p + 1) * d == p * d + d && (q + 1) * d == q * d + d;
    if p < q {
      Times(p + 1, q, d);
    } else if q < p {
      Times(q + 1, p, d);
    }
  }

  lemma MulAssoc(a: int, b: int, c: int)
    ensures a * b * c == a * (b * c)
  {
  }

  function Pow10(k: nat): (p: nat)
    ensures p > 0
  {
    if k == 0 then 1 else 10 * Pow10(k - 1)
  }

  // ---------------------------------------------------------------- bits

  /** `x >> k`. */
  function Shift(x: nat, k: nat): nat {
    if k == 0 then x else Shift(x / 2, k - 1)
  }

  /** `x & (1 << k) != 0`. */
  predicate GetBit(x: nat, k: nat) {
    Shift(x, k) % 2 == 1
  }

  /** `x | (1 << k)`. */
  function SetBit(x: nat, k: nat): nat {
    if k == 0 then 2 * (x / 2) + 1 else 2 * SetBit(x / 2, k - 1) + x % 2
  }

  lemma {:induction false} ShiftDivides(x: nat, k: nat)
    ensures Shift(x, k) == x / Pow2(k)
  {
    if k > 0 {
      ShiftDivides(x / 2, k - 1);
      DivTwice(x, Pow2(k - 1));
    }
  }

  lemma DivTwice(x: nat, d: nat)
    requires d > 0
    ensures x / 2 / d == x / (2 * d)
  {
    var q, r := x / 2 / d, x / 2 % d;
    assert x == 2 * (x / 2) + x % 2 && x / 2 == q * d + r;
    Division(x, 2 * d, q, 2 * r + x % 2);
  }

  lemma {:induction false} GetSetBit(x: nat, k: nat, j: nat)
    ensures GetBit(SetBit(x, k), j) <==> j == k || GetBit(x, j)
  {
    if k > 0 && j > 0 {
      GetSetBit(x / 2, k - 1, j - 1);
    }
  }

  lemma {:induction false} ShiftOnce(x: nat, k: nat)
    ensures Shift(x, k + 1) == Shift(x, k) / 2
  {
    if k > 0 {
      ShiftOnce(x / 2, k - 1);
    }
  }

  function Pow2(k: nat): (p: nat)
    ensures p > 0
  {
    if k == 0 then 1 else 2 * Pow2(k - 1)
  }

  lemma Pow2Values()
    ensures Pow2(8) == 0x100 && Pow2(16) == U16 && Pow2(22) == 0x40_0000
  {
    assert Pow2(4) == 16;
    assert Pow2(8) == 2 * Pow2(7) == 4 * Pow2(6) == 8 * Pow2(5);
    assert Pow2(12) == 2 * Pow2(11) == 4 * Pow2(10) == 8 * Pow2(9);
    assert Pow2(16) == 2 * Pow2(15) == 4 * Pow2(14) == 8 * Pow2(13);
    assert Pow2(20) == 2 * Pow2(19) == 4 * Pow2(18) == 8 * Pow2(17);
    assert Pow2(22) == 2 * Pow2(21);
  }

  lemma {:induction false} SetBitBound(x: nat, k: nat, n: nat)
    requires k < n && x < Pow2(n)
    ensures SetBit(x, k) < Pow2(n)
  {
    if k > 0 {
      SetBitBound(x / 2, k - 1, n - 1);
    }
  }

  lemma {:induction false} ShiftBound(x: nat, k: nat)
    ensures Shift(x, k) == 0 <==> x < Pow2(k)
  {
    if k > 0 {
      ShiftBound(x / 2, k - 1);
    }
  }

  // ---------------------------------------------------------------- text

  predicate Continuation(b: byte) {
    0x80 <= b < 0xC0
  }

  /** The octets Python decodes as UTF-8 with `surrogatepass`: well-formed UTF-8, in which the
      three-octet forms of the surrogates are let through. A `str` is identified with its octets. */
  predicate IsText(s: seq<byte>) {
    if s == [] then true
    else if s[0] < 0x80 then IsText(s[1..])
    else if 0xC2 <= s[0] < 0xE0 then
      |s| >= 2 && Continuation(s[1]) && IsText(s[2..])
    else if 0xE0 <= s[0] < 0xF0 then
      |s| >= 3 && Continuation(s[1]) && Continuation(s[2]) && (s[0] == 0xE0 ==> s[1] >= 0xA0) && IsText(s[3..])
    else if 0xF0 <= s[0] < 0xF5 then
      |s| >= 4 && Continuation(s[1]) && Continuation(s[2]) && Continuation(s[3])
      && (s[0] == 0xF0 ==> s[1] >= 0x90) && (s[0] == 0xF4 ==> s[1] < 0x90) && IsText(s[4..])
    else false
  }

  type text = s: seq<byte> | IsText(s) witness []
}
