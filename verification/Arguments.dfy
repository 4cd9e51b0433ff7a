/** Method arguments under a format string, in which runs of bits share octets. */
module Arguments {
  import opened Octets
  import opened Floats
  import opened Tables
  import opened TableProofs

  predicate Known(p: char) {
    p == 'b' || p == 'o' || p == 'B' || p == 'l' || p == 'L' || p == 'f'
    || p == 's' || p == 'S' || p == 'x' || p == 'F' || p == 'A' || p == 'T'
  }

  // ---------------------------------------------------------------- encoding

  /** Python's truth value. */
  predicate Truthy(v: Value) {
    match v
    case Text(o) => o != []
    case Bytes(o) => o != []
    case Bool(b) => b
    case Int(n) => n != 0
    case Double(w) => w != 0 && w != 0x8000_0000_0000_0000
    case Dec(c, _) => c != 0
    case Time(_, _) => true
    case Table(es) => es != []
    case Array(vs) => vs != []
    case Void => false
    case Foreign => true
  }

  function WholeNumber(v: Value): Result<int> {
    match v
    case Int(n) => Ok(n)
    case Bool(b) => Ok(if b then 1 else 0)
    case _ => Err(TypeMismatch)
  }

  /** The quotient cut off toward zero. */
  function Chopped(n: int, d: nat): int
    requires d > 0
  {
    if n >= 0 then n / d else -(-n / d)
  }

  /** `int(val)`; infinities and NaNs raise. */
  function IntOf(v: Value): Result<int> {
    match v
    case Dec(c, e) => Ok(if e >= 0 then c * Pow10(e) else Chopped(c, Pow10(-e)))
    case Double(w) =>
      if !Finite(w) then Err(OutOfRange)
      else Ok(if w < SIGN64 then WholePart(w) else -(WholePart(w) as int))
    case _ => WholeNumber(v)
  }

  /** `val or ''`, as octets. */
  function OrEmptyString(v: Value): Result<seq<byte>> {
    if !Truthy(v) then Ok([])
    else match v
      case Text(o) => Ok(o)
      case Bytes(o) => Ok(o)
      case _ => Err(TypeMismatch)
  }

  function OrEmptyTable(v: Value): Result<seq<Entry>> {
    if !Truthy(v) then Ok([]) else if v.Table? then Ok(v.entries) else Err(TypeMismatch)
  }

  function OrEmptyArray(v: Value): Result<seq<Value>> {
    if !Truthy(v) then Ok([]) else if v.Array? then Ok(v.items) else Err(TypeMismatch)
  }

  function PackNumber(v: Value, width: nat): Result<seq<byte>> {
    var n :- WholeNumber(v);
    Pack(n, width)
  }

  /** The octets of one argument other than a bit. */
  function EncodeArg(p: char, v: Value): Result<seq<byte>>
    requires Known(p) && p != 'b'
  {
    match p
    case 'o' => PackNumber(v, 1)
    case 'B' => var n :- IntOf(v); Pack(n, 2)
    case 'l' => PackNumber(v, 4)
    case 'L' => PackNumber(v, 8)
    case 'f' => if v.Double? then (var w :- Narrow(v.word); Pack(w, 4)) else Err(TypeMismatch)
    case 's' => var o :- OrEmptyString(v); EncodeShort(o)
    case 'F' => var es :- OrEmptyTable(v); EncodeTable(es)
    case 'A' => var vs :- OrEmptyArray(v); EncodeArray(vs)
    case 'T' => if v.Time? then Pack(v.seconds, 8) else Err(TypeMismatch)
    case _ => var o :- OrEmptyString(v); EncodeLong(o)
  }

  /** `n` bits have been packed into `bits`, low bit first, the rest of the last octet being clear. */
  predicate BitRun(bits: seq<byte>, n: nat) {
    |bits| == (n + 7) / 8 && (n % 8 != 0 ==> bits[|bits| - 1] < Pow2(n % 8))
  }

  /** An octet of `k` bits, with or without one more. */
  lemma OneMoreBit(octet: byte, k: nat)
    requires k < 8 && octet < Pow2(k)
    ensures octet < Pow2(k + 1) && SetBit(octet, k) < Pow2(k + 1) <= 256
    ensures GetBit(SetBit(octet, k), k) && !GetBit(octet, k)
  {
    Pow2Values();
    SetBitBound(octet, k, k + 1);
    PowGrows(k + 1, 8);
    ShiftBound(octet, k);
    GetSetBit(octet, k, k);
  }

  /** The bits after one more. */
  function AddBit(bits: seq<byte>, n: nat, b: bool): (more: seq<byte>)
    requires BitRun(bits, n)
    ensures BitRun(more, n + 1)
  {
    RoomForBit(bits, n);
    hide Pow2, SetBit, WithRoom;
    var grown := WithRoom(bits, n);
    if b then grown[n / 8 := SetBit(grown[n / 8], n % 8)] else grown
  }

  /** With a further octet, if the last one is full. */
  function WithRoom(bits: seq<byte>, n: nat): seq<byte> {
    if n % 8 == 0 then bits + [0] else bits
  }

  lemma RoomForBit(bits: seq<byte>, n: nat)
    requires BitRun(bits, n)
    ensures |WithRoom(bits, n)| == n / 8 + 1 == (n + 8) / 8
    ensures var last := WithRoom(bits, n)[n / 8];
      last < Pow2(n % 8) && last < Pow2(n % 8 + 1) && SetBit(last, n % 8) < Pow2(n % 8 + 1) && SetBit(last, n % 8) < 256
    ensures (n + 1) % 8 != 0 ==> (n + 1) % 8 == n % 8 + 1
  {
    hide Pow2, SetBit;
    PowOne();
    OneMoreBit(WithRoom(bits, n)[n / 8], n % 8);
  }

  /** The new bit is as given, the others are as they were. */
  lemma AddBitKeeps(bits: seq<byte>, n: nat, b: bool, k: nat)
    requires BitRun(bits, n) && k <= n
    ensures GetBit(AddBit(bits, n, b)[k / 8], k % 8) <==> if k == n then b else GetBit(bits[k / 8], k % 8)
  {
    RoomForBit(bits, n);
    var last := WithRoom(bits, n)[n / 8];
    hide Pow2, SetBit, GetBit;
    OneMoreBit(last, n % 8);
    GetSetBit(last, n % 8, k % 8);
  }

  /** The octets written from here on, when `n` pending bits stand in `bits`. */
  function EncodeArgs(fmt: string, vals: seq<Value>, bits: seq<byte>, n: nat): Result<seq<byte>>
    requires BitRun(bits, n)
    decreases |vals|
  {
    if vals == [] then Ok(bits)
    else if fmt == "" then Err(TooFewFormats)
    else if fmt[0] == 'b' then EncodeArgs(fmt[1..], vals[1..], AddBit(bits, n, Truthy(vals[0])), n + 1)
    else if !Known(fmt[0]) then EncodeArgs(fmt[1..], vals[1..], bits, n)
    else
      var s :- EncodeArg(fmt[0], vals[0]);
      if fmt[0] == 'T' then Prefixed(s, EncodeArgs(fmt[1..], vals[1..], bits, n))
      else Prefixed(bits + s, EncodeArgs(fmt[1..], vals[1..], [], 0))
  }

  function EncodeAll(fmt: string, vals: seq<Value>): Result<seq<byte>> {
    EncodeArgs(fmt, vals, [], 0)
  }

  // ---------------------------------------------------------------- decoding

  /** One argument other than a bit. */
  function DecodeArg(p: char, buf: seq<byte>, offset: nat): (r: Reading<Value>)
    ensures r.Ok? ==> offset < r.value.1
  {
    match p
    case 'o' => var n :- Unpack(buf, offset, 1); Ok((Int(n), offset + 1))
    case 'B' => var n :- Unpack(buf, offset, 2); Ok((Int(n), offset + 2))
    case 'l' => var n :- Unpack(buf, offset, 4); Ok((Int(n), offset + 4))
    case 'L' => var n :- Unpack(buf, offset, 8); Ok((Int(n), offset + 8))
    case 'f' => var n :- Unpack(buf, offset, 4); Pow256Values(); Ok((Double(Widen(n)), offset + 4))
    case 's' =>
      var n :- Unpack(buf, offset, 1);
      var v :- TextOf(Slice(buf, offset + 1, n));
      Ok((v, offset + 1 + n))
    case 'S' =>
      var n :- Unpack(buf, offset, 4);
      var v :- TextOf(Slice(buf, offset + 4, n));
      Ok((v, offset + 4 + n))
    case 'x' => var n :- Unpack(buf, offset, 4); Ok((Bytes(Slice(buf, offset + 4, n)), offset + 4 + n))
    case 'F' => DecodeTable(buf, offset)
    case 'A' => DecodeArray(buf, offset)
    case 'T' => var n :- Unpack(buf, offset, 8); var t :- TimeOf(n); Ok((t, offset + 8))
    case _ => Err(UnknownTag)
  }

  function TextOf(s: seq<byte>): Result<Value> {
    if IsText(s) then Ok(Text(s)) else Err(BadText)
  }

  /** The arguments from `offset` on, when `left` bits of the octet last read remain, in `bits`. */
  function DecodeArgs(fmt: string, buf: seq<byte>, offset: nat, left: nat, bits: nat): (r: Reading<seq<Value>>)
    ensures r.Ok? ==> offset <= r.value.1 && |r.value.0| == |fmt|
    decreases |fmt|
  {
    if fmt == "" then Ok(([], offset))
    else if fmt[0] == 'b' then
      if left == 0 then
        var octet :- Unpack(buf, offset, 1);
        Cons(Ok(Bool(octet % 2 == 1)), DecodeArgs(fmt[1..], buf, offset + 1, 7, octet / 2))
      else Cons(Ok(Bool(bits % 2 == 1)), DecodeArgs(fmt[1..], buf, offset, left - 1, bits / 2))
    else
      var (v, next) :- DecodeArg(fmt[0], buf, offset);
      if fmt[0] == 'x' then Cons(Ok(v), DecodeArgs(fmt[1..], buf, next, left, bits))
      else Cons(Ok(v), DecodeArgs(fmt[1..], buf, next, 0, 0))
  }

  function Cons(v: Result<Value>, rest: Reading<seq<Value>>): Reading<seq<Value>> {
    var head :- v;
    var (tail, end) :- rest;
    Ok(([head] + tail, end))
  }

  // ---------------------------------------------------------------- what comes back

  function RereadArg(p: char, v: Value): Result<Value> {
    match p
    case 'b' => Ok(Bool(Truthy(v)))
    case 'B' => var n :- IntOf(v); Ok(Int(n))
    case 'f' => if v.Double? then (var w :- Narrow(v.word); Ok(Double(Widen(w)))) else Err(TypeMismatch)
    case 's' => var o :- OrEmptyString(v); TextOf(o)
    case 'S' => var o :- OrEmptyString(v); TextOf(o)
    case 'x' => var o :- OrEmptyString(v); Ok(Bytes(o))
    case 'F' => var es :- OrEmptyTable(v); Reread(Table(es))
    case 'A' => var vs :- OrEmptyArray(v); Reread(Array(vs))
    case 'T' => if v.Time? then Ok(Time(v.seconds, 0)) else Err(TypeMismatch)
    case _ => var n :- WholeNumber(v); Ok(Int(n))
  }

  function RereadArgs(fmt: string, vals: seq<Value>): Result<seq<Value>>
    requires |vals| == |fmt|
  {
    if fmt == "" then Ok([])
    else
      var v :- RereadArg(fmt[0], vals[0]);
      var vs :- RereadArgs(fmt[1..], vals[1..]);
      Ok([v] + vs)
  }

  predicate IsWord(p: char) {
    p == 'o' || p == 'B' || p == 'l' || p == 'L' || p == 'f' || p == 'T'
  }

  lemma WordRoundTrip(p: char, v: Value, buf: seq<byte>, offset: nat)
    requires IsWord(p) && EncodeArg(p, v).Ok? && At(buf, offset, EncodeArg(p, v).value)
    ensures DecodeArg(p, buf, offset) == Until(RereadArg(p, v), offset + |EncodeArg(p, v).value|)
  {
    hide BigEndian, Number, Pow256, Widen, Narrow, Slice, DecodeTable, DecodeArray, EncodeTable, EncodeArray,
      OrEmptyString, IntOf;
    UnpackAt(buf, offset, EncodeArg(p, v).value);
  }

  lemma ArgRoundTrip(p: char, v: Value, buf: seq<byte>, offset: nat)
    requires Known(p) && p != 'b' && EncodeArg(p, v).Ok? && At(buf, offset, EncodeArg(p, v).value)
    ensures DecodeArg(p, buf, offset) == Until(RereadArg(p, v), offset + |EncodeArg(p, v).value|)
  {
    hide IsText, Number, Pow256, Reread, EncodeTable, EncodeArray, DecodeTable, DecodeArray, Truthy, EncodeLong,
      EncodeShort, Slice, Widen, Narrow, PackNumber, IntOf, BigEndian;
    if IsWord(p) {
      WordRoundTrip(p, v, buf, offset);
    } else {
      match p {
        case 's' => ShortAt(buf, offset, OrEmptyString(v).value);
        case 'S' => LongAt(buf, offset, OrEmptyString(v).value);
        case 'x' => LongAt(buf, offset, OrEmptyString(v).value);
        case 'F' => TableRoundTrip(OrEmptyTable(v).value, buf, offset);
        case 'A' => ArrayRoundTrip(OrEmptyArray(v).value, buf, offset);
      }
    }
  }
}
