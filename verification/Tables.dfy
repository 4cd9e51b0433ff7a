/** Field values, tables and arrays: what the encoder writes and what the decoder reads. */
module Tables {
  import opened Octets
  import opened Floats

  const MIN_SECONDS := -62135596800  // 0001-01-01T00:00:00
  const MAX_SECONDS := 253402300799  // 9999-12-31T23:59:59

  type seconds = s: int | MIN_SECONDS <= s <= MAX_SECONDS witness 0

  datatype Value =
    | Text(text: text)                       // str
    | Bytes(octets: seq<byte>)               // bytes
    | Bool(b: bool)
    | Int(n: int)
    | Double(word: word64)                   // float, as its IEEE 754 double-precision word
    | Dec(coefficient: int, exponent: int)   // Decimal: coefficient * 10^exponent
    | Time(seconds: seconds, micros: nat)    // datetime
    | Table(entries: seq<Entry>)             // dict, in insertion order
    | Array(items: seq<Value>)               // list or tuple
    | Void                                   // None
    | Foreign                                // anything the codec does not handle

  /** A str or bytes key is identified with its octets. */
  datatype Entry = Entry(key: seq<byte>, value: Value)

  function Tag(c: char): byte
    requires c < 256 as char
  {
    c as int
  }

  // ---------------------------------------------------------------- encoding

  function EncodeItem(v: Value): (r: Result<seq<byte>>)
    ensures r.Ok? ==> r.value != []
    decreases v, 1
  {
    match v
    case Table(es) => Tagged('F', EncodeTable(es))
    case Array(vs) => Tagged('A', EncodeArray(vs))
    case _ => EncodeLeaf(v)
  }

  predicate Leaf(v: Value) {
    !v.Table? && !v.Array?
  }

  function EncodeLeaf(v: Value): (r: Result<seq<byte>>)
    requires Leaf(v)
    ensures r.Ok? ==> r.value != []
  {
    match v
    case Text(o) => Tagged('S', EncodeLong(o))
    case Bytes(o) => Tagged('S', EncodeLong(o))
    case Bool(b) => Ok([Tag('t'), if b then 1 else 0])
    case Double(w) => Tagged('d', Pack(w, 8))
    case Int(n) =>
      if n > 2147483647 || n < -2147483647 then Tagged('L', PackSigned(n, 8)) else Tagged('I', PackSigned(n, 4))
    case Dec(c, e) =>
      var places :- Pack(-e, 1);
      Tagged('D', Prefixed(places, PackSigned(c, 4)))
    case Time(s, _) => Tagged('T', Pack(s, 8))
    case Void => Ok([Tag('V')])
    case Foreign => Err(Unsupported)
  }

  function Tagged(tag: char, r: Result<seq<byte>>): (t: Result<seq<byte>>)
    requires tag < 256 as char
    ensures t.Ok? ==> t.value != []
  {
    Prefixed([Tag(tag)], r)
  }

  function Prefixed(s: seq<byte>, r: Result<seq<byte>>): Result<seq<byte>> {
    var rest :- r;
    Ok(s + rest)
  }

  function PackSigned(n: int, width: nat): (r: Result<seq<byte>>)
    ensures r.Ok? <==> FitsSigned(n, width)
    ensures r.Ok? ==> |r.value| == width && Signed(Number(r.value), width) == n
  {
    if FitsSigned(n, width) then Pack(Unsigned(n, width), width) else Err(OutOfRange)
  }

  /** Octets behind their four-octet length. */
  function EncodeLong(s: seq<byte>): Result<seq<byte>> {
    var length :- Pack(|s|, 4);
    Ok(length + s)
  }

  /** Octets behind their one-octet length. */
  function EncodeShort(s: seq<byte>): Result<seq<byte>> {
    var length :- Pack(|s|, 1);
    Ok(length + s)
  }

  function EncodeTable(es: seq<Entry>): Result<seq<byte>>
    decreases es, 1
  {
    var data :- EncodeEntries(es);
    EncodeLong(data)
  }

  function EncodeArray(vs: seq<Value>): Result<seq<byte>>
    decreases vs, 1
  {
    var data :- EncodeItems(vs);
    EncodeLong(data)
  }

  function EncodeEntries(es: seq<Entry>): Result<seq<byte>>
    decreases es, 0
  {
    if es == [] then Ok([])
    else
      var key :- EncodeShort(es[0].key);
      var item :- EncodeItem(es[0].value);
      Prefixed(key + item, EncodeEntries(es[1..]))
  }

  function EncodeItems(vs: seq<Value>): Result<seq<byte>>
    decreases vs, 0
  {
    if vs == [] then Ok([])
    else
      var item :- EncodeItem(vs[0]);
      Prefixed(item, EncodeItems(vs[1..]))
  }

  // ---------------------------------------------------------------- decoding

  /** How far the decoder still has to go. */
  function Left(buf: seq<byte>, offset: nat): nat {
    if offset <= |buf| then |buf| - offset else 0
  }

  /** A value (or list of values) read, and the offset just behind it. */
  type Reading<T> = Result<(T, nat)>

  /** `Decimal(n) / Decimal(10 ** places)`: exact, with the trailing zeros of the quotient dropped. */
  function Quotient(n: int, places: nat): Value
    decreases places
  {
    if places > 0 && n % 10 == 0 then Quotient(n / 10, places - 1) else Dec(n, 0 - places)
  }

  function TextOrOctets(s: seq<byte>): Value {
    if IsText(s) then Text(s) else Bytes(s)
  }

  function TimeOf(n: nat): Result<Value> {
    if n <= MAX_SECONDS then Ok(Time(n, 0)) else Err(BadTime)
  }

  /** The item at `offset`; `Err` where `_read_item` raises. */
  function DecodeItem(buf: seq<byte>, offset: nat): (r: Reading<Value>)
    ensures r.Ok? ==> offset < |buf| && offset < r.value.1
    decreases Left(buf, offset), 0
  {
    if offset >= |buf| then Err(Truncated)
    else if buf[offset] == Tag('F') then DecodeTable(buf, offset + 1)
    else if buf[offset] == Tag('A') then DecodeArray(buf, offset + 1)
    else DecodeLeaf(buf[offset], buf, offset + 1)
  }

  /** The items that hold no further items. */
  function DecodeLeaf(tag: byte, buf: seq<byte>, at: nat): (r: Reading<Value>)
    ensures r.Ok? ==> at <= r.value.1
  {
    if tag == Tag('S') then
      var n :- Unpack(buf, at, 4);
      Ok((TextOrOctets(Slice(buf, at + 4, n)), at + 4 + n))
    else if tag == Tag('s') then
      var n :- Unpack(buf, at, 1);
      var s := Slice(buf, at + 1, n);
      if IsText(s) then Ok((Text(s), at + 1 + n)) else Err(BadText)
    else if tag == Tag('x') then
      var n :- Unpack(buf, at, 4);
      Ok((Bytes(Slice(buf, at + 4, n)), at + 4 + n))
    else if tag == Tag('b') then
      var n :- Unpack(buf, at, 1); Ok((Int(n), at + 1))
    else if tag == Tag('B') then
      var n :- Unpack(buf, at, 1); Ok((Int(Signed(n, 1)), at + 1))
    else if tag == Tag('U') then
      var n :- Unpack(buf, at, 2); Ok((Int(Signed(n, 2)), at + 2))
    else if tag == Tag('u') then
      var n :- Unpack(buf, at, 2); Ok((Int(n), at + 2))
    else if tag == Tag('I') then
      var n :- Unpack(buf, at, 4); Ok((Int(Signed(n, 4)), at + 4))
    else if tag == Tag('i') then
      var n :- Unpack(buf, at, 4); Ok((Int(n), at + 4))
    else if tag == Tag('L') then
      var n :- Unpack(buf, at, 8); Ok((Int(Signed(n, 8)), at + 8))
    else if tag == Tag('l') then
      var n :- Unpack(buf, at, 8); Ok((Int(n), at + 8))
    else if tag == Tag('f') then
      var n :- Unpack(buf, at, 4); Pow256Values(); Ok((Double(Widen(n)), at + 4))
    else if tag == Tag('d') then
      var n :- Unpack(buf, at, 8); Pow256Values(); Ok((Double(n), at + 8))
    else if tag == Tag('D') then
      var places :- Unpack(buf, at, 1);
      var n :- Unpack(buf, at + 1, 4);
      Ok((Quotient(Signed(n, 4), places), at + 5))
    else if tag == Tag('t') then
      var n :- Unpack(buf, at, 1); Ok((Bool(n != 0), at + 1))
    else if tag == Tag('T') then
      var n :- Unpack(buf, at, 8);
      var t :- TimeOf(n);
      Ok((t, at + 8))
    else if tag == Tag('V') then Ok((Void, at))
    else Err(UnknownTag)
  }

  function DecodeTable(buf: seq<byte>, offset: nat): (r: Reading<Value>)
    ensures r.Ok? ==> offset + 4 <= r.value.1
    decreases Left(buf, offset), 2
  {
    var n :- Unpack(buf, offset, 4);
    var (es, end) :- DecodeEntries(buf, offset + 4, offset + 4 + n, []);
    Ok((Table(es), end))
  }

  function DecodeArray(buf: seq<byte>, offset: nat): (r: Reading<Value>)
    ensures r.Ok? ==> offset + 4 <= r.value.1
    decreases Left(buf, offset), 2
  {
    var n :- Unpack(buf, offset, 4);
    var (vs, end) :- DecodeItems(buf, offset + 4, offset + 4 + n, []);
    Ok((Array(vs), end))
  }

  /** The entries from `offset` on, added to those already read, until the offset reaches `limit`. */
  function DecodeEntries(buf: seq<byte>, offset: nat, limit: nat, read: seq<Entry>): (r: Reading<seq<Entry>>)
    ensures r.Ok? ==> r.value.1 >= offset && r.value.1 >= limit
    decreases Left(buf, offset), 1
  {
    if offset >= limit then Ok((read, offset))
    else
      var n :- Unpack(buf, offset, 1);
      var key := Slice(buf, offset + 1, n);
      if !IsText(key) then Err(BadText)
      else
        var (v, next) :- DecodeItem(buf, offset + 1 + n);
        DecodeEntries(buf, next, limit, SetEntry(read, key, v))
  }

  function DecodeItems(buf: seq<byte>, offset: nat, limit: nat, read: seq<Value>): (r: Reading<seq<Value>>)
    ensures r.Ok? ==> r.value.1 >= offset && r.value.1 >= limit
    decreases Left(buf, offset), 1
  {
    if offset >= limit then Ok((read, offset))
    else
      var (v, next) :- DecodeItem(buf, offset);
      DecodeItems(buf, next, limit, read + [v])
  }

  /** `entries[key] = value` on an insertion-ordered dict. */
  function SetEntry(es: seq<Entry>, key: seq<byte>, v: Value): seq<Entry> {
    if es == [] then [Entry(key, v)]
    else if es[0].key == key then [Entry(key, v)] + es[1..]
    else [es[0]] + SetEntry(es[1..], key, v)
  }
}
