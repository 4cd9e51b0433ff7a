/** What a peer reads back from an encoded value, and from any octets it accepts. */
module TableProofs {
  import opened Octets
  import opened Floats
  import opened Tables

  /** What the decoder makes of the encoding of `v`: octets that happen to be text come back as text,
      a decimal loses its trailing zeros, a time its microseconds; a repeated key keeps its last value
      and a key that is not text cannot be read. */
  function Reread(v: Value): Result<Value>
    decreases v, 1
  {
    match v
    case Table(es) => var read :- RereadEntries(es, []); Ok(Table(read))
    case Array(vs) => var read :- RereadItems(vs, []); Ok(Array(read))
    case _ => RereadLeaf(v)
  }

  function RereadLeaf(v: Value): Result<Value>
    requires Leaf(v)
  {
    match v
    case Bytes(o) => Ok(TextOrOctets(o))
    case Dec(c, e) => if e > 0 then Err(OutOfRange) else Ok(Quotient(c, -e))
    case Time(s, _) => Ok(Time(s, 0))
    case Foreign => Err(Unsupported)
    case _ => Ok(v)
  }

  function RereadEntries(es: seq<Entry>, read: seq<Entry>): Result<seq<Entry>>
    decreases es, 0
  {
    if es == [] then Ok(read)
    else if !IsText(es[0].key) then Err(BadText)
    else
      var v :- Reread(es[0].value);
      RereadEntries(es[1..], SetEntry(read, es[0].key, v))
  }

  function RereadItems(vs: seq<Value>, read: seq<Value>): Result<seq<Value>>
    decreases vs, 0
  {
    if vs == [] then Ok(read)
    else
      var v :- Reread(vs[0]);
      RereadItems(vs[1..], read + [v])
  }

  /** A reading that stopped at `end`. */
  function Until<T>(r: Result<T>, end: nat): Reading<T> {
    match r
    case Ok(v) => Ok((v, end))
    case Err(e) => Err(e)
  }

  // ---------------------------------------------------------------- round trip

  lemma UnpackAt(buf: seq<byte>, offset: nat, s: seq<byte>)
    requires At(buf, offset, s)
    ensures Unpack(buf, offset, |s|) == Ok(Number(s))
  {
  }

  /** Reads back a length and the octets behind it. */
  lemma LongAt(buf: seq<byte>, offset: nat, s: seq<byte>)
    requires EncodeLong(s).Ok? && At(buf, offset, EncodeLong(s).value)
    ensures |EncodeLong(s).value| == 4 + |s|
    ensures Unpack(buf, offset, 4) == Ok(|s|) && Slice(buf, offset + 4, |s|) == s && At(buf, offset + 4, s)
  {
    var length := Pack(|s|, 4).value;
    AtSplit(buf, offset, length, s);
    UnpackAt(buf, offset, length);
  }

  lemma ShortAt(buf: seq<byte>, offset: nat, s: seq<byte>)
    requires EncodeShort(s).Ok? && At(buf, offset, EncodeShort(s).value)
    ensures |EncodeShort(s).value| == 1 + |s|
    ensures Unpack(buf, offset, 1) == Ok(|s|) && Slice(buf, offset + 1, |s|) == s
  {
    var length := Pack(|s|, 1).value;
    AtSplit(buf, offset, length, s);
    UnpackAt(buf, offset, length);
  }

  /** A leaf written in front of `at - 1` is read back. */
  predicate LeafBack(v: Value, buf: seq<byte>, at: nat)
    requires Leaf(v) && EncodeLeaf(v).Ok?
  {
    var s := EncodeLeaf(v).value;
    s[0] != Tag('F') && s[0] != Tag('A') && DecodeLeaf(s[0], buf, at) == Until(RereadLeaf(v), at + |s| - 1)
  }

  lemma LeafRoundTrip(v: Value, buf: seq<byte>, at: nat)
    requires Leaf(v) && EncodeLeaf(v).Ok? && At(buf, at, EncodeLeaf(v).value[1..])
    ensures LeafBack(v, buf, at)
  {
    hide EncodeLeaf, LeafBack, At;
    match v {
      case Text(o) => StringRoundTrip(v, o, buf, at);
      case Bytes(o) => StringRoundTrip(v, o, buf, at);
      case Dec(c, e) => DecRoundTrip(c, e, buf, at);
      case _ => WordLeafRoundTrip(v, buf, at);
    }
  }

  lemma StringRoundTrip(v: Value, o: seq<byte>, buf: seq<byte>, at: nat)
    requires v == Bytes(o) || (v.Text? && v.text == o)
    requires EncodeLeaf(v).Ok? && At(buf, at, EncodeLeaf(v).value[1..])
    ensures LeafBack(v, buf, at)
  {
    hide IsText, BigEndian, Number, Pow256, Quotient;
    LongAt(buf, at, o);
  }

  lemma DecRoundTrip(c: int, e: int, buf: seq<byte>, at: nat)
    requires EncodeLeaf(Dec(c, e)).Ok? && At(buf, at, EncodeLeaf(Dec(c, e)).value[1..])
    ensures LeafBack(Dec(c, e), buf, at)
  {
    hide IsText, BigEndian, Number, Pow256, Quotient;
    var places, digits := Pack(-e, 1).value, PackSigned(c, 4).value;
    assert EncodeLeaf(Dec(c, e)).value[1..] == places + digits;
    AtSplit(buf, at, places, digits);
    UnpackAt(buf, at, places);
    UnpackAt(buf, at + 1, digits);
  }

  lemma WordLeafRoundTrip(v: Value, buf: seq<byte>, at: nat)
    requires Leaf(v) && !v.Text? && !v.Bytes? && !v.Dec?
    requires EncodeLeaf(v).Ok? && At(buf, at, EncodeLeaf(v).value[1..])
    ensures LeafBack(v, buf, at)
  {
    hide IsText, BigEndian, Number, Pow256, Quotient;
    if v.Bool? {
      OctetAt(buf, at, if v.b then 1 else 0);
    } else {
      UnpackAt(buf, at, EncodeLeaf(v).value[1..]);
    }
  }

  lemma OctetAt(buf: seq<byte>, offset: nat, b: byte)
    requires At(buf, offset, [b])
    ensures Unpack(buf, offset, 1) == Ok(b)
  {
    assert [b][..0] == [];
  }

  /** Whatever stands before and behind it, the encoding of a value is read back as `Reread` says,
      and the reading stops exactly at its end (failing only where `Reread` fails). */
  lemma {:induction false} ItemRoundTrip(v: Value, buf: seq<byte>, offset: nat)
    requires EncodeItem(v).Ok? && At(buf, offset, EncodeItem(v).value)
    ensures DecodeItem(buf, offset) == Until(Reread(v), offset + |EncodeItem(v).value|)
    decreases v, 1
  {
    hide DecodeLeaf, EncodeLeaf, RereadLeaf, EncodeTable, EncodeArray, DecodeTable, DecodeArray, RereadItems,
      RereadEntries;
    var s := EncodeItem(v).value;
    assert s == s[..1] + s[1..];
    AtSplit(buf, offset, s[..1], s[1..]);
    assert buf[offset] == buf[offset..offset + 1][0] == s[0];
    match v {
      case Table(es) =>
        assert s[1..] == EncodeTable(es).value;
        TableRoundTrip(es, buf, offset + 1);
      case Array(vs) =>
        assert s[1..] == EncodeArray(vs).value;
        ArrayRoundTrip(vs, buf, offset + 1);
      case _ => LeafRoundTrip(v, buf, offset + 1);
    }
  }

  lemma TableRoundTrip(es: seq<Entry>, buf: seq<byte>, offset: nat)
    requires EncodeTable(es).Ok? && At(buf, offset, EncodeTable(es).value)
    ensures DecodeTable(buf, offset) == Until(Reread(Table(es)), offset + |EncodeTable(es).value|)
    decreases es, 1
  {
    hide DecodeItem, EncodeItem, EncodeEntries, DecodeEntries, RereadEntries;
    var data := EncodeEntries(es).value;
    LongAt(buf, offset, data);
    EntriesRoundTrip(es, buf, offset + 4, offset + 4 + |data|, []);
  }

  lemma ArrayRoundTrip(vs: seq<Value>, buf: seq<byte>, offset: nat)
    requires EncodeArray(vs).Ok? && At(buf, offset, EncodeArray(vs).value)
    ensures DecodeArray(buf, offset) == Until(Reread(Array(vs)), offset + |EncodeArray(vs).value|)
    decreases vs, 1
  {
    hide DecodeItem, EncodeItem, EncodeItems, DecodeItems, RereadItems;
    var data := EncodeItems(vs).value;
    LongAt(buf, offset, data);
    ItemsRoundTrip(vs, buf, offset + 4, offset + 4 + |data|, []);
  }

  /** The loop over the entries ends exactly on its limit. */
  lemma {:induction false} EntriesRoundTrip(es: seq<Entry>, buf: seq<byte>, offset: nat, limit: nat, read: seq<Entry>)
    requires EncodeEntries(es).Ok? && At(buf, offset, EncodeEntries(es).value)
    requires limit == offset + |EncodeEntries(es).value|
    ensures DecodeEntries(buf, offset, limit, read) == Until(RereadEntries(es, read), limit)
    decreases es, 0
  {
    hide DecodeItem, EncodeItem, Reread, IsText, SetEntry, At, EncodeShort, Slice, DecodeItems;
    if es != [] {
      var key, item, rest := EncodeShort(es[0].key).value, EncodeItem(es[0].value).value, EncodeEntries(es[1..]).value;
      AtSplit(buf, offset, key + item, rest);
      AtSplit(buf, offset, key, item);
      ShortAt(buf, offset, es[0].key);
      ItemRoundTrip(es[0].value, buf, offset + |key|);
      if IsText(es[0].key) && Reread(es[0].value).Ok? {
        var more := SetEntry(read, es[0].key, Reread(es[0].value).value);
        EntriesRoundTrip(es[1..], buf, offset + |key + item|, limit, more);
      }
    }
  }

  lemma {:induction false} ItemsRoundTrip(vs: seq<Value>, buf: seq<byte>, offset: nat, limit: nat, read: seq<Value>)
    requires EncodeItems(vs).Ok? && At(buf, offset, EncodeItems(vs).value)
    requires limit == offset + |EncodeItems(vs).value|
    ensures DecodeItems(buf, offset, limit, read) == Until(RereadItems(vs, read), limit)
    decreases vs, 0
  {
    hide DecodeItem, EncodeItem, Reread;
    if vs != [] {
      var item, rest := EncodeItem(vs[0]).value, EncodeItems(vs[1..]).value;
      AtSplit(buf, offset, item, rest);
      ItemRoundTrip(vs[0], buf, offset);
      if Reread(vs[0]).Ok? {
        ItemsRoundTrip(vs[1..], buf, offset + |item|, limit, read + [Reread(vs[0]).value]);
      }
    }
  }

  // ---------------------------------------------------------------- integers

  /** Width and signedness of the integer tags. As against the comments of `_read_item`, 'b' is read unsigned and
      'B' signed. */
  function IntegerTag(tag: char): Option<(nat, bool)> {
    match tag
    case 'b' => Some((1, false))
    case 'B' => Some((1, true))
    case 'U' => Some((2, true))
    case 'u' => Some((2, false))
    case 'I' => Some((4, true))
    case 'i' => Some((4, false))
    case 'L' => Some((8, true))
    case 'l' => Some((8, false))
    case _ => None
  }

  /** Whichever tag a peer writes an integer under that holds it, it is read as that integer. */
  lemma IntegersRead(tag: char, n: int, word: nat, buf: seq<byte>, offset: nat)
    requires IntegerTag(tag).Some?
    requires var (width, signed) := IntegerTag(tag).value;
      && word < Pow256(width) && n == (if signed then Signed(word, width) else word)
      && At(buf, offset, [Tag(tag)] + BigEndian(word, width))
    ensures DecodeItem(buf, offset) == Ok((Int(n), offset + 1 + IntegerTag(tag).value.0))
  {
    WordAt(Tag(tag), word, IntegerTag(tag).value.0, buf, offset);
    hide BigEndian, Number, Pow256, Signed, Unpack, At, Slice, DecodeTable, DecodeArray, Quotient, Widen, IsText,
      TimeOf, TextOrOctets;
    assert DecodeItem(buf, offset) == DecodeLeaf(Tag(tag), buf, offset + 1);
    hide DecodeItem;
    match tag {
      case 'b' =>
      case 'B' =>
      case 'U' =>
      case 'u' =>
      case 'I' =>
      case 'i' =>
      case 'L' =>
      case 'l' =>
    }
  }

  lemma WordAt(tag: byte, word: nat, width: nat, buf: seq<byte>, offset: nat)
    requires word < Pow256(width) && At(buf, offset, [tag] + BigEndian(word, width))
    ensures offset < |buf| && buf[offset] == tag && Unpack(buf, offset + 1, width) == Ok(word)
  {
    NumberOfBigEndian(word, width);
    hide BigEndian, Number, Pow256;
    AtSplit(buf, offset, [tag], BigEndian(word, width));
    assert buf[offset] == buf[offset..offset + 1][0];
    UnpackAt(buf, offset + 1, BigEndian(word, width));
  }

  /** The integers that can be written are those of 64 bits; all of 32 bits but the least take the shorter form. */
  lemma IntegersWritten(n: int)
    ensures EncodeItem(Int(n)).Ok? <==> -0x8000_0000_0000_0000 <= n < 0x8000_0000_0000_0000
    ensures EncodeItem(Int(n)).Ok? ==>
      |EncodeItem(Int(n)).value| == if -0x8000_0000 < n < 0x8000_0000 then 5 else 9
  {
    Pow256Values();
    hide BigEndian, Number, Pow256;
  }

  // ---------------------------------------------------------------- normal forms

  predicate HasKey(es: seq<Entry>, key: seq<byte>) {
    es != [] && (es[0].key == key || HasKey(es[1..], key))
  }

  /** The values the decoder builds: keys distinct and text, no trailing zeros, whole seconds.
      In a `strict` one no octets are text either. */
  predicate Normal(v: Value, strict: bool)
    decreases v, 1
  {
    match v
    case Bytes(o) => strict ==> !IsText(o)
    case Dec(c, e) => e == 0 || (e < 0 && c % 10 != 0)
    case Time(_, micros) => micros == 0
    case Table(es) => NormalEntries(es, strict)
    case Array(vs) => NormalItems(vs, strict)
    case Foreign => false
    case _ => true
  }

  predicate NormalEntries(es: seq<Entry>, strict: bool)
    decreases es, 0
  {
    es == [] ||
    (IsText(es[0].key) && Normal(es[0].value, strict) && !HasKey(es[1..], es[0].key) && NormalEntries(es[1..], strict))
  }

  predicate NormalItems(vs: seq<Value>, strict: bool)
    decreases vs, 0
  {
    vs == [] || (Normal(vs[0], strict) && NormalItems(vs[1..], strict))
  }

  /** `v` with octets that are text turned into text. */
  function Retext(v: Value): Value
    decreases v, 1
  {
    match v
    case Bytes(o) => TextOrOctets(o)
    case Table(es) => Table(RetextEntries(es))
    case Array(vs) => Array(RetextItems(vs))
    case _ => v
  }

  function RetextEntries(es: seq<Entry>): seq<Entry>
    decreases es, 0
  {
    if es == [] then [] else [Entry(es[0].key, Retext(es[0].value))] + RetextEntries(es[1..])
  }

  function RetextItems(vs: seq<Value>): seq<Value>
    decreases vs, 0
  {
    if vs == [] then [] else [Retext(vs[0])] + RetextItems(vs[1..])
  }

  lemma {:induction false} SetEntryFresh(es: seq<Entry>, key: seq<byte>, v: Value)
    requires !HasKey(es, key)
    ensures SetEntry(es, key, v) == es + [Entry(key, v)]
  {
    if es != [] {
      SetEntryFresh(es[1..], key, v);
      assert es + [Entry(key, v)] == [es[0]] + (es[1..] + [Entry(key, v)]);
    }
  }

  lemma {:induction false} HasKeyPut(es: seq<Entry>, key: seq<byte>, v: Value, k: seq<byte>)
    ensures HasKey(SetEntry(es, key, v), k) <==> k == key || HasKey(es, k)
  {
    if es != [] && es[0].key != key {
      HasKeyPut(es[1..], key, v, k);
      assert SetEntry(es, key, v)[1..] == SetEntry(es[1..], key, v);
    }
  }

  lemma {:induction false} SetEntryNormal(es: seq<Entry>, key: seq<byte>, v: Value, strict: bool)
    requires NormalEntries(es, strict) && IsText(key) && Normal(v, strict)
    ensures NormalEntries(SetEntry(es, key, v), strict)
  {
    if es == [] {
      assert [Entry(key, v)][1..] == [];
    } else if es[0].key == key {
      assert SetEntry(es, key, v)[1..] == es[1..];
    } else {
      SetEntryNormal(es[1..], key, v, strict);
      HasKeyPut(es[1..], key, v, es[0].key);
      assert SetEntry(es, key, v)[1..] == SetEntry(es[1..], key, v);
    }
  }

  lemma {:induction false} AppendNormal(vs: seq<Value>, v: Value, strict: bool)
    requires NormalItems(vs, strict) && Normal(v, strict)
    ensures NormalItems(vs + [v], strict)
  {
    if vs == [] {
      assert ([] + [v])[1..] == [];
    } else {
      AppendNormal(vs[1..], v, strict);
      assert (vs + [v])[1..] == vs[1..] + [v];
    }
  }

  lemma {:induction false} QuotientNormal(n: int, places: nat)
    ensures forall strict :: Normal(Quotient(n, places), strict)
    decreases places
  {
    if places > 0 && n % 10 == 0 {
      QuotientNormal(n / 10, places - 1);
    }
  }

  // -- everything the decoder returns is normal

  lemma {:induction false} DecodeNormal(buf: seq<byte>, offset: nat)
    requires DecodeItem(buf, offset).Ok?
    ensures Normal(DecodeItem(buf, offset).value.0, false)
    decreases Left(buf, offset), 0
  {
    hide Quotient, Number, Pow256, Widen, IsText, DecodeEntries, DecodeItems;
    if buf[offset] == Tag('F') {
      var n := Unpack(buf, offset + 1, 4).value;
      DecodeEntriesNormal(buf, offset + 5, offset + 5 + n, []);
    } else if buf[offset] == Tag('A') {
      var n := Unpack(buf, offset + 1, 4).value;
      DecodeItemsNormal(buf, offset + 5, offset + 5 + n, []);
    } else if buf[offset] == Tag('D') {
      QuotientNormal(Signed(Unpack(buf, offset + 2, 4).value, 4), Unpack(buf, offset + 1, 1).value);
    }
  }

  lemma {:induction false} DecodeEntriesNormal(buf: seq<byte>, offset: nat, limit: nat, read: seq<Entry>)
    requires NormalEntries(read, false) && DecodeEntries(buf, offset, limit, read).Ok?
    ensures NormalEntries(DecodeEntries(buf, offset, limit, read).value.0, false)
    decreases Left(buf, offset), 1
  {
    hide DecodeItem, IsText, SetEntry, Normal, NormalEntries;
    if offset < limit {
      var n := Unpack(buf, offset, 1).value;
      var key := Slice(buf, offset + 1, n);
      DecodeNormal(buf, offset + 1 + n);
      var (v, next) := DecodeItem(buf, offset + 1 + n).value;
      SetEntryNormal(read, key, v, false);
      DecodeEntriesNormal(buf, next, limit, SetEntry(read, key, v));
    }
  }

  lemma {:induction false} DecodeItemsNormal(buf: seq<byte>, offset: nat, limit: nat, read: seq<Value>)
    requires NormalItems(read, false) && DecodeItems(buf, offset, limit, read).Ok?
    ensures NormalItems(DecodeItems(buf, offset, limit, read).value.0, false)
    decreases Left(buf, offset), 1
  {
    hide DecodeItem, Normal, NormalItems;
    if offset < limit {
      DecodeNormal(buf, offset);
      var (v, next) := DecodeItem(buf, offset).value;
      AppendNormal(read, v, false);
      DecodeItemsNormal(buf, next, limit, read + [v]);
    }
  }

  // -- and so is everything read back, even strictly

  lemma {:induction false} RereadNormal(v: Value)
    requires Reread(v).Ok?
    ensures Normal(Reread(v).value, true)
    decreases v, 1
  {
    match v {
      case Table(es) => RereadEntriesNormal(es, []);
      case Array(vs) => RereadItemsNormal(vs, []);
      case Dec(c, e) => QuotientNormal(c, -e);
      case _ =>
    }
  }

  lemma {:induction false} RereadEntriesNormal(es: seq<Entry>, read: seq<Entry>)
    requires NormalEntries(read, true) && RereadEntries(es, read).Ok?
    ensures NormalEntries(RereadEntries(es, read).value, true)
    decreases es, 0
  {
    hide Reread, IsText, SetEntry, Normal, NormalEntries;
    if es != [] {
      RereadNormal(es[0].value);
      var v := Reread(es[0].value).value;
      SetEntryNormal(read, es[0].key, v, true);
      RereadEntriesNormal(es[1..], SetEntry(read, es[0].key, v));
    }
  }

  lemma {:induction false} RereadItemsNormal(vs: seq<Value>, read: seq<Value>)
    requires NormalItems(read, true) && RereadItems(vs, read).Ok?
    ensures NormalItems(RereadItems(vs, read).value, true)
    decreases vs, 0
  {
    hide Reread, Normal, NormalItems;
    if vs != [] {
      RereadNormal(vs[0]);
      AppendNormal(read, Reread(vs[0]).value, true);
      RereadItemsNormal(vs[1..], read + [Reread(vs[0]).value]);
    }
  }

  // -- a normal value is read back unchanged, up to octets that are text

  lemma {:induction false} NormalReread(v: Value, strict: bool)
    requires Normal(v, strict)
    ensures Reread(v) == Ok(Retext(v))
    ensures strict ==> Retext(v) == v
    decreases v, 1
  {
    match v {
      case Table(es) =>
        assert Apart(es, []);
        NormalEntriesReread(es, [], strict);
        assert [] + RetextEntries(es) == RetextEntries(es);
      case Array(vs) =>
        NormalItemsReread(vs, [], strict);
        assert [] + RetextItems(vs) == RetextItems(vs);
      case _ =>
    }
  }

  /** No key of the one is a key of the other. */
  ghost predicate Apart(es: seq<Entry>, read: seq<Entry>) {
    forall k :: HasKey(es, k) ==> !HasKey(read, k)
  }

  lemma StillApart(es: seq<Entry>, read: seq<Entry>, v: Value)
    requires es != [] && !HasKey(es[1..], es[0].key) && Apart(es, read)
    ensures !HasKey(read, es[0].key) && Apart(es[1..], SetEntry(read, es[0].key, v))
  {
    assert HasKey(es, es[0].key);
    forall k | HasKey(es[1..], k) ensures !HasKey(SetEntry(read, es[0].key, v), k) {
      HasKeyPut(read, es[0].key, v, k);
      assert HasKey(es, k);
    }
  }

  lemma {:induction false} NormalEntriesReread(es: seq<Entry>, read: seq<Entry>, strict: bool)
    requires NormalEntries(es, strict) && Apart(es, read)
    ensures RereadEntries(es, read) == Ok(read + RetextEntries(es))
    ensures strict ==> RetextEntries(es) == es
    decreases es, 0
  {
    hide Reread, IsText, Normal, Retext, HasKey, SetEntry, Apart;
    if es == [] {
      assert read + [] == read;
    } else {
      var key, v := es[0].key, Retext(es[0].value);
      var more, tail := SetEntry(read, key, v), RetextEntries(es[1..]);
      NormalReread(es[0].value, strict);
      StillApart(es, read, v);
      SetEntryFresh(read, key, v);
      NormalEntriesReread(es[1..], more, strict);
      assert read + [Entry(key, v)] + tail == read + ([Entry(key, v)] + tail);
    }
  }

  lemma {:induction false} NormalItemsReread(vs: seq<Value>, read: seq<Value>, strict: bool)
    requires NormalItems(vs, strict)
    ensures RereadItems(vs, read) == Ok(read + RetextItems(vs))
    ensures strict ==> RetextItems(vs) == vs
    decreases vs, 0
  {
    hide Reread, Normal, Retext;
    if vs == [] {
      assert read + [] == read;
    } else {
      NormalReread(vs[0], strict);
      NormalItemsReread(vs[1..], read + [Retext(vs[0])], strict);
      assert read + [Retext(vs[0])] + RetextItems(vs[1..]) == read + ([Retext(vs[0])] + RetextItems(vs[1..]));
    }
  }

  // ---------------------------------------------------------------- main results

  lemma RereadExactly(v: Value)
    ensures Reread(v) == Ok(v) <==> Normal(v, true)
  {
    hide Reread, Normal, Retext;
    if Normal(v, true) {
      NormalReread(v, true);
    } else if Reread(v).Ok? {
      RereadNormal(v);
    }
  }

  /** A value comes back as itself exactly when its keys are distinct and text, its octets are not text,
      its decimals have no trailing zeros and its times no microseconds. */
  lemma ValueRoundTrip(v: Value, buf: seq<byte>, offset: nat)
    requires EncodeItem(v).Ok? && At(buf, offset, EncodeItem(v).value)
    ensures DecodeItem(buf, offset) == Ok((v, offset + |EncodeItem(v).value|)) <==> Normal(v, true)
  {
    hide DecodeItem, EncodeItem, Reread, Normal;
    ItemRoundTrip(v, buf, offset);
    RereadExactly(v);
  }

  /** Re-encoding whatever was decoded, from any octets, and decoding again gives the same value,
      up to octets that are text. */
  lemma Normalisation(buf: seq<byte>, offset: nat, again: seq<byte>, start: nat)
    requires DecodeItem(buf, offset).Ok?
    requires var v := DecodeItem(buf, offset).value.0;
      EncodeItem(v).Ok? && At(again, start, EncodeItem(v).value)
    ensures var v := DecodeItem(buf, offset).value.0;
      DecodeItem(again, start) == Ok((Retext(v), start + |EncodeItem(v).value|))
  {
    hide DecodeItem, EncodeItem, Reread, Normal, Retext;
    var v := DecodeItem(buf, offset).value.0;
    DecodeNormal(buf, offset);
    NormalReread(v, false);
    ItemRoundTrip(v, again, start);
  }
}
