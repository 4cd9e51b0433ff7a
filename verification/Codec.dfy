/** The loops of the codec, each proved to compute what the encoding and decoding functions say. */
module Codec {
  import opened Octets
  import opened Floats
  import opened Tables
  import opened Arguments

  /** A growing buffer of octets. */
  class Output {
    var data: seq<byte>

    constructor ()
      ensures data == []
    {
      data := [];
    }

    method Write(s: seq<byte>)
      modifies this
      ensures data == old(data) + s
    {
      data := data + s;
    }
  }

  /** A write that either raises or appends exactly `encoded`. */
  predicate Wrote(before: seq<byte>, after: seq<byte>, r: Result<()>, encoded: Result<seq<byte>>) {
    match encoded
    case Ok(s) => r == Ok(()) && after == before + s
    case Err(e) => r == Err(e)
  }

  // ---------------------------------------------------------------- writing

  method WriteItem(v: Value, out: Output) returns (r: Result<()>)
    modifies out
    ensures Wrote(old(out.data), out.data, r, EncodeItem(v))
    decreases v, 1
  {
    hide EncodeLeaf, EncodeTable, EncodeArray;
    ghost var before := out.data;
    if v.Table? {
      out.Write([Tag('F')]);
      r := WriteTable(v.entries, out);
      WroteTagged(before, 'F', out.data, r, EncodeTable(v.entries));
    } else if v.Array? {
      out.Write([Tag('A')]);
      r := WriteArray(v.items, out);
      WroteTagged(before, 'A', out.data, r, EncodeArray(v.items));
    } else {
      var s :- EncodeLeaf(v);
      out.Write(s);
      r := Ok(());
    }
  }

  lemma WroteTagged(before: seq<byte>, tag: char, after: seq<byte>, r: Result<()>, encoded: Result<seq<byte>>)
    requires tag < 256 as char && Wrote(before + [Tag(tag)], after, r, encoded)
    ensures Wrote(before, after, r, Tagged(tag, encoded))
  {
    if encoded.Ok? {
      assert before + [Tag(tag)] + encoded.value == before + ([Tag(tag)] + encoded.value);
    }
  }

  method WriteTable(es: seq<Entry>, out: Output) returns (r: Result<()>)
    modifies out
    ensures Wrote(old(out.data), out.data, r, EncodeTable(es))
    decreases es, 1
  {
    hide EncodeItem, EncodeShort, Pack;
    var data := new Output();
    var i := 0;
    assert es[0..] == es;
    while i < |es|
      invariant i <= |es| && out.data == old(out.data)
      invariant Prefixed(data.data, EncodeEntries(es[i..])) == Prefixed([], EncodeEntries(es))
    {
      EntryStep(es, i, data.data);
      var length :- Pack(|es[i].key|, 1);
      data.Write(length);
      data.Write(es[i].key);
      var _ :- WriteItem(es[i].value, data);
      i := i + 1;
    }
    assert es[i..] == [];
    PrefixedTwice([], [], EncodeEntries(es));
    var length :- Pack(|data.data|, 4);
    out.Write(length);
    out.Write(data.data);
    r := Ok(());
  }

  /** One turn of the loop of `WriteTable`. */
  lemma EntryStep(es: seq<Entry>, i: nat, before: seq<byte>)
    requires i < |es|
    ensures var rest, length, item := EncodeEntries(es[i..]), Pack(|es[i].key|, 1), EncodeItem(es[i].value);
      if length.Err? then rest == Err(length.error)
      else if item.Err? then rest == Err(item.error)
      else
        Prefixed(before, rest)
        == Prefixed(before + length.value + es[i].key + item.value, EncodeEntries(es[i + 1..]))
  {
    hide EncodeItem, BigEndian;
    assert es[i..][0] == es[i] && es[i..][1..] == es[i + 1..];
    var length, item := Pack(|es[i].key|, 1), EncodeItem(es[i].value);
    if length.Ok? && item.Ok? {
      PrefixedTwice(before, length.value + es[i].key + item.value, EncodeEntries(es[i + 1..]));
      assert before + (length.value + es[i].key + item.value) == before + length.value + es[i].key + item.value;
    }
  }

  method WriteArray(vs: seq<Value>, out: Output) returns (r: Result<()>)
    modifies out
    ensures Wrote(old(out.data), out.data, r, EncodeArray(vs))
    decreases vs, 1
  {
    hide EncodeItem;
    var data := new Output();
    var i := 0;
    assert vs[0..] == vs;
    while i < |vs|
      invariant i <= |vs| && out.data == old(out.data)
      invariant Prefixed(data.data, EncodeItems(vs[i..])) == Prefixed([], EncodeItems(vs))
    {
      ghost var before, rest := data.data, vs[i..];
      assert rest[0] == vs[i] && rest[1..] == vs[i + 1..];
      var _ :- WriteItem(vs[i], data);
      PrefixedTwice(before, EncodeItem(vs[i]).value, EncodeItems(vs[i + 1..]));
      i := i + 1;
    }
    assert vs[i..] == [];
    PrefixedTwice([], [], EncodeItems(vs));
    var length :- Pack(|data.data|, 4);
    out.Write(length);
    out.Write(data.data);
    r := Ok(());
  }

  lemma PrefixedTwice(a: seq<byte>, b: seq<byte>, r: Result<seq<byte>>)
    ensures Prefixed(a + b, r) == Prefixed(a, Prefixed(b, r))
    ensures Prefixed([], r) == r
  {
    if r.Ok? {
      assert a + b + r.value == a + (b + r.value);
      assert [] + r.value == r.value;
    }
  }

  // ---------------------------------------------------------------- reading

  method ReadItem(buf: seq<byte>, offset: nat) returns (r: Reading<Value>)
    ensures r == DecodeItem(buf, offset)
    decreases Left(buf, offset), 0
  {
    hide DecodeLeaf;
    if offset >= |buf| {
      r := Err(Truncated);
    } else if buf[offset] == Tag('F') {
      r := ReadTable(buf, offset + 1);
    } else if buf[offset] == Tag('A') {
      r := ReadArray(buf, offset + 1);
    } else {
      r := DecodeLeaf(buf[offset], buf, offset + 1);
    }
  }

  method ReadTable(buf: seq<byte>, start: nat) returns (r: Reading<Value>)
    ensures r == DecodeTable(buf, start)
    decreases Left(buf, start), 2
  {
    hide DecodeItem, IsText, SetEntry, DecodeItems, Slice, Number, Pow256;
    var n :- Unpack(buf, start, 4);
    var offset := start + 4;
    var limit := offset + n;
    var val: seq<Entry> := [];
    while offset < limit
      invariant offset >= start + 4
      invariant DecodeEntries(buf, start + 4, limit, []) == DecodeEntries(buf, offset, limit, val)
      decreases Left(buf, offset) + if offset <= |buf| then 1 else 0
    {
      var keylen :- Unpack(buf, offset, 1);
      var key := Slice(buf, offset + 1, keylen);
      if !IsText(key) {
        return Err(BadText);
      }
      var item :- ReadItem(buf, offset + 1 + keylen);
      val, offset := SetEntry(val, key, item.0), item.1;
    }
    r := Ok((Table(val), offset));
  }

  method ReadArray(buf: seq<byte>, start: nat) returns (r: Reading<Value>)
    ensures r == DecodeArray(buf, start)
    decreases Left(buf, start), 2
  {
    hide DecodeItem;
    var n :- Unpack(buf, start, 4);
    var offset := start + 4;
    var limit := offset + n;
    var val: seq<Value> := [];
    while offset < limit
      invariant offset >= start + 4
      invariant DecodeItems(buf, start + 4, limit, []) == DecodeItems(buf, offset, limit, val)
      decreases Left(buf, offset) + if offset <= |buf| then 1 else 0
    {
      var item :- ReadItem(buf, offset);
      val, offset := val + [item.0], item.1;
    }
    r := Ok((Array(val), offset));
  }

  // ---------------------------------------------------------------- method arguments

  /** The octets of the bits not yet written. */
  class BitList {
    var octets: seq<byte>

    constructor ()
      ensures octets == []
    {
      octets := [];
    }
  }

  method FlushBits(bits: BitList, out: Output) returns (bitcount: nat)
    modifies bits, out
    ensures out.data == old(out.data) + old(bits.octets)
    ensures bits.octets == [] && bitcount == 0
  {
    if bits.octets != [] {
      out.Write(bits.octets);
      bits.octets := [];
    }
    bitcount := 0;
  }

  method Dumps(format: string, values: seq<Value>) returns (r: Result<seq<byte>>)
    ensures r == EncodeAll(format, values)
  {
    hide AddBit, EncodeArg, Truthy, Known;
    var bitcount := 0;
    var bits := new BitList();
    var out := new Output();
    var i := 0;
    assert values[0..] == values && format[0..] == format;
    PrefixedTwice([], [], EncodeAll(format, values));
    while i < |values|
      invariant i <= |values| && i <= |format|
      invariant BitRun(bits.octets, bitcount)
      invariant Prefixed(out.data, EncodeArgs(format[i..], values[i..], bits.octets, bitcount))
             == EncodeAll(format, values)
    {
      ghost var before, pending := out.data, bits.octets;
      assert values[i..][0] == values[i] && values[i..][1..] == values[i + 1..];
      if i == |format| {
        return Err(TooFewFormats);
      }
      var p, val := format[i], values[i];
      assert format[i..][0] == p && format[i..][1..] == format[i + 1..];
      if p == 'b' {
        bits.octets := AddBit(bits.octets, bitcount, Truthy(val));
        bitcount := bitcount + 1;
      } else if Known(p) {
        if p != 'T' {
          bitcount := FlushBits(bits, out);
        }
        var _ :- WriteArg(p, val, out);
        var s := EncodeArg(p, val).value;
        if p != 'T' {
          assert out.data == before + (pending + s);
          PrefixedTwice(before, pending + s, EncodeArgs(format[i + 1..], values[i + 1..], [], 0));
        } else {
          PrefixedTwice(before, s, EncodeArgs(format[i + 1..], values[i + 1..], pending, bitcount));
        }
      }
      i := i + 1;
    }
    assert values[i..] == [];
    var _ := FlushBits(bits, out);
    r := Ok(out.data);
  }

  /** One argument other than a bit, behind the flush that goes before it. */
  method WriteArg(p: char, val: Value, out: Output) returns (r: Result<()>)
    requires Known(p) && p != 'b'
    modifies out
    ensures Wrote(old(out.data), out.data, r, EncodeArg(p, val))
  {
    hide EncodeTable, EncodeArray, Truthy, Narrow;
    if p == 'F' {
      var es :- OrEmptyTable(val);
      r := WriteTable(es, out);
    } else if p == 'A' {
      var vs :- OrEmptyArray(val);
      r := WriteArray(vs, out);
    } else {
      var s :- EncodeArg(p, val);
      out.Write(s);
      r := Ok(());
    }
  }

  method Loads(format: string, buf: seq<byte>, start: nat) returns (r: Reading<seq<Value>>)
    ensures r == DecodeArgs(format, buf, start, 0, 0)
  {
    hide DecodeArg;
    var bitcount, bits, offset := 0, 0, start;
    var values: seq<Value> := [];
    var i := 0;
    assert format[0..] == format;
    AfterOneMore([], Void, DecodeArgs(format, buf, start, 0, 0));
    while i < |format|
      invariant i <= |format|
      invariant DecodeArgs(format, buf, start, 0, 0)
             == After(values, DecodeArgs(format[i..], buf, offset, bitcount, bits))
    {
      ghost var before, rest := values, format[i..];
      var p := format[i];
      assert rest[0] == p && rest[1..] == format[i + 1..];
      var val: Value;
      if p == 'b' {
        if bitcount == 0 {
          bits :- Unpack(buf, offset, 1);
          offset := offset + 1;
          bitcount := 8;
        }
        val := Bool(bits % 2 == 1);
        bits := bits / 2;
        bitcount := bitcount - 1;
      } else {
        if p != 'x' {
          bitcount, bits := 0, 0;
        }
        var arg :- ReadArg(p, buf, offset);
        val, offset := arg.0, arg.1;
      }
      values := values + [val];
      AfterOneMore(before, val, DecodeArgs(format[i + 1..], buf, offset, bitcount, bits));
      i := i + 1;
    }
    assert format[i..] == "" && values + [] == values;
    r := Ok((values, offset));
  }

  function After(read: seq<Value>, rest: Reading<seq<Value>>): Reading<seq<Value>> {
    var (vs, end) :- rest;
    Ok((read + vs, end))
  }

  lemma AfterOneMore(read: seq<Value>, v: Value, rest: Reading<seq<Value>>)
    ensures After(read + [v], rest) == After(read, Cons(Ok(v), rest))
    ensures After([], rest) == rest
  {
    if rest.Ok? {
      assert read + [v] + rest.value.0 == read + ([v] + rest.value.0);
      assert [] + rest.value.0 == rest.value.0;
    }
  }

  method ReadArg(p: char, buf: seq<byte>, offset: nat) returns (r: Reading<Value>)
    ensures r == DecodeArg(p, buf, offset)
  {
    hide DecodeTable, DecodeArray, Widen, IsText;
    if p == 'F' {
      r := ReadTable(buf, offset);
    } else if p == 'A' {
      r := ReadArray(buf, offset);
    } else {
      r := DecodeArg(p, buf, offset);
    }
  }
}
