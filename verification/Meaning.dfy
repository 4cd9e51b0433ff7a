/** Field values in plain terms: which can be written and at what length, what each tag is read as, and that what
    comes back means the same. */
module Meaning {
  import opened Octets
  import opened Floats
  import opened Tables
  import opened TableProofs

  // ---------------------------------------------------------------- decimals

  lemma {:induction false} Pow10Sum(j: nat, k: nat)
    ensures Pow10(j + k) == Pow10(j) * Pow10(k)
  {
    if j > 0 {
      Pow10Sum(j - 1, k);
    }
  }

  /** A decimal read is the number written: no more than `places` decimal places, and n / 10^places in value. */
  lemma {:induction false} QuotientValue(n: int, places: nat)
    ensures var q := Quotient(n, places);
      q.Dec? && 0 - places <= q.exponent <= 0 && q.coefficient * Pow10(places + q.exponent) == n
    decreases places
  {
    if places > 0 && n % 10 == 0 {
      QuotientValue(n / 10, places - 1);
      var q := Quotient(n, places);
      var k := places + q.exponent;
      assert Pow10(k) == 10 * Pow10(k - 1);
      Tenfold(q.coefficient, Pow10(k - 1));
      assert n == 10 * (n / 10);
    } else {
      assert Pow10(0) == 1;
    }
  }

  lemma Tenfold(c: int, p: nat)
    ensures c * (10 * p) == 10 * (c * p)
  {
  }

  /** c * 10^e and c' * 10^e' are the same number. */
  predicate SameNumber(c: int, e: int, c': int, e': int)
    requires e <= 0 && e' <= 0
  {
    c * Pow10(-e') == c' * Pow10(-e)
  }

  lemma QuotientSame(c: int, e: int)
    requires e <= 0
    ensures var q := Quotient(c, -e); q.Dec? && q.exponent <= 0 && SameNumber(c, e, q.coefficient, q.exponent)
  {
    QuotientValue(c, -e);
    var q := Quotient(c, -e);
    Pow10Sum(-e + q.exponent, -q.exponent);
    MulAssoc(q.coefficient, Pow10(-e + q.exponent), Pow10(-q.exponent));
  }

  // ---------------------------------------------------------------- what comes back means the same

  function Find(es: seq<Entry>, key: seq<byte>): Option<Value> {
    if es == [] then None else if es[0].key == key then Some(es[0].value) else Find(es[1..], key)
  }

  function KeysOf(es: seq<Entry>): seq<seq<byte>> {
    if es == [] then [] else [es[0].key] + KeysOf(es[1..])
  }

  /** The keys of a dict after further assignments: each key where it was first assigned to. */
  function AddKeys(keys: seq<seq<byte>>, es: seq<Entry>): seq<seq<byte>>
    decreases |es|
  {
    if es == [] then keys
    else AddKeys(if es[0].key in keys then keys else keys + [es[0].key], es[1..])
  }

  /** An assignment changes what stands under its own key, which keeps its place or goes last. */
  lemma {:induction false} SetEntryAssigns(es: seq<Entry>, key: seq<byte>, v: Value, k: seq<byte>)
    ensures Find(SetEntry(es, key, v), k) == if k == key then Some(v) else Find(es, k)
    ensures KeysOf(SetEntry(es, key, v)) == if key in KeysOf(es) then KeysOf(es) else KeysOf(es) + [key]
  {
    var after := SetEntry(es, key, v);
    if es == [] {
      assert after[1..] == [];
    } else if es[0].key == key {
      assert after[1..] == es[1..];
    } else {
      SetEntryAssigns(es[1..], key, v, k);
      assert after[1..] == SetEntry(es[1..], key, v);
      assert KeysOf(es) + [key] == [es[0].key] + (KeysOf(es[1..]) + [key]);
    }
  }

  /** `w` is `v` as a peer gets it: octets that are text as text, the same number, the same second, the same items, and
      in a table under each key the value that was last given for it. */
  ghost predicate Same(v: Value, w: Value)
    decreases v
  {
    match v
    case Bytes(o) => w == if IsText(o) then Text(o) else v
    case Dec(c, e) => w.Dec? && e <= 0 && w.exponent <= 0 && SameNumber(c, e, w.coefficient, w.exponent)
    case Time(s, _) => w == Time(s, 0)
    case Array(vs) => w.Array? && |w.items| == |vs| && forall i :: 0 <= i < |vs| ==> Same(vs[i], w.items[i])
    case Table(es) =>
      && w.Table? && KeysOf(w.entries) == AddKeys([], es)
      && forall i :: 0 <= i < |es| && !HasKey(es[i + 1..], es[i].key) ==>
           var found := Find(w.entries, es[i].key); found.Some? && Same(es[i].value, found.value)
    case Foreign => false
    case _ => w == v
  }

  /** Everything can be read back but a key that is not text. */
  predicate Readable(v: Value)
    decreases v
  {
    match v
    case Dec(_, e) => e <= 0
    case Array(vs) => forall i :: 0 <= i < |vs| ==> Readable(vs[i])
    case Table(es) => forall i :: 0 <= i < |es| ==> IsText(es[i].key) && Readable(es[i].value)
    case Foreign => false
    case _ => true
  }

  lemma {:induction false} RereadSame(v: Value)
    ensures Reread(v).Ok? <==> Readable(v)
    ensures Reread(v).Ok? ==> Same(v, Reread(v).value)
    decreases v, 1
  {
    hide IsText;
    match v {
      case Array(vs) =>
        ItemsSame(vs, []);
      case Table(es) =>
        EntriesSame(es, []);
      case Dec(c, e) =>
        if e <= 0 {
          QuotientSame(c, e);
        }
      case _ =>
    }
  }

  lemma {:induction false} ItemsSame(vs: seq<Value>, read: seq<Value>)
    ensures RereadItems(vs, read).Ok? <==> forall i :: 0 <= i < |vs| ==> Readable(vs[i])
    ensures RereadItems(vs, read).Ok? ==>
      var all := RereadItems(vs, read).value;
      && |all| == |read| + |vs| && read <= all
      && forall i :: 0 <= i < |vs| ==> Same(vs[i], all[|read| + i])
    decreases vs, 0
  {
    hide Same, Reread, Readable;
    if vs != [] {
      RereadSame(vs[0]);
      assert forall i :: 0 <= i < |vs| ==> vs[i] == if i == 0 then vs[0] else vs[1..][i - 1];
      if Reread(vs[0]).Ok? {
        var more := read + [Reread(vs[0]).value];
        ItemsSame(vs[1..], more);
        if RereadItems(vs, read).Ok? {
          var all := RereadItems(vs, read).value;
          assert all[|read|] == more[|read|];
          forall i | 0 <= i < |vs| ensures Same(vs[i], all[|read| + i]) {
            if i > 0 {
              assert all[|more| + (i - 1)] == all[|read| + i];
            }
          }
        } else {
          var i :| 0 <= i < |vs[1..]| && !Readable(vs[1..][i]);
          assert vs[i + 1] == vs[1..][i];
        }
      }
    }
  }

  lemma {:induction false} EntriesSame(es: seq<Entry>, read: seq<Entry>)
    ensures RereadEntries(es, read).Ok? <==>
      forall i :: 0 <= i < |es| ==> IsText(es[i].key) && Readable(es[i].value)
    ensures RereadEntries(es, read).Ok? ==>
      var all := RereadEntries(es, read).value;
      && KeysOf(all) == AddKeys(KeysOf(read), es)
      && (forall k :: !HasKey(es, k) ==> Find(all, k) == Find(read, k))
      && forall i :: 0 <= i < |es| && !HasKey(es[i + 1..], es[i].key) ==>
           var found := Find(all, es[i].key); found.Some? && Same(es[i].value, found.value)
    decreases es, 0
  {
    hide Same, Reread, Readable, IsText;
    if es != [] {
      var key := es[0].key;
      RereadSame(es[0].value);
      if IsText(key) && Reread(es[0].value).Ok? {
        var v := Reread(es[0].value).value;
        var more := SetEntry(read, key, v);
        forall k { SetEntryAssigns(read, key, v, k); }
        SetEntryAssigns(read, key, v, key);
        EntriesSame(es[1..], more);
        if RereadEntries(es, read).Ok? {
          var all := RereadEntries(es, read).value;
          forall i | 0 <= i < |es| && !HasKey(es[i + 1..], es[i].key)
            ensures var found := Find(all, es[i].key); found.Some? && Same(es[i].value, found.value)
          {
            if i > 0 {
              assert es[i] == es[1..][i - 1] && es[i + 1..] == es[1..][i..];
            }
          }
          assert forall i :: 1 <= i < |es| ==> es[i] == es[1..][i - 1];
        } else {
          var i :| 0 <= i < |es[1..]| && !(IsText(es[1..][i].key) && Readable(es[1..][i].value));
          assert es[i + 1] == es[1..][i];
        }
      }
    }
  }

  // ---------------------------------------------------------------- what can be written, and how long it is

  function Size(v: Value): nat
    decreases v, 1
  {
    match v
    case Text(o) => 5 + |o|
    case Bytes(o) => 5 + |o|
    case Bool(_) => 2
    case Int(n) => if -0x8000_0000 < n < 0x8000_0000 then 5 else 9
    case Double(_) => 9
    case Dec(_, _) => 6
    case Time(_, _) => 9
    case Table(es) => 5 + EntriesSize(es)
    case Array(vs) => 5 + ItemsSize(vs)
    case Void => 1
    case Foreign => 0
  }

  function EntriesSize(es: seq<Entry>): nat
    decreases es, 0
  {
    if es == [] then 0 else 1 + |es[0].key| + Size(es[0].value) + EntriesSize(es[1..])
  }

  function ItemsSize(vs: seq<Value>): nat
    decreases vs, 0
  {
    if vs == [] then 0 else Size(vs[0]) + ItemsSize(vs[1..])
  }

  /** Strings, tables and arrays shorter than 2^32 octets, keys of up to 255, integers of 64 bits, decimals of 32 bits
      with up to 255 places, times since 1970. */
  predicate Encodable(v: Value)
    decreases v
  {
    match v
    case Text(o) => |o| < 0x1_0000_0000
    case Bytes(o) => |o| < 0x1_0000_0000
    case Int(n) => -0x8000_0000_0000_0000 <= n < 0x8000_0000_0000_0000
    case Dec(c, e) => -255 <= e <= 0 && -0x8000_0000 <= c < 0x8000_0000
    case Time(s, _) => s >= 0
    case Table(es) =>
      && (forall i :: 0 <= i < |es| ==> |es[i].key| <= 255 && Encodable(es[i].value))
      && EntriesSize(es) < 0x1_0000_0000
    case Array(vs) => (forall i :: 0 <= i < |vs| ==> Encodable(vs[i])) && ItemsSize(vs) < 0x1_0000_0000
    case Foreign => false
    case _ => true
  }

  lemma {:induction false} EncodableExactly(v: Value)
    ensures EncodeItem(v).Ok? <==> Encodable(v)
    ensures EncodeItem(v).Ok? ==> |EncodeItem(v).value| == Size(v)
    decreases v, 1
  {
    Pow256Values();
    hide Number, Pow256, BigEndian, EncodeEntries, EncodeItems, EntriesSize, ItemsSize;
    match v {
      case Table(es) =>
        EntriesEncodable(es);
      case Array(vs) =>
        ItemsEncodable(vs);
      case _ =>
    }
  }

  lemma {:induction false} EntriesEncodable(es: seq<Entry>)
    ensures EncodeEntries(es).Ok? <==> forall i :: 0 <= i < |es| ==> |es[i].key| <= 255 && Encodable(es[i].value)
    ensures EncodeEntries(es).Ok? ==> |EncodeEntries(es).value| == EntriesSize(es)
    decreases es, 0
  {
    Pow256Values();
    hide EncodeItem, Encodable, Size, Number, Pow256, BigEndian;
    if es != [] {
      EncodableExactly(es[0].value);
      EntriesEncodable(es[1..]);
      assert forall i :: 0 <= i < |es[1..]| ==> es[1..][i] == es[i + 1];
      assert forall i :: 0 <= i < |es| ==> es[i] == if i == 0 then es[0] else es[1..][i - 1];
    }
  }

  lemma {:induction false} ItemsEncodable(vs: seq<Value>)
    ensures EncodeItems(vs).Ok? <==> forall i :: 0 <= i < |vs| ==> Encodable(vs[i])
    ensures EncodeItems(vs).Ok? ==> |EncodeItems(vs).value| == ItemsSize(vs)
    decreases vs, 0
  {
    hide EncodeItem, Encodable, Size;
    if vs != [] {
      EncodableExactly(vs[0]);
      ItemsEncodable(vs[1..]);
      assert forall i :: 0 <= i < |vs[1..]| ==> vs[1..][i] == vs[i + 1];
      assert forall i :: 0 <= i < |vs| ==> vs[i] == if i == 0 then vs[0] else vs[1..][i - 1];
    }
  }

  // ---------------------------------------------------------------- what each tag is read as

  /** A string with a four-octet length: at the end of the buffer it is as long as what is left, while the offset moves
      on as far as the length says. Under 'S' it is text if it can be, under 'x' never. */
  lemma StringRead(buf: seq<byte>, offset: nat)
    requires offset + 5 <= |buf| && (buf[offset] == Tag('S') || buf[offset] == Tag('x'))
    ensures var n := Number(buf[offset + 1..offset + 5]);
      var s := if offset + 5 + n <= |buf| then buf[offset + 5..offset + 5 + n] else buf[offset + 5..];
      DecodeItem(buf, offset)
      == Ok((if buf[offset] == Tag('S') && IsText(s) then Text(s) else Bytes(s), offset + 5 + n))
  {
    hide IsText, Number, Pow256;
    assert buf[offset + 1..offset + 1 + 4] == buf[offset + 1..offset + 5];
    assert |buf| == offset + 5 ==> buf[offset + 5..] == [];
  }

  lemma ShortStringRead(buf: seq<byte>, offset: nat)
    requires offset + 2 <= |buf| && buf[offset] == Tag('s')
    ensures var n := buf[offset + 1];
      var s := if offset + 2 + n <= |buf| then buf[offset + 2..offset + 2 + n] else buf[offset + 2..];
      DecodeItem(buf, offset) == if IsText(s) then Ok((Text(s), offset + 2 + n)) else Err(BadText)
  {
    assert buf[offset + 1..offset + 1 + 1] == [buf[offset + 1]];
    assert Number([buf[offset + 1]]) == buf[offset + 1] by { OneOctet(buf[offset + 1]); }
    hide IsText, Number, Pow256;
    assert |buf| == offset + 2 ==> buf[offset + 2..] == [];
  }

  lemma OneOctet(b: byte)
    ensures Number([b]) == b
  {
    assert [b][..0] == [];
  }

  /** A single octet is a truth value; an octet of places and a signed word are a decimal of that value. */
  lemma BoolRead(buf: seq<byte>, offset: nat)
    requires offset + 2 <= |buf| && buf[offset] == Tag('t')
    ensures DecodeItem(buf, offset) == Ok((Bool(buf[offset + 1] != 0), offset + 2))
  {
    assert buf[offset + 1..offset + 1 + 1] == [buf[offset + 1]];
    OneOctet(buf[offset + 1]);
    hide Number, Pow256;
  }

  lemma DecimalRead(buf: seq<byte>, offset: nat)
    requires offset + 6 <= |buf| && buf[offset] == Tag('D')
    ensures var places, n := buf[offset + 1], Signed(Number(buf[offset + 2..offset + 6]), 4);
      var r := DecodeItem(buf, offset);
      && r.Ok? && r.value.1 == offset + 6 && r.value.0.Dec?
      && var (c, e) := (r.value.0.coefficient, r.value.0.exponent);
         -places <= e <= 0 && c * Pow10(places + e) == n && (e == 0 || c % 10 != 0)
  {
    var places, n := buf[offset + 1], Signed(Number(buf[offset + 2..offset + 6]), 4);
    assert buf[offset + 1..offset + 1 + 1] == [places];
    OneOctet(places);
    assert buf[offset + 2..offset + 2 + 4] == buf[offset + 2..offset + 6];
    QuotientValue(n, places);
    QuotientNormal(n, places);
    assert Normal(Quotient(n, places), false);
    assert DecodeItem(buf, offset) == Ok((Quotient(n, places), offset + 6)) by {
      hide Number, Pow256, Signed, Quotient;
    }
    hide DecodeItem, Number, Pow256, Signed, Quotient;
  }

  /** A word of eight octets is a float, or a time up to the year 9999; one of four, a float of single precision. */
  lemma WordRead(buf: seq<byte>, offset: nat)
    requires offset + 9 <= |buf|
    ensures var n := Number(buf[offset + 1..offset + 9]);
      && n < U64
      && (buf[offset] == Tag('d') ==> DecodeItem(buf, offset) == Ok((Double(n), offset + 9)))
      && (buf[offset] == Tag('T') ==>
            DecodeItem(buf, offset) == if n <= 253402300799 then Ok((Time(n, 0), offset + 9)) else Err(BadTime))
  {
    assert buf[offset + 1..offset + 1 + 8] == buf[offset + 1..offset + 9];
    Pow256Values();
    hide Number, Pow256;
  }

  lemma SingleRead(buf: seq<byte>, offset: nat)
    requires offset + 5 <= |buf| && buf[offset] == Tag('f')
    ensures var n := Number(buf[offset + 1..offset + 5]);
      n < U32 && DecodeItem(buf, offset) == Ok((Double(Widen(n)), offset + 5))
  {
    assert buf[offset + 1..offset + 1 + 4] == buf[offset + 1..offset + 5];
    Pow256Values();
    hide Number, Pow256, Widen;
  }

  /** None takes no octets; and there are no other tags. */
  lemma OtherRead(buf: seq<byte>, offset: nat)
    requires offset < |buf|
    ensures buf[offset] == Tag('V') ==> DecodeItem(buf, offset) == Ok((Void, offset + 1))
    ensures !(exists c :: c in "FASsxbBUuIiLlfdDtTV" && buf[offset] == Tag(c)) ==>
      DecodeItem(buf, offset) == Err(UnknownTag)
  {
    hide Number, Pow256, IsText, Widen;
  }

  /** A table or an array ends with the first item that reaches its declared length, even if that runs past it. */
  lemma LastItem(buf: seq<byte>, offset: nat, limit: nat, read: seq<Value>)
    requires offset < limit && DecodeItem(buf, offset).Ok? && DecodeItem(buf, offset).value.1 >= limit
    ensures var (v, next) := DecodeItem(buf, offset).value;
      DecodeItems(buf, offset, limit, read) == Ok((read + [v], next))
  {
    hide DecodeItem;
    var next := DecodeItem(buf, offset).value.1;
    assert DecodeItems(buf, next, limit, read + [DecodeItem(buf, offset).value.0]).Ok?;
  }

  lemma OctetRead(buf: seq<byte>, offset: nat)
    requires offset < |buf|
    ensures Unpack(buf, offset, 1) == Ok(buf[offset])
  {
    assert buf[offset..offset + 1] == [buf[offset]];
    OneOctet(buf[offset]);
  }

  lemma LastEntry(buf: seq<byte>, offset: nat, limit: nat, read: seq<Entry>)
    requires offset < limit && offset < |buf|
    requires var at := offset + 1 + buf[offset];
      at <= |buf| && IsText(buf[offset + 1..at]) && DecodeItem(buf, at).Ok? && DecodeItem(buf, at).value.1 >= limit
    ensures var at := offset + 1 + buf[offset];
      var (v, next) := DecodeItem(buf, at).value;
      DecodeEntries(buf, offset, limit, read) == Ok((SetEntry(read, buf[offset + 1..at], v), next))
  {
    hide DecodeItem, IsText, SetEntry, Number, Pow256;
    OctetRead(buf, offset);
    var at := offset + 1 + buf[offset];
    assert Slice(buf, offset + 1, buf[offset]) == buf[offset + 1..at];
    var (v, next) := DecodeItem(buf, at).value;
    assert DecodeEntries(buf, next, limit, SetEntry(read, buf[offset + 1..at], v)).Ok?;
  }
}
