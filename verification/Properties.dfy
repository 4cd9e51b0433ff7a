/** The property flags and property list of a content header: a generic serializer against an unrolled decoder. */
module Properties {
  import opened Octets
  import opened Tables
  import opened TableProofs
  import opened Arguments
  import opened ArgumentMeaning
  import opened Codec

  /** The names of the properties of a basic message. */
  datatype Property =
    | ContentType | ContentEncoding | ApplicationHeaders | DeliveryMode | Priority | CorrelationId | ReplyTo
    | Expiration | MessageId | Timestamp | Type | UserId | AppId | ClusterId

  /** Their order on the wire. */
  function Key(i: nat): Property
    requires i < 14
  {
    match i
    case 0 => ContentType
    case 1 => ContentEncoding
    case 2 => ApplicationHeaders
    case 3 => DeliveryMode
    case 4 => Priority
    case 5 => CorrelationId
    case 6 => ReplyTo
    case 7 => Expiration
    case 8 => MessageId
    case 9 => Timestamp
    case 10 => Type
    case 11 => UserId
    case 12 => AppId
    case _ => ClusterId
  }

  /** The format character of each. */
  function Kind(i: nat): char
    requires i < 14
  {
    if i == 2 then 'F' else if i == 3 || i == 4 then 'o' else if i == 9 then 'L' else 's'
  }

  type Props = map<Property, Value>

  predicate Present(props: Props, i: nat)
    requires i < 14
  {
    Key(i) in props && props[Key(i)] != Void
  }

  /** No property is a bit, a time or a byte array, so no argument touches the bits of another. */
  lemma PropertyTable()
    ensures forall i: nat :: i < 14 ==> Kind(i) == 's' || Kind(i) == 'F' || Kind(i) == 'o' || Kind(i) == 'L'
    ensures forall i: nat, j: nat :: i < j < 14 ==> Key(i) != Key(j)
  {
  }

  // ---------------------------------------------------------------- what is written

  /** The formats and the values of the properties present from the `i`-th on. */
  function Formats(props: Props, i: nat): (fmt: string)
    requires i <= 14
    decreases 14 - i
  {
    if i == 14 then "" else (if Present(props, i) then [Kind(i)] else []) + Formats(props, i + 1)
  }

  function Values(props: Props, i: nat): (vals: seq<Value>)
    requires i <= 14
    ensures |vals| == |Formats(props, i)|
    decreases 14 - i
  {
    if i == 14 then [] else (if Present(props, i) then [props[Key(i)]] else []) + Values(props, i + 1)
  }

  /** The flag word when the first `i` properties have been looked at. */
  function Flags(props: Props, i: nat): nat
    requires i <= 14
  {
    if i == 0 then 0
    else if Present(props, i - 1) then SetBit(Flags(props, i - 1), 16 - i)
    else Flags(props, i - 1)
  }

  /** Bit 15 - i of the flag word is set exactly if property i is present; the last two bits, of which the lowest would
      announce another flag word, never are. */
  lemma {:induction false} FlagBits(props: Props, i: nat)
    requires i <= 14
    ensures Flags(props, i) < Pow2(16)
    ensures forall k: nat :: k <= 15 ==>
      (GetBit(Flags(props, i), k) <==> 2 <= k && 15 - k < i && Present(props, 15 - k))
  {
    hide Present, GetBit, SetBit, Pow2;
    if i == 0 {
      Pow2Values();
      forall k: nat { ZeroBits(k); }
    } else {
      var before := Flags(props, i - 1);
      FlagBits(props, i - 1);
      SetBitBound(before, 16 - i, 16);
      forall k: nat { GetSetBit(before, 16 - i, k); }
    }
  }

  lemma {:induction false} ZeroBits(k: nat)
    ensures !GetBit(0, k)
  {
    if k > 0 {
      ZeroBits(k - 1);
    }
  }

  function EncodeProperties(props: Props): Result<seq<byte>> {
    Prefixed(BigEndian(Flags(props, 14), 2), PropertyList(props, 0))
  }

  /** What can be written: values their formats can write. */
  lemma PropertiesWritten(props: Props)
    ensures EncodeProperties(props).Ok? <==>
      forall i: nat :: i < 14 && Present(props, i) ==> Writable(Kind(i), props[Key(i)])
  {
    PropertyListWritten(props, 0);
  }

  lemma {:induction false} PropertyListWritten(props: Props, i: nat)
    requires i <= 14
    ensures PropertyList(props, i).Ok? <==>
      forall j: nat :: i <= j < 14 && Present(props, j) ==> Writable(Kind(j), props[Key(j)])
    decreases 14 - i
  {
    ListEnd(props);
    hide PropertyList, Writable, Key, Kind;
    if i < 14 {
      ListStep(props, i);
      PropertyListWritten(props, i + 1);
      if Present(props, i) {
        WritableExactly(Kind(i), props[Key(i)]);
      }
    }
  }

  // ---------------------------------------------------------------- what is read

  /** The branch of one property: the properties so far and the offset behind them, after it. */
  function ReadFlagged(flags: nat, bit: nat, key: Property, kind: char, buf: seq<byte>, at: (Props, nat)):
      (r: Reading<Props>)
    ensures r.Ok? ==> at.1 <= r.value.1
  {
    if GetBit(flags, bit) then
      var (v, next) :- DecodeArg(kind, buf, at.1);
      Ok((at.0[key := v], next))
    else Ok(at)
  }

  /** The branches from the `i`-th on. */
  function DecodeFlagged(flags: nat, i: nat, buf: seq<byte>, at: (Props, nat)): (r: Reading<Props>)
    requires i <= 14
    ensures r.Ok? ==> at.1 <= r.value.1
    decreases 14 - i
  {
    if i == 14 then Ok(at)
    else
      var next :- ReadFlagged(flags, 15 - i, Key(i), Kind(i), buf, at);
      DecodeFlagged(flags, i + 1, buf, next)
  }

  function DecodeProperties(buf: seq<byte>, offset: nat): (r: Reading<Props>)
    ensures r.Ok? ==> offset <= r.value.1
  {
    var flags :- Unpack(buf, offset, 2);
    DecodeFlagged(flags, 0, buf, (map[], offset + 2))
  }

  // ---------------------------------------------------------------- round trip

  function RereadProperty(props: Props, i: nat, read: Props): Result<Props>
    requires i < 14
  {
    if Present(props, i) then
      var v :- RereadArg(Kind(i), props[Key(i)]);
      Ok(read[Key(i) := v])
    else Ok(read)
  }

  /** The properties present from the `i`-th on, as they come back, added to `read`. */
  function RereadProperties(props: Props, i: nat, read: Props): Result<Props>
    requires i <= 14
    decreases 14 - i
  {
    if i == 14 then Ok(read)
    else
      var more :- RereadProperty(props, i, read);
      RereadProperties(props, i + 1, more)
  }

  /** The octets of the properties present from the `i`-th on. */
  function PropertyList(props: Props, i: nat): Result<seq<byte>>
    requires i <= 14
  {
    EncodeAll(Formats(props, i), Values(props, i))
  }

  /** The list from the `i`-th property on: its own octets, if present, then the rest. */
  lemma ListStep(props: Props, i: nat)
    requires i < 14
    ensures var whole, rest := PropertyList(props, i), PropertyList(props, i + 1);
      if !Present(props, i) then whole == rest
      else Known(Kind(i)) && Kind(i) != 'b' && whole == (var s :- EncodeArg(Kind(i), props[Key(i)]); Prefixed(s, rest))
  {
    hide EncodeArg, Key;
    var fmt, vals := Formats(props, i + 1), Values(props, i + 1);
    if Present(props, i) {
      var s := EncodeArg(Kind(i), props[Key(i)]);
      assert ([Kind(i)] + fmt)[1..] == fmt && ([props[Key(i)]] + vals)[1..] == vals;
      if s.Ok? {
        assert [] + s.value == s.value;
      }
    } else {
      assert [] + fmt == fmt && [] + vals == vals;
    }
  }

  predicate FlagsOf(flags: nat, props: Props) {
    forall k: nat :: 2 <= k <= 15 ==> (GetBit(flags, k) <==> Present(props, 15 - k))
  }

  lemma PropertyRoundTrip(props: Props, flags: nat, i: nat, buf: seq<byte>, offset: nat, read: Props)
    requires i < 14 && FlagsOf(flags, props)
    requires PropertyList(props, i).Ok? && At(buf, offset, PropertyList(props, i).value)
    ensures PropertyList(props, i + 1).Ok?
    ensures var end := offset + |PropertyList(props, i).value| - |PropertyList(props, i + 1).value|;
      end >= offset && At(buf, end, PropertyList(props, i + 1).value)
      && ReadFlagged(flags, 15 - i, Key(i), Kind(i), buf, (read, offset)) == Until(RereadProperty(props, i, read), end)
  {
    hide DecodeArg, EncodeArg, RereadArg, GetBit, Key, Kind, PropertyList, Known;
    ListStep(props, i);
    assert GetBit(flags, 15 - i) <==> Present(props, i);
    if Present(props, i) {
      AtSplit(buf, offset, EncodeArg(Kind(i), props[Key(i)]).value, PropertyList(props, i + 1).value);
      ArgRoundTrip(Kind(i), props[Key(i)], buf, offset);
    }
  }

  lemma ListEnd(props: Props)
    ensures PropertyList(props, 14) == Ok([])
  {
  }

  lemma {:induction false} ListRoundTrip(props: Props, flags: nat, i: nat, buf: seq<byte>, offset: nat, read: Props)
    requires i <= 14 && FlagsOf(flags, props)
    requires PropertyList(props, i).Ok? && At(buf, offset, PropertyList(props, i).value)
    ensures DecodeFlagged(flags, i, buf, (read, offset))
         == Until(RereadProperties(props, i, read), offset + |PropertyList(props, i).value|)
    decreases 14 - i
  {
    ListEnd(props);
    hide ReadFlagged, RereadProperty, FlagsOf, Key, Kind, PropertyList;
    if i < 14 {
      PropertyRoundTrip(props, flags, i, buf, offset, read);
      if RereadProperty(props, i, read).Ok? {
        var end := offset + |PropertyList(props, i).value| - |PropertyList(props, i + 1).value|;
        ListRoundTrip(props, flags, i + 1, buf, end, RereadProperty(props, i, read).value);
      }
    }
  }

  /** The decoder consumes exactly what the serializer wrote, and reads back the properties that were set. */
  lemma PropertiesRoundTrip(props: Props, buf: seq<byte>, offset: nat)
    requires EncodeProperties(props).Ok? && At(buf, offset, EncodeProperties(props).value)
    ensures DecodeProperties(buf, offset)
         == Until(RereadProperties(props, 0, map[]), offset + |EncodeProperties(props).value|)
  {
    hide PropertyList, DecodeFlagged, RereadProperties, Flags, Number, Pow256, Pow2, GetBit, Present;
    var flags, list := Flags(props, 14), PropertyList(props, 0).value;
    Pow256Values();
    Pow2Values();
    FlagBits(props, 14);
    NumberOfBigEndian(flags, 2);
    hide BigEndian;
    AtSplit(buf, offset, BigEndian(flags, 2), list);
    UnpackAt(buf, offset, BigEndian(flags, 2));
    ListRoundTrip(props, flags, 0, buf, offset + 2, map[]);
  }

  /** What comes back: under each name, its own value as its format carries it, and nothing else. */
  lemma {:induction false} RereadContents(props: Props, i: nat, read: Props)
    requires i <= 14 && RereadProperties(props, i, read).Ok?
    ensures var back := RereadProperties(props, i, read).value;
      && (forall j: nat :: i <= j < 14 && Present(props, j) ==>
            Key(j) in back && RereadArg(Kind(j), props[Key(j)]) == Ok(back[Key(j)]))
      && (forall k :: k in back <==> k in read || exists j: nat :: i <= j < 14 && Present(props, j) && Key(j) == k)
      && (forall k :: k in read && (forall j: nat :: i <= j < 14 ==> Key(j) != k) ==> back[k] == read[k])
    decreases 14 - i
  {
    PropertyTable();
    hide RereadArg, Key, Kind;
    if i < 14 {
      if Present(props, i) {
        var v := RereadArg(Kind(i), props[Key(i)]).value;
        RereadContents(props, i + 1, read[Key(i) := v]);
      } else {
        RereadContents(props, i + 1, read);
      }
    }
  }

  /** The properties that are set, as they are. */
  function Given(props: Props): Props {
    map k | k in props && props[k] != Void :: props[k]
  }

  lemma {:induction false} KeyOf(k: Property) returns (i: nat)
    ensures i < 14 && Key(i) == k
  {
    match k {
      case ContentType => i := 0;
      case ContentEncoding => i := 1;
      case ApplicationHeaders => i := 2;
      case DeliveryMode => i := 3;
      case Priority => i := 4;
      case CorrelationId => i := 5;
      case ReplyTo => i := 6;
      case Expiration => i := 7;
      case MessageId => i := 8;
      case Timestamp => i := 9;
      case Type => i := 10;
      case UserId => i := 11;
      case AppId => i := 12;
      case ClusterId => i := 13;
    }
  }

  /** Every property that is set has a value its format gives back: text, a whole number, or a normal table. */
  ghost predicate AllFaithful(props: Props) {
    forall i: nat :: i < 14 && Present(props, i) ==> Faithful(Kind(i), props[Key(i)])
  }

  /** The properties come back exactly as they were set if and only if all their values are faithful. */
  lemma PropertiesExactly(props: Props)
    ensures RereadProperties(props, 0, map[]) == Ok(Given(props)) <==> AllFaithful(props)
  {
    PropertyTable();
    hide RereadArg, Key, Kind, Faithful, RereadProperties;
    forall i: nat | i < 14 && Present(props, i)
      ensures RereadArg(Kind(i), props[Key(i)]) == Ok(props[Key(i)]) <==> Faithful(Kind(i), props[Key(i)])
    {
      PropertyTable();
      FaithfulExactly(Kind(i), props[Key(i)]);
    }
    if AllFaithful(props) {
      RereadSucceeds(props, 0, map[]);
    }
    if RereadProperties(props, 0, map[]).Ok? {
      RereadContents(props, 0, map[]);
      var back := RereadProperties(props, 0, map[]).value;
      forall k: Property ensures k in back <==> k in Given(props) {
        var i := KeyOf(k);
      }
      if AllFaithful(props) {
        forall k | k in back ensures back[k] == props[k] {
          var i := KeyOf(k);
        }
        assert back == Given(props);
      } else {
        var i: nat :| i < 14 && Present(props, i) && !Faithful(Kind(i), props[Key(i)]);
        assert back[Key(i)] != props[Key(i)];
      }
    }
  }

  lemma {:induction false} RereadSucceeds(props: Props, i: nat, read: Props)
    requires i <= 14
    ensures RereadProperties(props, i, read).Ok? <==>
      forall j: nat :: i <= j < 14 && Present(props, j) ==> RereadArg(Kind(j), props[Key(j)]).Ok?
    decreases 14 - i
  {
    hide RereadArg, Key, Kind;
    if i < 14 && RereadProperty(props, i, read).Ok? {
      RereadSucceeds(props, i + 1, RereadProperty(props, i, read).value);
    }
  }

  /** What can be read back: values their formats can read back. */
  lemma PropertiesLegible(props: Props)
    ensures RereadProperties(props, 0, map[]).Ok? <==>
      forall i: nat :: i < 14 && Present(props, i) ==> Legible(Kind(i), props[Key(i)])
  {
    RereadSucceeds(props, 0, map[]);
    hide RereadArg, Key, Legible, RereadProperties;
    forall i: nat | i < 14 && Present(props, i)
      ensures RereadArg(Kind(i), props[Key(i)]).Ok? <==> Legible(Kind(i), props[Key(i)])
    {
      PropertyTable();
      LegibleExactly(Kind(i), props[Key(i)]);
    }
  }

  // ---------------------------------------------------------------- the loops

  /** The formats and the values from the `i`-th property on: its own, if present, then the rest. */
  lemma FormatsStep(props: Props, i: nat)
    requires i < 14
    ensures Formats(props, i)
         == if Present(props, i) then [Kind(i)] + Formats(props, i + 1) else Formats(props, i + 1)
    ensures Values(props, i)
         == if Present(props, i) then [props[Key(i)]] + Values(props, i + 1) else Values(props, i + 1)
  {
    hide Key, Kind;
    var fmt, vals := Formats(props, i + 1), Values(props, i + 1);
    assert [] + fmt == fmt && [] + vals == vals;
  }

  lemma Regroup<T>(a: seq<T>, x: T, b: seq<T>)
    ensures a + ([x] + b) == a + [x] + b
  {
  }

  lemma GatherStep(props: Props, i: nat, format: string, values: seq<Value>)
    requires i < 14
    ensures format + Formats(props, i)
         == (if Present(props, i) then format + [Kind(i)] else format) + Formats(props, i + 1)
    ensures values + Values(props, i)
         == (if Present(props, i) then values + [props[Key(i)]] else values) + Values(props, i + 1)
  {
    FormatsStep(props, i);
    if Present(props, i) {
      Regroup(format, Kind(i), Formats(props, i + 1));
      Regroup(values, props[Key(i)], Values(props, i + 1));
    }
    hide Key, Kind, Present, Formats, Values;
  }

  /** `_serialize_properties`. With fourteen properties the shift never reaches zero, so there is one flag word. */
  method SerializeProperties(props: Props) returns (r: Result<seq<byte>>)
    ensures r == EncodeProperties(props)
  {
    hide Key, Kind, EncodeAll, BigEndian, SetBit, Formats, Values;
    var shift, flags := 15, 0;
    var format: string, values: seq<Value> := "", [];
    for i := 0 to 14
      invariant shift == 15 - i && flags == Flags(props, i)
      invariant format + Formats(props, i) == "" + Formats(props, 0)
      invariant values + Values(props, i) == [] + Values(props, 0)
    {
      GatherStep(props, i, format, values);
      if Key(i) in props && props[Key(i)] != Void {
        flags := SetBit(flags, shift);
        format, values := format + [Kind(i)], values + [props[Key(i)]];
      }
      shift := shift - 1;
    }
    GatherEnd(props, format, values);
    var list :- Dumps(format, values);
    r := Ok(BigEndian(flags, 2) + list);
  }

  lemma GatherEnd(props: Props, format: string, values: seq<Value>)
    ensures format + Formats(props, 14) == format && values + Values(props, 14) == values
    ensures "" + Formats(props, 0) == Formats(props, 0) && [] + Values(props, 0) == Values(props, 0)
  {
  }

  /** One branch of `decode_properties_basic`. */
  method ReadProperty(flags: nat, bit: nat, key: Property, kind: char, buf: seq<byte>, at: (Props, nat))
      returns (r: Reading<Props>)
    ensures r == ReadFlagged(flags, bit, key, kind, buf, at)
  {
    hide DecodeArg, GetBit;
    if GetBit(flags, bit) {
      var item :- ReadArg(kind, buf, at.1);
      r := Ok((at.0[key := item.0], item.1));
    } else {
      r := Ok(at);
    }
  }

  lemma Branch(flags: nat, i: nat, key: Property, kind: char, buf: seq<byte>, at: (Props, nat))
    requires i < 14 && key == Key(i) && kind == Kind(i)
    ensures DecodeFlagged(flags, i, buf, at)
         == (var next :- ReadFlagged(flags, 15 - i, key, kind, buf, at); DecodeFlagged(flags, i + 1, buf, next))
  {
  }

  lemma LastBranch(flags: nat, buf: seq<byte>, at: (Props, nat))
    ensures DecodeFlagged(flags, 14, buf, at) == Ok(at)
  {
  }

  lemma PropertyOrder()
    ensures Key(0) == ContentType && Kind(0) == 's'
    ensures Key(1) == ContentEncoding && Kind(1) == 's'
    ensures Key(2) == ApplicationHeaders && Kind(2) == 'F'
    ensures Key(3) == DeliveryMode && Kind(3) == 'o'
    ensures Key(4) == Priority && Kind(4) == 'o'
    ensures Key(5) == CorrelationId && Kind(5) == 's'
    ensures Key(6) == ReplyTo && Kind(6) == 's'
    ensures Key(7) == Expiration && Kind(7) == 's'
    ensures Key(8) == MessageId && Kind(8) == 's'
    ensures Key(9) == Timestamp && Kind(9) == 'L'
    ensures Key(10) == Type && Kind(10) == 's'
    ensures Key(11) == UserId && Kind(11) == 's'
    ensures Key(12) == AppId && Kind(12) == 's'
    ensures Key(13) == ClusterId && Kind(13) == 's'
  {
  }

  /** `decode_properties_basic`, unrolled. */
  method DecodePropertiesBasic(buf: seq<byte>, start: nat) returns (r: Reading<Props>)
    ensures r == DecodeProperties(buf, start)
  {
    PropertyOrder();
    hide ReadFlagged, DecodeFlagged, Key, Kind;
    var flags :- Unpack(buf, start, 2);
    var at: (Props, nat) := (map[], start + 2);
    Branch(flags, 0, ContentType, 's', buf, at);
    at :- ReadProperty(flags, 15, ContentType, 's', buf, at);
    Branch(flags, 1, ContentEncoding, 's', buf, at);
    at :- ReadProperty(flags, 14, ContentEncoding, 's', buf, at);
    Branch(flags, 2, ApplicationHeaders, 'F', buf, at);
    at :- ReadProperty(flags, 13, ApplicationHeaders, 'F', buf, at);
    Branch(flags, 3, DeliveryMode, 'o', buf, at);
    at :- ReadProperty(flags, 12, DeliveryMode, 'o', buf, at);
    Branch(flags, 4, Priority, 'o', buf, at);
    at :- ReadProperty(flags, 11, Priority, 'o', buf, at);
    Branch(flags, 5, CorrelationId, 's', buf, at);
    at :- ReadProperty(flags, 10, CorrelationId, 's', buf, at);
    Branch(flags, 6, ReplyTo, 's', buf, at);
    at :- ReadProperty(flags, 9, ReplyTo, 's', buf, at);
    Branch(flags, 7, Expiration, 's', buf, at);
    at :- ReadProperty(flags, 8, Expiration, 's', buf, at);
    Branch(flags, 8, MessageId, 's', buf, at);
    at :- ReadProperty(flags, 7, MessageId, 's', buf, at);
    Branch(flags, 9, Timestamp, 'L', buf, at);
    at :- ReadProperty(flags, 6, Timestamp, 'L', buf, at);
    Branch(flags, 10, Type, 's', buf, at);
    at :- ReadProperty(flags, 5, Type, 's', buf, at);
    Branch(flags, 11, UserId, 's', buf, at);
    at :- ReadProperty(flags, 4, UserId, 's', buf, at);
    Branch(flags, 12, AppId, 's', buf, at);
    at :- ReadProperty(flags, 3, AppId, 's', buf, at);
    Branch(flags, 13, ClusterId, 's', buf, at);
    at :- ReadProperty(flags, 2, ClusterId, 's', buf, at);
    LastBranch(flags, buf, at);
    r := Ok(at);
  }
}
