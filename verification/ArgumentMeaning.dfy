/** Method arguments in plain terms: what counts as true or as a number, which values each format character can carry,
    and which it gives back. */
module ArgumentMeaning {
  import opened Octets
  import opened Floats
  import opened Tables
  import opened TableProofs
  import opened Arguments
  import opened Meaning

  /** None, False, a number that is zero, or something empty. */
  predicate Falsy(v: Value) {
    match v
    case Text(o) => |o| == 0
    case Bytes(o) => |o| == 0
    case Bool(b) => b == false
    case Int(n) => n == 0
    case Double(w) => Finite(w) && Magnitude(w) == 0
    case Dec(c, _) => c == 0
    case Table(es) => |es| == 0
    case Array(vs) => |vs| == 0
    case Void => true
    case Time(_, _) => false
    case Foreign => false
  }

  lemma TruthyExactly(v: Value)
    ensures Truthy(v) <==> !Falsy(v)
  {
    if v.Double? {
      DoubleFields(v.word);
      hide Pow2;
      ZeroMagnitude(Significand(v.word), Pow2(Scale(v.word) - 1));
    }
  }

  lemma ZeroMagnitude(m: nat, p: nat)
    requires p > 0
    ensures m * p == 0 <==> m == 0
  {
    if m > 0 {
      Times(1, m, p);
    }
  }

  /** `int(val)`: a whole number is itself, a truth value 0 or 1, and anything else is cut off toward zero. */
  lemma IntOfValue(v: Value)
    ensures v.Int? ==> IntOf(v) == Ok(v.n)
    ensures v.Bool? ==> IntOf(v) == Ok(if v.b then 1 else 0)
    ensures v.Dec? && v.exponent >= 0 ==> IntOf(v) == Ok(v.coefficient * Pow10(v.exponent))
    ensures v.Dec? && v.exponent < 0 ==> IntOf(v).Ok? && TowardZero(IntOf(v).value, v.coefficient, Pow10(-v.exponent))
    ensures v.Double? && Finite(v.word) ==> IntOf(v).Ok? && TowardZero(IntOf(v).value,
      if v.word < 0x8000_0000_0000_0000 then Magnitude(v.word) else 0 - Magnitude(v.word), Pow2(1074))
    ensures v.Double? && !Finite(v.word) ==> IntOf(v).Err?
  {
    hide Pow2, Pow10, Magnitude, Finite, WholePart;
    if v.Dec? && v.exponent < 0 {
      ChoppedTowardZero(v.coefficient, Pow10(-v.exponent));
    } else if v.Double? {
      WholePartOf(v.word);
      var q: int, d: int := WholePart(v.word), Pow2(1074);
      assert (0 - q) * d == 0 - q * d && (0 - q - 1) * d == 0 - (q + 1) * d;
    }
  }

  /** `q` is `n / d` without what is behind the point. */
  predicate TowardZero(q: int, n: int, d: nat) {
    if n >= 0 then q * d <= n < (q + 1) * d else (q - 1) * d < n <= q * d
  }

  lemma ChoppedTowardZero(n: int, d: nat)
    requires d > 0
    ensures TowardZero(Chopped(n, d), n, d)
  {
    var m := if n >= 0 then n else -n;
    var q := m / d;
    assert m == q * d + m % d;
    assert (q + 1) * d == q * d + d && (-q) * d == -(q * d) && (-q - 1) * d == -((q + 1) * d);
  }

  // ---------------------------------------------------------------- what comes back

  /** A truth value under b, text under s and S, octets under x, a table or an array that is normal under F and A, the
      double of a single under f, whole seconds under T, and a whole number under the rest. */
  ghost predicate Faithful(p: char, v: Value) {
    match p
    case 'b' => v.Bool?
    case 's' => v.Text?
    case 'S' => v.Text?
    case 'x' => v.Bytes?
    case 'F' => v.Table? && Normal(v, true)
    case 'A' => v.Array? && Normal(v, true)
    case 'f' => v.Double? && exists s: word32 :: !Signalling(s) && Widen(s) == v.word
    case 'T' => v.Time? && v.micros == 0
    case _ => v.Int?
  }

  /** Those are the values that come back as they were, and no others. */
  lemma FaithfulExactly(p: char, v: Value)
    requires Known(p)
    ensures RereadArg(p, v) == Ok(v) <==> Faithful(p, v)
  {
    hide IsText, Narrow, Widen, Reread, Normal, Signalling;
    IntOfKept(v);
    hide IntOf;
    match p {
      case 'f' =>
        if v.Double? {
          NarrowExactly(v.word);
        }
      case 'F' =>
        if v.Table? {
          RereadExactly(v);
          assert OrEmptyTable(v) == Ok(v.entries);
        } else if OrEmptyTable(v).Ok? {
          TableStays(OrEmptyTable(v).value);
        }
      case 'A' =>
        if v.Array? {
          RereadExactly(v);
          assert OrEmptyArray(v) == Ok(v.items);
        } else if OrEmptyArray(v).Ok? {
          ArrayStays(OrEmptyArray(v).value);
        }
      case _ =>
    }
  }

  lemma IntOfKept(v: Value)
    ensures v.Int? ==> IntOf(v) == Ok(v.n)
  {
  }

  lemma TableStays(es: seq<Entry>)
    ensures Reread(Table(es)).Ok? ==> Reread(Table(es)).value.Table?
  {
  }

  lemma ArrayStays(vs: seq<Value>)
    ensures Reread(Array(vs)).Ok? ==> Reread(Array(vs)).value.Array?
  {
  }

  // ---------------------------------------------------------------- what can be written

  function StringLength(v: Value): int {
    match v
    case Text(o) => |o|
    case Bytes(o) => |o|
    case _ => if Falsy(v) then 0 else -1
  }

  /** The number a value stands for under o, l and L; -1 if it is none that can be written. */
  function PlainNumber(v: Value): int {
    match v
    case Int(n) => n
    case Bool(b) => if b then 1 else 0
    case _ => -1
  }

  predicate Writable(p: char, v: Value) {
    match p
    case 'o' => 0 <= PlainNumber(v) < 0x100
    case 'B' => IntOf(v).Ok? && 0 <= IntOf(v).value < 0x1_0000
    case 'l' => 0 <= PlainNumber(v) < 0x1_0000_0000
    case 'L' => 0 <= PlainNumber(v) < 0x1_0000_0000_0000_0000
    case 'f' => v.Double? && !(0x47EF_FFFF_F000_0000 <= v.word % SIGN64 < 0x7FF0_0000_0000_0000)
    case 's' => 0 <= StringLength(v) < 0x100
    case 'S' => 0 <= StringLength(v) < 0x1_0000_0000
    case 'x' => 0 <= StringLength(v) < 0x1_0000_0000
    case 'F' => Falsy(v) || (v.Table? && Encodable(v))
    case 'A' => Falsy(v) || (v.Array? && Encodable(v))
    case 'T' => v.Time? && v.seconds >= 0
    case _ => true
  }

  lemma WritableExactly(p: char, v: Value)
    requires Known(p) && p != 'b'
    ensures EncodeArg(p, v).Ok? <==> Writable(p, v)
  {
    hide EncodeArg, Writable;
    if p == 'F' || p == 'A' {
      NestedWritable(p, v);
    } else if p == 's' || p == 'S' || p == 'x' {
      StringWritable(p, v);
    } else {
      NumberWritable(p, v);
    }
  }

  lemma NestedWritable(p: char, v: Value)
    requires p == 'F' || p == 'A'
    ensures EncodeArg(p, v).Ok? <==> Writable(p, v)
  {
    TruthyExactly(v);
    EmptyFalsy();
    hide Encodable, Falsy, Truthy, EncodeTable, EncodeArray;
    TableWritable(if v.Table? then v.entries else []);
    TableWritable([]);
    ArrayWritable(if v.Array? then v.items else []);
    ArrayWritable([]);
  }

  lemma StringWritable(p: char, v: Value)
    requires p == 's' || p == 'S' || p == 'x'
    ensures EncodeArg(p, v).Ok? <==> Writable(p, v)
  {
    TruthyExactly(v);
    EmptyFalsy();
    Pow256Values();
    hide IsText, Number, Pow256, BigEndian, Falsy, Truthy;
  }

  lemma NumberWritable(p: char, v: Value)
    requires p == 'o' || p == 'B' || p == 'l' || p == 'L' || p == 'f' || p == 'T'
    ensures EncodeArg(p, v).Ok? <==> Writable(p, v)
  {
    Pow256Values();
    hide Narrow, Number, Pow256, BigEndian, IntOf, EncodeTable, EncodeArray;
    if p == 'f' && v.Double? {
      NarrowOverflows(v.word);
    }
  }

  lemma EmptyFalsy()
    ensures Falsy(Table([])) && Falsy(Array([])) && Encodable(Table([])) && Encodable(Array([]))
    ensures forall o: text :: Falsy(Text(o)) <==> o == []
    ensures forall o :: Falsy(Bytes(o)) <==> o == []
    ensures forall es :: Falsy(Table(es)) <==> es == []
    ensures forall vs :: Falsy(Array(vs)) <==> vs == []
  {
  }

  lemma TableWritable(es: seq<Entry>)
    ensures EncodeTable(es).Ok? <==> Encodable(Table(es))
  {
    EncodableExactly(Table(es));
  }

  lemma ArrayWritable(vs: seq<Value>)
    ensures EncodeArray(vs).Ok? <==> Encodable(Array(vs))
  {
    EncodableExactly(Array(vs));
  }

  /** What can be read back. */
  predicate Legible(p: char, v: Value) {
    match p
    case 'b' => true
    case 'B' => IntOf(v).Ok?
    case 'f' => v.Double? && !(0x47EF_FFFF_F000_0000 <= v.word % SIGN64 < 0x7FF0_0000_0000_0000)
    case 's' => StringLength(v) >= 0 && (v.Bytes? ==> IsText(v.octets))
    case 'S' => StringLength(v) >= 0 && (v.Bytes? ==> IsText(v.octets))
    case 'x' => StringLength(v) >= 0
    case 'F' => Falsy(v) || (v.Table? && Readable(v))
    case 'A' => Falsy(v) || (v.Array? && Readable(v))
    case 'T' => v.Time?
    case _ => v.Int? || v.Bool?
  }

  lemma LegibleExactly(p: char, v: Value)
    requires Known(p)
    ensures RereadArg(p, v).Ok? <==> Legible(p, v)
  {
    TruthyExactly(v);
    EmptyFalsy();
    EmptyReadable();
    hide Falsy, Truthy, Narrow, Widen, IntOf, Readable, Reread;
    if p == 'f' && v.Double? {
      NarrowOverflows(v.word);
    } else if p == 'F' {
      RereadSame(Table(if v.Table? then v.entries else []));
      RereadSame(Table([]));
    } else if p == 'A' {
      RereadSame(Array(if v.Array? then v.items else []));
      RereadSame(Array([]));
    }
  }

  lemma EmptyReadable()
    ensures Readable(Table([])) && Readable(Array([])) && IsText([])
  {
  }

  /** What counts as false is written as the empty string, table or array. */
  lemma FalsyWritten(p: char, v: Value)
    requires Falsy(v) && (p == 's' || p == 'S' || p == 'x' || p == 'F' || p == 'A')
    ensures EncodeArg(p, v) == Ok(if p == 's' then [0] else [0, 0, 0, 0])
  {
    TruthyExactly(v);
    EmptyWritten();
    hide Truthy, Falsy, EncodeTable, EncodeArray, EncodeShort, EncodeLong;
  }

  lemma EmptyWritten()
    ensures EncodeShort([]) == Ok([0]) && EncodeLong([]) == Ok([0, 0, 0, 0])
    ensures EncodeTable([]) == EncodeLong([]) == EncodeArray([])
  {
    Pow256Values();
    assert BigEndian(0, 1) == [0];
    assert BigEndian(0, 2) == [0, 0] && BigEndian(0, 3) == [0, 0, 0] && BigEndian(0, 4) == [0, 0, 0, 0];
    hide BigEndian, Number, Pow256;
    assert [0] + [] == [0] && [0, 0, 0, 0] + [] == [0, 0, 0, 0];
  }
}
