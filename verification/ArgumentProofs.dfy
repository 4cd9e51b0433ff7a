/** Exactly which format strings give back the values packed under them. */
module ArgumentProofs {
  import opened Octets
  import opened Floats
  import opened Tables
  import opened TableProofs
  import opened Arguments
  import opened ArgumentMeaning

  /** Nothing but known characters. */
  predicate AllKnown(fmt: string) {
    fmt == "" || (Known(fmt[0]) && AllKnown(fmt[1..]))
  }

  /** How many bits of the last octet of a run of `n` are unused. */
  function Unused(n: nat): nat {
    (8 - n % 8) % 8
  }

  /** The formats the codec can carry. `pending` bits are waiting for the encoder to write them, or, when
      there are none, the decoder still keeps `stale` bits of an octet it has finished with. The encoder
      does not write the pending bits before a 'T'; the decoder does not drop its bits at an 'x'. */
  predicate GoodFormat(fmt: string, pending: nat := 0, stale: nat := 0) {
    if fmt == "" then true
    else if fmt[0] == 'b' then stale == 0 && GoodFormat(fmt[1..], pending + 1, 0)
    else if fmt[0] == 'T' then pending == 0 && GoodFormat(fmt[1..], 0, 0)
    else if fmt[0] == 'x' then GoodFormat(fmt[1..], 0, if pending > 0 then Unused(pending) else stale)
    else Known(fmt[0]) && GoodFormat(fmt[1..], 0, 0)
  }

  /** A 'T' comes next, or after further bits only. */
  predicate TimeBeforeFlush(fmt: string) {
    fmt != "" && (fmt[0] == 'T' || (fmt[0] == 'b' && TimeBeforeFlush(fmt[1..])))
  }

  /** The encoder is about to write `fmt`, with `n` bits pending in `bits`; what it will have written stands
      in `buf` at `start`; and the decoder has just read the last of those bits, keeping `left` bits in `kept`. */
  predicate InStep(fmt: string, vals: seq<Value>, bits: seq<byte>, n: nat,
                   buf: seq<byte>, start: nat, left: nat, kept: nat) {
    && |vals| == |fmt| && AllKnown(fmt)
    && BitRun(bits, n) && EncodeArgs(fmt, vals, bits, n).Ok?
    && var out := EncodeArgs(fmt, vals, bits, n).value;
    && At(buf, start, out) && |bits| <= |out|
    && (n == 0 ==> left > 0 ==> kept == 0)
    && (n > 0 ==> !TimeBeforeFlush(fmt) && left == Unused(n) && (left > 0 ==> kept == Shift(out[|bits| - 1], n % 8)))
  }

  /** Bits once pending are written as they are, unless a time comes first. */
  lemma {:induction false} BitsWritten(fmt: string, vals: seq<Value>, bits: seq<byte>, n: nat)
    requires |vals| == |fmt| && AllKnown(fmt) && !TimeBeforeFlush(fmt)
    requires BitRun(bits, n) && EncodeArgs(fmt, vals, bits, n).Ok?
    ensures var out := EncodeArgs(fmt, vals, bits, n).value;
      |bits| <= |out| && forall k: nat :: k < n ==> (GetBit(out[k / 8], k % 8) <==> GetBit(bits[k / 8], k % 8))
    decreases |fmt|
  {
    hide EncodeArg, GetBit, Truthy, AddBit;
    if fmt != "" && fmt[0] == 'b' {
      forall k: nat | k <= n { AddBitKeeps(bits, n, Truthy(vals[0]), k); }
      BitsWritten(fmt[1..], vals[1..], AddBit(bits, n, Truthy(vals[0])), n + 1);
    }
  }

  /** The run that a flush ends is written whole, and its unused bits are clear. */
  lemma FlushedShift(bits: seq<byte>, n: nat)
    requires BitRun(bits, n) && n % 8 != 0
    ensures Shift(bits[|bits| - 1], n % 8) == 0
  {
    ShiftBound(bits[|bits| - 1], n % 8);
  }

  /** One argument that is not a bit: both sides stay in step. */
  lemma StepArg(fmt: string, vals: seq<Value>, bits: seq<byte>, n: nat,
                buf: seq<byte>, start: nat, left: nat, kept: nat)
    requires InStep(fmt, vals, bits, n, buf, start, left, kept) && fmt != "" && fmt[0] != 'b'
    ensures EncodeArg(fmt[0], vals[0]).Ok?
    ensures var next := start + |bits| + |EncodeArg(fmt[0], vals[0]).value|;
      var (left', kept') := if fmt[0] == 'x' then (left, kept) else (0, 0);
      && (left' > 0 ==> left' == if n > 0 then Unused(n) else left)
      && InStep(fmt[1..], vals[1..], [], 0, buf, next, left', kept')
      && DecodeArgs(fmt, buf, start + |bits|, left, kept)
         == Cons(RereadArg(fmt[0], vals[0]), DecodeArgs(fmt[1..], buf, next, left', kept'))
      && start + |EncodeArgs(fmt, vals, bits, n).value| == next + |EncodeArgs(fmt[1..], vals[1..], [], 0).value|
  {
    hide DecodeArg, EncodeArg, RereadArg, GetBit, Shift, IsText, Pow2;
    var s, rest := EncodeArg(fmt[0], vals[0]).value, EncodeArgs(fmt[1..], vals[1..], [], 0).value;
    assert fmt[0] == 'T' ==> n == 0 && bits == [] && bits + s == s;
    AtSplit(buf, start, bits + s, rest);
    AtSplit(buf, start, bits, s);
    ArgRoundTrip(fmt[0], vals[0], buf, start + |bits|);
    if n % 8 != 0 {
      FlushedShift(bits, n);
    }
  }

  lemma BitWritten(fmt: string, vals: seq<Value>, bits: seq<byte>, n: nat)
    requires |vals| == |fmt| && AllKnown(fmt) && fmt != "" && fmt[0] == 'b' && !TimeBeforeFlush(fmt)
    requires BitRun(bits, n) && EncodeArgs(fmt, vals, bits, n).Ok?
    ensures var more, out := AddBit(bits, n, Truthy(vals[0])), EncodeArgs(fmt, vals, bits, n).value;
      && |more| == n / 8 + 1 <= |out| && |bits| == (if n % 8 == 0 then n / 8 else n / 8 + 1)
      && EncodeArgs(fmt[1..], vals[1..], more, n + 1) == Ok(out)
      && (Shift(out[n / 8], n % 8) % 2 == 1 <==> Truthy(vals[0]))
      && Shift(out[n / 8], n % 8 + 1) == Shift(out[n / 8], n % 8) / 2
  {
    var more, out := AddBit(bits, n, Truthy(vals[0])), EncodeArgs(fmt, vals, bits, n).value;
    assert EncodeArgs(fmt[1..], vals[1..], more, n + 1) == Ok(out);
    assert AllKnown(fmt[1..]) && !TimeBeforeFlush(fmt[1..]);
    hide AddBit, Truthy, EncodeArg, EncodeArgs, TimeBeforeFlush, AllKnown, Pow2, Shift;
    BitsWritten(fmt[1..], vals[1..], more, n + 1);
    AddBitKeeps(bits, n, Truthy(vals[0]), n);
    assert GetBit(out[n / 8], n % 8) <==> Truthy(vals[0]);
    ShiftOnce(out[n / 8], n % 8);
  }

  /** The decoder's next octet. */
  lemma NextOctet(buf: seq<byte>, start: nat, out: seq<byte>, i: nat)
    requires At(buf, start, out) && i < |out|
    ensures Unpack(buf, start + i, 1) == Ok(out[i])
  {
    assert buf[start + i] == buf[start..start + |out|][i] == out[i];
    assert buf[start + i..start + i + 1] == [out[i]];
    OctetAt(buf, start + i, out[i]);
  }

  /** Both sides have taken one bit. */
  predicate BitStepped(fmt: string, vals: seq<Value>, bits: seq<byte>, n: nat, buf: seq<byte>, start: nat,
                       left: nat, kept: nat, more: seq<byte>, left': nat, kept': nat)
    requires fmt != "" && vals != [] && BitRun(bits, n) && BitRun(more, n + 1)
  {
    && DecodeArgs(fmt, buf, start + |bits|, left, kept)
       == Cons(RereadArg('b', vals[0]), DecodeArgs(fmt[1..], buf, start + |more|, left', kept'))
    && EncodeArgs(fmt, vals, bits, n) == EncodeArgs(fmt[1..], vals[1..], more, n + 1)
  }

  /** One bit, in a run that no time interrupts. */
  lemma StepBit(fmt: string, vals: seq<Value>, bits: seq<byte>, n: nat,
                buf: seq<byte>, start: nat, left: nat, kept: nat)
      returns (more: seq<byte>, left': nat, kept': nat)
    requires InStep(fmt, vals, bits, n, buf, start, left, kept) && fmt != "" && fmt[0] == 'b'
    requires n == 0 ==> left == 0 && !TimeBeforeFlush(fmt)
    ensures BitRun(more, n + 1) && InStep(fmt[1..], vals[1..], more, n + 1, buf, start, left', kept')
    ensures BitStepped(fmt, vals, bits, n, buf, start, left, kept, more, left', kept')
  {
    hide AddBit, Truthy, EncodeArg, DecodeArg, GetBit, Shift, Pow2, At, EncodeArgs, Unpack;
    more := AddBit(bits, n, Truthy(vals[0]));
    var out := EncodeArgs(fmt, vals, bits, n).value;
    BitWritten(fmt, vals, bits, n);
    if left == 0 {
      NextOctet(buf, start, out, n / 8);
      assert Shift(out[n / 8], 0) == out[n / 8] by { ShiftNone(out[n / 8]); }
      left', kept' := 7, out[n / 8] / 2;
    } else {
      left', kept' := left - 1, kept / 2;
    }
  }

  lemma ShiftNone(x: nat)
    ensures Shift(x, 0) == x
  {
  }

  // ---------------------------------------------------------------- good formats

  lemma {:induction false} GoodKnown(fmt: string, pending: nat, stale: nat)
    requires GoodFormat(fmt, pending, stale)
    ensures AllKnown(fmt)
    ensures pending > 0 ==> !TimeBeforeFlush(fmt)
    decreases |fmt|
  {
    if fmt != "" {
      if fmt[0] == 'b' {
        GoodKnown(fmt[1..], pending + 1, 0);
      } else if fmt[0] == 'x' {
        GoodKnown(fmt[1..], 0, if pending > 0 then Unused(pending) else stale);
      } else {
        GoodKnown(fmt[1..], 0, 0);
      }
    }
  }

  lemma RereadCons(fmt: string, vals: seq<Value>, end: nat)
    requires |vals| == |fmt|
    ensures fmt == "" ==> Ok(([], end)) == Until(RereadArgs(fmt, vals), end)
    ensures fmt != "" ==>
      Cons(RereadArg(fmt[0], vals[0]), Until(RereadArgs(fmt[1..], vals[1..]), end)) == Until(RereadArgs(fmt, vals), end)
  {
  }

  lemma {:induction false} GoodRoundTrip(fmt: string, vals: seq<Value>, bits: seq<byte>, n: nat,
                                         buf: seq<byte>, start: nat, left: nat, kept: nat)
    requires InStep(fmt, vals, bits, n, buf, start, left, kept)
    requires GoodFormat(fmt, n, if n > 0 then 0 else left)
    ensures DecodeArgs(fmt, buf, start + |bits|, left, kept)
         == Until(RereadArgs(fmt, vals), start + |EncodeArgs(fmt, vals, bits, n).value|)
    decreases |fmt|
  {
    hide DecodeArg, EncodeArg, RereadArg, RereadArgs, Until, Cons, GetBit, Shift, IsText, Pow2, AddBit, Truthy, Known,
      BitRun, At;
    RereadCons(fmt, vals, start + |EncodeArgs(fmt, vals, bits, n).value|);
    if fmt == "" {
    } else if fmt[0] == 'b' {
      GoodKnown(fmt[1..], n + 1, 0);
      var more, left', kept' := StepBit(fmt, vals, bits, n, buf, start, left, kept);
      GoodRoundTrip(fmt[1..], vals[1..], more, n + 1, buf, start, left', kept');
    } else {
      StepArg(fmt, vals, bits, n, buf, start, left, kept);
      var next := start + |bits| + |EncodeArg(fmt[0], vals[0]).value|;
      var (left', kept') := if fmt[0] == 'x' then (left, kept) else (0, 0);
      GoodRoundTrip(fmt[1..], vals[1..], [], 0, buf, next, left', kept');
    }
  }

  /** Under a good format, whatever was packed is unpacked as `RereadArgs` says, wherever it stands,
      and the unpacking stops exactly at its end. */
  lemma FormatRoundTrip(fmt: string, vals: seq<Value>, buf: seq<byte>, start: nat)
    requires GoodFormat(fmt) && |vals| == |fmt|
    requires EncodeAll(fmt, vals).Ok? && At(buf, start, EncodeAll(fmt, vals).value)
    ensures DecodeArgs(fmt, buf, start, 0, 0) == Until(RereadArgs(fmt, vals), start + |EncodeAll(fmt, vals).value|)
  {
    hide DecodeArgs, EncodeArgs, RereadArgs, At;
    GoodKnown(fmt, 0, 0);
    GoodRoundTrip(fmt, vals, [], 0, buf, start, 0, 0);
  }

  // ---------------------------------------------------------------- bad formats

  /** A value that every format character carries on its own. */
  function Sample(p: char): Value {
    match p
    case 'b' => Bool(true)
    case 's' => Text([])
    case 'S' => Text([])
    case 'x' => Bytes([])
    case 'f' => Double(0)
    case 'F' => Table([])
    case 'A' => Array([])
    case 'T' => Time(0, 0)
    case _ => Int(0)
  }

  function Samples(fmt: string): (vals: seq<Value>)
    ensures |vals| == |fmt|
  {
    if fmt == "" then [] else [Sample(fmt[0])] + Samples(fmt[1..])
  }

  lemma {:induction false} ZeroOctets(width: nat)
    ensures forall i :: 0 <= i < width ==> BigEndian(0, width)[i] == 0
  {
    if width > 0 {
      ZeroOctets(width - 1);
    }
  }

  lemma SampleReread(p: char)
    requires Known(p)
    ensures RereadArg(p, Sample(p)) == Ok(Sample(p))
  {
    hide Narrow, Widen, IntOf;
    ZeroBack();
    IntOfZero();
  }

  lemma IntOfZero()
    ensures IntOf(Int(0)) == Ok(0)
  {
  }

  lemma SampleEncodes(p: char)
    requires Known(p) && p != 'b'
    ensures EncodeArg(p, Sample(p)).Ok?
  {
    hide Narrow, Widen, IntOf, BigEndian, Number, Pow256;
    ZeroBack();
    Pow256Values();
    IntOfZero();
  }

  lemma SampleTime()
    ensures var r := EncodeArg('T', Time(0, 0)); r.Ok? && r.value != [] && r.value[0] == 0
  {
    ZeroOctets(8);
    Pow256Values();
    hide BigEndian, Number, Pow256;
  }

  lemma {:induction false} SamplesEncode(fmt: string, bits: seq<byte>, n: nat)
    requires BitRun(bits, n)
    ensures EncodeArgs(fmt, Samples(fmt), bits, n).Ok?
    decreases |fmt|
  {
    hide EncodeArg, AddBit, Truthy, Known, Sample;
    if fmt != "" {
      if Known(fmt[0]) && fmt[0] != 'b' {
        SampleEncodes(fmt[0]);
      }
      assert Samples(fmt)[1..] == Samples(fmt[1..]);
      if fmt[0] == 'b' {
        SamplesEncode(fmt[1..], AddBit(bits, n, Truthy(Sample('b'))), n + 1);
      } else {
        SamplesEncode(fmt[1..], bits, n);
        SamplesEncode(fmt[1..], [], 0);
      }
    }
  }

  lemma {:induction false} UnknownFails(fmt: string, buf: seq<byte>, offset: nat, left: nat, kept: nat)
    requires !AllKnown(fmt)
    ensures DecodeArgs(fmt, buf, offset, left, kept).Err?
    decreases |fmt|
  {
    if fmt[0] == 'b' {
      UnknownFails(fmt[1..], buf, offset, if left == 0 then 0 else left - 1, kept / 2);
      if left == 0 && offset < |buf| {
        UnknownFails(fmt[1..], buf, offset + 1, 7, Unpack(buf, offset, 1).value / 2);
      }
    } else if DecodeArg(fmt[0], buf, offset).Ok? {
      var next := DecodeArg(fmt[0], buf, offset).value.1;
      UnknownFails(fmt[1..], buf, next, left, kept);
      UnknownFails(fmt[1..], buf, next, 0, 0);
    }
  }

  /** Where that time stands. */
  function TimeAt(fmt: string): (k: nat)
    requires TimeBeforeFlush(fmt)
    ensures k < |fmt| && fmt[k] == 'T'
  {
    if fmt[0] == 'T' then 0 else 1 + TimeAt(fmt[1..])
  }

  function Omit<T>(s: seq<T>, k: nat): seq<T>
    requires k < |s|
  {
    s[..k] + s[k + 1..]
  }

  /** A time overtakes the bits that wait before it: it is written as if it came before all of them. */
  lemma {:induction false} TimeOvertakes(fmt: string, vals: seq<Value>, bits: seq<byte>, n: nat)
    requires |vals| == |fmt| && BitRun(bits, n) && TimeBeforeFlush(fmt)
    ensures var k := TimeAt(fmt);
      EncodeArgs(fmt, vals, bits, n)
      == (var s :- EncodeArg('T', vals[k]); Prefixed(s, EncodeArgs(Omit(fmt, k), Omit(vals, k), bits, n)))
    decreases |fmt|
  {
    hide EncodeArg, AddBit, Truthy;
    var k := TimeAt(fmt);
    if fmt[0] == 'T' {
      assert Omit(fmt, 0) == fmt[1..] && Omit(vals, 0) == vals[1..];
    } else {
      TimeOvertakes(fmt[1..], vals[1..], AddBit(bits, n, Truthy(vals[0])), n + 1);
      assert Omit(fmt, k)[1..] == Omit(fmt[1..], k - 1) && Omit(vals, k)[1..] == Omit(vals[1..], k - 1);
    }
  }

  /** So the samples begin with a clear octet. */
  lemma SampleOvertakes(fmt: string, bits: seq<byte>, n: nat)
    requires BitRun(bits, n) && AllKnown(fmt) && TimeBeforeFlush(fmt)
    ensures EncodeArgs(fmt, Samples(fmt), bits, n).Ok?
    ensures var out := EncodeArgs(fmt, Samples(fmt), bits, n).value; out != [] && out[0] == 0
  {
    hide EncodeArg, EncodeArgs, AddBit, Truthy;
    SamplesEncode(fmt, bits, n);
    SampleTime();
    SampleAt(fmt, TimeAt(fmt));
    TimeOvertakes(fmt, Samples(fmt), bits, n);
  }

  lemma {:induction false} SampleAt(fmt: string, k: nat)
    requires k < |fmt|
    ensures Samples(fmt)[k] == Sample(fmt[k])
  {
    if k > 0 {
      SampleAt(fmt[1..], k - 1);
    }
  }

  /** Under a bad format the samples do not come back. */
  lemma {:induction false} BadRoundTrip(fmt: string, bits: seq<byte>, n: nat,
                                        buf: seq<byte>, start: nat, left: nat, kept: nat)
    requires InStep(fmt, Samples(fmt), bits, n, buf, start, left, kept)
    requires !GoodFormat(fmt, n, if n > 0 then 0 else left)
    ensures var r := DecodeArgs(fmt, buf, start + |bits|, left, kept); r.Ok? ==> r.value.0 != Samples(fmt)
    decreases |fmt|
  {
    hide DecodeArg, EncodeArg, RereadArg, GetBit, Shift, Pow2, AddBit, Truthy, Known, BitRun, At, Unpack, EncodeArgs;
    var vals := Samples(fmt);
    assert vals[0] == Sample(fmt[0]) && vals[1..] == Samples(fmt[1..]);
    assert Known(fmt[0]);
    SampleReread(fmt[0]);
    if fmt[0] == 'b' && n == 0 && (left > 0 || TimeBeforeFlush(fmt)) {
      if left == 0 {
        SampleOvertakes(fmt, bits, n);
        NextOctet(buf, start, EncodeArgs(fmt, vals, bits, n).value, 0);
        assert |bits| == 0 by { NoBits(bits); }
      }
    } else if fmt[0] == 'b' {
      var more, left', kept' := StepBit(fmt, vals, bits, n, buf, start, left, kept);
      BadRoundTrip(fmt[1..], more, n + 1, buf, start, left', kept');
    } else {
      StepArg(fmt, vals, bits, n, buf, start, left, kept);
      var next := start + |bits| + |EncodeArg(fmt[0], vals[0]).value|;
      var (left', kept') := if fmt[0] == 'x' then (left, kept) else (0, 0);
      BadRoundTrip(fmt[1..], [], 0, buf, next, left', kept');
    }
  }

  lemma NoBits(bits: seq<byte>)
    requires BitRun(bits, 0)
    ensures bits == []
  {
  }

  // ---------------------------------------------------------------- main result

  /** Values that each format character gives back on its own. */
  ghost predicate Carried(fmt: string, vals: seq<Value>) {
    |vals| == |fmt| && forall i :: 0 <= i < |fmt| ==> Known(fmt[i]) ==> Faithful(fmt[i], vals[i])
  }

  /** All such values, packed together, are unpacked again. */
  ghost predicate RoundTrips(fmt: string) {
    forall vals :: Carried(fmt, vals) && EncodeAll(fmt, vals).Ok? ==>
      var out := EncodeAll(fmt, vals).value; DecodeArgs(fmt, out, 0, 0, 0) == Ok((vals, |out|))
  }

  lemma {:induction false} CarriedReread(fmt: string, vals: seq<Value>)
    requires AllKnown(fmt) && Carried(fmt, vals)
    ensures RereadArgs(fmt, vals) == Ok(vals)
  {
    if fmt != "" {
      forall i | 0 <= i < |fmt[1..]| && Known(fmt[1..][i]) ensures Faithful(fmt[1..][i], vals[1..][i]) {
        assert fmt[1..][i] == fmt[i + 1] && vals[1..][i] == vals[i + 1];
      }
      FaithfulExactly(fmt[0], vals[0]);
      CarriedReread(fmt[1..], vals[1..]);
      assert vals == [vals[0]] + vals[1..];
    }
  }

  lemma {:induction false} SamplesCarried(fmt: string)
    ensures Carried(fmt, Samples(fmt))
  {
    hide Sample, Known, Faithful;
    if fmt != "" {
      if Known(fmt[0]) {
        SampleReread(fmt[0]);
        FaithfulExactly(fmt[0], Sample(fmt[0]));
      }
      SamplesCarried(fmt[1..]);
      forall i | 0 <= i < |fmt| && Known(fmt[i]) ensures Faithful(fmt[i], Samples(fmt)[i]) {
        if i > 0 {
          assert fmt[i] == fmt[1..][i - 1] && Samples(fmt)[i] == Samples(fmt[1..])[i - 1];
        }
      }
    }
  }

  /** A format gives back everything packed under it exactly if it is good: it has no unknown character,
      no 'T' while bits are pending, and no bit right after an 'x' that broke an octet of bits. */
  lemma FormatRoundTripExactly(fmt: string)
    ensures RoundTrips(fmt) <==> GoodFormat(fmt)
  {
    hide RereadArg, EncodeArgs, DecodeArgs, Known;
    if GoodFormat(fmt) {
      GoodKnown(fmt, 0, 0);
      forall vals | Carried(fmt, vals) && EncodeAll(fmt, vals).Ok?
        ensures var out := EncodeAll(fmt, vals).value; DecodeArgs(fmt, out, 0, 0, 0) == Ok((vals, |out|))
      {
        FormatRoundTrip(fmt, vals, EncodeAll(fmt, vals).value, 0);
        CarriedReread(fmt, vals);
      }
    } else {
      SamplesCarried(fmt);
      SamplesEncode(fmt, [], 0);
      var out := EncodeAll(fmt, Samples(fmt)).value;
      if AllKnown(fmt) {
        BadRoundTrip(fmt, [], 0, out, 0, 0, 0);
      } else {
        UnknownFails(fmt, out, 0, 0, 0);
      }
    }
  }

  /** A run of `n` bits takes ceil(n / 8) octets, low bit first. */
  lemma {:induction false} RunOctets(vals: seq<Value>, bits: seq<byte>, n: nat)
    requires BitRun(bits, n)
    ensures EncodeArgs(seq(|vals|, _ => 'b'), vals, bits, n).Ok?
    ensures var out := EncodeArgs(seq(|vals|, _ => 'b'), vals, bits, n).value;
      && |out| == (n + |vals| + 7) / 8
      && (forall k: nat :: k < n ==> (GetBit(out[k / 8], k % 8) <==> GetBit(bits[k / 8], k % 8)))
      && (forall k: nat :: n <= k < n + |vals| ==> (GetBit(out[k / 8], k % 8) <==> Truthy(vals[k - n])))
    decreases |vals|
  {
    hide AddBit, Truthy, GetBit;
    if vals != [] {
      var fmt, rest := seq(|vals|, _ => 'b'), seq(|vals[1..]|, _ => 'b');
      assert fmt[1..] == rest;
      forall k: nat | k <= n { AddBitKeeps(bits, n, Truthy(vals[0]), k); }
      RunOctets(vals[1..], AddBit(bits, n, Truthy(vals[0])), n + 1);
    }
  }

  function Bools(bits: seq<bool>): (vals: seq<Value>)
    ensures |vals| == |bits| && forall i :: 0 <= i < |bits| ==> vals[i] == Bool(bits[i])
  {
    if bits == [] then [] else [Bool(bits[0])] + Bools(bits[1..])
  }

  /** Truth values packed on their own: bit k of the octets is the k-th of them, and there are no further octets. */
  lemma PackedBools(bits: seq<bool>)
    ensures var r := EncodeAll(seq(|bits|, _ => 'b'), Bools(bits));
      && r.Ok? && |r.value| == (|bits| + 7) / 8
      && forall k: nat :: k < |bits| ==> (r.value[k / 8] / Pow2(k % 8) % 2 == 1 <==> bits[k])
  {
    var vals := Bools(bits);
    RunOctets(vals, [], 0);
    var out := EncodeAll(seq(|bits|, _ => 'b'), vals).value;
    forall k: nat | k < |bits| ensures out[k / 8] / Pow2(k % 8) % 2 == 1 <==> bits[k] {
      TruthyExactly(vals[k]);
      ShiftDivides(out[k / 8], k % 8);
      assert GetBit(out[k / 8], k % 8) <==> Truthy(vals[k - 0]);
    }
  }

  // ---------------------------------------------------------------- what can be packed

  /** There is a format character for every value, and it can write it if it is known. */
  predicate AllWritable(fmt: string, vals: seq<Value>) {
    |vals| <= |fmt| && forall i :: 0 <= i < |vals| && Known(fmt[i]) && fmt[i] != 'b' ==> Writable(fmt[i], vals[i])
  }

  /** What can be packed is exactly that; format characters to spare are left alone. */
  lemma {:induction false} PackedExactly(fmt: string, vals: seq<Value>, bits: seq<byte>, n: nat)
    requires BitRun(bits, n)
    ensures EncodeArgs(fmt, vals, bits, n).Ok? <==> AllWritable(fmt, vals)
    ensures |vals| <= |fmt| ==> EncodeArgs(fmt, vals, bits, n) == EncodeArgs(fmt[..|vals|], vals, bits, n)
    decreases |vals|
  {
    hide EncodeArg, AddBit, Truthy, Known, Writable, BitRun;
    if vals != [] && fmt != "" {
      var p, v := fmt[0], vals[0];
      WritableStep(fmt, vals);
      if |vals| <= |fmt| {
        assert fmt[..|vals|][1..] == fmt[1..][..|vals[1..]|];
      }
      EmptyRun();
      PackedExactly(fmt[1..], vals[1..], [], 0);
      PackedExactly(fmt[1..], vals[1..], bits, n);
      if p == 'b' {
        PackedExactly(fmt[1..], vals[1..], AddBit(bits, n, Truthy(v)), n + 1);
      } else if Known(p) {
        WritableExactly(p, v);
      }
    }
  }

  lemma EmptyRun()
    ensures BitRun([], 0)
  {
  }

  lemma WritableStep(fmt: string, vals: seq<Value>)
    requires fmt != "" && vals != []
    ensures AllWritable(fmt, vals) <==>
      (Known(fmt[0]) && fmt[0] != 'b' ==> Writable(fmt[0], vals[0])) && AllWritable(fmt[1..], vals[1..])
  {
    hide Writable, Known;
    assert forall i :: 0 <= i < |vals[1..]| ==> vals[1..][i] == vals[i + 1];
    assert forall i :: 0 <= i < |fmt[1..]| ==> fmt[1..][i] == fmt[i + 1];
    if AllWritable(fmt[1..], vals[1..]) {
      forall i | 1 <= i < |vals| && Known(fmt[i]) && fmt[i] != 'b' ensures Writable(fmt[i], vals[i]) {
        assert fmt[1..][i - 1] == fmt[i] && vals[1..][i - 1] == vals[i];
      }
    }
  }
}
