/** The host driver's protobuf codec (`tools/anchor_host_test.py`): base 128
    varints and tagged fields (Protocol Buffers Encoding, "Base 128 Varints"). */
module HostCodec {
  import opened Bits
  import opened Util

  /** What Python raises here: an index past the end, or the ValueError on a wire
      type other than 0 and 2. */
  datatype ParseError = IndexError | UnexpectedWireType(wire: nat)

  // ----- varints -----

  function Varint(n: nat): (b: Bytes)
    ensures |b| > 0
  {
    if n < 128 then [n] else [n % 128 + 128] + Varint(n / 128)
  }

  method VarintLoop(n: nat) returns (out: Bytes)
    ensures out == Varint(n)
  {
    out := [];
    var m := n;
    while true
      invariant out + Varint(m) == Varint(n)
      decreases m
    {
      var b: byte := m % 128;
      m := m / 128;
      if m != 0 {
        out := out + [b + 128];
      } else {
        out := out + [b];
        return;
      }
    }
  }

  /** The value at `i` and the offset behind it. */
  function ReadVarint(b: Bytes, i: nat): (r: Result<(nat, nat), ParseError>)
    ensures r.Ok? ==> i < r.value.1 <= |b|
    decreases |b| - i
  {
    if i >= |b| then Err(IndexError) else
    if b[i] < 128 then Ok((b[i], i + 1)) else
    var (n, j) :- ReadVarint(b, i + 1);
    Ok((b[i] - 128 + 128 * n, j))
  }

  /** The loop of the source. It ors seven bits at a time into `n`, at a shift that
      `n` has not reached, which is addition; `weight` is 2 to the shift. */
  method ReadVarintLoop(b: Bytes, start: nat) returns (r: Result<(nat, nat), ParseError>)
    ensures r == ReadVarint(b, start)
  {
    var n: nat, weight: nat, i: nat := 0, 1, start;
    while true
      invariant 0 <= n < weight
      invariant ReadVarint(b, start) == Above(n, weight, ReadVarint(b, i))
      decreases |b| - i
    {
      if i >= |b| {
        return Err(IndexError);
      }
      var x := b[i];
      ghost var from := i;
      i := i + 1;
      LowBits(n, weight, x % 128);
      ReadOneByte(b, from, n, weight);
      n := n + weight * (x % 128);
      if x < 128 {
        return Ok((n, i));
      }
      weight := weight * 128;
    }
  }

  lemma LowBits(n: nat, weight: nat, low: nat)
    requires n < weight && low < 128
    ensures n + weight * low < weight * 128
  {
    assert weight * low <= weight * 127;
  }

  lemma ShiftOnce(n: nat, weight: nat, low: nat, m: nat)
    ensures n + weight * (low + 128 * m) == (n + weight * low) + (weight * 128) * m
  {
  }

  /** `r`, with its value shifted by `weight` and `n` added below. */
  function Above(n: nat, weight: nat, r: Result<(nat, nat), ParseError>): Result<(nat, nat), ParseError> {
    match r case Err(e) => Err(e) case Ok((m, j)) => Ok((n + weight * m, j))
  }

  lemma ReadOneByte(b: Bytes, i: nat, n: nat, weight: nat)
    requires i < |b|
    ensures var low := n + weight * (b[i] % 128);
            Above(n, weight, ReadVarint(b, i))
            == if b[i] < 128 then Ok((low, i + 1)) else Above(low, weight * 128, ReadVarint(b, i + 1))
  {
    if b[i] >= 128 && ReadVarint(b, i + 1).Ok? {
      ShiftOnce(n, weight, b[i] - 128, ReadVarint(b, i + 1).value.0);
    }
  }

  /** Reading back a varint returns the value and the exact offset, for every
      natural number and wherever it stands. */
  lemma {:induction false} VarintRoundTrip(pre: Bytes, n: nat, rest: Bytes)
    ensures ReadVarint(pre + Varint(n) + rest, |pre|) == Ok((n, |pre| + |Varint(n)|))
    decreases n
  {
    var b := pre + Varint(n) + rest;
    if n >= 128 {
      var first: Bytes := [n % 128 + 128];
      assert b == (pre + first) + Varint(n / 128) + rest;
      VarintRoundTrip(pre + first, n / 128, rest);
    }
  }

  /** The value of a byte string in base 128, least significant group first. */
  function Base128(b: Bytes): nat {
    if |b| == 0 then 0 else b[0] % 128 + 128 * Base128(b[1..])
  }

  /** A varint is the value in base 128, least significant group first, with the
      high bit set on every byte but the last, and no longer than it has to be. */
  lemma {:induction false} VarintIsBase128(n: nat)
    ensures var b := Varint(n);
            && Base128(b) == n
            && (forall i :: 0 <= i < |b| - 1 ==> b[i] >= 128) && b[|b| - 1] < 128
            && (|b| > 1 ==> b[|b| - 1] != 0)
    decreases n
  {
    if n >= 128 {
      VarintIsBase128(n / 128);
      assert Varint(n)[1..] == Varint(n / 128);
    }
  }

  /** The examples of Protocol Buffers Encoding: 150, field 1 holding 150, and field 2
      holding "testing". */
  lemma KnownAnswers()
    ensures Varint(150) == [0x96, 0x01]
    ensures EncodeField(FieldValue(1, UInt(150))) == [0x08, 0x96, 0x01]
    ensures EncodeField(FieldValue(2, Data([0x74, 0x65, 0x73, 0x74, 0x69, 0x6e, 0x67])))
            == [0x12, 0x07, 0x74, 0x65, 0x73, 0x74, 0x69, 0x6e, 0x67]
  {
    assert 150 / 128 == 1 && 150 % 128 == 22;
    assert Varint(1) == [1];
  }

  /** The reader also takes padded varints: what it read is the varint of the value
      if and only if it has no trailing zero byte. */
  lemma {:induction false} ReadIsMinimal(b: Bytes, i: nat)
    requires ReadVarint(b, i).Ok?
    ensures var (n, j) := ReadVarint(b, i).value;
            b[i..j] == Varint(n) <==> j == i + 1 || b[j - 1] != 0
    decreases |b| - i
  {
    var (n, j) := ReadVarint(b, i).value;
    if b[i] < 128 {
      assert b[i..j] == [b[i]];
    } else {
      var (m, k) := ReadVarint(b, i + 1).value;
      ReadIsMinimal(b, i + 1);
      assert b[i..j] == [b[i]] + b[i + 1..j];
      assert n % 128 == b[i] - 128 && n / 128 == m;
      if n >= 128 {
        assert Varint(n) == [b[i]] + Varint(m);
        assert b[i..j] == Varint(n) <==> b[i + 1..j] == Varint(m);
        if j == i + 2 { assert m == b[i + 1]; }
      } else {
        assert m == 0 && Varint(n) == [n];
        ZeroHasZeroBytes(b, i + 1);
      }
    }
  }

  /** A varint that reads as zero ends in a zero byte. */
  lemma {:induction false} ZeroHasZeroBytes(b: Bytes, i: nat)
    requires ReadVarint(b, i).Ok? && ReadVarint(b, i).value.0 == 0
    ensures b[ReadVarint(b, i).value.1 - 1] == 0
    decreases |b| - i
  {
    if b[i] >= 128 { ZeroHasZeroBytes(b, i + 1); }
  }

  // ----- messages -----

  datatype Value = UInt(n: nat) | Data(bytes: Bytes)

  datatype FieldValue = FieldValue(field: nat, value: Value)

  function Tag(field: nat, wire: nat): Bytes
    requires wire < 8
  {
    Varint(field * 8 + wire)
  }

  /** `uint_f` and `bytes_f`. */
  function EncodeField(f: FieldValue): (b: Bytes)
    ensures |b| > 0
  {
    match f.value
    case UInt(n) => Tag(f.field, 0) + Varint(n)
    case Data(data) => Tag(f.field, 2) + Varint(|data|) + data
  }

  function EncodeAll(fs: seq<FieldValue>): Bytes {
    if |fs| == 0 then [] else EncodeField(fs[0]) + EncodeAll(fs[1..])
  }

  /** A slice as Python takes it: bounds past the end are clamped. */
  function Slice(b: Bytes, i: nat, j: nat): Bytes
    requires i <= j
  {
    b[(if i < |b| then i else |b|)..(if j < |b| then j else |b|)]
  }

  /** One field at `i`, and the offset behind it, which may lie past the end. */
  function ParseField(body: Bytes, i: nat): (r: Result<(FieldValue, nat), ParseError>)
    ensures r.Ok? ==> r.value.1 > i
  {
    var (t, i1) :- ReadVarint(body, i);
    if t % 8 == 0 then
      var (v, i2) :- ReadVarint(body, i1);
      Ok((FieldValue(t / 8, UInt(v)), i2))
    else if t % 8 == 2 then
      var (ln, i2) :- ReadVarint(body, i1);
      Ok((FieldValue(t / 8, Data(Slice(body, i2, i2 + ln))), i2 + ln))
    else Err(UnexpectedWireType(t % 8))
  }

  function ParseFrom(body: Bytes, i: nat, out: map<nat, Value>): Result<map<nat, Value>, ParseError>
    decreases |body| - i
  {
    if i >= |body| then Ok(out) else
    var (f, j) :- ParseField(body, i);
    ParseFrom(body, j, out[f.field := f.value])
  }

  method Parse(body: Bytes) returns (r: Result<map<nat, Value>, ParseError>)
    ensures r == ParseFrom(body, 0, map[])
  {
    var i, out := 0, map[];
    while i < |body|
      invariant ParseFrom(body, 0, map[]) == ParseFrom(body, i, out)
      decreases |body| - i
    {
      var tag := ReadVarintLoop(body, i);
      if tag.Err? {
        return Err(tag.error);
      }
      var field, wire := tag.value.0 / 8, tag.value.0 % 8;
      if wire == 0 {
        var v := ReadVarintLoop(body, tag.value.1);
        if v.Err? {
          return Err(v.error);
        }
        out := out[field := UInt(v.value.0)];
        i := v.value.1;
      } else if wire == 2 {
        var ln := ReadVarintLoop(body, tag.value.1);
        if ln.Err? {
          return Err(ln.error);
        }
        var at := ln.value.1;
        out := out[field := Data(Slice(body, at, at + ln.value.0))];
        i := at + ln.value.0;
      } else {
        return Err(UnexpectedWireType(wire));
      }
    }
    r := Ok(out);
  }

  /** The field map of a list of fields: the last value of a field wins. */
  function LastWins(out: map<nat, Value>, fs: seq<FieldValue>): map<nat, Value>
    decreases |fs|
  {
    if |fs| == 0 then out else LastWins(out[fs[0].field := fs[0].value], fs[1..])
  }

  /** Last wins: a field has the value of its last occurrence. */
  lemma {:induction false} LastWinsMeaning(out: map<nat, Value>, fs: seq<FieldValue>, k: nat)
    requires k < |fs| && forall l :: k < l < |fs| ==> fs[l].field != fs[k].field
    ensures fs[k].field in LastWins(out, fs) && LastWins(out, fs)[fs[k].field] == fs[k].value
    decreases |fs|
  {
    var rest := out[fs[0].field := fs[0].value];
    if k == 0 {
      assert forall l :: 0 <= l < |fs[1..]| ==> fs[1..][l] == fs[l + 1];
      Untouched(rest, fs[1..], fs[0].field);
    } else {
      assert forall l :: 0 <= l < |fs[1..]| ==> fs[1..][l] == fs[l + 1];
      LastWinsMeaning(rest, fs[1..], k - 1);
    }
  }

  lemma {:induction false} Untouched(out: map<nat, Value>, fs: seq<FieldValue>, field: nat)
    requires forall l :: 0 <= l < |fs| ==> fs[l].field != field
    ensures field in LastWins(out, fs) <==> field in out
    ensures field in out ==> LastWins(out, fs)[field] == out[field]
    decreases |fs|
  {
    if |fs| > 0 {
      assert forall l :: 0 <= l < |fs[1..]| ==> fs[1..][l] == fs[l + 1];
      Untouched(out[fs[0].field := fs[0].value], fs[1..], field);
    }
  }

  lemma ParseUInt(pre: Bytes, field: nat, n: nat, rest: Bytes)
    ensures var f := Tag(field, 0) + Varint(n);
            ParseField(pre + f + rest, |pre|) == Ok((FieldValue(field, UInt(n)), |pre| + |f|))
  {
    hide Varint, ReadVarint;
    var tag := Tag(field, 0);
    var body := pre + (tag + Varint(n)) + rest;
    assert body == pre + tag + (Varint(n) + rest);
    VarintRoundTrip(pre, field * 8, Varint(n) + rest);
    assert body == (pre + tag) + Varint(n) + rest;
    VarintRoundTrip(pre + tag, n, rest);
  }

  lemma Regroup(a: Bytes, b: Bytes, c: Bytes, d: Bytes, e: Bytes)
    ensures a + (b + c + d) + e == a + b + (c + d + e) == (a + b) + c + (d + e) == (a + b + c) + d + e
  {
  }

  lemma ParseData(pre: Bytes, field: nat, data: Bytes, rest: Bytes)
    ensures var f := Tag(field, 2) + Varint(|data|) + data;
            ParseField(pre + f + rest, |pre|) == Ok((FieldValue(field, Data(data)), |pre| + |f|))
  {
    hide Varint, ReadVarint, Slice;
    var tag, len := Tag(field, 2), Varint(|data|);
    Regroup(pre, tag, len, data, rest);
    VarintRoundTrip(pre, field * 8 + 2, len + data + rest);
    VarintRoundTrip(pre + tag, |data|, data + rest);
    SliceOf(pre + tag + len, data, rest);
  }

  lemma SliceOf(pre: Bytes, data: Bytes, rest: Bytes)
    ensures Slice(pre + data + rest, |pre|, |pre| + |data|) == data
  {
  }

  /** One encoded field parses back, wherever it stands. */
  lemma ParseFieldOfEncode(pre: Bytes, f: FieldValue, rest: Bytes)
    ensures ParseField(pre + EncodeField(f) + rest, |pre|) == Ok((f, |pre| + |EncodeField(f)|))
  {
    hide Varint, ReadVarint, ParseField, Tag;
    match f.value
    case UInt(n) => ParseUInt(pre, f.field, n, rest);
    case Data(data) => ParseData(pre, f.field, data, rest);
  }

  /** Parsing any concatenation of encoded fields returns their last-wins map. */
  lemma {:induction false} ParseOfEncode(pre: Bytes, fs: seq<FieldValue>, out: map<nat, Value>)
    ensures ParseFrom(pre + EncodeAll(fs), |pre|, out) == Ok(LastWins(out, fs))
    decreases |fs|
  {
    hide EncodeField, ParseField;
    var body := pre + EncodeAll(fs);
    if |fs| > 0 {
      var f := fs[0];
      assert body == pre + EncodeField(f) + EncodeAll(fs[1..]);
      ParseFieldOfEncode(pre, f, EncodeAll(fs[1..]));
      assert body == (pre + EncodeField(f)) + EncodeAll(fs[1..]);
      ParseOfEncode(pre + EncodeField(f), fs[1..], out[f.field := f.value]);
    }
  }

  lemma ParseOther(pre: Bytes, field: nat, wire: nat, rest: Bytes)
    requires wire in {1, 3, 4, 5, 6, 7}
    ensures ParseField(pre + Tag(field, wire) + rest, |pre|) == Err(UnexpectedWireType(wire))
  {
    hide Varint, ReadVarint;
    VarintRoundTrip(pre, field * 8 + wire, rest);
  }

  /** A field of any other wire type stops the parser, wherever it stands. */
  lemma OtherWireTypes(fs: seq<FieldValue>, field: nat, wire: nat, rest: Bytes)
    requires wire in {1, 3, 4, 5, 6, 7}
    ensures ParseFrom(EncodeAll(fs) + (Tag(field, wire) + rest), 0, map[]) == Err(UnexpectedWireType(wire))
  {
    hide ParseField, Tag, EncodeAll;
    var done, tag := EncodeAll(fs), Tag(field, wire);
    ParseLeadingFields([], fs, tag + rest, map[]);
    ParseOther(done, field, wire, rest);
    assert [] + done == done && done + (tag + rest) == done + tag + rest;
    assert |tag| > 0 by { TagNonempty(field, wire); }
  }

  lemma TagNonempty(field: nat, wire: nat)
    requires wire < 8
    ensures |Tag(field, wire)| > 0
  {
  }

  // ----- messages cut short -----

  /** A varint cut anywhere runs off the end. */
  lemma {:induction false} CutVarint(pre: Bytes, n: nat, k: nat)
    requires k < |Varint(n)|
    ensures ReadVarint(pre + Varint(n)[..k], |pre|) == Err(IndexError)
    decreases n
  {
    var b := pre + Varint(n)[..k];
    if k > 0 {
      var first: Bytes := [n % 128 + 128];
      assert Varint(n) == first + Varint(n / 128);
      assert b == (pre + first) + Varint(n / 128)[..k - 1];
      CutVarint(pre + first, n / 128, k - 1);
    }
  }

  /** The bytes of a field up to its value: tag, and length of a byte field. */
  function Header(f: FieldValue): Bytes {
    match f.value
    case UInt(_) => Tag(f.field, 0)
    case Data(data) => Tag(f.field, 2) + Varint(|data|)
  }

  /** A byte field cut inside its data keeps the bytes that are there. */
  function Shortened(f: FieldValue, k: nat): FieldValue
    requires f.value.Data? && |Header(f)| <= k <= |EncodeField(f)|
  {
    f.(value := Data(f.value.bytes[..k - |Header(f)|]))
  }

  /** What the parser makes of the first `k` bytes of a field at the end of a
      message: the shortened field if its header is whole and it is a byte field,
      an `IndexError` otherwise. */
  lemma ParseCutField(pre: Bytes, f: FieldValue, k: nat)
    requires 0 < k < |EncodeField(f)|
    ensures var r := ParseField(pre + EncodeField(f)[..k], |pre|);
            if f.value.Data? && k >= |Header(f)|
            then r == Ok((Shortened(f, k), |pre| + |EncodeField(f)|))
            else r == Err(IndexError)
  {
    hide Varint, ReadVarint;
    var tag := Tag(f.field, if f.value.UInt? then 0 else 2);
    if k < |tag| {
      assert EncodeField(f)[..k] == tag[..k];
      CutVarint(pre, f.field * 8 + if f.value.UInt? then 0 else 2, k);
    } else {
      CutAfterTag(pre, f, k);
    }
  }

  lemma CutAfterTag(pre: Bytes, f: FieldValue, k: nat)
    requires k < |EncodeField(f)| && k >= |Tag(f.field, if f.value.UInt? then 0 else 2)|
    ensures var r := ParseField(pre + EncodeField(f)[..k], |pre|);
            if f.value.Data? && k >= |Header(f)|
            then r == Ok((Shortened(f, k), |pre| + |EncodeField(f)|))
            else r == Err(IndexError)
  {
    hide Varint, ReadVarint;
    var wire := if f.value.UInt? then 0 else 2;
    var tag := Tag(f.field, wire);
    var body := pre + EncodeField(f)[..k];
    var at := k - |tag|;
    VarintRoundTrip(pre, f.field * 8 + wire, EncodeField(f)[|tag|..k]);
    assert body == pre + tag + EncodeField(f)[|tag|..k];
    match f.value
    case UInt(n) =>
      assert body == (pre + tag) + Varint(n)[..at];
      CutVarint(pre + tag, n, at);
    case Data(data) =>
      if at < |Varint(|data|)| {
        assert body == (pre + tag) + Varint(|data|)[..at];
        CutVarint(pre + tag, |data|, at);
      } else {
        CutInsideData(pre, f, k);
      }
  }

  lemma SliceToEnd(pre: Bytes, kept: Bytes, n: nat)
    requires |kept| <= n
    ensures Slice(pre + kept, |pre|, |pre| + n) == kept
  {
  }

  lemma CutInsideData(pre: Bytes, f: FieldValue, k: nat)
    requires f.value.Data? && |Header(f)| <= k < |EncodeField(f)|
    ensures ParseField(pre + EncodeField(f)[..k], |pre|) == Ok((Shortened(f, k), |pre| + |EncodeField(f)|))
  {
    hide Varint, ReadVarint, Slice;
    var data, tag, len := f.value.bytes, Tag(f.field, 2), Varint(|f.value.bytes|);
    var kept := data[..k - |Header(f)|];
    assert EncodeField(f)[..k] == tag + len + kept;
    Regroup(pre, tag, len, kept, []);
    assert pre + (tag + len + kept) + [] == pre + (tag + len + kept);
    VarintRoundTrip(pre, f.field * 8 + 2, len + kept + []);
    VarintRoundTrip(pre + tag, |data|, kept + []);
    SliceToEnd(pre + tag + len, kept + [], |data|);
    assert kept + [] == kept;
  }

  /** Complete fields parse away, whatever follows them. */
  lemma {:induction false} ParseLeadingFields(pre: Bytes, fs: seq<FieldValue>, tail: Bytes, out: map<nat, Value>)
    ensures ParseFrom(pre + EncodeAll(fs) + tail, |pre|, out)
            == ParseFrom(pre + EncodeAll(fs) + tail, |pre + EncodeAll(fs)|, LastWins(out, fs))
    decreases |fs|
  {
    hide EncodeField, ParseField;
    var body := pre + EncodeAll(fs) + tail;
    if |fs| > 0 {
      var f := fs[0];
      assert body == pre + EncodeField(f) + (EncodeAll(fs[1..]) + tail);
      ParseFieldOfEncode(pre, f, EncodeAll(fs[1..]) + tail);
      assert body == (pre + EncodeField(f)) + EncodeAll(fs[1..]) + tail;
      assert pre + EncodeAll(fs) == (pre + EncodeField(f)) + EncodeAll(fs[1..]);
      ParseLeadingFields(pre + EncodeField(f), fs[1..], tail, out[f.field := f.value]);
    }
  }

  /** When a cut message is noticed, exactly. A message of complete fields whose
      last field is cut anywhere inside still parses if and only if the cut lies
      behind the header of a byte field; it then yields that field shortened. Every
      other cut is an `IndexError`. */
  lemma CutNoticedExactly(fs: seq<FieldValue>, f: FieldValue, k: nat)
    requires 0 < k < |EncodeField(f)|
    ensures var r := ParseFrom(EncodeAll(fs) + EncodeField(f)[..k], 0, map[]);
            && (r.Ok? <==> f.value.Data? && k >= |Header(f)|)
            && (r.Ok? ==> r == Ok(LastWins(map[], fs + [Shortened(f, k)])))
            && (r.Err? ==> r == Err(IndexError))
  {
    hide EncodeField, ParseField, Header, Shortened;
    var done, cut, all := EncodeAll(fs), EncodeField(f)[..k], LastWins(map[], fs);
    assert [] + done == done;
    ParseLeadingFields([], fs, cut, map[]);
    ParseCutField(done, f, k);
    if f.value.Data? && k >= |Header(f)| {
      LastWinsSnoc(map[], fs, Shortened(f, k));
      assert |done + cut| <= |done| + |EncodeField(f)|;
    }
  }

  lemma {:induction false} LastWinsSnoc(out: map<nat, Value>, fs: seq<FieldValue>, f: FieldValue)
    ensures LastWins(out, fs + [f]) == LastWins(out, fs)[f.field := f.value]
    decreases |fs|
  {
    if |fs| == 0 {
      assert (fs + [f])[1..] == [];
    } else {
      assert (fs + [f])[1..] == fs[1..] + [f];
      LastWinsSnoc(out[fs[0].field := fs[0].value], fs[1..], f);
    }
  }
}
