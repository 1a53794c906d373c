/** A reference encoder for the narrowed wire format the decoder reads (one
    tag byte, varint values, one plain length byte before a sub-message), and
    the round trips that tie GetFieldValues to it. */
module WireEncoding {
  import opened Common
  import opened Varint
  import opened Hex
  import opened Scanner
  import opened ScannerProperties

  /** A varint field as a sender writes it. */
  datatype VarintField = VarintField(number: int, wire: int, value: nat)

  /** A field number that fits the tag byte, any wire type, a 64-bit value. */
  predicate ValidField(f: VarintField) {
    0 <= f.number < 16 && 0 <= f.wire < 8 && f.value < TwoTo64
  }

  predicate ValidFields(fs: seq<VarintField>) {
    forall i :: 0 <= i < |fs| ==> ValidField(fs[i])
  }

  function EncodeTag(number: int, wire: int): (r: Byte)
    requires 0 <= number < 16 && 0 <= wire < 8
    ensures r < 0x80 && FieldNumber(r) == number && WireType(r) == wire
  {
    number * 8 + wire
  }

  function EncodeField(f: VarintField): seq<Byte>
    requires ValidField(f)
  {
    [EncodeTag(f.number, f.wire)] + EncodeVarint(f.value)
  }

  function EncodeFields(fs: seq<VarintField>): seq<Byte>
    requires ValidFields(fs)
  {
    if fs == [] then [] else EncodeField(fs[0]) + EncodeFields(fs[1..])
  }

  /** The dictionary of a receiver that keeps the first value of each field. */
  function CollectFields(m: map<int, Int64>, fs: seq<VarintField>): map<int, Int64>
    requires ValidFields(fs)
    decreases |fs|
  {
    if fs == [] then m
    else CollectFields(AddFirst(m, fs[0].number, AsSigned(fs[0].value)), fs[1..])
  }

  /** A top-level field: a varint under any wire type but 2, or a sub-message
      of varint fields whose encoding fits a one-byte length. */
  datatype TopField =
    | Scalar(number: int, wire: int, value: nat)
    | Message(number: int, body: seq<VarintField>)

  predicate ValidTopField(t: TopField) {
    match t
    case Scalar(n, w, v) => ValidField(VarintField(n, w, v)) && w != 2
    case Message(n, body) => 0 <= n < 16 && ValidFields(body) && |EncodeFields(body)| < 0x100
  }

  predicate ValidTopFields(ts: seq<TopField>) {
    forall i :: 0 <= i < |ts| ==> ValidTopField(ts[i])
  }

  function EncodeTopField(t: TopField): seq<Byte>
    requires ValidTopField(t)
  {
    match t
    case Scalar(n, w, v) => EncodeField(VarintField(n, w, v))
    case Message(n, body) =>
      var bytes := EncodeFields(body);
      [EncodeTag(n, 2), |bytes|] + bytes
  }

  function EncodeMessage(ts: seq<TopField>): seq<Byte>
    requires ValidTopFields(ts)
  {
    if ts == [] then [] else EncodeTopField(ts[0]) + EncodeMessage(ts[1..])
  }

  /** The value a receiver files under a top-level field's number. */
  function TopValue(t: TopField): Value
    requires ValidTopField(t)
  {
    match t
    case Scalar(_, _, x) => Int(AsSigned(x))
    case Message(_, body) => Nested(CollectFields(map[], body))
  }

  function CollectMessage(m: map<int, Value>, ts: seq<TopField>): map<int, Value>
    requires ValidTopFields(ts)
    decreases |ts|
  {
    if ts == [] then m else CollectMessage(AddFirst(m, ts[0].number, TopValue(ts[0])), ts[1..])
  }

  lemma CollectFieldsCons(m: map<int, Int64>, f: VarintField, rest: seq<VarintField>)
    requires ValidField(f) && ValidFields(rest)
    ensures ValidFields([f] + rest)
    ensures CollectFields(m, [f] + rest) == CollectFields(AddFirst(m, f.number, AsSigned(f.value)), rest)
  {
    assert ([f] + rest)[1..] == rest;
  }

  lemma CollectMessageCons(m: map<int, Value>, t: TopField, rest: seq<TopField>)
    requires ValidTopField(t) && ValidTopFields(rest)
    ensures ValidTopFields([t] + rest)
    ensures CollectMessage(m, [t] + rest) == CollectMessage(AddFirst(m, t.number, TopValue(t)), rest)
  {
    assert ([t] + rest)[1..] == rest;
  }

  lemma EncodeFieldsCons(fs: seq<VarintField>, rest: seq<Byte>)
    requires fs != [] && ValidFields(fs)
    ensures EncodeFields(fs) + rest == EncodeField(fs[0]) + (EncodeFields(fs[1..]) + rest)
  {
  }

  lemma EncodeMessageCons(ts: seq<TopField>, rest: seq<Byte>)
    requires ts != [] && ValidTopFields(ts)
    ensures EncodeMessage(ts) + rest == EncodeTopField(ts[0]) + (EncodeMessage(ts[1..]) + rest)
  {
  }

  // ----------------------------------------------------------------------
  // Scanning one varint.

  /** The reference encoding of v starts with the continuation byte of its
      lowest digit when v needs more than one. */
  lemma NestedVarintStep(v: nat, s: NestedState, rest: seq<Byte>)
    requires v >= 0x80
    ensures NestedRun(EncodeVarint(v) + rest, s) ==
      NestedRun(EncodeVarint(v / 0x80) + rest, s.(groups := s.groups + [v % 0x80]))
  {
    var g: Group := v % 0x80;
    var bytes, tail := EncodeVarint(v) + rest, EncodeVarint(v / 0x80) + rest;
    assert bytes == [0x80 + g] + tail;
    assert bytes[0] == 0x80 + g && bytes[1..] == tail;
    NestedRunContinuation(bytes, s, g);
  }

  lemma NestedVarintLast(v: nat, s: NestedState, rest: seq<Byte>)
    requires v < 0x80 && s.metadataRead
    ensures var x := FieldValue(s.groups + [v]);
      NestedRun(EncodeVarint(v) + rest, s) ==
        if x.Err? then Err(x.error) else NestedRun(rest, NestedStart(AddFirst(s.fields, s.field, x.value)))
  {
    var bytes := EncodeVarint(v) + rest;
    assert bytes[0] == v && bytes[1..] == rest;
    NestedRunValueEnd(bytes, s, v, FieldValue(s.groups + [v]));
  }

  lemma {:induction false} NestedVarintScan(v: nat, s: NestedState, rest: seq<Byte>)
    requires s.metadataRead
    ensures var x := FieldValue(s.groups + Digits(v));
      NestedRun(EncodeVarint(v) + rest, s) ==
        if x.Err? then Err(x.error) else NestedRun(rest, NestedStart(AddFirst(s.fields, s.field, x.value)))
  {
    if v < 0x80 {
      assert s.groups + Digits(v) == s.groups + [v];
      NestedVarintLast(v, s, rest);
    } else {
      var g: Group := v % 0x80;
      assert s.groups + [g] + Digits(v / 0x80) == s.groups + Digits(v) by {
        assert Digits(v) == [g] + Digits(v / 0x80);
      }
      NestedVarintStep(v, s, rest);
      NestedVarintScan(v / 0x80, s.(groups := s.groups + [g]), rest);
    }
  }

  /** The reference encoding of v starts with the continuation byte of its
      lowest digit when v needs more than one. */
  lemma TopVarintStep(v: nat, s: TopState, rest: seq<Byte>)
    requires v >= 0x80 && !s.isNested
    ensures TopRun(EncodeVarint(v) + rest, s) ==
      TopRun(EncodeVarint(v / 0x80) + rest, s.(groups := s.groups + [v % 0x80]))
  {
    var g: Group := v % 0x80;
    var bytes, tail := EncodeVarint(v) + rest, EncodeVarint(v / 0x80) + rest;
    assert bytes == [0x80 + g] + tail;
    assert bytes[0] == 0x80 + g && bytes[1..] == tail;
    TopRunContinuation(bytes, s, g);
  }

  lemma TopVarintLast(v: nat, s: TopState, rest: seq<Byte>)
    requires v < 0x80 && s.metadataRead && !s.isNested
    ensures var x := FieldValue(s.groups + [v]);
      TopRun(EncodeVarint(v) + rest, s) ==
        if x.Err? then Err(x.error) else TopRun(rest, TopStart(AddFirst(s.fields, s.field, Int(x.value))))
  {
    var bytes := EncodeVarint(v) + rest;
    assert bytes[0] == v && bytes[1..] == rest;
    TopRunValueEnd(bytes, s, v, FieldValue(s.groups + [v]));
  }

  lemma {:induction false} TopVarintScan(v: nat, s: TopState, rest: seq<Byte>)
    requires s.metadataRead && !s.isNested
    ensures var x := FieldValue(s.groups + Digits(v));
      TopRun(EncodeVarint(v) + rest, s) ==
        if x.Err? then Err(x.error) else TopRun(rest, TopStart(AddFirst(s.fields, s.field, Int(x.value))))
  {
    if v < 0x80 {
      assert s.groups + Digits(v) == s.groups + [v];
      TopVarintLast(v, s, rest);
    } else {
      var g: Group := v % 0x80;
      assert s.groups + [g] + Digits(v / 0x80) == s.groups + Digits(v) by {
        assert Digits(v) == [g] + Digits(v / 0x80);
      }
      TopVarintStep(v, s, rest);
      TopVarintScan(v / 0x80, s.(groups := s.groups + [g]), rest);
    }
  }

  // ----------------------------------------------------------------------
  // Scanning whole fields inside a nested object.

  lemma NestedFieldScan(f: VarintField, m: map<int, Int64>, rest: seq<Byte>)
    requires ValidField(f)
    ensures NestedRun(EncodeField(f) + rest, NestedStart(m)) ==
      NestedRun(rest, NestedStart(AddFirst(m, f.number, AsSigned(f.value))))
  {
    var tag := EncodeTag(f.number, f.wire);
    var s1 := NestedStart(m).(metadataRead := true, field := f.number);
    assert EncodeField(f) + rest == [tag] + (EncodeVarint(f.value) + rest);
    assert ([tag] + (EncodeVarint(f.value) + rest))[1..] == EncodeVarint(f.value) + rest;
    NestedVarintScan(f.value, s1, rest);
    assert s1.groups + Digits(f.value) == Digits(f.value);
    VarintRoundTrip(f.value);
  }

  lemma {:induction false} NestedFieldsScan(fs: seq<VarintField>, m: map<int, Int64>, rest: seq<Byte>)
    requires ValidFields(fs)
    decreases |fs|
    ensures NestedRun(EncodeFields(fs) + rest, NestedStart(m)) == NestedRun(rest, NestedStart(CollectFields(m, fs)))
  {
    if fs != [] {
      var m' := AddFirst(m, fs[0].number, AsSigned(fs[0].value));
      var tail := EncodeFields(fs[1..]) + rest;
      assert NestedRun(EncodeFields(fs) + rest, NestedStart(m)) == NestedRun(tail, NestedStart(m')) by {
        EncodeFieldsCons(fs, rest);
        NestedFieldScan(fs[0], m, tail);
      }
      assert NestedRun(tail, NestedStart(m')) == NestedRun(rest, NestedStart(CollectFields(m, fs))) by {
        assert CollectFields(m, fs) == CollectFields(m', fs[1..]);
        NestedFieldsScan(fs[1..], m', rest);
      }
    } else {
      assert EncodeFields(fs) + rest == rest;
    }
  }

  /** A nested object decodes to the first value of each of its fields. */
  lemma NestedRoundTrip(fs: seq<VarintField>)
    requires ValidFields(fs)
    ensures NestedObject(EncodeFields(fs)) == Ok(CollectFields(map[], fs))
  {
    NestedFieldsScan(fs, map[], []);
    assert EncodeFields(fs) + [] == EncodeFields(fs);
  }

  // ----------------------------------------------------------------------
  // Scanning whole fields at the top level.

  lemma TopScalarScan(n: int, w: int, v: nat, m: map<int, Value>, rest: seq<Byte>)
    requires ValidTopField(Scalar(n, w, v))
    ensures TopRun(EncodeField(VarintField(n, w, v)) + rest, TopStart(m)) ==
      TopRun(rest, TopStart(AddFirst(m, n, Int(AsSigned(v)))))
  {
    var tag := EncodeTag(n, w);
    var s1 := TopStart(m).(metadataRead := true, isNested := false, field := n);
    var tail := EncodeVarint(v) + rest;
    assert TopRun(EncodeField(VarintField(n, w, v)) + rest, TopStart(m)) == TopRun(tail, s1) by {
      assert EncodeField(VarintField(n, w, v)) + rest == [tag] + tail;
      assert ([tag] + tail)[1..] == tail;
    }
    assert s1.groups + Digits(v) == Digits(v);
    VarintRoundTrip(v);
    TopVarintScan(v, s1, rest);
  }

  lemma TopMessageScan(n: int, body: seq<VarintField>, m: map<int, Value>, rest: seq<Byte>)
    requires ValidTopField(Message(n, body))
    ensures TopRun(EncodeTopField(Message(n, body)) + rest, TopStart(m)) ==
      TopRun(rest, TopStart(AddFirst(m, n, Nested(CollectFields(map[], body)))))
  {
    var bytes := EncodeFields(body);
    assert EncodeTopField(Message(n, body)) + rest == [EncodeTag(n, 2), |bytes|] + bytes + rest;
    TopLengthDelimited(EncodeTag(n, 2), bytes, rest, m);
    NestedRoundTrip(body);
  }

  lemma TopFieldScan(t: TopField, m: map<int, Value>, rest: seq<Byte>)
    requires ValidTopField(t)
    ensures TopRun(EncodeTopField(t) + rest, TopStart(m)) ==
      TopRun(rest, TopStart(AddFirst(m, t.number, TopValue(t))))
  {
    match t
    case Scalar(n, w, v) => TopScalarScan(n, w, v, m, rest);
    case Message(n, body) => TopMessageScan(n, body, m, rest);
  }

  lemma {:induction false} TopFieldsScan(ts: seq<TopField>, m: map<int, Value>, rest: seq<Byte>)
    requires ValidTopFields(ts)
    decreases |ts|
    ensures TopRun(EncodeMessage(ts) + rest, TopStart(m)) == TopRun(rest, TopStart(CollectMessage(m, ts)))
  {
    if ts != [] {
      var m' := AddFirst(m, ts[0].number, TopValue(ts[0]));
      var tail := EncodeMessage(ts[1..]) + rest;
      assert TopRun(EncodeMessage(ts) + rest, TopStart(m)) == TopRun(tail, TopStart(m')) by {
        EncodeMessageCons(ts, rest);
        TopFieldScan(ts[0], m, tail);
      }
      assert TopRun(tail, TopStart(m')) == TopRun(rest, TopStart(CollectMessage(m, ts))) by {
        assert CollectMessage(m, ts) == CollectMessage(m', ts[1..]);
        TopFieldsScan(ts[1..], m', rest);
      }
    } else {
      assert EncodeMessage(ts) + rest == rest;
    }
  }

  /** A message decodes to the first value of each of its fields, nested
      objects included. */
  lemma MessageRoundTrip(ts: seq<TopField>)
    requires ValidTopFields(ts)
    ensures TopRun(EncodeMessage(ts), TopStart(map[])) == Ok(CollectMessage(map[], ts))
  {
    TopFieldsScan(ts, map[], []);
    assert EncodeMessage(ts) + [] == EncodeMessage(ts);
  }

  /** The same, through the hex text GetFieldValues receives. */
  lemma HexMessageRoundTrip(ts: seq<TopField>, upper: bool)
    requires ValidTopFields(ts)
    ensures FieldValues(ToHex(EncodeMessage(ts), upper)) == Ok(CollectMessage(map[], ts))
  {
    HexRoundTrip(EncodeMessage(ts), upper);
    MessageRoundTrip(ts);
  }

  // ----------------------------------------------------------------------
  // Duplicates and truncation.

  lemma {:induction false} CollectMessageAppend(m: map<int, Value>, a: seq<TopField>, b: seq<TopField>)
    requires ValidTopFields(a) && ValidTopFields(b)
    decreases |a|
    ensures ValidTopFields(a + b)
    ensures CollectMessage(m, a + b) == CollectMessage(CollectMessage(m, a), b)
  {
    if a != [] {
      assert (a + b)[1..] == a[1..] + b;
      CollectMessageAppend(AddFirst(m, a[0].number, TopValue(a[0])), a[1..], b);
    } else {
      assert a + b == b;
    }
  }

  /** A field whose number was already seen is read past and dropped: the
      result is that of the message without it. */
  lemma DuplicateFieldIgnored(a: seq<TopField>, d: TopField, b: seq<TopField>, upper: bool)
    requires ValidTopFields(a) && ValidTopField(d) && ValidTopFields(b)
    requires d.number in CollectMessage(map[], a)
    ensures ValidTopFields(a + [d] + b) && ValidTopFields(a + b)
    ensures FieldValues(ToHex(EncodeMessage(a + [d] + b), upper)) == FieldValues(ToHex(EncodeMessage(a + b), upper))
  {
    CollectMessageAppend(map[], a, [d]);
    CollectMessageAppend(map[], a + [d], b);
    CollectMessageAppend(map[], a, b);
    var before := CollectMessage(map[], a);
    assert CollectMessage(before, [d]) == before by {
      assert [d][1..] == [];
    }
    HexMessageRoundTrip(a + [d] + b, upper);
    HexMessageRoundTrip(a + b, upper);
  }

  /** A tag, and any continuation bytes after it, cut off by the end of the
      payload add nothing and raise nothing. */
  lemma TagAtEndDropped(tag: Byte, cont: seq<Byte>, m: map<int, Value>)
    requires tag < 0x80
    requires WireType(tag) != 2 || cont == []
    requires forall k :: 0 <= k < |cont| ==> cont[k] >= 0x80
    ensures TopRun([tag] + cont, TopStart(m)) == Ok(m)
  {
    var s1 := TopStart(m).(metadataRead := true, isNested := WireType(tag) == 2, field := FieldNumber(tag));
    TopRunAfterTag(tag, cont, m);
    if cont != [] {
      TopPartialFieldDropped(cont, s1);
    }
  }

  /** The same after a whole message: it decodes as the message alone. */
  lemma TruncatedTailDropped(ts: seq<TopField>, tag: Byte, cont: seq<Byte>)
    requires ValidTopFields(ts) && tag < 0x80
    requires WireType(tag) != 2 || cont == []
    requires forall k :: 0 <= k < |cont| ==> cont[k] >= 0x80
    ensures TopRun(EncodeMessage(ts) + ([tag] + cont), TopStart(map[])) == Ok(CollectMessage(map[], ts))
  {
    TopFieldsScan(ts, map[], [tag] + cont);
    TagAtEndDropped(tag, cont, CollectMessage(map[], ts));
  }
}
