/** What the two scanners promise about keys, first-wins insertion,
    truncated input, the length byte and the wire types. */
module ScannerProperties {
  import opened Common
  import opened Varint
  import opened Hex
  import opened Scanner

  /** Every key of big is a key of small with the same value. */
  ghost predicate Extends<V>(big: map<int, V>, small: map<int, V>) {
    forall k :: k in small ==> k in big && big[k] == small[k]
  }

  ghost predicate KeysInRange<V>(m: map<int, V>) {
    forall k :: k in m ==> 0 <= k < 16
  }

  /** Keys in 0..15 at the top level and inside every nested object. */
  ghost predicate AllKeysInRange(m: map<int, Value>) {
    KeysInRange(m) && forall k :: k in m && m[k].Nested? ==> KeysInRange(m[k].fields)
  }

  // ----------------------------------------------------------------------
  // Keys come from four bits of a tag byte.

  lemma {:induction false} NestedRunKeys(bytes: seq<Byte>, s: NestedState)
    requires KeysInRange(s.fields) && 0 <= s.field < 16
    ensures NestedRun(bytes, s).Ok? ==> KeysInRange(NestedRun(bytes, s).value)
    decreases |bytes|
  {
    if bytes != [] {
      var b := bytes[0];
      if b < 0x80 && !s.metadataRead {
        NestedRunKeys(bytes[1..], s.(metadataRead := true, field := FieldNumber(b)));
      } else if b < 0x80 {
        var g: Group := b;
        var x := FieldValue(s.groups + [g]);
        if x.Ok? {
          NestedRunKeys(bytes[1..], NestedStart(AddFirst(s.fields, s.field, x.value)));
        }
      } else {
        var g: Group := b - 0x80;
        NestedRunKeys(bytes[1..], s.(groups := s.groups + [g]));
      }
    }
  }

  lemma {:induction false} TopRunKeys(bytes: seq<Byte>, s: TopState)
    requires AllKeysInRange(s.fields) && 0 <= s.field < 16
    ensures TopRun(bytes, s).Ok? ==> AllKeysInRange(TopRun(bytes, s).value)
    decreases |bytes|
  {
    if bytes != [] {
      var b := bytes[0];
      if b < 0x80 && !s.metadataRead {
        TopRunKeys(bytes[1..], s.(metadataRead := true, isNested := WireType(b) == 2, field := FieldNumber(b)));
      } else if s.isNested {
        var count := Min(b, |bytes| - 1);
        var inner := NestedObject(bytes[1..1 + count]);
        if inner.Ok? {
          NestedRunKeys(bytes[1..1 + count], NestedStart(map[]));
          TopRunKeys(bytes[1 + count..], TopStart(AddFirst(s.fields, s.field, Nested(inner.value))));
        }
      } else if b < 0x80 {
        var g: Group := b;
        var x := FieldValue(s.groups + [g]);
        if x.Ok? {
          TopRunKeys(bytes[1..], TopStart(AddFirst(s.fields, s.field, Int(x.value))));
        }
      } else {
        var g: Group := b - 0x80;
        TopRunKeys(bytes[1..], s.(groups := s.groups + [g]));
      }
    }
  }

  /** Every key GetFieldValues returns, at either level, lies in 0..15. */
  lemma DecodedKeysInRange(hexString: string)
    ensures FieldValues(hexString).Ok? ==> AllKeysInRange(FieldValues(hexString).value)
  {
    var bytes := HexToBytes(hexString);
    if bytes.Ok? {
      TopRunKeys(bytes.value, TopStart(map[]));
    }
  }

  // ----------------------------------------------------------------------
  // First occurrence wins: an entry, once made, is never replaced.

  lemma {:induction false} NestedRunGrows(bytes: seq<Byte>, s: NestedState)
    ensures NestedRun(bytes, s).Ok? ==> Extends(NestedRun(bytes, s).value, s.fields)
    decreases |bytes|
  {
    if bytes != [] {
      var b := bytes[0];
      if b < 0x80 && !s.metadataRead {
        NestedRunGrows(bytes[1..], s.(metadataRead := true, field := FieldNumber(b)));
      } else if b < 0x80 {
        var g: Group := b;
        var x := FieldValue(s.groups + [g]);
        if x.Ok? {
          NestedRunGrows(bytes[1..], NestedStart(AddFirst(s.fields, s.field, x.value)));
        }
      } else {
        var g: Group := b - 0x80;
        NestedRunGrows(bytes[1..], s.(groups := s.groups + [g]));
      }
    }
  }

  lemma {:induction false} TopRunGrows(bytes: seq<Byte>, s: TopState)
    ensures TopRun(bytes, s).Ok? ==> Extends(TopRun(bytes, s).value, s.fields)
    decreases |bytes|
  {
    if bytes != [] {
      var b := bytes[0];
      if b < 0x80 && !s.metadataRead {
        TopRunGrows(bytes[1..], s.(metadataRead := true, isNested := WireType(b) == 2, field := FieldNumber(b)));
      } else if s.isNested {
        var count := Min(b, |bytes| - 1);
        var inner := NestedObject(bytes[1..1 + count]);
        if inner.Ok? {
          TopRunGrows(bytes[1 + count..], TopStart(AddFirst(s.fields, s.field, Nested(inner.value))));
        }
      } else if b < 0x80 {
        var g: Group := b;
        var x := FieldValue(s.groups + [g]);
        if x.Ok? {
          TopRunGrows(bytes[1..], TopStart(AddFirst(s.fields, s.field, Int(x.value))));
        }
      } else {
        var g: Group := b - 0x80;
        TopRunGrows(bytes[1..], s.(groups := s.groups + [g]));
      }
    }
  }

  // ----------------------------------------------------------------------
  // A field cut off by the end of the input leaves no entry and no error.

  lemma {:induction false} NestedPartialFieldDropped(bytes: seq<Byte>, s: NestedState)
    requires s.metadataRead
    requires forall k :: 0 <= k < |bytes| ==> bytes[k] >= 0x80
    ensures NestedRun(bytes, s) == Ok(s.fields)
    decreases |bytes|
  {
    if bytes != [] {
      var g: Group := bytes[0] - 0x80;
      NestedPartialFieldDropped(bytes[1..], s.(groups := s.groups + [g]));
    }
  }

  lemma {:induction false} TopPartialFieldDropped(bytes: seq<Byte>, s: TopState)
    requires s.metadataRead && !s.isNested
    requires forall k :: 0 <= k < |bytes| ==> bytes[k] >= 0x80
    ensures TopRun(bytes, s) == Ok(s.fields)
    decreases |bytes|
  {
    if bytes != [] {
      var g: Group := bytes[0] - 0x80;
      TopPartialFieldDropped(bytes[1..], s.(groups := s.groups + [g]));
    }
  }

  // ----------------------------------------------------------------------
  // The length byte of a top-level wire-type-2 field.

  /** A tag byte at the top level, from a reset state. */
  lemma TopRunAfterTag(tag: Byte, rest: seq<Byte>, m: map<int, Value>)
    requires tag < 0x80
    ensures TopRun([tag] + rest, TopStart(m)) ==
      TopRun(rest, TopStart(m).(metadataRead := true, isNested := WireType(tag) == 2, field := FieldNumber(tag)))
  {
    assert ([tag] + rest)[1..] == rest;
  }

  /** The length byte and the body it announces, with rest after the body
      when the body is complete, or nothing after it when it is cut short. */
  lemma TopRunBody(n: Byte, body: seq<Byte>, rest: seq<Byte>, s: TopState)
    requires s.metadataRead && s.isNested
    requires n == |body| || (n > |body| && rest == [])
    ensures NestedObject(body).Err? ==> TopRun([n] + body + rest, s) == Err(NestedObject(body).error)
    ensures NestedObject(body).Ok? ==>
      TopRun([n] + body + rest, s) == TopRun(rest, TopStart(AddFirst(s.fields, s.field, Nested(NestedObject(body).value))))
  {
    var tail := [n] + body + rest;
    assert tail[1..1 + |body|] == body && tail[1 + |body|..] == rest;
    TopRunLength(tail, s, |body|, NestedObject(body));
  }

  /** The byte after a wire-type-2 tag is the length N, read even when its
      high bit is set; the next N bytes go to the nested scanner and the top
      level resumes right after them, from a reset state. */
  lemma TopLengthDelimited(tag: Byte, body: seq<Byte>, rest: seq<Byte>, m: map<int, Value>)
    requires tag < 0x80 && WireType(tag) == 2 && |body| < 0x100
    ensures NestedObject(body).Err? ==> TopRun([tag, |body|] + body + rest, TopStart(m)) == Err(NestedObject(body).error)
    ensures NestedObject(body).Ok? ==>
      TopRun([tag, |body|] + body + rest, TopStart(m)) ==
      TopRun(rest, TopStart(AddFirst(m, FieldNumber(tag), Nested(NestedObject(body).value))))
  {
    var afterTag := TopStart(m).(metadataRead := true, isNested := true, field := FieldNumber(tag));
    assert [tag, |body|] + body + rest == [tag] + ([|body|] + body + rest);
    TopRunAfterTag(tag, [|body|] + body + rest, m);
    TopRunBody(|body|, body, rest, afterTag);
  }

  /** A length larger than what is left hands the nested scanner only the
      bytes that remain, and still records the nested object. */
  lemma TopTruncatedBody(tag: Byte, n: Byte, body: seq<Byte>, m: map<int, Value>)
    requires tag < 0x80 && WireType(tag) == 2 && |body| < n
    ensures NestedObject(body).Err? ==> TopRun([tag, n] + body, TopStart(m)) == Err(NestedObject(body).error)
    ensures NestedObject(body).Ok? ==>
      TopRun([tag, n] + body, TopStart(m)) == Ok(AddFirst(m, FieldNumber(tag), Nested(NestedObject(body).value)))
  {
    var afterTag := TopStart(m).(metadataRead := true, isNested := true, field := FieldNumber(tag));
    assert [tag, n] + body == [tag] + ([n] + body + []);
    TopRunAfterTag(tag, [n] + body + [], m);
    TopRunBody(n, body, [], afterTag);
  }

  // ----------------------------------------------------------------------
  // Wire types.

  /** One value byte below 128 decodes to itself, under any wire type inside a
      nested object and under any wire type but 2 at the top level: no wire
      type is rejected. */
  lemma SingleByteValue(tag: Byte, b: Byte)
    requires tag < 0x80 && b < 0x80
    ensures NestedObject([tag, b]) == Ok(map[FieldNumber(tag) := b])
    ensures WireType(tag) != 2 ==> TopRun([tag, b], TopStart(map[])) == Ok(map[FieldNumber(tag) := Int(b)])
  {
    var f := FieldNumber(tag);
    var g: Group := b;
    assert FieldValue([g]) == Ok(b) by {
      assert GroupsValue([g]) == b + 0x80 * GroupsValue([g][1..]);
      assert [g][1..] == [];
    }
    assert [tag, b][1..] == [b];
    assert [b][1..] == [];
    var s1 := NestedStart(map[]).(metadataRead := true, field := f);
    assert NestedObject([tag, b]) == NestedRun([b], s1);
    assert s1.groups + [g] == [g];
    assert AddFirst(map[], f, b) == map[f := b];
    assert NestedRun([b], s1) == NestedRun([], NestedStart(map[f := b]));
    if WireType(tag) != 2 {
      var t1 := TopStart(map[]).(metadataRead := true, isNested := false, field := f);
      assert TopRun([tag, b], TopStart(map[])) == TopRun([b], t1);
      assert t1.groups + [g] == [g];
      assert AddFirst(map[], f, Int(b)) == map[f := Int(b)];
      assert TopRun([b], t1) == TopRun([], TopStart(map[f := Int(b)]));
    }
  }

  /** Only the top level gives wire type 2 a length byte: after the same two
      bytes the top level records an empty nested object. */
  lemma WireTypeTwoOnlyAtTopLevel(tag: Byte, b: Byte)
    requires tag < 0x80 && WireType(tag) == 2 && b < 0x80
    ensures NestedObject([tag, b]) == Ok(map[FieldNumber(tag) := b])
    ensures TopRun([tag, b], TopStart(map[])) == Ok(map[FieldNumber(tag) := Nested(map[])])
  {
    SingleByteValue(tag, b);
    var f := FieldNumber(tag);
    TopTruncatedBody(tag, if b == 0 then 1 else b, [], map[]);
    if b == 0 {
      TopLengthDelimited(tag, [], [], map[]);
      assert [tag, 0] + [] + [] == [tag, b];
    } else {
      assert [tag, b] + [] == [tag, b];
    }
    assert NestedObject([]) == Ok(map[]);
    assert AddFirst(map[], f, Nested(map[])) == map[f := Nested(map[])];
  }

  /** A byte with its high bit set where a tag is expected is kept as a
      group, so its seven bits become the low bits of the next field's value. */
  lemma HighBitBeforeTagLeaks(c: Byte, tag: Byte, b: Byte)
    requires c >= 0x80 && tag < 0x80 && WireType(tag) != 2 && b < 0x80
    ensures TopRun([c, tag, b], TopStart(map[])) == Ok(map[FieldNumber(tag) := Int(c - 0x80 + 0x80 * b)])
    ensures NestedObject([c, tag, b]) == Ok(map[FieldNumber(tag) := c - 0x80 + 0x80 * b])
  {
    var f := FieldNumber(tag);
    var g0: Group := c - 0x80;
    var g1: Group := b;
    var v := c - 0x80 + 0x80 * b;
    assert FieldValue([g0] + [g1]) == Ok(v) by {
      assert [g0] + [g1] == [g0, g1];
      assert [g0, g1][1..] == [g1];
      assert [g1][1..] == [];
      assert GroupsValue([g1]) == b;
      assert GroupsValue([g0, g1]) == v;
      assert v < TwoTo63;
    }
    assert [c, tag, b][1..] == [tag, b];
    assert [tag, b][1..] == [b];
    assert [b][1..] == [];
    var n1 := NestedStart(map[]).(groups := [g0]);
    assert NestedStart(map[]).groups + [g0] == [g0];
    var n2 := n1.(metadataRead := true, field := f);
    assert NestedObject([c, tag, b]) == NestedRun([tag, b], n1);
    assert NestedRun([tag, b], n1) == NestedRun([b], n2);
    assert AddFirst(map[], f, v) == map[f := v];
    assert NestedRun([b], n2) == NestedRun([], NestedStart(map[f := v]));
    var t1 := TopStart(map[]).(groups := [g0]);
    var t2 := t1.(metadataRead := true, isNested := false, field := f);
    assert TopRun([c, tag, b], TopStart(map[])) == TopRun([tag, b], t1);
    assert TopRun([tag, b], t1) == TopRun([b], t2);
    assert AddFirst(map[], f, Int(v)) == map[f := Int(v)];
    assert TopRun([b], t2) == TopRun([], TopStart(map[f := Int(v)]));
  }
}
