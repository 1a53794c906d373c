/** The two message scanners of ZwiftUdpPacketUtils: GetFieldValues (top
    level, which alone understands wire type 2) and DecodeNestedObject (one
    level down). Both read a byte at a time and keep the same flags; each is a
    method with a loop, proved equal to a tail-recursive run of its state
    machine (NestedRun, TopRun), and the properties are lemmas about the runs. */
module Scanner {
  import opened Common
  import opened Varint
  import opened Hex

  /** A decoded field: a long, or the dictionary of a nested object. */
  datatype Value = Int(n: Int64) | Nested(fields: map<int, Int64>)

  /** Bits 6..3 of a tag byte. */
  function FieldNumber(tag: Byte): (r: int)
    ensures 0 <= r < 16
  {
    (tag / 8) % 16
  }

  /** Bits 2..0 of a tag byte. */
  function WireType(tag: Byte): (r: int)
    ensures 0 <= r < 8
  {
    tag % 8
  }

  /** Dictionary.Add guarded by ContainsKey: the first value for a key stays. */
  function AddFirst<V>(m: map<int, V>, key: int, v: V): (r: map<int, V>)
    ensures key in r && r.Keys == m.Keys + {key}
    ensures key in m ==> r == m
    ensures key !in m ==> r[key] == v
  {
    if key in m then m else m[key := v]
  }

  /** First-wins insertion never replaces an entry. */
  lemma AddFirstKeeps<V>(m: map<int, V>, key: int, v: V)
    ensures forall k :: k in m ==> AddFirst(m, key, v)[k] == m[k]
  {
  }

  // ----------------------------------------------------------------------
  // DecodeNestedObject

  /** The loop state of DecodeNestedObject: fieldMetdataHasBeenCalculated,
      fieldNumber, the pending groups (arrayOfFieldValues) and the result. */
  datatype NestedState = NestedState(metadataRead: bool, field: int, groups: seq<Group>, fields: map<int, Int64>)

  function NestedStart(fields: map<int, Int64>): NestedState {
    NestedState(false, 0, [], fields)
  }

  /** The nested machine run over the remaining bytes. A clear high bit is a
      tag when no tag is pending and otherwise ends the value; a set high bit
      always adds a group, even where a tag is expected. */
  function NestedRun(bytes: seq<Byte>, s: NestedState): (r: Result<map<int, Int64>>)
    ensures r.Err? ==> r.error == OverflowError
    decreases |bytes|
  {
    if bytes == [] then Ok(s.fields)
    else
      var b := bytes[0];
      if b < 0x80 && !s.metadataRead then
        NestedRun(bytes[1..], s.(metadataRead := true, field := FieldNumber(b)))
      else if b < 0x80 then
        var g: Group := b;
        var x :- FieldValue(s.groups + [g]);
        NestedRun(bytes[1..], NestedStart(AddFirst(s.fields, s.field, x)))
      else
        var g: Group := b - 0x80;
        NestedRun(bytes[1..], s.(groups := s.groups + [g]))
  }

  // One step of NestedRun per branch.

  lemma NestedRunValueEnd(bytes: seq<Byte>, s: NestedState, g: Group, x: Result<Int64>)
    requires bytes != [] && bytes[0] < 0x80 && s.metadataRead
    requires g == bytes[0] && x == FieldValue(s.groups + [g])
    ensures x.Err? ==> NestedRun(bytes, s) == Err(x.error)
    ensures x.Ok? ==> NestedRun(bytes, s) == NestedRun(bytes[1..], NestedStart(AddFirst(s.fields, s.field, x.value)))
  {
  }

  lemma NestedRunContinuation(bytes: seq<Byte>, s: NestedState, g: Group)
    requires bytes != [] && bytes[0] >= 0x80 && g == bytes[0] - 0x80
    ensures NestedRun(bytes, s) == NestedRun(bytes[1..], NestedState(s.metadataRead, s.field, s.groups + [g], s.fields))
  {
  }

  function NestedObject(bytes: seq<Byte>): (r: Result<map<int, Int64>>)
    ensures r.Err? ==> r.error == OverflowError
  {
    NestedRun(bytes, NestedStart(map[]))
  }

  method DecodeNestedObject(bytes: seq<Byte>) returns (r: Result<map<int, Int64>>)
    ensures r == NestedObject(bytes)
  {
    var metadataRead := false;
    var fieldNumber := 0;
    var groups: seq<Group> := [];
    var result: map<int, Int64> := map[];
    for i := 0 to |bytes|
      invariant NestedRun(bytes[i..], NestedState(metadataRead, fieldNumber, groups, result)) == NestedObject(bytes)
    {
      var b := bytes[i];
      assert bytes[i..][1..] == bytes[i + 1..];
      if b < 0x80 && !metadataRead {
        // the wire type (bits 2..0) is computed by the source but never used here
        fieldNumber := FieldNumber(b);
        metadataRead := true;
      } else if b < 0x80 {
        groups := groups + [b];
        var fieldValue := CalculateFieldValue(groups);
        if fieldValue.Err? {
          return Err(fieldValue.error);
        }
        if fieldNumber !in result {
          result := result[fieldNumber := fieldValue.value];
        }
        metadataRead, fieldNumber, groups := false, 0, [];
      } else {
        groups := groups + [b - 0x80];
      }
    }
    r := Ok(result);
  }

  // ----------------------------------------------------------------------
  // GetFieldValues

  /** The loop state of GetFieldValues: as above, plus isNestedObject. */
  datatype TopState = TopState(metadataRead: bool, isNested: bool, field: int, groups: seq<Group>, fields: map<int, Value>)

  function TopStart(fields: map<int, Value>): TopState {
    TopState(false, false, 0, [], fields)
  }

  /** The top-level machine run over the remaining bytes. After a tag of wire
      type 2 the next byte, whatever its high bit, is a length N; the next
      min(N, remaining) bytes are decoded as a nested object and skipped. */
  function TopRun(bytes: seq<Byte>, s: TopState): (r: Result<map<int, Value>>)
    ensures r.Err? ==> r.error == OverflowError
    decreases |bytes|
  {
    if bytes == [] then Ok(s.fields)
    else
      var b := bytes[0];
      if b < 0x80 && !s.metadataRead then
        TopRun(bytes[1..], s.(metadataRead := true, isNested := WireType(b) == 2, field := FieldNumber(b)))
      else if s.isNested then
        var count := Min(b, |bytes| - 1);
        var inner :- NestedObject(bytes[1..1 + count]);
        TopRun(bytes[1 + count..], TopStart(AddFirst(s.fields, s.field, Nested(inner))))
      else if b < 0x80 then
        var g: Group := b;
        var x :- FieldValue(s.groups + [g]);
        TopRun(bytes[1..], TopStart(AddFirst(s.fields, s.field, Int(x))))
      else
        var g: Group := b - 0x80;
        TopRun(bytes[1..], s.(groups := s.groups + [g]))
  }

  // One step of TopRun per branch, stated apart to keep the loop proof small.

  lemma TopRunTag(bytes: seq<Byte>, s: TopState)
    requires bytes != [] && bytes[0] < 0x80 && !s.metadataRead
    ensures TopRun(bytes, s) == TopRun(bytes[1..], s.(metadataRead := true, isNested := WireType(bytes[0]) == 2, field := FieldNumber(bytes[0])))
  {
  }

  lemma TopRunLength(bytes: seq<Byte>, s: TopState, count: nat, nested: Result<map<int, Int64>>)
    requires bytes != [] && !(bytes[0] < 0x80 && !s.metadataRead) && s.isNested
    requires count == Min(bytes[0], |bytes| - 1) && nested == NestedObject(bytes[1..1 + count])
    ensures nested.Err? ==> TopRun(bytes, s) == Err(nested.error)
    ensures nested.Ok? ==> TopRun(bytes, s) == TopRun(bytes[1 + count..], TopStart(AddFirst(s.fields, s.field, Nested(nested.value))))
  {
    if nested.Err? {
      TopRunLengthFails(bytes, s, count, nested);
    } else {
      TopRunLengthSkips(bytes, s, count, nested);
    }
  }

  lemma TopRunLengthFails(bytes: seq<Byte>, s: TopState, count: nat, nested: Result<map<int, Int64>>)
    requires bytes != [] && !(bytes[0] < 0x80 && !s.metadataRead) && s.isNested
    requires count == Min(bytes[0], |bytes| - 1) && nested == NestedObject(bytes[1..1 + count])
    requires nested.Err?
    ensures TopRun(bytes, s) == Err(nested.error)
  {
  }

  lemma TopRunLengthSkips(bytes: seq<Byte>, s: TopState, count: nat, nested: Result<map<int, Int64>>)
    requires bytes != [] && !(bytes[0] < 0x80 && !s.metadataRead) && s.isNested
    requires count == Min(bytes[0], |bytes| - 1) && nested == NestedObject(bytes[1..1 + count])
    requires nested.Ok?
    ensures TopRun(bytes, s) == TopRun(bytes[1 + count..], TopStart(AddFirst(s.fields, s.field, Nested(nested.value))))
  {
  }

  lemma TopRunValueEnd(bytes: seq<Byte>, s: TopState, g: Group, x: Result<Int64>)
    requires bytes != [] && bytes[0] < 0x80 && s.metadataRead && !s.isNested
    requires g == bytes[0] && x == FieldValue(s.groups + [g])
    ensures x.Err? ==> TopRun(bytes, s) == Err(x.error)
    ensures x.Ok? ==> TopRun(bytes, s) == TopRun(bytes[1..], TopStart(AddFirst(s.fields, s.field, Int(x.value))))
  {
  }

  lemma TopRunContinuation(bytes: seq<Byte>, s: TopState, g: Group)
    requires bytes != [] && bytes[0] >= 0x80 && !s.isNested && g == bytes[0] - 0x80
    ensures TopRun(bytes, s) == TopRun(bytes[1..], TopState(s.metadataRead, s.isNested, s.field, s.groups + [g], s.fields))
  {
  }

  /** What GetFieldValues returns for a hex text, or the exception it throws. */
  function FieldValues(hexString: string): (r: Result<map<int, Value>>)
    ensures r.Err? ==> r.error == FormatError || r.error == ArgumentError || r.error == OverflowError
    ensures (forall i :: 0 <= i < |hexString| ==> IsHexDigit(hexString[i])) ==> r.Ok? || r.error == OverflowError
  {
    var bytes :- HexToBytes(hexString);
    TopRun(bytes, TopStart(map[]))
  }

  method GetFieldValues(hexString: string) returns (r: Result<map<int, Value>>)
    ensures r == FieldValues(hexString)
  {
    var nibbles :- HexNibbles(hexString);
    var bytes := SplitIntoBytes(nibbles);
    r := GetFieldValuesFromBytes(bytes);
  }

  method GetFieldValuesFromBytes(bytes: seq<Byte>) returns (r: Result<map<int, Value>>)
    ensures r == TopRun(bytes, TopStart(map[]))
  {
    ghost var spec := TopRun(bytes, TopStart(map[]));

    var metadataRead, isNestedObject := false, false;
    var fieldNumber := 0;
    var groups: seq<Group> := [];
    var result: map<int, Value> := map[];
    var i := 0;
    while i < |bytes|
      invariant 0 <= i
      invariant TopRun(bytes[Min(i, |bytes|)..], TopState(metadataRead, isNestedObject, fieldNumber, groups, result)) == spec
      decreases |bytes| - i
    {
      var b := bytes[i];
      ghost var rest := bytes[i..];
      ghost var before := TopState(metadataRead, isNestedObject, fieldNumber, groups, result);
      ghost var next := rest[1..];  // the bytes left after this iteration
      if b < 0x80 && !metadataRead {
        fieldNumber := FieldNumber(b);
        isNestedObject := WireType(b) == 2;
        metadataRead := true;
        assert TopRun(next, TopState(metadataRead, isNestedObject, fieldNumber, groups, result)) == spec by {
          TopRunTag(rest, before);
        }
      } else if isNestedObject {
        var numberOfBytesInNestedObject := b;
        var count := Min(numberOfBytesInNestedObject, |bytes| - (i + 1));
        assert rest[1..1 + count] == bytes[i + 1..i + 1 + count];
        var nestedObject := DecodeNestedObject(bytes[i + 1..i + 1 + count]);
        TopRunLength(rest, before, count, nestedObject);
        if nestedObject.Err? {
          return Err(nestedObject.error);
        }
        if fieldNumber !in result {
          result := result[fieldNumber := Nested(nestedObject.value)];
        }
        i := i + numberOfBytesInNestedObject;
        metadataRead, fieldNumber, groups, isNestedObject := false, 0, [], false;
        next := rest[1 + count..];
        assert TopRun(next, TopState(metadataRead, isNestedObject, fieldNumber, groups, result)) == spec by {
          assert result == AddFirst(before.fields, before.field, Nested(nestedObject.value));
        }
        assert Min(i + 1, |bytes|) == |bytes| - |next|;
      } else if b < 0x80 {
        groups := groups + [b];
        var fieldValue := CalculateFieldValue(groups);
        TopRunValueEnd(rest, before, b, fieldValue);
        if fieldValue.Err? {
          return Err(fieldValue.error);
        }
        if fieldNumber !in result {
          result := result[fieldNumber := Int(fieldValue.value)];
        }
        metadataRead, fieldNumber, groups := false, 0, [];
        assert TopRun(next, TopState(metadataRead, isNestedObject, fieldNumber, groups, result)) == spec by {
          assert result == AddFirst(before.fields, before.field, Int(fieldValue.value));
        }
      } else {
        var g: Group := b - 0x80;
        groups := groups + [g];
        assert TopRun(next, TopState(metadataRead, isNestedObject, fieldNumber, groups, result)) == spec by {
          TopRunContinuation(rest, before, g);
        }
      }
      i := i + 1;
      assert bytes[Min(i, |bytes|)..] == next;
    }
    r := Ok(result);
  }
}
