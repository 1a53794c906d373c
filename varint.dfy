/** Reassembly of a base-128 varint from its 7-bit groups (CalculateFieldValue),
    and a reference encoder used to state round trips. */
module Varint {
  import opened Common

  /** The low seven bits of one varint byte. */
  type Group = g: int | 0 <= g < 0x80

  const TwoTo63: int := 0x8000_0000_0000_0000
  const TwoTo64: int := 0x1_0000_0000_0000_0000

  /** A C# long. */
  type Int64 = x: int | -TwoTo63 <= x < TwoTo63

  /** The number the groups stand for, least significant group first:
      groups[0] + 128 * groups[1] + 128^2 * groups[2] + ... */
  function GroupsValue(groups: seq<Group>): (r: nat)
    ensures groups != [] ==> r % 0x80 == groups[0]
  {
    if groups == [] then 0 else groups[0] + 0x80 * GroupsValue(groups[1..])
  }

  function Pow128(k: nat): (r: nat)
    ensures r >= 1
  {
    if k == 0 then 1 else 0x80 * Pow128(k - 1)
  }

  /** The long whose 64-bit two's-complement pattern is v. */
  function AsSigned(v: nat): (r: Int64)
    requires v < TwoTo64
    ensures r % TwoTo64 == v
    ensures 0 <= r <==> v < TwoTo63
  {
    if v < TwoTo63 then v else v - TwoTo64
  }

  /** Convert.ToInt64(bits, 2) on the groups written most significant first:
      .NET reads a base-2 string as an unsigned 64-bit number and reinterprets
      it as a long, so only a value needing 65 or more bits overflows. */
  function FieldValue(groups: seq<Group>): (r: Result<Int64>)
    ensures r.Ok? <==> GroupsValue(groups) < TwoTo64
    ensures r.Err? ==> r.error == OverflowError
    ensures r.Ok? ==> r.value % TwoTo64 == GroupsValue(groups)
  {
    var v := GroupsValue(groups);
    if v < TwoTo64 then Ok(AsSigned(v)) else Err(OverflowError)
  }

  function Reversed(s: seq<Group>): (r: seq<Group>)
    ensures |r| == |s|
    ensures forall k :: 0 <= k < |s| ==> r[k] == s[|s| - 1 - k]
  {
    if s == [] then [] else Reversed(s[1..]) + [s[0]]
  }

  /** Reverses the groups so the most significant comes first, appends their
      seven bits each, and parses the bit string in base 2. */
  method CalculateFieldValue(groups: seq<Group>) returns (r: Result<Int64>)
    requires groups != []
    ensures r == FieldValue(groups)
  {
    var reversed := Reversed(groups);
    var n := |groups|;
    var output: nat := 0;  // the bits appended so far, read as a number
    for i := 0 to n
      invariant output == GroupsValue(groups[n - i..])
    {
      assert groups[n - 1 - i..][1..] == groups[n - i..];
      output := output * 0x80 + reversed[i];
    }
    assert groups[n - n..] == groups;
    if output < TwoTo64 {
      r := Ok(AsSigned(output));
    } else {
      r := Err(OverflowError);
    }
  }

  lemma {:induction false} GroupsValueBound(groups: seq<Group>, k: nat)
    requires |groups| <= k
    ensures GroupsValue(groups) < Pow128(k)
  {
    if groups != [] {
      GroupsValueBound(groups[1..], k - 1);
    }
  }

  /** Nine groups hold 63 bits: they never overflow and never turn negative. */
  lemma AtMostNineGroups(groups: seq<Group>)
    requires |groups| <= 9
    ensures FieldValue(groups) == Ok(GroupsValue(groups))
  {
    GroupsValueBound(groups, 9);
    assert Pow128(9) == TwoTo63;
  }

  /** A tenth group of 2 or more carries bit 64 or higher: always an overflow. */
  lemma TenthGroupOverflows(groups: seq<Group>)
    requires |groups| == 10 && groups[9] >= 2
    ensures FieldValue(groups) == Err(OverflowError)
  {
    GroupsValueAtLeastTop(groups);
    assert Pow128(9) == TwoTo63;
  }

  /** A value is at least its most significant group times its weight. */
  lemma {:induction false} GroupsValueAtLeastTop(groups: seq<Group>)
    requires groups != []
    ensures GroupsValue(groups) >= groups[|groups| - 1] * Pow128(|groups| - 1)
  {
    if |groups| > 1 {
      var n, top := |groups|, groups[|groups| - 1];
      GroupsValueAtLeastTop(groups[1..]);
      assert groups[1..][n - 2] == top;
      assert Pow128(n - 1) == 0x80 * Pow128(n - 2);
      assert top * Pow128(n - 1) == 0x80 * (top * Pow128(n - 2));
    }
  }

  // A reference encoder: the 7-bit groups of a number, least significant
  // first, each but the last carrying the continuation bit.

  function Digits(v: nat): seq<Group> {
    if v < 0x80 then [v] else [v % 0x80] + Digits(v / 0x80)
  }

  function EncodeVarint(v: nat): (r: seq<Byte>)
    ensures |r| == |Digits(v)|
    ensures r[|r| - 1] < 0x80
    ensures forall k :: 0 <= k < |r| - 1 ==> r[k] >= 0x80
    ensures forall k :: 0 <= k < |r| ==> r[k] % 0x80 == Digits(v)[k]
  {
    if v < 0x80 then [v] else [0x80 + v % 0x80] + EncodeVarint(v / 0x80)
  }

  /** The groups of the reference encoding reassemble to the number. */
  lemma {:induction false} DigitsValue(v: nat)
    ensures GroupsValue(Digits(v)) == v
  {
    if v >= 0x80 {
      DigitsValue(v / 0x80);
      assert Digits(v)[1..] == Digits(v / 0x80);
    }
  }

  /** Decoding the reference encoding of any 64-bit pattern gives that pattern back. */
  lemma VarintRoundTrip(v: nat)
    requires v < TwoTo64
    ensures FieldValue(Digits(v)) == Ok(AsSigned(v))
  {
    DigitsValue(v);
  }

  /** A number below 128^k takes at most k bytes. */
  lemma {:induction false} EncodeVarintLength(v: nat, k: nat)
    requires 1 <= k && v < Pow128(k)
    ensures |EncodeVarint(v)| <= k
  {
    if v >= 0x80 {
      EncodeVarintLength(v / 0x80, k - 1);
    }
  }
}
