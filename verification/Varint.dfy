/**
 Base 128 varints, as the generated codec writes and reads them
 (Protocol Buffers Encoding, section "Base 128 Varints").
 */
module Varints {
  import opened Sequences

  const TWO31: int := 0x8000_0000
  const TWO32: int := 0x1_0000_0000
  const TWO63: int := 0x8000_0000_0000_0000
  const TWO64: int := 0x1_0000_0000_0000_0000

  type byte = x: int | 0 <= x < 256

  datatype WireError =
    | IntOverflow
    | UnexpectedEof
    | InvalidLength
    | EndGroupForNonGroup
    | IllegalTag
    | WrongWireType
    | UnexpectedEndOfGroup
    | IllegalWireType

  /** A value read from a buffer and the index after it. */
  datatype Parsed<+T> = Parsed(value: T, next: nat) | Failed(error: WireError)

  function Varint(v: nat): (s: seq<byte>)
    ensures s != []
  {
    if v < 128 then [v] else [v % 128 + 128] + Varint(v / 128)
  }

  /** bits.Len64 */
  function BitLen(v: nat): nat {
    if v == 0 then 0 else 1 + BitLen(v / 2)
  }

  /** x | 1 */
  function SetLowBit(v: nat): nat {
    if v % 2 == 0 then v + 1 else v
  }

  function Sov(v: nat): nat {
    (BitLen(SetLowBit(v)) + 6) / 7
  }

  lemma BitLenSmall(v: nat)
    requires 0 < v < 128
    ensures 1 <= BitLen(v) <= 7
  {
    var a := v / 2;
    var b := a / 2;
    var c := b / 2;
    var d := c / 2;
    var e := d / 2;
    var f := e / 2;
    assert BitLen(v) == 1 + BitLen(a);
    assert f < 2 && BitLen(f) <= 1;
    assert BitLen(e) <= 2;
    assert BitLen(d) <= 3;
    assert BitLen(c) <= 4;
    assert BitLen(b) <= 5;
    assert BitLen(a) <= 6;
  }

  lemma BitLenShift(v: nat)
    requires v >= 128
    ensures BitLen(v) == 7 + BitLen(v / 128)
  {
    var a := v / 2;
    var b := a / 2;
    var c := b / 2;
    var d := c / 2;
    var e := d / 2;
    var f := e / 2;
    assert f / 2 == v / 128;
    assert BitLen(v) == 1 + BitLen(a);
    assert BitLen(a) == 1 + BitLen(b);
    assert BitLen(b) == 1 + BitLen(c);
    assert BitLen(c) == 1 + BitLen(d);
    assert BitLen(d) == 1 + BitLen(e);
    assert BitLen(e) == 1 + BitLen(f);
    assert BitLen(f) == 1 + BitLen(v / 128);
  }

  /** BitLen does not see the lowest bit of anything larger than one. */
  lemma BitLenOfSetLowBit(v: nat)
    ensures BitLen(SetLowBit(v)) == if v == 0 then 1 else BitLen(v)
  {
    assert SetLowBit(v) / 2 == v / 2;
  }

  /** The size computed by sov is the number of bytes encodeVarint writes. */
  lemma {:induction false} SovIsVarintLength(v: nat)
    ensures |Varint(v)| == Sov(v)
  {
    BitLenOfSetLowBit(v);
    if v < 128 {
      BitLenSmall(SetLowBit(v));
    } else {
      BitLenShift(v);
      BitLenOfSetLowBit(v / 128);
      SovIsVarintLength(v / 128);
    }
  }

  /** The bytes of s stand in d from index i on. */
  ghost predicate HasAt(d: seq<byte>, i: nat, s: seq<byte>) {
    i + |s| <= |d| && forall k :: 0 <= k < |s| ==> d[i + k] == s[k]
  }

  lemma HasAtSplit(d: seq<byte>, i: nat, a: seq<byte>, b: seq<byte>)
    requires HasAt(d, i, a + b)
    ensures HasAt(d, i, a) && HasAt(d, i + |a|, b)
  {
    forall k | 0 <= k < |a| ensures d[i + k] == a[k] {
      assert (a + b)[k] == a[k];
    }
    forall k | 0 <= k < |b| ensures d[i + |a| + k] == b[k] {
      assert (a + b)[|a| + k] == b[k];
      assert d[i + (|a| + k)] == b[k];
    }
  }

  /** The k-th and later bytes of a varint; the eleventh byte is an overflow. */
  function VarintFrom(d: seq<byte>, i: nat, k: nat): (r: Parsed<nat>)
    requires i <= |d|
    ensures r.Parsed? ==> i < r.next <= |d|
    decreases |d| - i
  {
    if k >= 10 then Failed(IntOverflow)
    else if i >= |d| then Failed(UnexpectedEof)
    else if d[i] < 128 then Parsed(d[i], i + 1)
    else
      match VarintFrom(d, i + 1, k + 1)
      case Parsed(v, next) => Parsed(d[i] - 128 + 128 * v, next)
      case Failed(e) => Failed(e)
  }

  /** A varint read into a uint64: bits past the 64th are lost. */
  function ReadVarint(d: seq<byte>, i: nat): (r: Parsed<nat>)
    requires i <= |d|
    ensures r.Parsed? ==> i < r.next <= |d| && r.value < TWO64
  {
    match VarintFrom(d, i, 0)
    case Parsed(v, next) => Parsed(v % TWO64, next)
    case Failed(e) => Failed(e)
  }

  lemma {:induction false} VarintFromReads(d: seq<byte>, i: nat, k: nat, v: nat)
    requires HasAt(d, i, Varint(v)) && k + |Varint(v)| <= 10
    ensures VarintFrom(d, i, k) == Parsed(v, i + |Varint(v)|)
    decreases v
  {
    assert d[i + 0] == Varint(v)[0];
    if v >= 128 {
      HasAtSplit(d, i, [v % 128 + 128], Varint(v / 128));
      VarintFromReads(d, i + 1, k + 1, v / 128);
    }
  }

  function Pow128(n: nat): nat {
    if n == 0 then 1 else 128 * Pow128(n - 1)
  }

  lemma {:induction false} VarintFits(v: nat, n: nat)
    requires n > 0 && v < Pow128(n)
    ensures |Varint(v)| <= n
  {
    if v >= 128 {
      assert n > 1 by { assert Pow128(1) == 128 * Pow128(0); }
      VarintFits(v / 128, n - 1);
    }
  }

  lemma VarintAtMostTen(v: nat)
    requires v < TWO64
    ensures |Varint(v)| <= 10
  {
    assert Pow128(3) == 0x20_0000 by { assert Pow128(2) == 128 * Pow128(1); }
    assert Pow128(5) == 0x8_0000_0000 by { assert Pow128(4) == 128 * Pow128(3); }
    assert Pow128(7) == 0x2_0000_0000_0000 by { assert Pow128(6) == 128 * Pow128(5); }
    assert Pow128(9) == 0x8000_0000_0000_0000 by { assert Pow128(8) == 128 * Pow128(7); }
    assert Pow128(10) == 128 * Pow128(9);
    VarintFits(v, 10);
  }

  /** Reading undoes writing, wherever the bytes stand. */
  lemma ReadVarintReads(d: seq<byte>, i: nat, v: nat)
    requires v < TWO64 && HasAt(d, i, Varint(v))
    ensures ReadVarint(d, i) == Parsed(v, i + |Varint(v)|)
  {
    VarintAtMostTen(v);
    VarintFromReads(d, i, 0, v);
  }

  /**
   The decoder's inlined loop, shifting seven bits per byte into a uint64. The bits or-ed in
   are disjoint from those already there, so or-ing is adding.
   */
  method ParseVarint(d: seq<byte>, start: nat) returns (r: Parsed<nat>)
    requires start <= |d|
    ensures r == ReadVarint(d, start)
  {
    hide Continued, VarintFrom, Shifted, Wrapped;
    var i, k, wire, scale: nat := start, 0, 0, 1;
    ghost var raw: nat := 0;
    NothingRead(VarintFrom(d, start, 0));
    while true
      invariant start <= i <= |d| && k <= 10 && wire == Wrapped(raw)
      invariant Continued(VarintFrom(d, i, k), raw, scale) == VarintFrom(d, start, 0)
      decreases 10 - k
    {
      if k >= 10 {
        NoMoreBytes(d, i, k, raw, scale);
        return Failed(IntOverflow);
      }
      if i >= |d| {
        NoMoreBytes(d, i, k, raw, scale);
        return Failed(UnexpectedEof);
      }
      var b: nat := d[i] % 128;
      ReadByte(d, i, k, raw, scale, b);
      WrapAround(raw, Shifted(b, scale));
      wire := Wrapped(wire + Shifted(b, scale));
      raw := raw + Shifted(b, scale);
      i := i + 1;
      if d[i - 1] < 128 {
        WrappedIs(raw);
        return Parsed(wire, i);
      }
      scale := scale * 128;
      k := k + 1;
    }
  }

  /** Seven bits moved to their place: b << (7 * k), where scale is 1 << (7 * k). */
  function Shifted(b: nat, scale: nat): nat {
    ProductIsNat(b, scale);
    b * scale
  }

  lemma ProductIsNat(b: nat, scale: nat)
    ensures b * scale >= 0
  {
  }

  /** What a uint64 keeps. */
  function Wrapped(x: nat): nat {
    x % TWO64
  }

  lemma WrappedIs(x: nat)
    ensures Wrapped(x) == x % TWO64
  {
  }

  lemma WrapAround(raw: nat, x: nat)
    ensures Wrapped(Wrapped(raw) + x) == Wrapped(raw + x)
  {
    assert raw == TWO64 * (raw / TWO64) + raw % TWO64;
    assert raw + x == TWO64 * (raw / TWO64) + (raw % TWO64 + x);
  }

  /** The value of a varint whose first bytes have been accumulated already. */
  ghost function Continued(rest: Parsed<nat>, wire: nat, scale: nat): Parsed<nat> {
    match rest
    case Parsed(v, next) => Parsed(wire + Shifted(v, scale), next)
    case Failed(e) => Failed(e)
  }

  lemma NothingRead(rest: Parsed<nat>)
    ensures Continued(rest, 0, 1) == rest && Wrapped(0) == 0
  {
  }

  lemma NoMoreBytes(d: seq<byte>, i: nat, k: nat, raw: nat, scale: nat)
    requires i <= |d| && (k >= 10 || i == |d|)
    ensures Continued(VarintFrom(d, i, k), raw, scale) == Failed(if k >= 10 then IntOverflow else UnexpectedEof)
  {
  }

  /** One more byte: the value ends here, or goes on seven bits higher. */
  lemma ReadByte(d: seq<byte>, i: nat, k: nat, raw: nat, scale: nat, b: nat)
    requires i < |d| && k < 10 && b == d[i] % 128
    ensures var whole := Continued(VarintFrom(d, i, k), raw, scale);
            && (d[i] < 128 ==> whole == Parsed(raw + Shifted(b, scale), i + 1))
            && (d[i] >= 128 ==> whole == Continued(VarintFrom(d, i + 1, k + 1), raw + Shifted(b, scale), scale * 128))
  {
    if d[i] >= 128 {
      var rest := VarintFrom(d, i + 1, k + 1);
      hide VarintFrom;
      if rest.Parsed? {
        ShiftedSum(b, rest.value, scale);
      }
      MoreBytes(d, i, k);
    }
  }

  lemma MoreBytes(d: seq<byte>, i: nat, k: nat)
    requires i < |d| && k < 10 && d[i] >= 128
    ensures VarintFrom(d, i, k) ==
            match VarintFrom(d, i + 1, k + 1)
            case Parsed(v, next) => Parsed(d[i] - 128 + 128 * v, next)
            case Failed(e) => Failed(e)
  {
  }

  lemma ShiftedSum(b: nat, v: nat, scale: nat)
    ensures Shifted(b + 128 * v, scale) == Shifted(b, scale) + Shifted(v, scale * 128)
  {
    assert (b + 128 * v) * scale == b * scale + v * (scale * 128);
  }

  /** encodeVarint: writes v so that it ends just before offset, and returns where it starts. */
  method EncodeVarint(d: array<byte>, end: nat, v0: nat) returns (base: nat)
    requires Sov(v0) <= end <= d.Length
    modifies d
    ensures base == end - |Varint(v0)|
    ensures forall j :: 0 <= j < base ==> d[j] == old(d[j])
    ensures d[base..] == Varint(v0) + old(d[end..])
  {
    hide Sov, BitLen, Varint;
    SovIsVarintLength(v0);
    base := end - Sov(v0);
    var offset, v := base, v0;
    ghost var done: seq<byte> := [];
    while v >= 128
      invariant base <= offset < end && offset + |Varint(v)| == end && |done| == offset - base
      invariant done + Varint(v) == Varint(v0)
      invariant d[..base] == old(d[..base]) && d[end..] == old(d[end..])
      invariant d[base..offset] == done
    {
      var low := v % 128 + 128;
      VarintMore(v, low);
      MoveHead(done, Varint(v));
      d[offset] := low;
      assert d[base..offset + 1] == done + [low];
      done := done + [low];
      v := v / 128;
      offset := offset + 1;
    }
    VarintLast(v);
    d[offset] := v;
    assert d[base..] == d[base..offset] + [v] + d[end..];
    assert forall j :: 0 <= j < base ==> d[j] == d[..base][j] == old(d[..base])[j];
  }

  lemma VarintMore(v: nat, low: byte)
    requires v >= 128 && low == v % 128 + 128
    ensures Varint(v) != [] && Varint(v)[0] == low && Varint(v)[1..] == Varint(v / 128)
    ensures |Varint(v)| == 1 + |Varint(v / 128)|
  {
  }

  lemma VarintLast(v: nat)
    requires v < 128
    ensures Varint(v) == [v]
  {
  }
}
