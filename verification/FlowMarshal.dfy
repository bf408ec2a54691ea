/**
 MarshalToSizedBufferVT: messages are written backwards into a buffer of SizeVT bytes, each
 step moving the index down over what it writes. The buffer is filled exactly.
 */
module FlowMarshal {
  import opened Wrappers
  import opened Sequences
  import opened Varints
  import opened WireFormat
  import opened FlowMessages

  method PutBytes(d: array<byte>, end: nat, s: seq<byte>) returns (i: nat)
    requires |s| <= end <= d.Length
    modifies d
    ensures i == end - |s|
    ensures forall j :: 0 <= j < i ==> d[j] == old(d[j])
    ensures d[i..] == s + old(d[end..])
  {
    i := end - |s|;
    for k := 0 to |s|
      invariant forall j :: 0 <= j < k ==> d[i + j] == s[j]
      invariant forall j :: 0 <= j < i || end <= j < d.Length ==> d[j] == old(d[j])
    {
      d[i + k] := s[k];
    }
  }

  method PutString(d: array<byte>, end: nat, tag: byte, s: seq<byte>) returns (i: nat)
    requires StringSize(s) <= end <= d.Length
    modifies d
    ensures i == end - StringSize(s)
    ensures forall j :: 0 <= j < i ==> d[j] == old(d[j])
    ensures d[i..] == StringRecord(tag, s) + old(d[end..])
  {
    i := end;
    if |s| > 0 {
      i := PutDelimited(d, end, tag, s);
    }
  }

  method PutDelimited(d: array<byte>, end: nat, tag: byte, s: seq<byte>) returns (i: nat)
    requires MessageSize(|s|) <= end <= d.Length
    modifies d
    ensures i == end - MessageSize(|s|)
    ensures forall j :: 0 <= j < i ==> d[j] == old(d[j])
    ensures d[i..] == Delimited(tag, s) + old(d[end..])
  {
    hide Varint, Sov;
    ghost var tail := d[end..];
    i := PutBytes(d, end, s);
    i := PutHeader(d, i, tag, |s|, s + tail);
    Regroup([tag], Varint(|s|) + s, tail);
    Regroup(Varint(|s|), s, tail);
  }

  /** The length and the tag in front of a payload that is already in place. */
  method PutHeader(d: array<byte>, end: nat, tag: byte, n: nat, ghost payload: seq<byte>) returns (i: nat)
    requires 1 + Sov(n) <= end <= d.Length && d[end..] == payload
    modifies d
    ensures i == end - 1 - Sov(n)
    ensures forall j :: 0 <= j < i ==> d[j] == old(d[j])
    ensures d[i..] == [tag] + (Varint(n) + payload)
  {
    hide Varint, Sov;
    SovIsVarintLength(n);
    i := EncodeVarint(d, end, n);
    ghost var rest := d[i..];
    i := i - 1;
    d[i] := tag;
    assert d[i..] == [tag] + rest;
  }

  method PutVarint(d: array<byte>, end: nat, tag: byte, v: u64) returns (i: nat)
    requires VarintSize(v) <= end <= d.Length
    modifies d
    ensures i == end - VarintSize(v)
    ensures forall j :: 0 <= j < i ==> d[j] == old(d[j])
    ensures d[i..] == VarintRecord(tag, v) + old(d[end..])
  {
    hide Varint, Sov;
    i := end;
    if v != 0 {
      ghost var tail := d[end..];
      i := PutHeader(d, end, tag, v, tail);
      Regroup([tag], Varint(v), tail);
    }
  }

  method PutFixed64(d: array<byte>, end: nat, tag: byte, v: u64) returns (i: nat)
    requires Fixed64Size(v) <= end <= d.Length
    modifies d
    ensures i == end - Fixed64Size(v)
    ensures forall j :: 0 <= j < i ==> d[j] == old(d[j])
    ensures d[i..] == Fixed64Record(tag, v) + old(d[end..])
  {
    hide Le;
    i := end;
    if v != 0 {
      i := PutBytes(d, end, Le(v, 8));
      ghost var rest := d[i..];
      i := i - 1;
      d[i] := tag;
      assert d[i..] == [tag] + rest;
    }
  }

  /** FlowMarker, written backwards so that it ends at end; returns the number of bytes. */
  method MarshalMarker(m: FlowMarker, d: array<byte>, end: nat) returns (n: nat)
    requires MarkerSize(m) <= end <= d.Length
    modifies d
    ensures n == MarkerSize(m)
    ensures forall j :: 0 <= j < end - n ==> d[j] == old(d[j])
    ensures d[end - n..] == MarkerOnto(m, old(d[end..]))
  {
    hide StringRecord, VarintRecord, Fixed64Record, StringSize, VarintSize, Fixed64Size, AsU64;
    var i := PutBytes(d, end, m.unknown);
    i := PutString(d, i, 0x52, m.job);
    i := PutVarint(d, i, 0x48, m.seqnum);
    i := PutVarint(d, i, 0x40, AsU64(m.dstPort));
    i := PutVarint(d, i, 0x38, AsU64(m.srcPort));
    i := PutVarint(d, i, 0x30, AsU64(m.protocol));
    i := PutString(d, i, 0x2a, m.dstAddr);
    i := PutString(d, i, 0x22, m.srcAddr);
    i := PutFixed64(d, i, 0x19, m.hostId);
    i := PutString(d, i, 0x12, m.dstDc);
    i := PutString(d, i, 0x0a, m.srcDc);
    n := end - i;
  }

  lemma MarkerOntoAppends(m: FlowMarker, tail: seq<byte>)
    ensures MarkerOnto(m, tail) == EncodeMarker(m) + tail
  {
    hide StringRecord, VarintRecord, Fixed64Record, AsU64;
    var u0 := m.unknown + [];
    assert u0 + tail == m.unknown + tail;
    var u1 := StringRecord(0x52, m.job) + u0;
    Regroup(StringRecord(0x52, m.job), u0, tail);
    var u2 := VarintRecord(0x48, m.seqnum) + u1;
    Regroup(VarintRecord(0x48, m.seqnum), u1, tail);
    var u3 := VarintRecord(0x40, AsU64(m.dstPort)) + u2;
    Regroup(VarintRecord(0x40, AsU64(m.dstPort)), u2, tail);
    var u4 := VarintRecord(0x38, AsU64(m.srcPort)) + u3;
    Regroup(VarintRecord(0x38, AsU64(m.srcPort)), u3, tail);
    var u5 := VarintRecord(0x30, AsU64(m.protocol)) + u4;
    Regroup(VarintRecord(0x30, AsU64(m.protocol)), u4, tail);
    var u6 := StringRecord(0x2a, m.dstAddr) + u5;
    Regroup(StringRecord(0x2a, m.dstAddr), u5, tail);
    var u7 := StringRecord(0x22, m.srcAddr) + u6;
    Regroup(StringRecord(0x22, m.srcAddr), u6, tail);
    var u8 := Fixed64Record(0x19, m.hostId) + u7;
    Regroup(Fixed64Record(0x19, m.hostId), u7, tail);
    var u9 := StringRecord(0x12, m.dstDc) + u8;
    Regroup(StringRecord(0x12, m.dstDc), u8, tail);
    Regroup(StringRecord(0x0a, m.srcDc), u9, tail);
  }

  /** A nested message: its bytes, then its size, then its tag. */
  method PutFlow(flow: Option<FlowMarker>, d: array<byte>, end: nat) returns (i: nat)
    requires (if flow.Some? then MessageSize(MarkerSize(flow.value)) else 0) <= end <= d.Length
    modifies d
    ensures i == end - if flow.Some? then MessageSize(MarkerSize(flow.value)) else 0
    ensures forall j :: 0 <= j < i ==> d[j] == old(d[j])
    ensures d[i..] == FlowRecord(flow) + old(d[end..])
  {
    hide Varint, Sov, MarkerOnto, MarkerSize;
    i := end;
    if flow.Some? {
      ghost var tail := d[end..];
      ghost var s := EncodeMarker(flow.value);
      var size := MarshalMarker(flow.value, d, end);
      MarkerOntoAppends(flow.value, tail);
      MarkerSizeIsExact(flow.value, []);
      i := PutHeader(d, end - size, 0x0a, size, s + tail);
      Regroup([0x0a], Varint(|s|) + s, tail);
      Regroup(Varint(|s|), s, tail);
    }
  }

  method MarshalAlloc(a: Option<FlowAlloc>, d: array<byte>, end: nat) returns (n: nat)
    requires AllocSize(a) <= end <= d.Length
    modifies d
    ensures n == AllocSize(a)
    ensures forall j :: 0 <= j < end - n ==> d[j] == old(d[j])
    ensures d[end - n..] == EncodeAlloc(a) + old(d[end..])
  {
    hide VarintRecord, VarintSize, FlowRecord, MessageSize, MarkerSize, AsU64;
    if a.None? {
      return 0;
    }
    var m := a.value;
    ghost var tail := d[end..];
    var i := PutBytes(d, end, m.unknown);
    i := PutVarint(d, i, 0x18, AsU64(m.lopriRateLimitBps));
    i := PutVarint(d, i, 0x10, AsU64(m.hipriRateLimitBps));
    i := PutFlow(m.flow, d, i);
    n := end - i;
    AllocOntoAppends(m, tail);
  }

  lemma AllocOntoAppends(m: FlowAlloc, tail: seq<byte>)
    ensures AllocOnto(m, tail) == AllocOnto(m, []) + tail
  {
    hide VarintRecord, FlowRecord, AsU64;
    var u0 := m.unknown + [];
    assert u0 + tail == m.unknown + tail;
    var u1 := VarintRecord(0x18, AsU64(m.lopriRateLimitBps)) + u0;
    Regroup(VarintRecord(0x18, AsU64(m.lopriRateLimitBps)), u0, tail);
    var u2 := VarintRecord(0x10, AsU64(m.hipriRateLimitBps)) + u1;
    Regroup(VarintRecord(0x10, AsU64(m.hipriRateLimitBps)), u1, tail);
    Regroup(FlowRecord(m.flow), u2, tail);
  }

  /** One list element, in front of those behind it. */
  method PutAlloc(a: Option<FlowAlloc>, d: array<byte>, end: nat) returns (i: nat)
    requires MessageSize(AllocSize(a)) <= end <= d.Length
    modifies d
    ensures i == end - MessageSize(AllocSize(a))
    ensures forall j :: 0 <= j < i ==> d[j] == old(d[j])
    ensures d[i..] == Delimited(0x0a, EncodeAlloc(a)) + old(d[end..])
  {
    hide Varint, Sov, EncodeAlloc, AllocSize;
    ghost var tail := d[end..];
    ghost var s := EncodeAlloc(a);
    var size := MarshalAlloc(a, d, end);
    AllocSizeIsExact(a);
    i := PutHeader(d, end - size, 0x0a, size, s + tail);
    Regroup([0x0a], Varint(|s|) + s, tail);
    Regroup(Varint(|s|), s, tail);
  }

  lemma {:induction false} AllocsSizeSplits(as_: seq<Option<FlowAlloc>>, k: nat)
    requires k < |as_|
    ensures AllocsSize(as_[k..]) == MessageSize(AllocSize(as_[k])) + AllocsSize(as_[k + 1..])
    ensures AllocsSize(as_[k..]) <= AllocsSize(as_)
  {
    hide AllocSize, MessageSize;
    DropOneMore(as_, k);
    if k > 0 {
      AllocsSizeSplits(as_, k - 1);
    } else {
      assert as_[0..] == as_;
    }
  }

  lemma AllocsOntoSplits(as_: seq<Option<FlowAlloc>>, k: nat, tail: seq<byte>)
    requires k < |as_|
    ensures AllocsOnto(as_[k..], tail) == Delimited(0x0a, EncodeAlloc(as_[k])) + AllocsOnto(as_[k + 1..], tail)
  {
    hide EncodeAlloc, Delimited;
    DropOneMore(as_, k);
  }

  /** The list, last element first. */
  method PutAllocs(as_: seq<Option<FlowAlloc>>, d: array<byte>, end: nat) returns (i: nat)
    requires AllocsSize(as_) <= end <= d.Length
    modifies d
    ensures i == end - AllocsSize(as_)
    ensures forall j :: 0 <= j < i ==> d[j] == old(d[j])
    ensures d[i..] == AllocsOnto(as_, old(d[end..]))
  {
    hide Delimited, EncodeAlloc, AllocSize, MessageSize, AllocsSize, AllocsOnto;
    ghost var tail := d[end..];
    i := end;
    var k := |as_|;
    EmptyList(as_, tail);
    while k > 0
      invariant 0 <= k <= |as_|
      invariant AllocsSize(as_[k..]) <= AllocsSize(as_) && i == end - AllocsSize(as_[k..])
      invariant forall j :: 0 <= j < i ==> d[j] == old(d[j])
      invariant d[i..] == AllocsOnto(as_[k..], tail)
    {
      k := k - 1;
      AllocsSizeSplits(as_, k);
      AllocsOntoSplits(as_, k, tail);
      i := PutAlloc(as_[k], d, i);
    }
    assert as_[0..] == as_;
  }

  lemma EmptyList(as_: seq<Option<FlowAlloc>>, tail: seq<byte>)
    ensures AllocsSize(as_[|as_|..]) == 0 && AllocsOnto(as_[|as_|..], tail) == tail
  {
    assert as_[|as_|..] == [];
  }

  method MarshalBundleTo(m: AllocBundle, d: array<byte>, end: nat) returns (n: nat)
    requires BundleSize(m) <= end <= d.Length
    modifies d
    ensures n == BundleSize(m)
    ensures forall j :: 0 <= j < end - n ==> d[j] == old(d[j])
    ensures d[end - n..] == BundleOnto(m, old(d[end..]))
  {
    hide VarintRecord, VarintSize, AllocsSize, AllocsOnto, AsU64;
    var i := PutBytes(d, end, m.unknown);
    i := PutVarint(d, i, 0x10, AsU64(m.gen));
    i := PutAllocs(m.flowAllocs, d, i);
    n := end - i;
  }

  /** MarshalVT: the buffer has SizeVT bytes and all of them are written. */
  method MarshalBundle(m: AllocBundle) returns (d: array<byte>)
    ensures fresh(d) && d[..] == EncodeBundle(m)
  {
    hide AllocsSize, AllocsOnto, VarintSize, VarintRecord;
    var size := BundleSize(m);
    d := new byte[size];
    assert d[size..] == [];
    var n := MarshalBundleTo(m, d, size);
    assert d[0..] == d[..];
  }
}
