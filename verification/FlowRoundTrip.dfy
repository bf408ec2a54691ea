/**
 Decoding an encoding. For every message the decoder reads back all known fields; what becomes
 of the unknown bytes decides whether the round trip is exact.
 */
module FlowRoundTrip {
  import opened Wrappers
  import opened Sequences
  import opened Varints
  import opened WireFormat
  import opened WireGrammar
  import opened FlowMessages
  import opened FlowDecode

  /** The rest of the buffer is a and then b. */
  lemma SuffixSplit(d: seq<byte>, i: nat, a: seq<byte>, b: seq<byte>)
    requires i <= |d| && d[i..] == a + b
    ensures HasAt(d, i, a)
    ensures i + |a| <= |d| && d[i + |a|..] == b
  {
    forall k | 0 <= k < |a| ensures d[i + k] == a[k] {
      assert d[i..][k] == (a + b)[k];
    }
    assert d[i..][|a|..] == d[i + |a|..];
    TakeAppend(a, b);
  }

  // ---- Reading one record ----

  lemma ReadsDelimited(d: seq<byte>, i: nat, num: nat, s: seq<byte>, rest: seq<byte>)
    requires 1 <= num <= 15 && i <= |d| < TWO63 && d[i..] == Delimited(8 * num + 2, s) + rest
    ensures ReadTag(d, i) == Parsed(Tag(num, 2), i + 1)
    ensures var n := i + |Delimited(8 * num + 2, s)|;
            && n <= |d| && d[n..] == rest
            && ReadBytes(d, i + 1) == Parsed(s, n)
  {
    hide Varint, ReadTag, ReadBytes;
    var tag: byte := 8 * num + 2;
    SuffixSplit(d, i, Delimited(tag, s), rest);
    HasAtSplit(d, i, [tag], Varint(|s|) + s);
    ReadTagReads(d, i, tag);
    ReadBytesReads(d, i + 1, s);
  }

  lemma ReadsVarint(d: seq<byte>, i: nat, num: nat, v: u64, rest: seq<byte>)
    requires 1 <= num <= 15 && v != 0 && i <= |d| && d[i..] == VarintRecord(8 * num, v) + rest
    ensures ReadTag(d, i) == Parsed(Tag(num, 0), i + 1)
    ensures var n := i + |VarintRecord(8 * num, v)|;
            && n <= |d| && d[n..] == rest
            && ReadVarint(d, i + 1) == Parsed(v, n)
  {
    hide Varint, ReadTag, ReadVarint;
    var tag: byte := 8 * num;
    SuffixSplit(d, i, VarintRecord(tag, v), rest);
    HasAtSplit(d, i, [tag], Varint(v));
    ReadTagReads(d, i, tag);
    ReadVarintReads(d, i + 1, v);
  }

  lemma ReadsFixed64(d: seq<byte>, i: nat, num: nat, v: u64, rest: seq<byte>)
    requires 1 <= num <= 15 && v != 0 && i <= |d| && d[i..] == Fixed64Record(8 * num + 1, v) + rest
    ensures ReadTag(d, i) == Parsed(Tag(num, 1), i + 1)
    ensures var n := i + |Fixed64Record(8 * num + 1, v)|;
            && n <= |d| && d[n..] == rest
            && ReadFixed64(d, i + 1) == Parsed(v, n)
  {
    hide Le, ReadTag, ReadFixed64;
    var tag: byte := 8 * num + 1;
    SuffixSplit(d, i, Fixed64Record(tag, v), rest);
    HasAtSplit(d, i, [tag], Le(v, 8));
    ReadTagReads(d, i, tag);
    ReadFixed64Reads(d, i + 1, v);
  }

  // ---- FlowMarker ----

  lemma MarkerReadsString(m: FlowMarker, d: seq<byte>, i: nat, num: nat, s: seq<byte>, rest: seq<byte>)
    requires IsMarkerString(num) && i <= |d| < TWO63 && d[i..] == StringRecord(8 * num + 2, s) + rest
    requires s == [] ==> SetMarkerString(m, num, s) == m
    ensures var n := i + |StringRecord(8 * num + 2, s)|;
            && n <= |d| && d[n..] == rest
            && UnmarshalMarker(m, d, i) == UnmarshalMarker(SetMarkerString(m, num, s), d, n)
  {
    hide Delimited, ReadTag, ReadBytes, SetMarkerString;
    if s == [] {
      SuffixSplit(d, i, [], rest);
    } else {
      ReadsDelimited(d, i, num, s, rest);
    }
  }

  lemma MarkerReadsNumber(m: FlowMarker, d: seq<byte>, i: nat, num: nat, v: u64, rest: seq<byte>)
    requires IsMarkerNumber(num) && i <= |d| && d[i..] == VarintRecord(8 * num, v) + rest
    requires v == 0 ==> SetMarkerNumber(m, num, v) == m
    ensures var n := i + |VarintRecord(8 * num, v)|;
            && n <= |d| && d[n..] == rest
            && UnmarshalMarker(m, d, i) == UnmarshalMarker(SetMarkerNumber(m, num, v), d, n)
  {
    hide Varint, ReadTag, ReadVarint, SetMarkerNumber;
    if v == 0 {
      SuffixSplit(d, i, [], rest);
    } else {
      ReadsVarint(d, i, num, v, rest);
    }
  }

  lemma MarkerReadsHostId(m: FlowMarker, d: seq<byte>, i: nat, v: u64, rest: seq<byte>)
    requires i <= |d| && d[i..] == Fixed64Record(0x19, v) + rest
    requires v == 0 ==> m.hostId == 0
    ensures var n := i + |Fixed64Record(0x19, v)|;
            && n <= |d| && d[n..] == rest
            && UnmarshalMarker(m, d, i) == UnmarshalMarker(m.(hostId := v), d, n)
  {
    hide Le, ReadTag, ReadFixed64;
    if v == 0 {
      SuffixSplit(d, i, [], rest);
    } else {
      ReadsFixed64(d, i, 3, v, rest);
    }
  }

  lemma MarkerReadsFront(m: FlowMarker, d: seq<byte>) returns (i: nat)
    requires d == EncodeMarker(m) && |d| < TWO63
    ensures i <= |d| && d[i..] == MarkerNumbersOnto(m, [])
    ensures UnmarshalMarker(NO_MARKER, d, 0) ==
            UnmarshalMarker(NO_MARKER.(srcDc := m.srcDc, dstDc := m.dstDc, hostId := m.hostId,
                                       srcAddr := m.srcAddr, dstAddr := m.dstAddr), d, i)
  {
    hide StringRecord, Fixed64Record, MarkerNumbersOnto, UnmarshalMarker;
    var t5 := MarkerNumbersOnto(m, []);
    var t4 := StringRecord(0x2a, m.dstAddr) + t5;
    var t3 := StringRecord(0x22, m.srcAddr) + t4;
    var t2 := Fixed64Record(0x19, m.hostId) + t3;
    var t1 := StringRecord(0x12, m.dstDc) + t2;
    var x := NO_MARKER;
    i := 0;
    assert d[0..] == StringRecord(0x0a, m.srcDc) + t1;
    MarkerReadsString(x, d, i, 1, m.srcDc, t1);
    i, x := i + |StringRecord(0x0a, m.srcDc)|, x.(srcDc := m.srcDc);
    MarkerReadsString(x, d, i, 2, m.dstDc, t2);
    i, x := i + |StringRecord(0x12, m.dstDc)|, x.(dstDc := m.dstDc);
    MarkerReadsHostId(x, d, i, m.hostId, t3);
    i, x := i + |Fixed64Record(0x19, m.hostId)|, x.(hostId := m.hostId);
    MarkerReadsString(x, d, i, 4, m.srcAddr, t4);
    i, x := i + |StringRecord(0x22, m.srcAddr)|, x.(srcAddr := m.srcAddr);
    MarkerReadsString(x, d, i, 5, m.dstAddr, t5);
    i, x := i + |StringRecord(0x2a, m.dstAddr)|, x.(dstAddr := m.dstAddr);
  }

  lemma MarkerReadsBack(m: FlowMarker, d: seq<byte>, x0: FlowMarker, i0: nat) returns (i: nat)
    requires i0 <= |d| < TWO63 && d[i0..] == MarkerNumbersOnto(m, [])
    requires x0 == NO_MARKER.(srcDc := m.srcDc, dstDc := m.dstDc, hostId := m.hostId,
                              srcAddr := m.srcAddr, dstAddr := m.dstAddr)
    ensures i <= |d| && d[i..] == m.unknown
    ensures UnmarshalMarker(x0, d, i0) == UnmarshalMarker(m.(unknown := []), d, i)
  {
    hide StringRecord, VarintRecord, UnmarshalMarker, AsU64, AsI32;
    var t5 := m.unknown + [];
    var t4 := StringRecord(0x52, m.job) + t5;
    var t3 := VarintRecord(0x48, m.seqnum) + t4;
    var t2 := VarintRecord(0x40, AsU64(m.dstPort)) + t3;
    var t1 := VarintRecord(0x38, AsU64(m.srcPort)) + t2;
    var x := x0;
    AsI32Inverts(m.protocol);
    AsI32Inverts(m.srcPort);
    AsI32Inverts(m.dstPort);
    ZeroIsZero();
    MarkerReadsNumber(x, d, i0, 6, AsU64(m.protocol), t1);
    i, x := i0 + |VarintRecord(0x30, AsU64(m.protocol))|, x.(protocol := m.protocol);
    MarkerReadsNumber(x, d, i, 7, AsU64(m.srcPort), t2);
    i, x := i + |VarintRecord(0x38, AsU64(m.srcPort))|, x.(srcPort := m.srcPort);
    MarkerReadsNumber(x, d, i, 8, AsU64(m.dstPort), t3);
    i, x := i + |VarintRecord(0x40, AsU64(m.dstPort))|, x.(dstPort := m.dstPort);
    MarkerReadsNumber(x, d, i, 9, m.seqnum, t4);
    i, x := i + |VarintRecord(0x48, m.seqnum)|, x.(seqnum := m.seqnum);
    MarkerReadsString(x, d, i, 10, m.job, t5);
    i, x := i + |StringRecord(0x52, m.job)|, x.(job := m.job);
    assert t5 == m.unknown;
  }

  lemma ZeroIsZero()
    ensures AsI32(0) == 0 && AsI64(0) == 0
  {
  }

  /** Well-formed unknown fields are kept byte for byte. */
  lemma {:induction false} MarkerKeepsUnknown(m: FlowMarker, d: seq<byte>, i: nat)
    requires i <= |d| && OnlyUnknown(d, i, MARKER_FIELDS)
    ensures UnmarshalMarker(m, d, i) == Ok(m.(unknown := m.unknown + d[i..]))
    decreases |d| - i
  {
    hide ReadTag, ReadUnknown;
    if i < |d| {
      var n := ReadUnknown(d, i).next;
      var m' := m.(unknown := m.unknown + d[i..n]);
      MarkerKeepsUnknown(m', d, n);
      Regroup(m.unknown, d[i..n], d[n..]);
      assert d[i..n] + d[n..] == d[i..];
    } else {
      assert m.unknown + d[i..] == m.unknown;
    }
  }

  /** Nothing else can fill the unknown bytes. */
  lemma {:induction false} MarkerUnknownIsEarned(m: FlowMarker, d: seq<byte>, i: nat)
    requires i <= |d| && UnmarshalMarker(m, d, i).Ok?
    ensures var r := UnmarshalMarker(m, d, i).value;
            && |r.unknown| <= |m.unknown| + |d| - i
            && (|r.unknown| == |m.unknown| + |d| - i ==> OnlyUnknown(d, i, MARKER_FIELDS))
    decreases |d| - i
  {
    hide ReadTag, ReadUnknown, MarkerField;
    if i < |d| {
      var step := MarkerStep(m, d, i);
      MarkerUnknownIsEarned(step.value, d, step.next);
    }
  }

  /** Unknown fields are kept byte for byte. */
  lemma MarkerKeepsFields(m: FlowMarker, fs: RawFields)
    requires AreRaw(fs) && RawAbove(fs, MARKER_FIELDS) && |AllBytes(fs)| < TWO63
    ensures UnmarshalMarker(m, AllBytes(fs), 0) == Ok(m.(unknown := m.unknown + AllBytes(fs)))
  {
    hide OnlyUnknown, AreRaw, RawAbove, AllBytes, UnmarshalMarker;
    var d := AllBytes(fs);
    assert d[0..] == d;
    UnknownAreRead(d, 0, fs, MARKER_FIELDS);
    MarkerKeepsUnknown(m, d, 0);
  }

  /** A FlowMarker survives the round trip exactly when its unknown bytes are unknown fields. */
  lemma MarkerRoundTrip(m: FlowMarker)
    requires |EncodeMarker(m)| < TWO63
    ensures UnmarshalMarker(NO_MARKER, EncodeMarker(m), 0) == Ok(m) <==> AreUnknown(m.unknown, MARKER_FIELDS)
  {
    hide EncodeMarker, MarkerNumbersOnto, UnmarshalMarker, OnlyUnknown, AreUnknown;
    var d := EncodeMarker(m);
    var j := MarkerReadsFront(m, d);
    var x := NO_MARKER.(srcDc := m.srcDc, dstDc := m.dstDc, hostId := m.hostId,
                        srcAddr := m.srcAddr, dstAddr := m.dstAddr);
    var i := MarkerReadsBack(m, d, x, j);
    var known := m.(unknown := []);
    assert m.unknown[0..] == m.unknown;
    OnlyUnknownShifts(d, i, m.unknown, 0, MARKER_FIELDS);
    OnlyUnknownIffFields(m.unknown, MARKER_FIELDS);
    if OnlyUnknown(d, i, MARKER_FIELDS) {
      MarkerKeepsUnknown(known, d, i);
      assert [] + d[i..] == m.unknown;
    } else if UnmarshalMarker(known, d, i).Ok? {
      MarkerUnknownIsEarned(known, d, i);
    }
  }

  // ---- FlowAlloc ----

  ghost predicate CleanAlloc(a: FlowAlloc) {
    && (a.flow.Some? ==> AreUnknown(a.flow.value.unknown, MARKER_FIELDS))
    && AreUnknown(a.unknown, ALLOC_FIELDS)
  }

  lemma DelimitedIsLonger(tag: byte, s: seq<byte>)
    ensures |Delimited(tag, s)| > |s|
  {
  }

  /** The nested marker is decoded from exactly its own bytes. */
  lemma AllocReadsFlow(m: FlowAlloc, d: seq<byte>, i: nat, f: FlowMarker, rest: seq<byte>)
    requires m.flow.None? && i <= |d| < TWO63 && d[i..] == Delimited(0x0a, EncodeMarker(f)) + rest
    ensures var n := i + |Delimited(0x0a, EncodeMarker(f))|;
            && n <= |d| && d[n..] == rest
            && UnmarshalAlloc(m, d, i) ==
               match UnmarshalMarker(NO_MARKER, EncodeMarker(f), 0)
               case Err(e) => Err(e)
               case Ok(g) => UnmarshalAlloc(m.(flow := Some(g)), d, n)
  {
    hide Delimited, ReadTag, ReadBytes, UnmarshalMarker, EncodeMarker;
    ReadsDelimited(d, i, 1, EncodeMarker(f), rest);
  }

  lemma AllocReadsLimits(a: FlowAlloc, d: seq<byte>, x0: FlowAlloc, i0: nat) returns (i: nat)
    requires x0.hipriRateLimitBps == 0 && x0.lopriRateLimitBps == 0
    requires i0 <= |d|
    requires d[i0..] == VarintRecord(0x10, AsU64(a.hipriRateLimitBps))
                        + (VarintRecord(0x18, AsU64(a.lopriRateLimitBps)) + (a.unknown + []))
    ensures i <= |d| && d[i..] == a.unknown
    ensures UnmarshalAlloc(x0, d, i0) ==
            UnmarshalAlloc(x0.(hipriRateLimitBps := a.hipriRateLimitBps, lopriRateLimitBps := a.lopriRateLimitBps), d, i)
  {
    hide VarintRecord, UnmarshalAlloc, AsU64, AsI64;
    var t2 := a.unknown + [];
    var t1 := VarintRecord(0x18, AsU64(a.lopriRateLimitBps)) + t2;
    AllocReadsHipri(x0, d, i0, a.hipriRateLimitBps, t1);
    i := i0 + |VarintRecord(0x10, AsU64(a.hipriRateLimitBps))|;
    AllocReadsLopri(x0.(hipriRateLimitBps := a.hipriRateLimitBps), d, i, a.lopriRateLimitBps, t2);
    i := i + |VarintRecord(0x18, AsU64(a.lopriRateLimitBps))|;
    assert t2 == a.unknown;
  }

  lemma AllocReadsHipri(m: FlowAlloc, d: seq<byte>, i: nat, v: i64, rest: seq<byte>)
    requires m.hipriRateLimitBps == 0 && i <= |d| && d[i..] == VarintRecord(0x10, AsU64(v)) + rest
    ensures var n := i + |VarintRecord(0x10, AsU64(v))|;
            && n <= |d| && d[n..] == rest
            && UnmarshalAlloc(m, d, i) == UnmarshalAlloc(m.(hipriRateLimitBps := v), d, n)
  {
    hide Varint, ReadTag, ReadVarint;
    AsI64Inverts(v);
    if AsU64(v) == 0 {
      SuffixSplit(d, i, [], rest);
    } else {
      ReadsVarint(d, i, 2, AsU64(v), rest);
    }
  }

  lemma AllocReadsLopri(m: FlowAlloc, d: seq<byte>, i: nat, v: i64, rest: seq<byte>)
    requires m.lopriRateLimitBps == 0 && i <= |d| && d[i..] == VarintRecord(0x18, AsU64(v)) + rest
    ensures var n := i + |VarintRecord(0x18, AsU64(v))|;
            && n <= |d| && d[n..] == rest
            && UnmarshalAlloc(m, d, i) == UnmarshalAlloc(m.(lopriRateLimitBps := v), d, n)
  {
    hide Varint, ReadTag, ReadVarint;
    AsI64Inverts(v);
    if AsU64(v) == 0 {
      SuffixSplit(d, i, [], rest);
    } else {
      ReadsVarint(d, i, 3, AsU64(v), rest);
    }
  }

  lemma {:induction false} AllocKeepsUnknown(m: FlowAlloc, d: seq<byte>, i: nat)
    requires i <= |d| && OnlyUnknown(d, i, ALLOC_FIELDS)
    ensures UnmarshalAlloc(m, d, i) == Ok(m.(unknown := m.unknown + d[i..]))
    decreases |d| - i
  {
    hide ReadTag, ReadUnknown;
    if i < |d| {
      var n := ReadUnknown(d, i).next;
      AllocKeepsUnknown(m.(unknown := m.unknown + d[i..n]), d, n);
      Regroup(m.unknown, d[i..n], d[n..]);
      assert d[i..n] + d[n..] == d[i..];
    } else {
      assert m.unknown + d[i..] == m.unknown;
    }
  }

  lemma {:induction false} AllocUnknownIsEarned(m: FlowAlloc, d: seq<byte>, i: nat)
    requires i <= |d| && UnmarshalAlloc(m, d, i).Ok?
    ensures var r := UnmarshalAlloc(m, d, i).value;
            && |r.unknown| <= |m.unknown| + |d| - i
            && (|r.unknown| == |m.unknown| + |d| - i ==> OnlyUnknown(d, i, ALLOC_FIELDS))
    decreases |d| - i
  {
    hide ReadTag, ReadUnknown, AllocField;
    if i < |d| {
      var step := AllocStep(m, d, i);
      AllocUnknownIsEarned(step.value, d, step.next);
    }
  }

  /** The known fields of a FlowAlloc whose nested marker decodes to g. */
  lemma AllocReadsKnown(a: FlowAlloc, d: seq<byte>, g: Option<FlowMarker>) returns (i: nat)
    requires d == EncodeAlloc(Some(a)) && |d| < TWO63
    requires a.flow.None? ==> g.None?
    requires a.flow.Some? ==> g.Some? && UnmarshalMarker(NO_MARKER, EncodeMarker(a.flow.value), 0) == Ok(g.value)
    ensures i <= |d| && d[i..] == a.unknown
    ensures UnmarshalAlloc(NO_ALLOC, d, 0) == UnmarshalAlloc(a.(flow := g, unknown := []), d, i)
  {
    hide VarintRecord, Delimited, UnmarshalAlloc, UnmarshalMarker, EncodeMarker;
    var rest := VarintRecord(0x10, AsU64(a.hipriRateLimitBps))
                + (VarintRecord(0x18, AsU64(a.lopriRateLimitBps)) + (a.unknown + []));
    assert d[0..] == FlowRecord(a.flow) + rest;
    if a.flow.None? {
      SuffixSplit(d, 0, [], rest);
      i := AllocReadsLimits(a, d, NO_ALLOC, 0);
    } else {
      AllocReadsFlow(NO_ALLOC, d, 0, a.flow.value, rest);
      i := AllocReadsLimits(a, d, NO_ALLOC.(flow := g), |Delimited(0x0a, EncodeMarker(a.flow.value))|);
    }
  }

  lemma FlowIsShorter(a: FlowAlloc)
    requires a.flow.Some?
    ensures |EncodeMarker(a.flow.value)| < |EncodeAlloc(Some(a))|
  {
    hide EncodeMarker, VarintRecord, Delimited;
    DelimitedIsLonger(0x0a, EncodeMarker(a.flow.value));
  }

  lemma AllocFailsWithFlow(a: FlowAlloc, d: seq<byte>)
    requires d == EncodeAlloc(Some(a)) && |d| < TWO63
    requires a.flow.Some? && UnmarshalMarker(NO_MARKER, EncodeMarker(a.flow.value), 0).Err?
    ensures UnmarshalAlloc(NO_ALLOC, d, 0).Err?
  {
    hide VarintRecord, Delimited, UnmarshalAlloc, UnmarshalMarker, EncodeMarker;
    var rest := VarintRecord(0x10, AsU64(a.hipriRateLimitBps))
                + (VarintRecord(0x18, AsU64(a.lopriRateLimitBps)) + (a.unknown + []));
    assert d[0..] == FlowRecord(a.flow) + rest;
    AllocReadsFlow(NO_ALLOC, d, 0, a.flow.value, rest);
  }

  /** What decides the round trip once the nested marker has decoded to g. */
  lemma AllocOutcome(a: FlowAlloc, g: Option<FlowMarker>)
    requires |EncodeAlloc(Some(a))| < TWO63
    requires a.flow.None? ==> g.None?
    requires a.flow.Some? ==> g.Some? && UnmarshalMarker(NO_MARKER, EncodeMarker(a.flow.value), 0) == Ok(g.value)
    ensures UnmarshalAlloc(NO_ALLOC, EncodeAlloc(Some(a)), 0) == Ok(a) <==>
            g == a.flow && AreUnknown(a.unknown, ALLOC_FIELDS)
    ensures AreUnknown(a.unknown, ALLOC_FIELDS) ==>
            UnmarshalAlloc(NO_ALLOC, EncodeAlloc(Some(a)), 0) == Ok(a.(flow := g))
  {
    hide EncodeAlloc, UnmarshalAlloc, UnmarshalMarker, EncodeMarker, OnlyUnknown, AreUnknown;
    var d := EncodeAlloc(Some(a));
    var i := AllocReadsKnown(a, d, g);
    var known := a.(flow := g, unknown := []);
    assert a.unknown[0..] == a.unknown;
    OnlyUnknownShifts(d, i, a.unknown, 0, ALLOC_FIELDS);
    OnlyUnknownIffFields(a.unknown, ALLOC_FIELDS);
    if OnlyUnknown(d, i, ALLOC_FIELDS) {
      AllocKeepsUnknown(known, d, i);
      assert [] + d[i..] == a.unknown;
    } else if UnmarshalAlloc(known, d, i).Ok? {
      AllocUnknownIsEarned(known, d, i);
    }
  }

  lemma AllocRoundTrip(a: FlowAlloc)
    requires |EncodeAlloc(Some(a))| < TWO63
    ensures UnmarshalAlloc(NO_ALLOC, EncodeAlloc(Some(a)), 0) == Ok(a) <==> CleanAlloc(a)
  {
    hide EncodeAlloc, UnmarshalAlloc, UnmarshalMarker, EncodeMarker, AreUnknown;
    if a.flow.None? {
      AllocOutcome(a, None);
    } else {
      FlowIsShorter(a);
      MarkerRoundTrip(a.flow.value);
      match UnmarshalMarker(NO_MARKER, EncodeMarker(a.flow.value), 0)
      case Ok(g) => AllocOutcome(a, Some(g));
      case Err(_) => AllocFailsWithFlow(a, EncodeAlloc(Some(a)));
    }
  }

  // ---- AllocBundle ----

  /** What a nil element turns into. */
  function Materialized(a: Option<FlowAlloc>): FlowAlloc {
    if a.Some? then a.value else NO_ALLOC
  }

  ghost predicate CleanBundle(m: AllocBundle) {
    && (forall k :: 0 <= k < |m.flowAllocs| ==> CleanAlloc(Materialized(m.flowAllocs[k])))
    && AreUnknown(m.unknown, BUNDLE_FIELDS)
  }

  ghost predicate NoNil(m: AllocBundle) {
    forall k :: 0 <= k < |m.flowAllocs| ==> m.flowAllocs[k].Some?
  }

  /** The decoded list element, if its bytes decode at all. */
  function DecodeElement(a: Option<FlowAlloc>): Result<FlowAlloc> {
    UnmarshalAlloc(NO_ALLOC, EncodeAlloc(a), 0)
  }

  function AppendAlloc(m: AllocBundle, g: FlowAlloc): AllocBundle {
    m.(flowAllocs := m.flowAllocs + [Some(g)])
  }

  lemma BundleReadsAlloc(m: AllocBundle, d: seq<byte>, i: nat, a: Option<FlowAlloc>, rest: seq<byte>)
    requires i <= |d| < TWO63 && d[i..] == Delimited(0x0a, EncodeAlloc(a)) + rest
    ensures var n := i + |Delimited(0x0a, EncodeAlloc(a))|;
            && n <= |d| && d[n..] == rest
            && UnmarshalBundle(m, d, i) ==
               match DecodeElement(a)
               case Err(e) => Err(e)
               case Ok(g) => UnmarshalBundle(AppendAlloc(m, g), d, n)
  {
    hide Delimited, ReadTag, ReadBytes, UnmarshalAlloc, EncodeAlloc;
    ReadsDelimited(d, i, 1, EncodeAlloc(a), rest);
  }

  /** The list decodes element by element, in order, or fails with its first bad element. */
  ghost function DecodeList(m: AllocBundle, as_: seq<Option<FlowAlloc>>): Result<AllocBundle>
    decreases |as_|
  {
    if as_ == [] then Ok(m)
    else
      match DecodeElement(as_[0])
      case Err(e) => Err(e)
      case Ok(g) => DecodeList(AppendAlloc(m, g), as_[1..])
  }

  lemma {:induction false} BundleReadsList(
    m: AllocBundle, d: seq<byte>, i: nat, as_: seq<Option<FlowAlloc>>, tail: seq<byte>) returns (n: nat)
    requires i <= |d| < TWO63 && d[i..] == AllocsOnto(as_, tail)
    ensures n <= |d| && d[n..] == tail
    ensures UnmarshalBundle(m, d, i) ==
            match DecodeList(m, as_)
            case Err(e) => Err(e)
            case Ok(x) => UnmarshalBundle(x, d, n)
    decreases |as_|
  {
    hide Delimited, UnmarshalBundle, EncodeAlloc, DecodeElement;
    if as_ == [] {
      n := i;
    } else {
      BundleReadsAlloc(m, d, i, as_[0], AllocsOnto(as_[1..], tail));
      var next := i + |Delimited(0x0a, EncodeAlloc(as_[0]))|;
      match DecodeElement(as_[0])
      case Ok(g) => n := BundleReadsList(AppendAlloc(m, g), d, next, as_[1..], tail);
      case Err(_) => n := BundleReadsList(m, d, next, as_[1..], tail);
    }
  }

  lemma BundleReadsGen(m: AllocBundle, d: seq<byte>, i: nat, v: i64, rest: seq<byte>)
    requires m.gen == 0 && i <= |d| && d[i..] == VarintRecord(0x10, AsU64(v)) + rest
    ensures var n := i + |VarintRecord(0x10, AsU64(v))|;
            && n <= |d| && d[n..] == rest
            && UnmarshalBundle(m, d, i) == UnmarshalBundle(m.(gen := v), d, n)
  {
    hide Varint, ReadTag, ReadVarint;
    AsI64Inverts(v);
    if AsU64(v) == 0 {
      SuffixSplit(d, i, [], rest);
    } else {
      ReadsVarint(d, i, 2, AsU64(v), rest);
    }
  }

  lemma {:induction false} BundleKeepsUnknown(m: AllocBundle, d: seq<byte>, i: nat)
    requires i <= |d| && OnlyUnknown(d, i, BUNDLE_FIELDS)
    ensures UnmarshalBundle(m, d, i) == Ok(m.(unknown := m.unknown + d[i..]))
    decreases |d| - i
  {
    hide ReadTag, ReadUnknown;
    if i < |d| {
      var n := ReadUnknown(d, i).next;
      BundleKeepsUnknown(m.(unknown := m.unknown + d[i..n]), d, n);
      Regroup(m.unknown, d[i..n], d[n..]);
      assert d[i..n] + d[n..] == d[i..];
    } else {
      assert m.unknown + d[i..] == m.unknown;
    }
  }

  lemma {:induction false} BundleUnknownIsEarned(m: AllocBundle, d: seq<byte>, i: nat)
    requires i <= |d| && UnmarshalBundle(m, d, i).Ok?
    ensures var r := UnmarshalBundle(m, d, i).value;
            && |r.unknown| <= |m.unknown| + |d| - i
            && (|r.unknown| == |m.unknown| + |d| - i ==> OnlyUnknown(d, i, BUNDLE_FIELDS))
    decreases |d| - i
  {
    hide ReadTag, ReadUnknown, BundleField;
    if i < |d| {
      var step := BundleStep(m, d, i);
      BundleUnknownIsEarned(step.value, d, step.next);
    }
  }

  lemma {:induction false} DecodeListGen(m: AllocBundle, as_: seq<Option<FlowAlloc>>)
    ensures DecodeList(m, as_).Ok? ==>
              var x := DecodeList(m, as_).value;
              x.gen == m.gen && x.unknown == m.unknown
    decreases |as_|
  {
    hide DecodeElement;
    if as_ != [] && DecodeElement(as_[0]).Ok? {
      DecodeListGen(AppendAlloc(m, DecodeElement(as_[0]).value), as_[1..]);
    }
  }

  /** What decides the round trip once the list has decoded. */
  lemma BundleOutcome(m: AllocBundle)
    requires |EncodeBundle(m)| < TWO63
    ensures DecodeList(NO_BUNDLE, m.flowAllocs).Err? ==> UnmarshalBundle(NO_BUNDLE, EncodeBundle(m), 0).Err?
    ensures DecodeList(NO_BUNDLE, m.flowAllocs).Ok? ==>
              var list := DecodeList(NO_BUNDLE, m.flowAllocs).value.flowAllocs;
              && (AreUnknown(m.unknown, BUNDLE_FIELDS) ==>
                    UnmarshalBundle(NO_BUNDLE, EncodeBundle(m), 0) == Ok(m.(flowAllocs := list)))
              && (UnmarshalBundle(NO_BUNDLE, EncodeBundle(m), 0) == Ok(m) ==>
                    list == m.flowAllocs && AreUnknown(m.unknown, BUNDLE_FIELDS))
  {
    hide AllocsOnto, VarintRecord, UnmarshalBundle, OnlyUnknown, AreUnknown, DecodeList;
    var d := EncodeBundle(m);
    var rest := VarintRecord(0x10, AsU64(m.gen)) + (m.unknown + []);
    assert d[0..] == AllocsOnto(m.flowAllocs, rest);
    var j := BundleReadsList(NO_BUNDLE, d, 0, m.flowAllocs, rest);
    DecodeListGen(NO_BUNDLE, m.flowAllocs);
    if DecodeList(NO_BUNDLE, m.flowAllocs).Ok? {
      var x := DecodeList(NO_BUNDLE, m.flowAllocs).value;
      BundleReadsGen(x, d, j, m.gen, m.unknown + []);
      var i := j + |VarintRecord(0x10, AsU64(m.gen))|;
      assert m.unknown + [] == m.unknown && m.unknown[0..] == m.unknown;
      var known := x.(gen := m.gen);
      OnlyUnknownShifts(d, i, m.unknown, 0, BUNDLE_FIELDS);
      OnlyUnknownIffFields(m.unknown, BUNDLE_FIELDS);
      if OnlyUnknown(d, i, BUNDLE_FIELDS) {
        BundleKeepsUnknown(known, d, i);
        assert [] + d[i..] == m.unknown;
      } else if UnmarshalBundle(known, d, i).Ok? {
        BundleUnknownIsEarned(known, d, i);
      }
    }
  }

  // ---- The list ----

  ghost function AllMaterialized(as_: seq<Option<FlowAlloc>>): (r: seq<Option<FlowAlloc>>)
    ensures |r| == |as_|
    ensures forall k :: 0 <= k < |r| ==> r[k] == Some(Materialized(as_[k]))
  {
    seq(|as_|, k requires 0 <= k < |as_| => Some(Materialized(as_[k])))
  }

  lemma ElementIsShorter(as_: seq<Option<FlowAlloc>>, tail: seq<byte>)
    requires as_ != []
    ensures |EncodeAlloc(as_[0])| < |AllocsOnto(as_, tail)|
    ensures |AllocsOnto(as_[1..], tail)| < |AllocsOnto(as_, tail)|
  {
    hide EncodeAlloc, Delimited;
    DelimitedIsLonger(0x0a, EncodeAlloc(as_[0]));
  }

  lemma ElementRoundTrip(a: Option<FlowAlloc>)
    requires |EncodeAlloc(a)| < TWO63
    ensures DecodeElement(a) == Ok(Materialized(a)) <==> CleanAlloc(Materialized(a))
  {
    if a.Some? {
      hide EncodeAlloc, UnmarshalAlloc, CleanAlloc;
      AllocRoundTrip(a.value);
    } else {
      NothingIsUnknown(ALLOC_FIELDS);
    }
  }

  /** A list of clean elements decodes to the list with its nils filled in. */
  lemma {:induction false} CleanListDecodes(m: AllocBundle, as_: seq<Option<FlowAlloc>>, tail: seq<byte>)
    requires |AllocsOnto(as_, tail)| < TWO63
    requires forall k :: 0 <= k < |as_| ==> CleanAlloc(Materialized(as_[k]))
    ensures DecodeList(m, as_) == Ok(m.(flowAllocs := m.flowAllocs + AllMaterialized(as_)))
    decreases |as_|
  {
    hide DecodeElement, EncodeAlloc, CleanAlloc, AllocsOnto, Materialized;
    if as_ == [] {
      assert m.flowAllocs + AllMaterialized(as_) == m.flowAllocs;
    } else {
      ElementIsShorter(as_, tail);
      ElementRoundTrip(as_[0]);
      assert forall k :: 0 <= k < |as_[1..]| ==> as_[1..][k] == as_[k + 1];
      var m' := AppendAlloc(m, Materialized(as_[0]));
      CleanListDecodes(m', as_[1..], tail);
      assert m'.flowAllocs + AllMaterialized(as_[1..]) == m.flowAllocs + AllMaterialized(as_);
    }
  }

  /** If the list comes back unchanged then it has no nil and every element is clean. */
  lemma {:induction false} UnchangedListIsClean(m: AllocBundle, as_: seq<Option<FlowAlloc>>, tail: seq<byte>)
    requires |AllocsOnto(as_, tail)| < TWO63
    requires DecodeList(m, as_).Ok? && DecodeList(m, as_).value.flowAllocs == m.flowAllocs + as_
    ensures forall k :: 0 <= k < |as_| ==> as_[k].Some? && CleanAlloc(as_[k].value)
    decreases |as_|
  {
    hide DecodeElement, EncodeAlloc, CleanAlloc, AllocsOnto;
    if as_ != [] {
      var g := DecodeElement(as_[0]).value;
      var m' := AppendAlloc(m, g);
      DecodeListGrows(m', as_[1..]);
      assert m'.flowAllocs[|m.flowAllocs|] == Some(g);
      assert (m.flowAllocs + as_)[|m.flowAllocs|] == as_[0];
      assert as_[0] == Some(g);
      assert m.flowAllocs + as_ == m'.flowAllocs + as_[1..];
      ElementIsShorter(as_, tail);
      ElementRoundTrip(as_[0]);
      UnchangedListIsClean(m', as_[1..], tail);
      assert forall k :: 0 < k < |as_| ==> as_[k] == as_[1..][k - 1];
    }
  }

  lemma {:induction false} DecodeListGrows(m: AllocBundle, as_: seq<Option<FlowAlloc>>)
    requires DecodeList(m, as_).Ok?
    ensures m.flowAllocs <= DecodeList(m, as_).value.flowAllocs
    decreases |as_|
  {
    hide DecodeElement;
    if as_ != [] {
      DecodeListGrows(AppendAlloc(m, DecodeElement(as_[0]).value), as_[1..]);
    }
  }

  /** The bytes of the list end in those of the other fields. */
  ghost function AfterList(m: AllocBundle): seq<byte> {
    VarintRecord(0x10, AsU64(m.gen)) + (m.unknown + [])
  }

  lemma BundleIsList(m: AllocBundle)
    ensures EncodeBundle(m) == AllocsOnto(m.flowAllocs, AfterList(m))
  {
    hide AllocsOnto, VarintRecord;
  }

  lemma MaterializedIsSame(m: AllocBundle)
    ensures NO_BUNDLE.flowAllocs + AllMaterialized(m.flowAllocs) == AllMaterialized(m.flowAllocs)
    ensures AllMaterialized(m.flowAllocs) == m.flowAllocs <==> NoNil(m)
  {
    var all := AllMaterialized(m.flowAllocs);
    if all == m.flowAllocs {
      assert forall k :: 0 <= k < |all| ==> all[k].Some?;
    }
  }

  /** A clean bundle decodes to itself with nil elements made empty. */
  lemma CleanBundleDecodes(m: AllocBundle)
    requires |EncodeBundle(m)| < TWO63 && CleanBundle(m)
    ensures UnmarshalBundle(NO_BUNDLE, EncodeBundle(m), 0) == Ok(m.(flowAllocs := AllMaterialized(m.flowAllocs)))
  {
    hide AllocsOnto, UnmarshalBundle, AreUnknown, DecodeList, CleanAlloc, EncodeBundle, VarintRecord, AllMaterialized;
    BundleOutcome(m);
    BundleIsList(m);
    CleanListDecodes(NO_BUNDLE, m.flowAllocs, AfterList(m));
    MaterializedIsSame(m);
  }

  /** A bundle that decodes to itself is clean and has no nil. */
  lemma DecodedBundleIsClean(m: AllocBundle)
    requires |EncodeBundle(m)| < TWO63 && UnmarshalBundle(NO_BUNDLE, EncodeBundle(m), 0) == Ok(m)
    ensures CleanBundle(m) && NoNil(m)
  {
    hide AllocsOnto, UnmarshalBundle, AreUnknown, DecodeList, CleanAlloc, EncodeBundle, VarintRecord;
    BundleOutcome(m);
    BundleIsList(m);
    assert NO_BUNDLE.flowAllocs + m.flowAllocs == m.flowAllocs;
    UnchangedListIsClean(NO_BUNDLE, m.flowAllocs, AfterList(m));
  }

  /**
   The round trip of an AllocBundle. With well-formed unknown bytes everywhere the decoder
   returns the message with nil elements replaced by empty ones; it returns the message itself
   exactly when, in addition, there is no nil element.
   */
  lemma BundleRoundTrip(m: AllocBundle)
    requires |EncodeBundle(m)| < TWO63
    ensures CleanBundle(m) ==>
              UnmarshalBundle(NO_BUNDLE, EncodeBundle(m), 0) == Ok(m.(flowAllocs := AllMaterialized(m.flowAllocs)))
    ensures UnmarshalBundle(NO_BUNDLE, EncodeBundle(m), 0) == Ok(m) <==> CleanBundle(m) && NoNil(m)
  {
    hide UnmarshalBundle, EncodeBundle, CleanBundle, NoNil, AllMaterialized;
    if CleanBundle(m) {
      CleanBundleDecodes(m);
      MaterializedIsSame(m);
    }
    if UnmarshalBundle(NO_BUNDLE, EncodeBundle(m), 0) == Ok(m) {
      DecodedBundleIsClean(m);
    }
  }

  /** One nil element is enough: the bundle comes back with an empty element instead. */
  lemma NilElementIsLost()
    ensures var m := NO_BUNDLE.(flowAllocs := [None]);
            UnmarshalBundle(NO_BUNDLE, EncodeBundle(m), 0) == Ok(NO_BUNDLE.(flowAllocs := [Some(NO_ALLOC)]))
  {
    var m := NO_BUNDLE.(flowAllocs := [None]);
    NothingIsUnknown(BUNDLE_FIELDS);
    NothingIsUnknown(ALLOC_FIELDS);
    NilBundleIsShort();
    assert AllMaterialized(m.flowAllocs) == [Some(NO_ALLOC)];
    hide UnmarshalBundle, EncodeBundle, AreUnknown;
    CleanBundleDecodes(m);
  }

  lemma NilBundleIsShort()
    ensures |EncodeBundle(NO_BUNDLE.(flowAllocs := [None]))| == 2
  {
    var m := NO_BUNDLE.(flowAllocs := [None]);
    var tail := AfterList(m);
    BundleIsList(m);
    assert tail == [];
    assert EncodeAlloc(None) == [];
    assert Delimited(0x0a, []) == [0x0a, 0];
    assert m.flowAllocs[1..] == [];
    assert AllocsOnto([], tail) == [];
    assert AllocsOnto(m.flowAllocs, tail) == Delimited(0x0a, EncodeAlloc(None)) + AllocsOnto(m.flowAllocs[1..], tail);
  }
}
