/** The messages FlowMarker, FlowAlloc and AllocBundle, and SizeVT and MarshalVT of each as functions. */
module FlowMessages {
  import opened Wrappers
  import opened Varints
  import opened WireFormat

  datatype Result<+T> = Ok(value: T) | Err(error: WireError)

  datatype FlowMarker = FlowMarker(
    srcDc: seq<byte>, dstDc: seq<byte>, hostId: u64, srcAddr: seq<byte>, dstAddr: seq<byte>,
    protocol: i32, srcPort: i32, dstPort: i32, seqnum: u64, job: seq<byte>, unknown: seq<byte>)

  datatype FlowAlloc = FlowAlloc(
    flow: Option<FlowMarker>, hipriRateLimitBps: i64, lopriRateLimitBps: i64, unknown: seq<byte>)

  /** The list elements are pointers and may be nil. */
  datatype AllocBundle = AllocBundle(flowAllocs: seq<Option<FlowAlloc>>, gen: i64, unknown: seq<byte>)

  const NO_MARKER := FlowMarker([], [], 0, [], [], 0, 0, 0, 0, [], [])
  const NO_ALLOC := FlowAlloc(None, 0, 0, [])
  const NO_BUNDLE := AllocBundle([], 0, [])

  // ---- SizeVT ----

  function StringSize(s: seq<byte>): nat {
    if |s| > 0 then 1 + |s| + Sov(|s|) else 0
  }

  function VarintSize(v: u64): nat {
    if v != 0 then 1 + Sov(v) else 0
  }

  function Fixed64Size(v: u64): nat {
    if v != 0 then 9 else 0
  }

  function MessageSize(n: nat): nat {
    1 + n + Sov(n)
  }

  function MarkerSize(m: FlowMarker): nat {
    StringSize(m.srcDc) + StringSize(m.dstDc) + Fixed64Size(m.hostId) + StringSize(m.srcAddr)
    + StringSize(m.dstAddr) + VarintSize(AsU64(m.protocol)) + VarintSize(AsU64(m.srcPort))
    + VarintSize(AsU64(m.dstPort)) + VarintSize(m.seqnum) + StringSize(m.job) + |m.unknown|
  }

  function AllocSize(a: Option<FlowAlloc>): nat {
    match a
    case None => 0
    case Some(m) =>
      (if m.flow.Some? then MessageSize(MarkerSize(m.flow.value)) else 0)
      + VarintSize(AsU64(m.hipriRateLimitBps)) + VarintSize(AsU64(m.lopriRateLimitBps)) + |m.unknown|
  }

  function AllocsSize(as_: seq<Option<FlowAlloc>>): nat {
    if as_ == [] then 0 else MessageSize(AllocSize(as_[0])) + AllocsSize(as_[1..])
  }

  function BundleSize(m: AllocBundle): nat {
    AllocsSize(m.flowAllocs) + VarintSize(AsU64(m.gen)) + |m.unknown|
  }

  // ---- The bytes written, in front of whatever already follows ----

  function MarkerOnto(m: FlowMarker, tail: seq<byte>): seq<byte> {
    StringRecord(0x0a, m.srcDc) + (StringRecord(0x12, m.dstDc) + (Fixed64Record(0x19, m.hostId)
    + (StringRecord(0x22, m.srcAddr) + (StringRecord(0x2a, m.dstAddr)
    + MarkerNumbersOnto(m, tail)))))
  }

  function MarkerNumbersOnto(m: FlowMarker, tail: seq<byte>): seq<byte> {
    VarintRecord(0x30, AsU64(m.protocol)) + (VarintRecord(0x38, AsU64(m.srcPort))
    + (VarintRecord(0x40, AsU64(m.dstPort)) + (VarintRecord(0x48, m.seqnum)
    + (StringRecord(0x52, m.job) + (m.unknown + tail)))))
  }

  function EncodeMarker(m: FlowMarker): seq<byte> {
    MarkerOnto(m, [])
  }

  function FlowRecord(flow: Option<FlowMarker>): seq<byte> {
    if flow.Some? then Delimited(0x0a, EncodeMarker(flow.value)) else []
  }

  function AllocOnto(m: FlowAlloc, tail: seq<byte>): seq<byte> {
    FlowRecord(m.flow) + (VarintRecord(0x10, AsU64(m.hipriRateLimitBps))
    + (VarintRecord(0x18, AsU64(m.lopriRateLimitBps)) + (m.unknown + tail)))
  }

  /** A nil element encodes to no bytes, like the empty message. */
  function EncodeAlloc(a: Option<FlowAlloc>): seq<byte> {
    if a.Some? then AllocOnto(a.value, []) else []
  }

  function AllocsOnto(as_: seq<Option<FlowAlloc>>, tail: seq<byte>): seq<byte> {
    if as_ == [] then tail else Delimited(0x0a, EncodeAlloc(as_[0])) + AllocsOnto(as_[1..], tail)
  }

  function BundleOnto(m: AllocBundle, tail: seq<byte>): seq<byte> {
    AllocsOnto(m.flowAllocs, VarintRecord(0x10, AsU64(m.gen)) + (m.unknown + tail))
  }

  function EncodeBundle(m: AllocBundle): seq<byte> {
    BundleOnto(m, [])
  }

  // ---- Sizes are exact ----

  lemma RecordSizes(tag: byte, s: seq<byte>, v: u64)
    ensures |StringRecord(tag, s)| == StringSize(s)
    ensures |VarintRecord(tag, v)| == VarintSize(v)
    ensures |Fixed64Record(tag, v)| == Fixed64Size(v)
    ensures |Delimited(tag, s)| == MessageSize(|s|)
  {
    hide Varint, Sov;
    SovIsVarintLength(|s|);
    SovIsVarintLength(v);
  }

  lemma MarkerSizeIsExact(m: FlowMarker, tail: seq<byte>)
    ensures |MarkerOnto(m, tail)| == MarkerSize(m) + |tail|
  {
    hide Varint, Sov, StringRecord, VarintRecord, Fixed64Record, StringSize, VarintSize, Fixed64Size;
    RecordSizes(0x0a, m.srcDc, 0);
    RecordSizes(0x12, m.dstDc, 0);
    RecordSizes(0x19, [], m.hostId);
    RecordSizes(0x22, m.srcAddr, 0);
    RecordSizes(0x2a, m.dstAddr, 0);
    RecordSizes(0x30, [], AsU64(m.protocol));
    RecordSizes(0x38, [], AsU64(m.srcPort));
    RecordSizes(0x40, [], AsU64(m.dstPort));
    RecordSizes(0x48, [], m.seqnum);
    RecordSizes(0x52, m.job, 0);
  }

  lemma AllocSizeIsExact(a: Option<FlowAlloc>)
    ensures |EncodeAlloc(a)| == AllocSize(a)
  {
    hide Varint, Sov, VarintRecord, Delimited, VarintSize, MessageSize, MarkerOnto, MarkerSize;
    if a.Some? {
      var m := a.value;
      RecordSizes(0x10, [], AsU64(m.hipriRateLimitBps));
      RecordSizes(0x18, [], AsU64(m.lopriRateLimitBps));
      if m.flow.Some? {
        MarkerSizeIsExact(m.flow.value, []);
        RecordSizes(0x0a, EncodeMarker(m.flow.value), 0);
      }
    }
  }

  lemma {:induction false} AllocsSizeIsExact(as_: seq<Option<FlowAlloc>>, tail: seq<byte>)
    ensures |AllocsOnto(as_, tail)| == AllocsSize(as_) + |tail|
  {
    hide EncodeAlloc, AllocSize, Delimited, MessageSize;
    if as_ != [] {
      AllocSizeIsExact(as_[0]);
      RecordSizes(0x0a, EncodeAlloc(as_[0]), 0);
      AllocsSizeIsExact(as_[1..], tail);
    }
  }

  /** SizeVT is the length of the encoding, nested messages included. */
  lemma BundleSizeIsExact(m: AllocBundle)
    ensures |EncodeBundle(m)| == BundleSize(m)
  {
    hide AllocsOnto, AllocsSize, VarintRecord, VarintSize;
    RecordSizes(0x10, [], AsU64(m.gen));
    AllocsSizeIsExact(m.flowAllocs, VarintRecord(0x10, AsU64(m.gen)) + (m.unknown + []));
  }
}
