/** UnmarshalVT of FlowMarker, FlowAlloc and AllocBundle as functions on bytes. */
module FlowDecode {
  import opened Wrappers
  import opened Varints
  import opened WireFormat
  import opened FlowMessages

  // ---- Fields by wire type; any other wire type is an error ----

  function BytesField(d: seq<byte>, i: nat, tag: Tag): (r: Parsed<seq<byte>>)
    requires i <= |d|
    ensures r.Parsed? ==> i < r.next <= |d|
  {
    if tag.wireType != 2 then Failed(WrongWireType) else ReadBytes(d, i)
  }

  function Fixed64Field(d: seq<byte>, i: nat, tag: Tag): (r: Parsed<u64>)
    requires i <= |d|
    ensures r.Parsed? ==> i < r.next <= |d|
  {
    if tag.wireType != 1 then Failed(WrongWireType) else ReadFixed64(d, i)
  }

  function VarintField(d: seq<byte>, i: nat, tag: Tag): (r: Parsed<u64>)
    requires i <= |d|
    ensures r.Parsed? ==> i < r.next <= |d|
  {
    if tag.wireType != 0 then Failed(WrongWireType)
    else match ReadVarint(d, i) case Parsed(v, n) => Parsed(v, n) case Failed(e) => Failed(e)
  }

  // ---- FlowMarker ----

  const MARKER_FIELDS := 10

  predicate IsMarkerString(num: int) {
    num == 1 || num == 2 || num == 4 || num == 5 || num == 10
  }

  predicate IsMarkerNumber(num: int) {
    6 <= num <= 9
  }

  function SetMarkerString(m: FlowMarker, num: int, s: seq<byte>): FlowMarker {
    match num
    case 1 => m.(srcDc := s)
    case 2 => m.(dstDc := s)
    case 4 => m.(srcAddr := s)
    case 5 => m.(dstAddr := s)
    case _ => m.(job := s)
  }

  function SetMarkerNumber(m: FlowMarker, num: int, v: u64): FlowMarker {
    match num
    case 6 => m.(protocol := AsI32(v))
    case 7 => m.(srcPort := AsI32(v))
    case 8 => m.(dstPort := AsI32(v))
    case _ => m.(seqnum := v)
  }

  function MarkerField(m: FlowMarker, d: seq<byte>, i: nat, tag: Tag): (r: Parsed<FlowMarker>)
    requires i <= |d| && 1 <= tag.num <= MARKER_FIELDS
    ensures r.Parsed? ==> i < r.next <= |d| && r.value.unknown == m.unknown
  {
    if IsMarkerString(tag.num) then
      match BytesField(d, i, tag)
      case Parsed(s, n) => Parsed(SetMarkerString(m, tag.num, s), n)
      case Failed(e) => Failed(e)
    else if tag.num == 3 then
      match Fixed64Field(d, i, tag)
      case Parsed(v, n) => Parsed(m.(hostId := v), n)
      case Failed(e) => Failed(e)
    else
      match VarintField(d, i, tag)
      case Parsed(v, n) => Parsed(SetMarkerNumber(m, tag.num, v), n)
      case Failed(e) => Failed(e)
  }

  function MarkerStep(m: FlowMarker, d: seq<byte>, i: nat): (r: Parsed<FlowMarker>)
    requires i < |d|
    ensures r.Parsed? ==> i < r.next <= |d|
  {
    match ReadTag(d, i)
    case Failed(e) => Failed(e)
    case Parsed(tag, next) =>
      if tag.num <= MARKER_FIELDS then MarkerField(m, d, next, tag)
      else
        match ReadUnknown(d, i)
        case Parsed(s, n) => Parsed(m.(unknown := m.unknown + s), n)
        case Failed(e) => Failed(e)
  }

  function UnmarshalMarker(m: FlowMarker, d: seq<byte>, i: nat): Result<FlowMarker>
    requires i <= |d|
    decreases |d| - i
  {
    if i >= |d| then Ok(m)
    else
      match MarkerStep(m, d, i)
      case Failed(e) => Err(e)
      case Parsed(m', n) => UnmarshalMarker(m', d, n)
  }

  // ---- FlowAlloc ----

  const ALLOC_FIELDS := 3

  function AllocField(m: FlowAlloc, d: seq<byte>, i: nat, tag: Tag): (r: Parsed<FlowAlloc>)
    requires i <= |d| && 1 <= tag.num <= ALLOC_FIELDS
    ensures r.Parsed? ==> i < r.next <= |d| && r.value.unknown == m.unknown
  {
    if tag.num == 1 then
      match BytesField(d, i, tag)
      case Failed(e) => Failed(e)
      case Parsed(s, n) =>
        match UnmarshalMarker(if m.flow.Some? then m.flow.value else NO_MARKER, s, 0)
        case Err(e) => Failed(e)
        case Ok(f) => Parsed(m.(flow := Some(f)), n)
    else
      match VarintField(d, i, tag)
      case Failed(e) => Failed(e)
      case Parsed(v, n) =>
        if tag.num == 2 then Parsed(m.(hipriRateLimitBps := AsI64(v)), n)
        else Parsed(m.(lopriRateLimitBps := AsI64(v)), n)
  }

  function AllocStep(m: FlowAlloc, d: seq<byte>, i: nat): (r: Parsed<FlowAlloc>)
    requires i < |d|
    ensures r.Parsed? ==> i < r.next <= |d|
  {
    match ReadTag(d, i)
    case Failed(e) => Failed(e)
    case Parsed(tag, next) =>
      if tag.num <= ALLOC_FIELDS then AllocField(m, d, next, tag)
      else
        match ReadUnknown(d, i)
        case Parsed(s, n) => Parsed(m.(unknown := m.unknown + s), n)
        case Failed(e) => Failed(e)
  }

  function UnmarshalAlloc(m: FlowAlloc, d: seq<byte>, i: nat): Result<FlowAlloc>
    requires i <= |d|
    decreases |d| - i
  {
    if i >= |d| then Ok(m)
    else
      match AllocStep(m, d, i)
      case Failed(e) => Err(e)
      case Parsed(m', n) => UnmarshalAlloc(m', d, n)
  }

  // ---- AllocBundle ----

  const BUNDLE_FIELDS := 2

  function BundleField(m: AllocBundle, d: seq<byte>, i: nat, tag: Tag): (r: Parsed<AllocBundle>)
    requires i <= |d| && 1 <= tag.num <= BUNDLE_FIELDS
    ensures r.Parsed? ==> i < r.next <= |d| && r.value.unknown == m.unknown
  {
    if tag.num == 1 then
      match BytesField(d, i, tag)
      case Failed(e) => Failed(e)
      case Parsed(s, n) =>
        match UnmarshalAlloc(NO_ALLOC, s, 0)
        case Err(e) => Failed(e)
        case Ok(a) => Parsed(m.(flowAllocs := m.flowAllocs + [Some(a)]), n)
    else
      match VarintField(d, i, tag)
      case Failed(e) => Failed(e)
      case Parsed(v, n) => Parsed(m.(gen := AsI64(v)), n)
  }

  function BundleStep(m: AllocBundle, d: seq<byte>, i: nat): (r: Parsed<AllocBundle>)
    requires i < |d|
    ensures r.Parsed? ==> i < r.next <= |d|
  {
    match ReadTag(d, i)
    case Failed(e) => Failed(e)
    case Parsed(tag, next) =>
      if tag.num <= BUNDLE_FIELDS then BundleField(m, d, next, tag)
      else
        match ReadUnknown(d, i)
        case Parsed(s, n) => Parsed(m.(unknown := m.unknown + s), n)
        case Failed(e) => Failed(e)
  }

  function UnmarshalBundle(m: AllocBundle, d: seq<byte>, i: nat): Result<AllocBundle>
    requires i <= |d|
    decreases |d| - i
  {
    if i >= |d| then Ok(m)
    else
      match BundleStep(m, d, i)
      case Failed(e) => Err(e)
      case Parsed(m', n) => UnmarshalBundle(m', d, n)
  }
}
