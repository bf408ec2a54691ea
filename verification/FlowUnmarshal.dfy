/** UnmarshalVT as loops over the input, proved against the decoding functions. */
module FlowUnmarshal {
  import opened Wrappers
  import opened Sequences
  import opened Varints
  import opened WireFormat
  import opened WireGrammar
  import opened FlowMessages
  import opened FlowDecode
  import opened FlowRoundTrip
  import opened FlowMarshal

  method ParseTag(d: seq<byte>, i: nat) returns (r: Parsed<Tag>)
    requires i <= |d|
    ensures r == ReadTag(d, i)
  {
    hide ReadVarint;
    var wire := ParseVarint(d, i);
    if wire.Failed? {
      return Failed(wire.error);
    }
    var fieldNum, wireType := AsI32(wire.value / 8), wire.value % 8;
    if wireType == 4 {
      return Failed(EndGroupForNonGroup);
    }
    if fieldNum <= 0 {
      return Failed(IllegalTag);
    }
    r := Parsed(Tag(fieldNum, wireType), wire.next);
  }

  method ParseBytes(d: seq<byte>, i: nat, tag: Tag) returns (r: Parsed<seq<byte>>)
    requires i <= |d|
    ensures r == BytesField(d, i, tag)
  {
    hide ReadVarint;
    if tag.wireType != 2 {
      return Failed(WrongWireType);
    }
    var len := ParseVarint(d, i);
    if len.Failed? {
      return Failed(len.error);
    }
    if AsI64(len.value) < 0 {
      return Failed(InvalidLength);
    }
    var postIndex := len.next + len.value;
    if postIndex >= TWO63 {
      return Failed(InvalidLength);
    }
    if postIndex > |d| {
      return Failed(UnexpectedEof);
    }
    r := Parsed(d[len.next..postIndex], postIndex);
  }

  method ParseNumber(d: seq<byte>, i: nat, tag: Tag) returns (r: Parsed<u64>)
    requires i <= |d|
    ensures r == VarintField(d, i, tag)
  {
    hide ReadVarint;
    if tag.wireType != 0 {
      return Failed(WrongWireType);
    }
    var v := ParseVarint(d, i);
    if v.Failed? {
      return Failed(v.error);
    }
    r := Parsed(v.value, v.next);
  }

  /** Takes the bytes of one field of any kind, or fails if none starts here. */
  method ParseUnknown(d: seq<byte>, i: nat) returns (r: Parsed<seq<byte>>)
    requires i <= |d|
    ensures r == ReadUnknown(d, i)
    ensures |d| < TWO63 && r.Parsed? ==> i < r.next <= |d| && r.value == d[i..r.next] && IsOneField(r.value)
    ensures |d| < TWO63 && r.Failed? ==> forall n :: i <= n <= |d| ==> !IsOneField(d[i..n])
  {
    hide SkipFrom, IsOneField;
    var skippy := Skip(d[i..]);
    forall n | i <= n <= |d| ensures d[i..][..n - i] == d[i..n] {
      DropTwice(d, i, n - i);
    }
    if skippy.SkipFailed? {
      return Failed(skippy.error);
    }
    if i + skippy.n >= TWO63 {
      return Failed(InvalidLength);
    }
    if i + skippy.n > |d| {
      return Failed(UnexpectedEof);
    }
    r := Parsed(d[i..i + skippy.n], i + skippy.n);
  }

  /** FlowMarker.UnmarshalVT, into a message that may already hold values. */
  method ParseMarker(m0: FlowMarker, d: seq<byte>) returns (r: Result<FlowMarker>)
    ensures r == UnmarshalMarker(m0, d, 0)
  {
    hide ReadTag, ReadUnknown, BytesField, Fixed64Field, VarintField;
    var m, i := m0, 0;
    while i < |d|
      invariant i <= |d|
      invariant UnmarshalMarker(m, d, i) == UnmarshalMarker(m0, d, 0)
    {
      var tag := ParseTag(d, i);
      if tag.Failed? {
        return Err(tag.error);
      }
      var num := tag.value.num;
      if IsMarkerString(num) {
        var s := ParseBytes(d, tag.next, tag.value);
        if s.Failed? {
          return Err(s.error);
        }
        m, i := SetMarkerString(m, num, s.value), s.next;
      } else if num == 3 {
        var v := Fixed64Field(d, tag.next, tag.value);
        if v.Failed? {
          return Err(v.error);
        }
        m, i := m.(hostId := v.value), v.next;
      } else if IsMarkerNumber(num) {
        var v := ParseNumber(d, tag.next, tag.value);
        if v.Failed? {
          return Err(v.error);
        }
        m, i := SetMarkerNumber(m, num, v.value), v.next;
      } else {
        var s := ParseUnknown(d, i);
        if s.Failed? {
          return Err(s.error);
        }
        m, i := m.(unknown := m.unknown + s.value), s.next;
      }
    }
    r := Ok(m);
  }

  method ParseAlloc(m0: FlowAlloc, d: seq<byte>) returns (r: Result<FlowAlloc>)
    ensures r == UnmarshalAlloc(m0, d, 0)
  {
    hide ReadTag, ReadUnknown, BytesField, VarintField, UnmarshalMarker;
    var m, i := m0, 0;
    while i < |d|
      invariant i <= |d|
      invariant UnmarshalAlloc(m, d, i) == UnmarshalAlloc(m0, d, 0)
    {
      var tag := ParseTag(d, i);
      if tag.Failed? {
        return Err(tag.error);
      }
      var num := tag.value.num;
      if num == 1 {
        var s := ParseBytes(d, tag.next, tag.value);
        if s.Failed? {
          return Err(s.error);
        }
        var flow := if m.flow.Some? then m.flow.value else NO_MARKER;
        var f := ParseMarker(flow, s.value);
        if f.Err? {
          return Err(f.error);
        }
        m, i := m.(flow := Some(f.value)), s.next;
      } else if num == 2 || num == 3 {
        var v := ParseNumber(d, tag.next, tag.value);
        if v.Failed? {
          return Err(v.error);
        }
        if num == 2 {
          m := m.(hipriRateLimitBps := AsI64(v.value));
        } else {
          m := m.(lopriRateLimitBps := AsI64(v.value));
        }
        i := v.next;
      } else {
        var s := ParseUnknown(d, i);
        if s.Failed? {
          return Err(s.error);
        }
        m, i := m.(unknown := m.unknown + s.value), s.next;
      }
    }
    r := Ok(m);
  }

  method ParseBundle(m0: AllocBundle, d: seq<byte>) returns (r: Result<AllocBundle>)
    ensures r == UnmarshalBundle(m0, d, 0)
  {
    hide ReadTag, ReadUnknown, BytesField, VarintField, UnmarshalAlloc;
    var m, i := m0, 0;
    while i < |d|
      invariant i <= |d|
      invariant UnmarshalBundle(m, d, i) == UnmarshalBundle(m0, d, 0)
    {
      var tag := ParseTag(d, i);
      if tag.Failed? {
        return Err(tag.error);
      }
      var num := tag.value.num;
      if num == 1 {
        var s := ParseBytes(d, tag.next, tag.value);
        if s.Failed? {
          return Err(s.error);
        }
        var a := ParseAlloc(NO_ALLOC, s.value);
        if a.Err? {
          return Err(a.error);
        }
        m, i := m.(flowAllocs := m.flowAllocs + [Some(a.value)]), s.next;
      } else if num == 2 {
        var v := ParseNumber(d, tag.next, tag.value);
        if v.Failed? {
          return Err(v.error);
        }
        m, i := m.(gen := AsI64(v.value)), v.next;
      } else {
        var s := ParseUnknown(d, i);
        if s.Failed? {
          return Err(s.error);
        }
        m, i := m.(unknown := m.unknown + s.value), s.next;
      }
    }
    r := Ok(m);
  }

  /** Marshal, then unmarshal into a fresh message: the whole path from value to bytes to value. */
  method MarshalThenUnmarshal(m: AllocBundle) returns (r: Result<AllocBundle>)
    requires BundleSize(m) < TWO63
    ensures r == Ok(m) <==> CleanBundle(m) && NoNil(m)
  {
    hide EncodeBundle, BundleSize, UnmarshalBundle, CleanBundle, NoNil;
    var d := MarshalBundle(m);
    BundleSizeIsExact(m);
    BundleRoundTrip(m);
    r := ParseBundle(NO_BUNDLE, d[..]);
  }
}
