/**
 What the decoders do on any bytes: they accept exactly the sequences of fields of the relaxed
 grammar whose known numbers come with their wire types, and apply the fields one after the other.
 Decoding two stretches of bytes is decoding the second onto the result of the first.
 */
module FlowMeaning {
  import opened Wrappers
  import opened Varints
  import opened WireFormat
  import opened WireGrammar
  import opened FlowMessages
  import opened FlowDecode

  // ---- One field ----

  ghost function WireType(f: RawField): nat {
    match f
    case RawVarint(_, _) => 0
    case RawFixed64(_, _) => 1
    case RawBytes(_, _, _) => 2
    case RawGroup(_, _, _) => 3
    case RawFixed32(_, _) => 5
  }

  lemma TagAt(d: seq<byte>, i: nat, f: RawField, rest: seq<byte>)
    requires i <= |d| && d[i..] == Bytes(f) + rest && IsRaw(f)
    ensures HasAt(d, i, Bytes(f)) && i + |f.tag| <= |d|
    ensures Number(f) > 0 ==> ReadTag(d, i) == Parsed(Tag(Number(f), WireType(f)), i + |f.tag|)
  {
    hide Value64, ReadVarint, IsVarint, AsI32;
    HasAtSuffix(d, i, Bytes(f), rest);
    assert Bytes(f) == f.tag + Bytes(f)[|f.tag|..];
    HasAtSplit(d, i, f.tag, Bytes(f)[|f.tag|..]);
    TagReads(d, i, f.tag, WireType(f));
  }

  lemma VarintAt(d: seq<byte>, i: nat, f: RawField)
    requires HasAt(d, i, Bytes(f)) && IsRaw(f) && f.RawVarint?
    ensures ReadVarint(d, i + |f.tag|) == Parsed(Value64(f.v), i + |Bytes(f)|)
  {
    hide Value64, ReadVarint, IsVarint;
    HasAtSplit(d, i, f.tag, f.v);
    RawVarintReads(d, i + |f.tag|, f.v);
  }

  lemma BytesAt(d: seq<byte>, i: nat, f: RawField)
    requires |d| < TWO63 && HasAt(d, i, Bytes(f)) && IsRaw(f) && f.RawBytes?
    ensures ReadBytes(d, i + |f.tag|) == Parsed(f.s, i + |Bytes(f)|)
  {
    hide Value64, ReadVarint, IsVarint;
    HasAtSplit(d, i, f.tag, f.len + f.s);
    HasAtSplit(d, i + |f.tag|, f.len, f.s);
    RawVarintReads(d, i + |f.tag|, f.len);
    var next := i + |f.tag| + |f.len|;
    assert d[next..next + |f.s|] == f.s;
  }

  lemma {:induction false} FromLeShifts(d: seq<byte>, i: nat, s: seq<byte>, k: nat)
    requires HasAt(d, i, s) && k <= |s|
    ensures FromLe(d, i + k, |s| - k) == FromLe(s, k, |s| - k)
    decreases |s| - k
  {
    if k < |s| {
      FromLeShifts(d, i, s, k + 1);
      assert d[i + k] == s[k];
    }
  }

  ghost function Fixed64Value(s: seq<byte>): u64
    requires |s| == 8
  {
    FromLeFits(s, 0, 8);
    Pow256Of8();
    FromLe(s, 0, 8)
  }

  lemma Fixed64At(d: seq<byte>, i: nat, f: RawField)
    requires HasAt(d, i, Bytes(f)) && IsRaw(f) && f.RawFixed64?
    ensures ReadFixed64(d, i + |f.tag|) == Parsed(Fixed64Value(f.s), i + |Bytes(f)|)
  {
    hide FromLe, IsTag;
    HasAtSplit(d, i, f.tag, f.s);
    FromLeShifts(d, i + |f.tag|, f.s, 0);
  }

  // ---- And back ----

  lemma TagFound(d: seq<byte>, i: nat)
    requires i <= |d| && ReadTag(d, i).Parsed?
    ensures var r := ReadTag(d, i);
            && IsTag(d[i..r.next], r.value.wireType) && AsI32(Value64(d[i..r.next]) / 8) == r.value.num
  {
    hide Value64, IsVarint, AsI32;
    TagShape(d, i);
  }

  lemma VarintFound(d: seq<byte>, i: nat) returns (f: RawField)
    requires i <= |d| && ReadTag(d, i).Parsed? && ReadTag(d, i).value.wireType == 0
    requires ReadVarint(d, ReadTag(d, i).next).Parsed?
    ensures f.RawVarint? && IsRaw(f) && Number(f) == ReadTag(d, i).value.num
    ensures var r := ReadVarint(d, ReadTag(d, i).next); Value64(f.v) == r.value && Bytes(f) == d[i..r.next]
  {
    hide ReadTag, Value64, IsVarint, AsI32, IsTag;
    TagFound(d, i);
    var next := ReadTag(d, i).next;
    ReadShape(d, next);
    var n := ReadVarint(d, next).next;
    f := RawVarint(d[i..next], d[next..n]);
    Join(d, i, next, n);
  }

  lemma BytesFound(d: seq<byte>, i: nat) returns (f: RawField)
    requires i <= |d| && ReadTag(d, i).Parsed? && ReadTag(d, i).value.wireType == 2
    requires ReadBytes(d, ReadTag(d, i).next).Parsed?
    ensures f.RawBytes? && IsRaw(f) && Number(f) == ReadTag(d, i).value.num
    ensures var r := ReadBytes(d, ReadTag(d, i).next); f.s == r.value && Bytes(f) == d[i..r.next]
  {
    hide ReadTag, Value64, IsVarint, AsI32, IsTag;
    TagFound(d, i);
    var next := ReadTag(d, i).next;
    ReadShape(d, next);
    var m, n := ReadVarint(d, next).next, ReadBytes(d, next).next;
    f := RawBytes(d[i..next], d[next..m], d[m..n]);
    Join(d, next, m, n);
    Join(d, i, next, n);
  }

  lemma Fixed64Found(d: seq<byte>, i: nat) returns (f: RawField)
    requires i <= |d| && ReadTag(d, i).Parsed? && ReadTag(d, i).value.wireType == 1
    requires ReadFixed64(d, ReadTag(d, i).next).Parsed?
    ensures f.RawFixed64? && IsRaw(f) && Number(f) == ReadTag(d, i).value.num
    ensures var r := ReadFixed64(d, ReadTag(d, i).next); Fixed64Value(f.s) == r.value && Bytes(f) == d[i..r.next]
  {
    hide ReadTag, Value64, IsVarint, AsI32, IsTag, FromLe;
    TagFound(d, i);
    var next := ReadTag(d, i).next;
    f := RawFixed64(d[i..next], d[next..next + 8]);
    Join(d, i, next, next + 8);
    FromLeShifts(d, next, f.s, 0);
  }

  /** The same value, or an error on both sides. */
  ghost predicate Agree<T>(r: Result<T>, r': Result<T>) {
    r == r' || (r.Err? && r'.Err?)
  }

  // ---- FlowMarker ----

  /** A field that a marker knows, with its wire type, or an unknown one. */
  ghost predicate MarkerTakes(f: RawField) {
    match Number(f)
    case 1 => f.RawBytes?
    case 2 => f.RawBytes?
    case 3 => f.RawFixed64?
    case 4 => f.RawBytes?
    case 5 => f.RawBytes?
    case 6 => f.RawVarint?
    case 7 => f.RawVarint?
    case 8 => f.RawVarint?
    case 9 => f.RawVarint?
    case 10 => f.RawBytes?
    case n => n > 10
  }

  ghost predicate MarkerTakesAll(fs: RawFields) {
    fs.MoreRaw? ==> MarkerTakes(fs.first) && MarkerTakesAll(fs.rest)
  }

  /** The marker after one field: a known field is set, an unknown one is kept. */
  ghost function MarkerWith(m: FlowMarker, f: RawField): FlowMarker
    requires IsRaw(f) && MarkerTakes(f)
  {
    match Number(f)
    case 1 => m.(srcDc := f.s)
    case 2 => m.(dstDc := f.s)
    case 3 => m.(hostId := Fixed64Value(f.s))
    case 4 => m.(srcAddr := f.s)
    case 5 => m.(dstAddr := f.s)
    case 6 => m.(protocol := AsI32(Value64(f.v)))
    case 7 => m.(srcPort := AsI32(Value64(f.v)))
    case 8 => m.(dstPort := AsI32(Value64(f.v)))
    case 9 => m.(seqnum := Value64(f.v))
    case 10 => m.(job := f.s)
    case _ => m.(unknown := m.unknown + Bytes(f))
  }

  ghost function MarkerWithAll(m: FlowMarker, fs: RawFields): FlowMarker
    requires AreRaw(fs) && MarkerTakesAll(fs)
    decreases fs
  {
    match fs
    case NoRaw => m
    case MoreRaw(f, rest) => MarkerWithAll(MarkerWith(m, f), rest)
  }

  ghost predicate IsMarker(b: seq<byte>) {
    exists fs :: AreRaw(fs) && MarkerTakesAll(fs) && AllBytes(fs) == b
  }

  lemma MarkerTakesField(m: FlowMarker, d: seq<byte>, i: nat, f: RawField, rest: seq<byte>)
    requires i < |d| < TWO63 && d[i..] == Bytes(f) + rest && IsRaw(f) && MarkerTakes(f)
    ensures MarkerStep(m, d, i) == Parsed(MarkerWith(m, f), i + |Bytes(f)|)
  {
    hide Bytes, IsRaw, ReadTag, ReadBytes, ReadFixed64, ReadVarint, ReadUnknown, Number, Value64, Fixed64Value, AsI32;
    TagAt(d, i, f, rest);
    var n := Number(f);
    if n > MARKER_FIELDS {
      UnknownReads(d, i, f, rest);
    } else if IsMarkerString(n) {
      BytesAt(d, i, f);
    } else if n == 3 {
      Fixed64At(d, i, f);
    } else {
      VarintAt(d, i, f);
    }
  }

  lemma MarkerFoundField(m: FlowMarker, d: seq<byte>, i: nat) returns (f: RawField)
    requires i < |d| < TWO63 && MarkerStep(m, d, i).Parsed?
    ensures IsRaw(f) && MarkerTakes(f) && Bytes(f) == d[i..MarkerStep(m, d, i).next]
    ensures MarkerWith(m, f) == MarkerStep(m, d, i).value
  {
    hide Bytes, IsRaw, ReadTag, ReadBytes, ReadFixed64, ReadVarint, ReadUnknown, Number, Value64, Fixed64Value, AsI32;
    var n := ReadTag(d, i).value.num;
    if n > MARKER_FIELDS {
      f := FieldKept(d, i);
    } else if IsMarkerString(n) {
      f := BytesFound(d, i);
    } else if n == 3 {
      f := Fixed64Found(d, i);
    } else {
      f := VarintFound(d, i);
    }
  }

  lemma {:induction false} MarkerTakesFields(m: FlowMarker, d: seq<byte>, i: nat, fs: RawFields, rest: seq<byte>)
    requires i <= |d| < TWO63 && d[i..] == AllBytes(fs) + rest && AreRaw(fs) && MarkerTakesAll(fs)
    ensures i + |AllBytes(fs)| <= |d| && d[i + |AllBytes(fs)|..] == rest
    ensures UnmarshalMarker(m, d, i) == UnmarshalMarker(MarkerWithAll(m, fs), d, i + |AllBytes(fs)|)
    decreases fs
  {
    hide MarkerStep, IsRaw, Bytes, MarkerTakes, MarkerWith;
    match fs {
      case NoRaw =>
        assert AllBytes(fs) + rest == rest;
      case MoreRaw(f, more) =>
        RawIsNotEmpty(f);
        assert AllBytes(fs) + rest == Bytes(f) + (AllBytes(more) + rest);
        HasAtSuffix(d, i, Bytes(f), AllBytes(more) + rest);
        MarkerTakesField(m, d, i, f, AllBytes(more) + rest);
        MarkerTakesFields(MarkerWith(m, f), d, i + |Bytes(f)|, more, rest);
    }
  }

  lemma {:induction false} MarkerFoundFields(m: FlowMarker, d: seq<byte>, i: nat) returns (fs: RawFields)
    requires i <= |d| < TWO63 && UnmarshalMarker(m, d, i).Ok?
    ensures AreRaw(fs) && MarkerTakesAll(fs) && AllBytes(fs) == d[i..]
    ensures MarkerWithAll(m, fs) == UnmarshalMarker(m, d, i).value
    decreases |d| - i
  {
    hide MarkerStep, IsRaw, Bytes, MarkerTakes, MarkerWith;
    if i == |d| {
      fs := NoRaw;
    } else {
      var f := MarkerFoundField(m, d, i);
      var n := MarkerStep(m, d, i).next;
      var rest := MarkerFoundFields(MarkerWith(m, f), d, n);
      fs := MoreRaw(f, rest);
      Join(d, i, n, |d|);
      assert d[i..] == d[i..|d|] && d[n..] == d[n..|d|];
    }
  }

  /** Decoding succeeds exactly on sequences of such fields, and sets what they say in order. */
  lemma MarkerMeans(m: FlowMarker, d: seq<byte>, i: nat)
    requires i <= |d| < TWO63
    ensures UnmarshalMarker(m, d, i).Ok? <==> IsMarker(d[i..])
    ensures forall fs :: AreRaw(fs) && MarkerTakesAll(fs) && AllBytes(fs) == d[i..] ==>
              UnmarshalMarker(m, d, i) == Ok(MarkerWithAll(m, fs))
  {
    hide MarkerStep, AreRaw, MarkerTakesAll, AllBytes, MarkerWithAll;
    if UnmarshalMarker(m, d, i).Ok? {
      var fs := MarkerFoundFields(m, d, i);
    }
    forall fs | AreRaw(fs) && MarkerTakesAll(fs) && AllBytes(fs) == d[i..]
      ensures UnmarshalMarker(m, d, i) == Ok(MarkerWithAll(m, fs))
    {
      assert d[i..] == AllBytes(fs) + [];
      MarkerTakesFields(m, d, i, fs, []);
    }
  }

  /** Decoding depends only on what lies ahead. */
  lemma MarkerShifts(m: FlowMarker, d: seq<byte>, i: nat, u: seq<byte>)
    requires i <= |d| < TWO63 && u == d[i..]
    ensures Agree(UnmarshalMarker(m, d, i), UnmarshalMarker(m, u, 0))
  {
    hide UnmarshalMarker, IsMarker, AreRaw, MarkerTakesAll, AllBytes, MarkerWithAll;
    assert u[0..] == u;
    MarkerMeans(m, d, i);
    MarkerMeans(m, u, 0);
    if UnmarshalMarker(m, d, i).Ok? {
      var fs := MarkerFoundFields(m, d, i);
    }
  }

  /** The second stretch is decoded onto the result of the first: later values win. */
  lemma MarkerAppends(m: FlowMarker, x: seq<byte>, y: seq<byte>)
    requires |x + y| < TWO63 && UnmarshalMarker(m, x, 0).Ok?
    ensures Agree(UnmarshalMarker(m, x + y, 0), UnmarshalMarker(UnmarshalMarker(m, x, 0).value, y, 0))
  {
    hide UnmarshalMarker, AreRaw, MarkerTakesAll, AllBytes, MarkerWithAll;
    var fs := MarkerFoundFields(m, x, 0);
    assert x[0..] == x && (x + y)[0..] == x + y && (x + y)[|x|..] == y;
    MarkerTakesFields(m, x + y, 0, fs, y);
    MarkerShifts(MarkerWithAll(m, fs), x + y, |x|, y);
  }

  // ---- FlowAlloc ----

  /** What a nested marker becomes with one more payload. */
  ghost function Merged(flow: Option<FlowMarker>, s: seq<byte>): FlowMarker {
    var base := if flow.Some? then flow.value else NO_MARKER;
    match UnmarshalMarker(base, s, 0) case Ok(m) => m case Err(_) => base
  }

  ghost predicate AllocTakes(f: RawField) {
    var n := Number(f);
    if n == 1 then f.RawBytes? && IsMarker(f.s)
    else if n == 2 || n == 3 then f.RawVarint?
    else n > ALLOC_FIELDS
  }

  ghost predicate AllocTakesAll(fs: RawFields) {
    fs.MoreRaw? ==> AllocTakes(fs.first) && AllocTakesAll(fs.rest)
  }

  ghost function AllocWith(m: FlowAlloc, f: RawField): FlowAlloc
    requires IsRaw(f) && AllocTakes(f)
  {
    var n := Number(f);
    if n == 1 then m.(flow := Some(Merged(m.flow, f.s)))
    else if n == 2 then m.(hipriRateLimitBps := AsI64(Value64(f.v)))
    else if n == 3 then m.(lopriRateLimitBps := AsI64(Value64(f.v)))
    else m.(unknown := m.unknown + Bytes(f))
  }

  ghost function AllocWithAll(m: FlowAlloc, fs: RawFields): FlowAlloc
    requires AreRaw(fs) && AllocTakesAll(fs)
    decreases fs
  {
    match fs
    case NoRaw => m
    case MoreRaw(f, rest) => AllocWithAll(AllocWith(m, f), rest)
  }

  ghost predicate IsAlloc(b: seq<byte>) {
    exists fs :: AreRaw(fs) && AllocTakesAll(fs) && AllBytes(fs) == b
  }

  lemma PayloadIsShort(f: RawField)
    requires IsRaw(f) && f.RawBytes?
    ensures |f.s| < TWO63 && f.s[0..] == f.s
  {
  }

  lemma AllocTakesField(m: FlowAlloc, d: seq<byte>, i: nat, f: RawField, rest: seq<byte>)
    requires i < |d| < TWO63 && d[i..] == Bytes(f) + rest && IsRaw(f) && AllocTakes(f)
    ensures AllocStep(m, d, i) == Parsed(AllocWith(m, f), i + |Bytes(f)|)
  {
    hide Bytes, IsRaw, ReadTag, ReadBytes, ReadVarint, ReadUnknown, Number, Value64, AsI64, UnmarshalMarker, IsMarker;
    TagAt(d, i, f, rest);
    var n := Number(f);
    if n > ALLOC_FIELDS {
      UnknownReads(d, i, f, rest);
    } else if n == 1 {
      BytesAt(d, i, f);
      PayloadIsShort(f);
      MarkerMeans(if m.flow.Some? then m.flow.value else NO_MARKER, f.s, 0);
    } else {
      VarintAt(d, i, f);
    }
  }

  lemma AllocFoundField(m: FlowAlloc, d: seq<byte>, i: nat) returns (f: RawField)
    requires i < |d| < TWO63 && AllocStep(m, d, i).Parsed?
    ensures IsRaw(f) && AllocTakes(f) && Bytes(f) == d[i..AllocStep(m, d, i).next]
    ensures AllocWith(m, f) == AllocStep(m, d, i).value
  {
    hide Bytes, IsRaw, ReadTag, ReadBytes, ReadVarint, ReadUnknown, Number, Value64, AsI64, UnmarshalMarker, IsMarker;
    var n := ReadTag(d, i).value.num;
    if n > ALLOC_FIELDS {
      f := FieldKept(d, i);
    } else if n == 1 {
      f := BytesFound(d, i);
      PayloadIsShort(f);
      MarkerMeans(if m.flow.Some? then m.flow.value else NO_MARKER, f.s, 0);
    } else {
      f := VarintFound(d, i);
    }
  }

  lemma {:induction false} AllocTakesFields(m: FlowAlloc, d: seq<byte>, i: nat, fs: RawFields, rest: seq<byte>)
    requires i <= |d| < TWO63 && d[i..] == AllBytes(fs) + rest && AreRaw(fs) && AllocTakesAll(fs)
    ensures i + |AllBytes(fs)| <= |d| && d[i + |AllBytes(fs)|..] == rest
    ensures UnmarshalAlloc(m, d, i) == UnmarshalAlloc(AllocWithAll(m, fs), d, i + |AllBytes(fs)|)
    decreases fs
  {
    hide AllocStep, IsRaw, Bytes, AllocTakes, AllocWith;
    match fs {
      case NoRaw =>
        assert AllBytes(fs) + rest == rest;
      case MoreRaw(f, more) =>
        RawIsNotEmpty(f);
        assert AllBytes(fs) + rest == Bytes(f) + (AllBytes(more) + rest);
        HasAtSuffix(d, i, Bytes(f), AllBytes(more) + rest);
        AllocTakesField(m, d, i, f, AllBytes(more) + rest);
        AllocTakesFields(AllocWith(m, f), d, i + |Bytes(f)|, more, rest);
    }
  }

  lemma {:induction false} AllocFoundFields(m: FlowAlloc, d: seq<byte>, i: nat) returns (fs: RawFields)
    requires i <= |d| < TWO63 && UnmarshalAlloc(m, d, i).Ok?
    ensures AreRaw(fs) && AllocTakesAll(fs) && AllBytes(fs) == d[i..]
    ensures AllocWithAll(m, fs) == UnmarshalAlloc(m, d, i).value
    decreases |d| - i
  {
    hide AllocStep, IsRaw, Bytes, AllocTakes, AllocWith;
    if i == |d| {
      fs := NoRaw;
    } else {
      var f := AllocFoundField(m, d, i);
      var n := AllocStep(m, d, i).next;
      var rest := AllocFoundFields(AllocWith(m, f), d, n);
      fs := MoreRaw(f, rest);
      Join(d, i, n, |d|);
      assert d[i..] == d[i..|d|] && d[n..] == d[n..|d|];
    }
  }

  lemma AllocMeans(m: FlowAlloc, d: seq<byte>, i: nat)
    requires i <= |d| < TWO63
    ensures UnmarshalAlloc(m, d, i).Ok? <==> IsAlloc(d[i..])
    ensures forall fs :: AreRaw(fs) && AllocTakesAll(fs) && AllBytes(fs) == d[i..] ==>
              UnmarshalAlloc(m, d, i) == Ok(AllocWithAll(m, fs))
  {
    hide AllocStep, AreRaw, AllocTakesAll, AllBytes, AllocWithAll;
    if UnmarshalAlloc(m, d, i).Ok? {
      var fs := AllocFoundFields(m, d, i);
    }
    forall fs | AreRaw(fs) && AllocTakesAll(fs) && AllBytes(fs) == d[i..]
      ensures UnmarshalAlloc(m, d, i) == Ok(AllocWithAll(m, fs))
    {
      assert d[i..] == AllBytes(fs) + [];
      AllocTakesFields(m, d, i, fs, []);
    }
  }

  lemma AllocShifts(m: FlowAlloc, d: seq<byte>, i: nat, u: seq<byte>)
    requires i <= |d| < TWO63 && u == d[i..]
    ensures Agree(UnmarshalAlloc(m, d, i), UnmarshalAlloc(m, u, 0))
  {
    hide UnmarshalAlloc, IsAlloc, AreRaw, AllocTakesAll, AllBytes, AllocWithAll;
    assert u[0..] == u;
    AllocMeans(m, d, i);
    AllocMeans(m, u, 0);
    if UnmarshalAlloc(m, d, i).Ok? {
      var fs := AllocFoundFields(m, d, i);
    }
  }

  lemma AllocAppends(m: FlowAlloc, x: seq<byte>, y: seq<byte>)
    requires |x + y| < TWO63 && UnmarshalAlloc(m, x, 0).Ok?
    ensures Agree(UnmarshalAlloc(m, x + y, 0), UnmarshalAlloc(UnmarshalAlloc(m, x, 0).value, y, 0))
  {
    hide UnmarshalAlloc, AreRaw, AllocTakesAll, AllBytes, AllocWithAll;
    var fs := AllocFoundFields(m, x, 0);
    assert x[0..] == x && (x + y)[0..] == x + y && (x + y)[|x|..] == y;
    AllocTakesFields(m, x + y, 0, fs, y);
    AllocShifts(AllocWithAll(m, fs), x + y, |x|, y);
  }

  /** Two payloads of a nested marker are one payload after the other. */
  lemma NestedMerges(flow: Option<FlowMarker>, x: seq<byte>, y: seq<byte>)
    requires |x + y| < TWO63 && IsMarker(x) && IsMarker(y)
    ensures Merged(Some(Merged(flow, x)), y) == Merged(flow, x + y)
  {
    hide UnmarshalMarker, IsMarker;
    var base := if flow.Some? then flow.value else NO_MARKER;
    assert x[0..] == x && y[0..] == y;
    MarkerMeans(base, x, 0);
    MarkerMeans(UnmarshalMarker(base, x, 0).value, y, 0);
    MarkerAppends(base, x, y);
  }

  // ---- AllocBundle ----

  ghost predicate BundleTakes(f: RawField) {
    var n := Number(f);
    if n == 1 then f.RawBytes? && IsAlloc(f.s)
    else if n == 2 then f.RawVarint?
    else n > BUNDLE_FIELDS
  }

  ghost predicate BundleTakesAll(fs: RawFields) {
    fs.MoreRaw? ==> BundleTakes(fs.first) && BundleTakesAll(fs.rest)
  }

  ghost function AllocOf(s: seq<byte>): FlowAlloc {
    match UnmarshalAlloc(NO_ALLOC, s, 0) case Ok(a) => a case Err(_) => NO_ALLOC
  }

  ghost function BundleWith(m: AllocBundle, f: RawField): AllocBundle
    requires IsRaw(f) && BundleTakes(f)
  {
    var n := Number(f);
    if n == 1 then m.(flowAllocs := m.flowAllocs + [Some(AllocOf(f.s))])
    else if n == 2 then m.(gen := AsI64(Value64(f.v)))
    else m.(unknown := m.unknown + Bytes(f))
  }

  ghost function BundleWithAll(m: AllocBundle, fs: RawFields): AllocBundle
    requires AreRaw(fs) && BundleTakesAll(fs)
    decreases fs
  {
    match fs
    case NoRaw => m
    case MoreRaw(f, rest) => BundleWithAll(BundleWith(m, f), rest)
  }

  ghost predicate IsBundle(b: seq<byte>) {
    exists fs :: AreRaw(fs) && BundleTakesAll(fs) && AllBytes(fs) == b
  }

  lemma BundleTakesField(m: AllocBundle, d: seq<byte>, i: nat, f: RawField, rest: seq<byte>)
    requires i < |d| < TWO63 && d[i..] == Bytes(f) + rest && IsRaw(f) && BundleTakes(f)
    ensures BundleStep(m, d, i) == Parsed(BundleWith(m, f), i + |Bytes(f)|)
  {
    hide Bytes, IsRaw, ReadTag, ReadBytes, ReadVarint, ReadUnknown, Number, Value64, AsI64, UnmarshalAlloc, IsAlloc;
    TagAt(d, i, f, rest);
    var n := Number(f);
    if n > BUNDLE_FIELDS {
      UnknownReads(d, i, f, rest);
    } else if n == 1 {
      BytesAt(d, i, f);
      PayloadIsShort(f);
      AllocMeans(NO_ALLOC, f.s, 0);
    } else {
      VarintAt(d, i, f);
    }
  }

  lemma BundleFoundField(m: AllocBundle, d: seq<byte>, i: nat) returns (f: RawField)
    requires i < |d| < TWO63 && BundleStep(m, d, i).Parsed?
    ensures IsRaw(f) && BundleTakes(f) && Bytes(f) == d[i..BundleStep(m, d, i).next]
    ensures BundleWith(m, f) == BundleStep(m, d, i).value
  {
    hide Bytes, IsRaw, ReadTag, ReadBytes, ReadVarint, ReadUnknown, Number, Value64, AsI64, UnmarshalAlloc, IsAlloc;
    var n := ReadTag(d, i).value.num;
    if n > BUNDLE_FIELDS {
      f := FieldKept(d, i);
    } else if n == 1 {
      f := BytesFound(d, i);
      PayloadIsShort(f);
      AllocMeans(NO_ALLOC, f.s, 0);
    } else {
      f := VarintFound(d, i);
    }
  }

  lemma {:induction false} BundleTakesFields(m: AllocBundle, d: seq<byte>, i: nat, fs: RawFields, rest: seq<byte>)
    requires i <= |d| < TWO63 && d[i..] == AllBytes(fs) + rest && AreRaw(fs) && BundleTakesAll(fs)
    ensures i + |AllBytes(fs)| <= |d| && d[i + |AllBytes(fs)|..] == rest
    ensures UnmarshalBundle(m, d, i) == UnmarshalBundle(BundleWithAll(m, fs), d, i + |AllBytes(fs)|)
    decreases fs
  {
    hide BundleStep, IsRaw, Bytes, BundleTakes, BundleWith;
    match fs {
      case NoRaw =>
        assert AllBytes(fs) + rest == rest;
      case MoreRaw(f, more) =>
        RawIsNotEmpty(f);
        assert AllBytes(fs) + rest == Bytes(f) + (AllBytes(more) + rest);
        HasAtSuffix(d, i, Bytes(f), AllBytes(more) + rest);
        BundleTakesField(m, d, i, f, AllBytes(more) + rest);
        BundleTakesFields(BundleWith(m, f), d, i + |Bytes(f)|, more, rest);
    }
  }

  lemma {:induction false} BundleFoundFields(m: AllocBundle, d: seq<byte>, i: nat) returns (fs: RawFields)
    requires i <= |d| < TWO63 && UnmarshalBundle(m, d, i).Ok?
    ensures AreRaw(fs) && BundleTakesAll(fs) && AllBytes(fs) == d[i..]
    ensures BundleWithAll(m, fs) == UnmarshalBundle(m, d, i).value
    decreases |d| - i
  {
    hide BundleStep, IsRaw, Bytes, BundleTakes, BundleWith;
    if i == |d| {
      fs := NoRaw;
    } else {
      var f := BundleFoundField(m, d, i);
      var n := BundleStep(m, d, i).next;
      var rest := BundleFoundFields(BundleWith(m, f), d, n);
      fs := MoreRaw(f, rest);
      Join(d, i, n, |d|);
      assert d[i..] == d[i..|d|] && d[n..] == d[n..|d|];
    }
  }

  lemma BundleMeans(m: AllocBundle, d: seq<byte>, i: nat)
    requires i <= |d| < TWO63
    ensures UnmarshalBundle(m, d, i).Ok? <==> IsBundle(d[i..])
    ensures forall fs :: AreRaw(fs) && BundleTakesAll(fs) && AllBytes(fs) == d[i..] ==>
              UnmarshalBundle(m, d, i) == Ok(BundleWithAll(m, fs))
  {
    hide BundleStep, AreRaw, BundleTakesAll, AllBytes, BundleWithAll;
    if UnmarshalBundle(m, d, i).Ok? {
      var fs := BundleFoundFields(m, d, i);
    }
    forall fs | AreRaw(fs) && BundleTakesAll(fs) && AllBytes(fs) == d[i..]
      ensures UnmarshalBundle(m, d, i) == Ok(BundleWithAll(m, fs))
    {
      assert d[i..] == AllBytes(fs) + [];
      BundleTakesFields(m, d, i, fs, []);
    }
  }

  lemma BundleShifts(m: AllocBundle, d: seq<byte>, i: nat, u: seq<byte>)
    requires i <= |d| < TWO63 && u == d[i..]
    ensures Agree(UnmarshalBundle(m, d, i), UnmarshalBundle(m, u, 0))
  {
    hide UnmarshalBundle, IsBundle, AreRaw, BundleTakesAll, AllBytes, BundleWithAll;
    assert u[0..] == u;
    BundleMeans(m, d, i);
    BundleMeans(m, u, 0);
    if UnmarshalBundle(m, d, i).Ok? {
      var fs := BundleFoundFields(m, d, i);
    }
  }

  lemma BundleAppends(m: AllocBundle, x: seq<byte>, y: seq<byte>)
    requires |x + y| < TWO63 && UnmarshalBundle(m, x, 0).Ok?
    ensures Agree(UnmarshalBundle(m, x + y, 0), UnmarshalBundle(UnmarshalBundle(m, x, 0).value, y, 0))
  {
    hide UnmarshalBundle, AreRaw, BundleTakesAll, AllBytes, BundleWithAll;
    var fs := BundleFoundFields(m, x, 0);
    assert x[0..] == x && (x + y)[0..] == x + y && (x + y)[|x|..] == y;
    BundleTakesFields(m, x + y, 0, fs, y);
    BundleShifts(BundleWithAll(m, fs), x + y, |x|, y);
  }

  /** The elements that fields add to the list do not depend on what is there. */
  lemma {:induction false} FieldsAppend(m: AllocBundle, fs: RawFields)
    requires AreRaw(fs) && BundleTakesAll(fs)
    ensures BundleWithAll(m, fs).flowAllocs == m.flowAllocs + BundleWithAll(NO_BUNDLE, fs).flowAllocs
    decreases fs
  {
    hide IsRaw, BundleTakes, Bytes, AllocOf, Number;
    match fs {
      case NoRaw =>
      case MoreRaw(f, rest) =>
        FieldsAppend(BundleWith(m, f), rest);
        FieldsAppend(BundleWith(NO_BUNDLE, f), rest);
    }
  }

  /** Lists append: the elements of x come before those of y. */
  lemma ListsAppend(x: seq<byte>, y: seq<byte>)
    requires |x + y| < TWO63 && IsBundle(x) && IsBundle(y)
    ensures UnmarshalBundle(NO_BUNDLE, x, 0).Ok? && UnmarshalBundle(NO_BUNDLE, y, 0).Ok?
    ensures UnmarshalBundle(NO_BUNDLE, x + y, 0).Ok?
    ensures UnmarshalBundle(NO_BUNDLE, x + y, 0).value.flowAllocs ==
            UnmarshalBundle(NO_BUNDLE, x, 0).value.flowAllocs + UnmarshalBundle(NO_BUNDLE, y, 0).value.flowAllocs
  {
    hide UnmarshalBundle, AreRaw, BundleTakesAll, AllBytes, BundleWithAll;
    assert x[0..] == x && y[0..] == y;
    BundleMeans(NO_BUNDLE, x, 0);
    BundleMeans(NO_BUNDLE, y, 0);
    var first := UnmarshalBundle(NO_BUNDLE, x, 0).value;
    BundleAppends(NO_BUNDLE, x, y);
    BundleMeans(first, y, 0);
    var fs := BundleFoundFields(first, y, 0);
    FieldsAppend(first, fs);
  }
}
