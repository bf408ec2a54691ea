/**
 The encodings as sequences of fields of the Protocol Buffers Encoding specification: which
 number stands for which field, that a field with its default value is not written, and the
 unknown bytes at the end.
 */
module FlowFields {
  import opened Wrappers
  import opened Varints
  import opened WireFormat
  import opened WireGrammar
  import opened FlowMessages

  ghost function StringField(num: nat, s: seq<byte>, rest: Fields): Fields {
    if s == [] then rest else More(BytesF(num, s), rest)
  }

  ghost function NumberField(num: nat, v: u64, rest: Fields): Fields {
    if v == 0 then rest else More(VarintF(num, v), rest)
  }

  ghost function Fixed64Field(num: nat, v: u64, rest: Fields): Fields {
    if v == 0 then rest else More(Fixed64F(num, v), rest)
  }

  lemma ShortTag(num: nat, wireType: nat)
    requires 1 <= num <= 15 && wireType < 8
    ensures TagBytes(num, wireType) == [8 * num + wireType]
  {
  }

  lemma StringIsField(num: nat, s: seq<byte>, rest: Fields)
    requires 1 <= num <= 15
    ensures EncodeFields(StringField(num, s, rest)) == StringRecord(8 * num + 2, s) + EncodeFields(rest)
  {
    hide TagBytes, Varint;
    ShortTag(num, 2);
  }

  lemma MessageIsField(num: nat, s: seq<byte>, rest: Fields)
    requires 1 <= num <= 15
    ensures EncodeFields(More(BytesF(num, s), rest)) == Delimited(8 * num + 2, s) + EncodeFields(rest)
  {
    hide TagBytes, Varint;
    ShortTag(num, 2);
  }

  lemma NumberIsField(num: nat, v: u64, rest: Fields)
    requires 1 <= num <= 15
    ensures EncodeFields(NumberField(num, v, rest)) == VarintRecord(8 * num, v) + EncodeFields(rest)
  {
    hide TagBytes, Varint;
    ShortTag(num, 0);
  }

  lemma Fixed64IsField(num: nat, v: u64, rest: Fields)
    requires 1 <= num <= 15
    ensures EncodeFields(Fixed64Field(num, v, rest)) == Fixed64Record(8 * num + 1, v) + EncodeFields(rest)
  {
    hide TagBytes, Le;
    ShortTag(num, 1);
  }

  // ---- FlowMarker ----

  ghost function MarkerFields(m: FlowMarker): Fields {
    StringField(1, m.srcDc, StringField(2, m.dstDc, Fixed64Field(3, m.hostId,
      StringField(4, m.srcAddr, StringField(5, m.dstAddr, MarkerNumbers(m))))))
  }

  ghost function MarkerNumbers(m: FlowMarker): Fields {
    NumberField(6, AsU64(m.protocol), NumberField(7, AsU64(m.srcPort), NumberField(8, AsU64(m.dstPort),
      NumberField(9, m.seqnum, StringField(10, m.job, NoFields)))))
  }

  lemma NumbersAreFields(m: FlowMarker)
    ensures MarkerNumbersOnto(m, []) == EncodeFields(MarkerNumbers(m)) + m.unknown
  {
    hide EncodeFields, StringRecord, VarintRecord, StringField, NumberField, AsU64;
    var job := StringField(10, m.job, NoFields);
    var seqnum := NumberField(9, m.seqnum, job);
    var dstPort := NumberField(8, AsU64(m.dstPort), seqnum);
    var srcPort := NumberField(7, AsU64(m.srcPort), dstPort);
    NothingWritten();
    StringIsField(10, m.job, NoFields);
    NumberIsField(9, m.seqnum, job);
    NumberIsField(8, AsU64(m.dstPort), seqnum);
    NumberIsField(7, AsU64(m.srcPort), dstPort);
    NumberIsField(6, AsU64(m.protocol), srcPort);
    assert m.unknown + [] == m.unknown;
    assert StringRecord(0x52, m.job) + m.unknown == EncodeFields(job) + m.unknown;
    Onto(VarintRecord(0x48, m.seqnum), EncodeFields(job), m.unknown);
    Onto(VarintRecord(0x40, AsU64(m.dstPort)), EncodeFields(seqnum), m.unknown);
    Onto(VarintRecord(0x38, AsU64(m.srcPort)), EncodeFields(dstPort), m.unknown);
    Onto(VarintRecord(0x30, AsU64(m.protocol)), EncodeFields(srcPort), m.unknown);
  }

  lemma NothingWritten()
    ensures EncodeFields(NoFields) == []
  {
  }

  lemma Onto(x: seq<byte>, y: seq<byte>, z: seq<byte>)
    ensures x + (y + z) == x + y + z
  {
  }

  /** The bytes of a marker are its fields under these numbers, and then its unknown bytes. */
  lemma MarkerIsFields(m: FlowMarker)
    ensures EncodeMarker(m) == EncodeFields(MarkerFields(m)) + m.unknown
  {
    hide EncodeFields, StringRecord, Fixed64Record, StringField, Fixed64Field, MarkerNumbers, MarkerNumbersOnto;
    var numbers := MarkerNumbers(m);
    var dstAddr := StringField(5, m.dstAddr, numbers);
    var srcAddr := StringField(4, m.srcAddr, dstAddr);
    var hostId := Fixed64Field(3, m.hostId, srcAddr);
    var dstDc := StringField(2, m.dstDc, hostId);
    NumbersAreFields(m);
    StringIsField(5, m.dstAddr, numbers);
    StringIsField(4, m.srcAddr, dstAddr);
    Fixed64IsField(3, m.hostId, srcAddr);
    StringIsField(2, m.dstDc, hostId);
    StringIsField(1, m.srcDc, dstDc);
    Onto(StringRecord(0x2a, m.dstAddr), EncodeFields(numbers), m.unknown);
    Onto(StringRecord(0x22, m.srcAddr), EncodeFields(dstAddr), m.unknown);
    Onto(Fixed64Record(0x19, m.hostId), EncodeFields(srcAddr), m.unknown);
    Onto(StringRecord(0x12, m.dstDc), EncodeFields(hostId), m.unknown);
    Onto(StringRecord(0x0a, m.srcDc), EncodeFields(dstDc), m.unknown);
  }

  // ---- FlowAlloc ----

  ghost function LimitFields(m: FlowAlloc): Fields {
    NumberField(2, AsU64(m.hipriRateLimitBps), NumberField(3, AsU64(m.lopriRateLimitBps), NoFields))
  }

  /** A nested marker is written even if it is empty. */
  ghost function AllocFields(m: FlowAlloc): Fields {
    if m.flow.None? then LimitFields(m)
    else More(BytesF(1, EncodeFields(MarkerFields(m.flow.value)) + m.flow.value.unknown), LimitFields(m))
  }

  lemma AllocIsFields(m: FlowAlloc)
    ensures EncodeAlloc(Some(m)) == EncodeFields(AllocFields(m)) + m.unknown
  {
    hide EncodeFields, VarintRecord, Delimited, NumberField, MarkerFields, EncodeMarker, AsU64;
    var lopri := NumberField(3, AsU64(m.lopriRateLimitBps), NoFields);
    NothingWritten();
    NumberIsField(3, AsU64(m.lopriRateLimitBps), NoFields);
    NumberIsField(2, AsU64(m.hipriRateLimitBps), lopri);
    assert m.unknown + [] == m.unknown;
    assert VarintRecord(0x18, AsU64(m.lopriRateLimitBps)) + m.unknown == EncodeFields(lopri) + m.unknown;
    Onto(VarintRecord(0x10, AsU64(m.hipriRateLimitBps)), EncodeFields(lopri), m.unknown);
    if m.flow.Some? {
      MarkerIsFields(m.flow.value);
      MessageIsField(1, EncodeMarker(m.flow.value), LimitFields(m));
      Onto(Delimited(0x0a, EncodeMarker(m.flow.value)), EncodeFields(LimitFields(m)), m.unknown);
    }
  }

  // ---- AllocBundle ----

  /** A nil element is written as an empty message. */
  ghost function ElementBytes(a: Option<FlowAlloc>): seq<byte> {
    if a.None? then [] else EncodeFields(AllocFields(a.value)) + a.value.unknown
  }

  ghost function ListFields(as_: seq<Option<FlowAlloc>>, rest: Fields): Fields {
    if as_ == [] then rest else More(BytesF(1, ElementBytes(as_[0])), ListFields(as_[1..], rest))
  }

  lemma {:induction false} ListIsFields(as_: seq<Option<FlowAlloc>>, rest: Fields, tail: seq<byte>)
    ensures AllocsOnto(as_, EncodeFields(rest) + tail) == EncodeFields(ListFields(as_, rest)) + tail
  {
    if as_ != [] {
      hide EncodeFields, Delimited, EncodeAlloc, ElementBytes;
      ListIsFields(as_[1..], rest, tail);
      ElementIsFields(as_[0]);
      var more := ListFields(as_[1..], rest);
      MessageIsField(1, EncodeAlloc(as_[0]), more);
      Onto(Delimited(0x0a, EncodeAlloc(as_[0])), EncodeFields(more), tail);
    }
  }

  lemma ElementIsFields(a: Option<FlowAlloc>)
    ensures EncodeAlloc(a) == ElementBytes(a)
  {
    if a.Some? {
      hide EncodeFields, AllocFields, AllocOnto;
      AllocIsFields(a.value);
    }
  }

  /** The elements in order, the generation, and the unknown bytes. */
  lemma BundleIsFields(m: AllocBundle)
    ensures EncodeBundle(m) ==
            EncodeFields(ListFields(m.flowAllocs, NumberField(2, AsU64(m.gen), NoFields))) + m.unknown
  {
    hide EncodeFields, VarintRecord, AllocsOnto, ListFields, NumberField, AsU64;
    var gen := NumberField(2, AsU64(m.gen), NoFields);
    NothingWritten();
    NumberIsField(2, AsU64(m.gen), NoFields);
    assert VarintRecord(0x10, AsU64(m.gen)) + (m.unknown + []) == EncodeFields(gen) + m.unknown;
    ListIsFields(m.flowAllocs, gen, m.unknown);
  }
}
