/**
 Fields as the Protocol Buffers Encoding specification describes them (sections "Message
 Structure", "Length-Delimited Records" and "Groups"), stated without any reader, and the exact
 set of byte strings that skip passes over: the same grammar with any encoding of a varint that
 fits ten bytes and with any number in the tag that closes a group.
 */
module WireGrammar {
  import opened Sequences
  import opened Varints
  import opened WireFormat

  // ---- Fields of the specification ----

  datatype Field =
    | VarintF(num: nat, v: u64)
    | Fixed64F(num: nat, v: u64)
    | BytesF(num: nat, s: seq<byte>)
    | GroupF(num: nat, fields: Fields)
    | Fixed32F(num: nat, w: nat)

  datatype Fields = NoFields | More(first: Field, rest: Fields)

  const MAX_FIELD_NUMBER := 0x1fff_ffff

  ghost predicate IsField(f: Field) {
    && 1 <= f.num <= MAX_FIELD_NUMBER
    && match f
       case VarintF(_, _) => true
       case Fixed64F(_, _) => true
       case BytesF(_, s) => |s| < TWO63
       case GroupF(_, fs) => AreFields(fs)
       case Fixed32F(_, w) => w < TWO32
  }

  ghost predicate AreFields(fs: Fields) {
    fs.More? ==> IsField(fs.first) && AreFields(fs.rest)
  }

  ghost function TagBytes(num: nat, wireType: nat): seq<byte> {
    Varint(8 * num + wireType)
  }

  ghost function EncodeField(f: Field): seq<byte> {
    match f
    case VarintF(n, v) => TagBytes(n, 0) + Varint(v)
    case Fixed64F(n, v) => TagBytes(n, 1) + Le(v, 8)
    case BytesF(n, s) => TagBytes(n, 2) + (Varint(|s|) + s)
    case GroupF(n, fs) => TagBytes(n, 3) + (EncodeFields(fs) + TagBytes(n, 4))
    case Fixed32F(n, w) => TagBytes(n, 5) + Le(w, 4)
  }

  ghost function EncodeFields(fs: Fields): seq<byte> {
    match fs
    case NoFields => []
    case More(f, rest) => EncodeField(f) + EncodeFields(rest)
  }

  ghost predicate AllAbove(fs: Fields, last: int) {
    fs.More? ==> fs.first.num > last && AllAbove(fs.rest, last)
  }

  // ---- The relaxed grammar ----

  /** At most ten bytes, the top bit set on all but the last. */
  ghost predicate IsVarint(b: seq<byte>) {
    1 <= |b| <= 10 && Continues(b)
  }

  ghost predicate Continues(b: seq<byte>) {
    b != [] && if |b| == 1 then b[0] < 128 else b[0] >= 128 && Continues(b[1..])
  }

  /** Seven bits from each byte, the lowest first. */
  ghost function Value(b: seq<byte>): nat {
    if b == [] then 0 else b[0] % 128 + 128 * Value(b[1..])
  }

  /** The value in a uint64. */
  ghost function Value64(b: seq<byte>): nat {
    Value(b) % TWO64
  }

  /** A field as it stands in a buffer: its tag as bytes, and a payload by wire type. */
  datatype RawField =
    | RawVarint(tag: seq<byte>, v: seq<byte>)
    | RawFixed64(tag: seq<byte>, s: seq<byte>)
    | RawBytes(tag: seq<byte>, len: seq<byte>, s: seq<byte>)
    | RawGroup(tag: seq<byte>, fields: RawFields, end: seq<byte>)
    | RawFixed32(tag: seq<byte>, s: seq<byte>)

  datatype RawFields = NoRaw | MoreRaw(first: RawField, rest: RawFields)

  ghost predicate IsTag(b: seq<byte>, wireType: nat) {
    IsVarint(b) && Value64(b) % 8 == wireType
  }

  ghost predicate IsRaw(f: RawField) {
    match f
    case RawVarint(tag, v) => IsTag(tag, 0) && IsVarint(v)
    case RawFixed64(tag, s) => IsTag(tag, 1) && |s| == 8
    case RawBytes(tag, len, s) => IsTag(tag, 2) && IsVarint(len) && Value64(len) == |s| < TWO63
    case RawGroup(tag, fs, end) => IsTag(tag, 3) && AreRaw(fs) && IsTag(end, 4)
    case RawFixed32(tag, s) => IsTag(tag, 5) && |s| == 4
  }

  ghost predicate AreRaw(fs: RawFields) {
    fs.MoreRaw? ==> IsRaw(fs.first) && AreRaw(fs.rest)
  }

  ghost function Bytes(f: RawField): seq<byte> {
    match f
    case RawVarint(tag, v) => tag + v
    case RawFixed64(tag, s) => tag + s
    case RawBytes(tag, len, s) => tag + (len + s)
    case RawGroup(tag, fs, end) => tag + (AllBytes(fs) + end)
    case RawFixed32(tag, s) => tag + s
  }

  ghost function AllBytes(fs: RawFields): seq<byte> {
    match fs
    case NoRaw => []
    case MoreRaw(f, rest) => Bytes(f) + AllBytes(rest)
  }

  /** The field number as the decoders see it, an int32. */
  ghost function Number(f: RawField): int {
    AsI32(Value64(f.tag) / 8)
  }

  ghost predicate RawAbove(fs: RawFields, last: int) {
    fs.MoreRaw? ==> Number(fs.first) > last && RawAbove(fs.rest, last)
  }

  /** Bytes that a message with field numbers 1..last can carry as unknown fields. */
  ghost predicate AreUnknown(u: seq<byte>, last: int) {
    exists fs :: AreRaw(fs) && RawAbove(fs, last) && AllBytes(fs) == u
  }

  // ---- Varints ----

  lemma {:induction false} VarintParses(d: seq<byte>, i: nat, b: seq<byte>, k: nat)
    requires HasAt(d, i, b) && Continues(b) && k + |b| <= 10
    ensures VarintFrom(d, i, k) == Parsed(Value(b), i + |b|)
    decreases |b|
  {
    assert d[i + 0] == b[0];
    if |b| > 1 {
      assert b == [b[0]] + b[1..];
      HasAtSplit(d, i, [b[0]], b[1..]);
      VarintParses(d, i + 1, b[1..], k + 1);
    }
  }

  lemma RawVarintReads(d: seq<byte>, i: nat, b: seq<byte>)
    requires HasAt(d, i, b) && IsVarint(b)
    ensures ReadVarint(d, i) == Parsed(Value64(b), i + |b|)
    ensures VarintFrom(d, i, 0) == Parsed(Value(b), i + |b|)
  {
    VarintParses(d, i, b, 0);
  }

  lemma {:induction false} VarintShape(d: seq<byte>, i: nat, k: nat)
    requires i <= |d| && k <= 10 && VarintFrom(d, i, k).Parsed?
    ensures var r := VarintFrom(d, i, k);
            var b := d[i..r.next];
            Continues(b) && k + |b| <= 10 && Value(b) == r.value
    decreases |d| - i
  {
    var r := VarintFrom(d, i, k);
    var b := d[i..r.next];
    if d[i] >= 128 {
      VarintShape(d, i + 1, k + 1);
      assert b[1..] == d[i + 1..r.next];
    }
  }

  lemma ReadShape(d: seq<byte>, i: nat)
    requires i <= |d| && VarintFrom(d, i, 0).Parsed?
    ensures var b := d[i..VarintFrom(d, i, 0).next];
            IsVarint(b) && ReadVarint(d, i) == Parsed(Value64(b), VarintFrom(d, i, 0).next)
  {
    VarintShape(d, i, 0);
  }

  /** From index i on there are n bytes, all with the top bit set. */
  ghost predicate AllContinue(d: seq<byte>, i: nat, n: nat) {
    i + n <= |d| && forall k :: i <= k < i + n ==> d[k] >= 128
  }

  lemma {:induction false} VarintFails(d: seq<byte>, i: nat, k: nat)
    requires i <= |d| && k <= 10
    ensures VarintFrom(d, i, k) == Failed(IntOverflow) <==> AllContinue(d, i, 10 - k)
    ensures VarintFrom(d, i, k) == Failed(UnexpectedEof) <==> |d| - i < 10 - k && AllContinue(d, i, |d| - i)
    ensures VarintFrom(d, i, k).Failed? ==> VarintFrom(d, i, k).error in {IntOverflow, UnexpectedEof}
    decreases |d| - i
  {
    if k < 10 && i < |d| {
      if d[i] >= 128 {
        VarintFails(d, i + 1, k + 1);
      }
    }
  }

  /** An overflow is ten bytes that all go on, an unexpected end fewer that all do up to the end of the buffer. */
  lemma VarintErrors(d: seq<byte>, i: nat)
    requires i <= |d|
    ensures ReadVarint(d, i) == Failed(IntOverflow) <==> AllContinue(d, i, 10)
    ensures ReadVarint(d, i) == Failed(UnexpectedEof) <==> |d| - i < 10 && AllContinue(d, i, |d| - i)
    ensures ReadVarint(d, i).Failed? ==> ReadVarint(d, i).error in {IntOverflow, UnexpectedEof}
  {
    hide VarintFrom, AllContinue;
    VarintFails(d, i, 0);
  }

  /** The shortest encoding is one of them. */
  lemma {:induction false} ShortestContinues(v: nat)
    ensures Continues(Varint(v)) && Value(Varint(v)) == v
  {
    if v >= 128 {
      ShortestContinues(v / 128);
      assert Varint(v)[1..] == Varint(v / 128);
    }
  }

  lemma ShortestIsVarint(v: nat)
    requires v < TWO64
    ensures IsVarint(Varint(v)) && Value64(Varint(v)) == v
  {
    ShortestContinues(v);
    VarintAtMostTen(v);
  }

  // ---- Skip passes over what the relaxed grammar describes ----

  /** Where skip stands after a complete field that began inside depth groups. */
  ghost function Resume(s: seq<byte>, n: nat, depth: nat): SkipResult {
    if depth == 0 then Skipped(n) else SkipFrom(s, n, depth)
  }

  /** One turn of skip whose tag and payload end at n. */
  lemma TurnEnds(s: seq<byte>, i: nat, depth: nat, n: nat)
    requires i < |s| && n < TWO63 && SkipField(s, i, depth) == Skipped(n)
    ensures SkipFrom(s, i, depth) == Resume(s, n, DepthAfter(s, i, depth))
  {
    hide SkipField, DepthAfter;
  }

  lemma TagReads(s: seq<byte>, i: nat, tag: seq<byte>, wireType: nat)
    requires HasAt(s, i, tag) && IsTag(tag, wireType)
    ensures i < |s| && ReadVarint(s, i) == Parsed(Value64(tag), i + |tag|)
  {
    hide Value64, ReadVarint;
    RawVarintReads(s, i, tag);
  }

  lemma SkipsOpen(s: seq<byte>, i: nat, tag: seq<byte>, depth: nat)
    requires |s| < TWO63 && HasAt(s, i, tag) && IsTag(tag, 3)
    ensures SkipFrom(s, i, depth) == SkipFrom(s, i + |tag|, depth + 1)
  {
    hide SkipFrom, ReadVarint, Value64;
    TagReads(s, i, tag, 3);
    TurnEnds(s, i, depth, i + |tag|);
  }

  lemma SkipsClose(s: seq<byte>, i: nat, end: seq<byte>, depth: nat)
    requires |s| < TWO63 && HasAt(s, i, end) && IsTag(end, 4)
    ensures SkipFrom(s, i, depth + 1) == Resume(s, i + |end|, depth)
  {
    hide SkipFrom, ReadVarint, Value64;
    TagReads(s, i, end, 4);
    TurnEnds(s, i, depth + 1, i + |end|);
  }

  lemma SkipsPlain(s: seq<byte>, i: nat, f: RawField, depth: nat)
    requires |s| < TWO63 && HasAt(s, i, Bytes(f)) && IsRaw(f) && !f.RawGroup?
    ensures SkipFrom(s, i, depth) == Resume(s, i + |Bytes(f)|, depth)
  {
    hide SkipFrom, ReadVarint, VarintFrom, Value64, IsVarint;
    match f {
      case RawVarint(tag, v) =>
        HasAtSplit(s, i, tag, v);
        TagReads(s, i, tag, 0);
        RawVarintReads(s, i + |tag|, v);
      case RawFixed64(tag, p) =>
        HasAtSplit(s, i, tag, p);
        TagReads(s, i, tag, 1);
      case RawBytes(tag, len, p) =>
        HasAtSplit(s, i, tag, len + p);
        HasAtSplit(s, i + |tag|, len, p);
        TagReads(s, i, tag, 2);
        RawVarintReads(s, i + |tag|, len);
      case RawFixed32(tag, p) =>
        HasAtSplit(s, i, tag, p);
        TagReads(s, i, tag, 5);
    }
    TurnEnds(s, i, depth, i + |Bytes(f)|);
  }

  lemma {:induction false} SkipsField(s: seq<byte>, i: nat, f: RawField, depth: nat)
    requires |s| < TWO63 && HasAt(s, i, Bytes(f)) && IsRaw(f)
    ensures SkipFrom(s, i, depth) == Resume(s, i + |Bytes(f)|, depth)
    decreases f
  {
    hide SkipFrom, IsTag, HasAt;
    match f {
      case RawGroup(tag, fs, end) =>
        HasAtSplit(s, i, tag, AllBytes(fs) + end);
        HasAtSplit(s, i + |tag|, AllBytes(fs), end);
        SkipsOpen(s, i, tag, depth);
        SkipsFields(s, i + |tag|, fs, depth + 1);
        SkipsClose(s, i + |tag| + |AllBytes(fs)|, end, depth);
      case _ =>
        SkipsPlain(s, i, f, depth);
    }
  }

  /** Inside a group, complete fields are passed over one after another. */
  lemma {:induction false} SkipsFields(s: seq<byte>, i: nat, fs: RawFields, depth: nat)
    requires |s| < TWO63 && HasAt(s, i, AllBytes(fs)) && AreRaw(fs) && depth > 0
    ensures SkipFrom(s, i, depth) == SkipFrom(s, i + |AllBytes(fs)|, depth)
    decreases fs
  {
    hide SkipFrom, HasAt, IsRaw, Bytes;
    match fs {
      case NoRaw =>
      case MoreRaw(f, rest) =>
        HasAtSplit(s, i, Bytes(f), AllBytes(rest));
        SkipsField(s, i, f, depth);
        SkipsFields(s, i + |Bytes(f)|, rest, depth);
    }
  }

  // ---- And over nothing else ----

  lemma Join(s: seq<byte>, i: nat, j: nat, k: nat)
    requires i <= j <= k <= |s|
    ensures s[i..j] + s[j..k] == s[i..k]
  {
  }

  lemma BytesShape(s: seq<byte>, i: nat, next: nat, n: nat) returns (f: RawField)
    requires i <= next <= |s| && IsTag(s[i..next], 2)
    requires ReadVarint(s, next).Parsed?
    requires var len := ReadVarint(s, next); len.value < TWO63 && n == len.next + len.value <= |s|
    ensures IsRaw(f) && Bytes(f) == s[i..n] && f.RawBytes? && f.tag == s[i..next]
  {
    hide IsTag, IsVarint, Value64;
    ReadShape(s, next);
    var m := ReadVarint(s, next).next;
    f := RawBytes(s[i..next], s[next..m], s[m..n]);
    Join(s, next, m, n);
    Join(s, i, next, n);
  }

  /** A turn that leaves the depth as it is passes over a field that is not a group. */
  lemma PlainShape(s: seq<byte>, i: nat, depth: nat, n: nat) returns (f: RawField)
    requires i < |s| && SkipField(s, i, depth) == Skipped(n) && n <= |s| && DepthAfter(s, i, depth) == depth
    ensures IsRaw(f) && Bytes(f) == s[i..n] && !f.RawGroup?
    ensures ReadVarint(s, i).Parsed? && f.tag == s[i..ReadVarint(s, i).next]
  {
    hide Value64, IsVarint, IsTag, VarintFrom;
    assert ReadVarint(s, i).Parsed?;
    TagShape(s, i);
    var next, wireType := ReadVarint(s, i).next, ReadVarint(s, i).value % 8;
    var tag := s[i..next];
    Join(s, i, next, n);
    if wireType == 0 {
      ReadShape(s, next);
      f := RawVarint(tag, s[next..n]);
    } else if wireType == 1 {
      f := RawFixed64(tag, s[next..n]);
    } else if wireType == 2 {
      f := BytesShape(s, i, next, n);
    } else {
      f := RawFixed32(tag, s[next..n]);
    }
  }

  lemma TagShape(s: seq<byte>, i: nat)
    requires i <= |s| && ReadVarint(s, i).Parsed?
    ensures var r := ReadVarint(s, i);
            IsTag(s[i..r.next], r.value % 8) && Value64(s[i..r.next]) == r.value
  {
    ReadShape(s, i);
  }

  /** What a turn of skip was, given that skip went on to succeed. */
  lemma TurnCases(s: seq<byte>, i: nat, depth: nat)
    requires i < |s| && SkipFrom(s, i, depth).Skipped?
    ensures ReadVarint(s, i).Parsed? && SkipField(s, i, depth).Skipped?
    ensures var n := SkipField(s, i, depth).n;
            var wireType := ReadVarint(s, i).value % 8;
            && i < n && SkipFrom(s, i, depth) == Resume(s, n, DepthAfter(s, i, depth))
            && (wireType == 3 ==> n == ReadVarint(s, i).next && DepthAfter(s, i, depth) == depth + 1)
            && (wireType == 4 ==> n == ReadVarint(s, i).next && depth > 0 && DepthAfter(s, i, depth) == depth - 1)
            && (wireType != 3 && wireType != 4 ==> DepthAfter(s, i, depth) == depth)
  {
    hide ReadVarint, VarintFrom;
  }

  lemma InsideIsNotOver(s: seq<byte>, n: nat, depth: nat)
    requires depth > 0 && Resume(s, n, depth).Skipped?
    ensures n < |s| && Resume(s, n, depth) == SkipFrom(s, n, depth)
  {
  }

  lemma ResumeEndsLater(s: seq<byte>, n: nat, depth: nat)
    requires Resume(s, n, depth).Skipped? && Resume(s, n, depth).n <= |s|
    ensures n <= |s|
  {
  }

  /**
   Inside depth groups: skip passes over fields fs and then the tag that closes the innermost
   group, which ends at m.
   */
  lemma {:induction false} RestOfGroup(s: seq<byte>, i: nat, depth: nat) returns (fs: RawFields, end: seq<byte>, m: nat)
    requires i <= |s| && depth > 0 && SkipFrom(s, i, depth).Skipped? && SkipFrom(s, i, depth).n <= |s|
    ensures i < m <= |s| && AreRaw(fs) && IsTag(end, 4) && s[i..m] == AllBytes(fs) + end
    ensures SkipFrom(s, i, depth) == Resume(s, m, depth - 1)
    decreases |s| - i, 1
  {
    hide SkipFrom, SkipField, DepthAfter, IsTag, Value64;
    InsideIsNotOver(s, i, depth);
    TurnCases(s, i, depth);
    TagShape(s, i);
    var next := ReadVarint(s, i).next;
    var n := SkipField(s, i, depth).n;
    var wireType := ReadVarint(s, i).value % 8;
    if wireType == 4 {
      fs, end, m := NoRaw, s[i..next], next;
    } else {
      var f: RawField;
      var k: nat;
      f, k := OneField(s, i, depth);
      InsideIsNotOver(s, k, depth);
      var rest;
      rest, end, m := RestOfGroup(s, k, depth);
      fs := MoreRaw(f, rest);
      assert s[i..m] == s[i..k] + s[k..m];
      Regroup(Bytes(f), AllBytes(rest), end);
    }
  }

  /** A field that does not close a group: skip resumes after it. */
  lemma {:induction false} OneField(s: seq<byte>, i: nat, depth: nat) returns (f: RawField, k: nat)
    requires i < |s| && SkipFrom(s, i, depth).Skipped? && SkipFrom(s, i, depth).n <= |s|
    requires ReadVarint(s, i).Parsed? && ReadVarint(s, i).value % 8 != 4
    ensures i < k <= |s| && IsRaw(f) && Bytes(f) == s[i..k] && f.tag == s[i..ReadVarint(s, i).next]
    ensures SkipFrom(s, i, depth) == Resume(s, k, depth)
    decreases |s| - i, 0
  {
    hide SkipFrom, SkipField, DepthAfter, IsTag, Value64;
    TurnCases(s, i, depth);
    TagShape(s, i);
    var next := ReadVarint(s, i).next;
    if ReadVarint(s, i).value % 8 == 3 {
      InsideIsNotOver(s, next, depth + 1);
      var fs, end;
      fs, end, k := RestOfGroup(s, next, depth + 1);
      f := RawGroup(s[i..next], fs, end);
      assert s[i..next] + s[next..k] == s[i..k];
    } else {
      k := SkipField(s, i, depth).n;
      ResumeEndsLater(s, k, depth);
      f := PlainShape(s, i, depth, k);
    }
  }

  /** The bytes are one field of the relaxed grammar. */
  ghost predicate IsOneField(b: seq<byte>) {
    exists f :: IsRaw(f) && Bytes(f) == b
  }

  /** Skip ends at n, inside the buffer, if and only if the bytes up to n are one field of the relaxed grammar. */
  lemma SkipAcceptsFields(s: seq<byte>, n: nat)
    requires |s| < TWO63 && n <= |s|
    ensures SkipFrom(s, 0, 0) == Skipped(n) <==> IsOneField(s[..n])
  {
    hide SkipFrom, IsRaw, Bytes;
    if SkipFrom(s, 0, 0) == Skipped(n) {
      var f := FieldSkipped(s, n);
      assert IsRaw(f) && Bytes(f) == s[..n];
    }
    if IsOneField(s[..n]) {
      var f :| IsRaw(f) && Bytes(f) == s[..n];
      assert HasAt(s, 0, Bytes(f));
      SkipsField(s, 0, f, 0);
    }
  }

  lemma FieldSkipped(s: seq<byte>, n: nat) returns (f: RawField)
    requires |s| < TWO63 && n <= |s| && SkipFrom(s, 0, 0) == Skipped(n)
    ensures IsRaw(f) && Bytes(f) == s[..n]
    ensures ReadVarint(s, 0).Parsed? && f.tag == s[..ReadVarint(s, 0).next]
  {
    hide SkipField, DepthAfter, IsRaw, Bytes;
    TurnCases(s, 0, 0);
    var k;
    f, k := OneField(s, 0, 0);
  }

  /** skip's loop: it ends inside the buffer exactly when one field of the relaxed grammar ends there. */
  method Skip(s: seq<byte>) returns (r: SkipResult)
    ensures r == SkipFrom(s, 0, 0)
    ensures |s| < TWO63 ==> forall n :: 0 <= n <= |s| ==> (r == Skipped(n) <==> IsOneField(s[..n]))
  {
    hide IsOneField;
    if |s| < TWO63 {
      forall n | 0 <= n <= |s| ensures SkipFrom(s, 0, 0) == Skipped(n) <==> IsOneField(s[..n]) {
        SkipAcceptsFields(s, n);
      }
    }
    var i, depth := 0, 0;
    while i < |s|
      invariant SkipFrom(s, i, depth) == SkipFrom(s, 0, 0)
      decreases |s| - i
    {
      var wire := ParseVarint(s, i);
      if wire.Failed? {
        return SkipFailed(wire.error);
      }
      var start := i;
      i := wire.next;
      var wireType := wire.value % 8;
      var depth' := depth;
      if wireType == 0 {
        var v := ParseVarint(s, i);
        if v.Failed? {
          return SkipFailed(v.error);
        }
        i := v.next;
      } else if wireType == 1 {
        i := i + 8;
      } else if wireType == 2 {
        var len := ParseVarint(s, i);
        if len.Failed? {
          return SkipFailed(len.error);
        }
        if len.value >= TWO63 {
          return SkipFailed(InvalidLength);
        }
        i := len.next + len.value;
      } else if wireType == 3 {
        depth' := depth + 1;
      } else if wireType == 4 {
        if depth == 0 {
          return SkipFailed(UnexpectedEndOfGroup);
        }
        depth' := depth - 1;
      } else if wireType == 5 {
        i := i + 4;
      } else {
        return SkipFailed(IllegalWireType);
      }
      assert SkipField(s, start, depth) == Skipped(i) && DepthAfter(s, start, depth) == depth';
      if i >= TWO63 {
        return SkipFailed(InvalidLength);
      }
      depth := depth';
      if depth == 0 {
        return Skipped(i);
      }
    }
    r := SkipFailed(UnexpectedEof);
  }

  // ---- Which error ----

  /** A complete tag is refused for the end of a group, and then for a number that is not positive as an int32. */
  lemma TagErrors(d: seq<byte>, i: nat, b: seq<byte>)
    requires HasAt(d, i, b) && IsVarint(b)
    ensures var num := Value64(b) / 8 % TWO32;
            && (ReadTag(d, i) == Failed(EndGroupForNonGroup) <==> Value64(b) % 8 == 4)
            && (ReadTag(d, i) == Failed(IllegalTag) <==> Value64(b) % 8 != 4 && (num == 0 || num >= TWO31))
            && (ReadTag(d, i).Parsed? <==> Value64(b) % 8 != 4 && 0 < num < TWO31)
  {
    hide ReadVarint, Value64, IsVarint;
    RawVarintReads(d, i, b);
  }

  /** A complete length is refused if the payload would end at 2^63 or later, and then if it ends after the buffer. */
  lemma BytesErrors(d: seq<byte>, i: nat, b: seq<byte>)
    requires HasAt(d, i, b) && IsVarint(b)
    ensures var end := i + |b| + Value64(b);
            && (ReadBytes(d, i) == Failed(InvalidLength) <==> end >= TWO63)
            && (ReadBytes(d, i) == Failed(UnexpectedEof) <==> |d| < end < TWO63)
            && (ReadBytes(d, i).Parsed? <==> end <= |d| && end < TWO63)
  {
    hide ReadVarint, Value64, IsVarint;
    RawVarintReads(d, i, b);
  }

  // ---- Unknown fields ----

  lemma RawTagReads(d: seq<byte>, i: nat, f: RawField, last: int)
    requires HasAt(d, i, Bytes(f)) && IsRaw(f) && Number(f) > last >= 0
    ensures ReadTag(d, i).Parsed? && ReadTag(d, i).value.num == Number(f)
  {
    hide Value64, ReadVarint, IsVarint, AsI32;
    var wireType := match f
      case RawVarint(_, _) => 0
      case RawFixed64(_, _) => 1
      case RawBytes(_, _, _) => 2
      case RawGroup(_, _, _) => 3
      case RawFixed32(_, _) => 5;
    assert Bytes(f) == f.tag + Bytes(f)[|f.tag|..];
    HasAtSplit(d, i, f.tag, Bytes(f)[|f.tag|..]);
    TagReads(d, i, f.tag, wireType);
  }

  lemma HasAtSuffix(d: seq<byte>, i: nat, a: seq<byte>, b: seq<byte>)
    requires i <= |d| && d[i..] == a + b
    ensures HasAt(d, i, a) && HasAt(d[i..], 0, a)
    ensures i + |a| <= |d| && d[i + |a|..] == b
  {
    forall k | 0 <= k < |a| ensures d[i + k] == a[k] {
      assert d[i..][k] == (a + b)[k];
    }
    assert d[i..][|a|..] == d[i + |a|..];
    TakeAppend(a, b);
  }

  lemma UnknownReads(d: seq<byte>, i: nat, f: RawField, rest: seq<byte>)
    requires i <= |d| < TWO63 && d[i..] == Bytes(f) + rest && IsRaw(f)
    ensures i + |Bytes(f)| <= |d| && ReadUnknown(d, i) == Parsed(Bytes(f), i + |Bytes(f)|)
  {
    hide SkipFrom, IsRaw, Bytes;
    HasAtSuffix(d, i, Bytes(f), rest);
    SkipsField(d[i..], 0, f, 0);
    assert d[i..i + |Bytes(f)|] == d[i..][..|Bytes(f)|];
    TakeAppend(Bytes(f), rest);
  }

  lemma RawIsNotEmpty(f: RawField)
    requires IsRaw(f)
    ensures Bytes(f) != []
  {
  }

  lemma {:induction false} UnknownAreRead(d: seq<byte>, i: nat, fs: RawFields, last: int)
    requires i <= |d| < TWO63 && d[i..] == AllBytes(fs) && AreRaw(fs) && RawAbove(fs, last) && last >= 0
    ensures OnlyUnknown(d, i, last)
    decreases fs
  {
    hide ReadTag, ReadUnknown, IsRaw, Bytes, Number;
    match fs {
      case NoRaw =>
        assert i == |d|;
      case MoreRaw(f, rest) =>
        RawIsNotEmpty(f);
        HasAtSuffix(d, i, Bytes(f), AllBytes(rest));
        RawTagReads(d, i, f, last);
        UnknownReads(d, i, f, AllBytes(rest));
        UnknownAreRead(d, i + |Bytes(f)|, rest, last);
    }
  }

  lemma NumberRead(d: seq<byte>, i: nat, f: RawField)
    requires i <= |d| && ReadTag(d, i).Parsed? && IsVarint(f.tag)
    requires ReadVarint(d[i..], 0).Parsed? && f.tag == d[i..][..ReadVarint(d[i..], 0).next]
    ensures Number(f) == ReadTag(d, i).value.num
  {
    hide AsI32;
    var u := d[i..];
    assert u[0..] == u;
    VarintFromShifts(d, i, u, 0, 0);
    ReadShape(u, 0);
    assert u[0..ReadVarint(u, 0).next] == f.tag;
  }

  lemma RawTagIsVarint(f: RawField)
    requires IsRaw(f)
    ensures IsVarint(f.tag)
  {
  }

  /** The field at i that the default case of a message keeps. */
  lemma FieldKept(d: seq<byte>, i: nat) returns (f: RawField)
    requires i < |d| < TWO63 && ReadTag(d, i).Parsed? && ReadUnknown(d, i).Parsed?
    ensures IsRaw(f) && Bytes(f) == d[i..ReadUnknown(d, i).next] && Number(f) == ReadTag(d, i).value.num
  {
    hide SkipFrom, ReadTag, IsRaw, Bytes, Number, IsVarint;
    var n := SkipFrom(d[i..], 0, 0).n;
    f := FieldSkipped(d[i..], n);
    RawTagIsVarint(f);
    NumberRead(d, i, f);
    assert d[i..][..n] == d[i..i + n];
  }

  lemma {:induction false} ReadAreUnknown(d: seq<byte>, i: nat, last: int) returns (fs: RawFields)
    requires i <= |d| < TWO63 && OnlyUnknown(d, i, last)
    ensures AreRaw(fs) && RawAbove(fs, last) && AllBytes(fs) == d[i..]
    decreases |d| - i
  {
    hide ReadTag, ReadUnknown, IsRaw, Bytes, Number;
    if i == |d| {
      fs := NoRaw;
    } else {
      var f := FieldKept(d, i);
      var next := ReadUnknown(d, i).next;
      var rest := ReadAreUnknown(d, next, last);
      fs := MoreRaw(f, rest);
      Join(d, i, next, |d|);
      assert d[i..] == d[i..|d|] && d[next..] == d[next..|d|];
    }
  }

  /** The default case of a message accepts exactly sequences of fields with higher numbers. */
  lemma OnlyUnknownIffFields(u: seq<byte>, last: int)
    requires |u| < TWO63 && last >= 0
    ensures OnlyUnknown(u, 0, last) <==> AreUnknown(u, last)
  {
    hide OnlyUnknown, AreRaw, RawAbove, AllBytes;
    assert u[0..] == u;
    if OnlyUnknown(u, 0, last) {
      var fs := ReadAreUnknown(u, 0, last);
    }
    if AreUnknown(u, last) {
      var fs :| AreRaw(fs) && RawAbove(fs, last) && AllBytes(fs) == u;
      UnknownAreRead(u, 0, fs, last);
    }
  }

  // ---- The fields of the specification are among them ----

  ghost function AsRaw(f: Field): RawField {
    match f
    case VarintF(n, v) => RawVarint(TagBytes(n, 0), Varint(v))
    case Fixed64F(n, v) => RawFixed64(TagBytes(n, 1), Le(v, 8))
    case BytesF(n, s) => RawBytes(TagBytes(n, 2), Varint(|s|), s)
    case GroupF(n, fs) => RawGroup(TagBytes(n, 3), AllAsRaw(fs), TagBytes(n, 4))
    case Fixed32F(n, w) => RawFixed32(TagBytes(n, 5), Le(w, 4))
  }

  ghost function AllAsRaw(fs: Fields): RawFields {
    match fs
    case NoFields => NoRaw
    case More(f, rest) => MoreRaw(AsRaw(f), AllAsRaw(rest))
  }

  lemma TagIsTag(num: nat, wireType: nat)
    requires 1 <= num <= MAX_FIELD_NUMBER && wireType < 8
    ensures IsTag(TagBytes(num, wireType), wireType) && AsI32(Value64(TagBytes(num, wireType)) / 8) == num
  {
    hide Varint, IsVarint, Value64;
    ShortestIsVarint(8 * num + wireType);
  }

  lemma {:induction false} FieldIsRaw(f: Field)
    requires IsField(f)
    ensures IsRaw(AsRaw(f)) && Bytes(AsRaw(f)) == EncodeField(f) && Number(AsRaw(f)) == f.num
    decreases f
  {
    hide TagBytes, IsVarint, IsTag, Value64, Varint, AsI32;
    match f {
      case VarintF(n, v) =>
        TagIsTag(n, 0);
        ShortestIsVarint(v);
      case Fixed64F(n, v) =>
        TagIsTag(n, 1);
      case BytesF(n, s) =>
        TagIsTag(n, 2);
        ShortestIsVarint(|s|);
      case GroupF(n, fs) =>
        TagIsTag(n, 3);
        TagIsTag(n, 4);
        FieldsAreRaw(fs, 0);
      case Fixed32F(n, w) =>
        TagIsTag(n, 5);
    }
  }

  lemma {:induction false} FieldsAreRaw(fs: Fields, last: int)
    requires AreFields(fs)
    ensures AreRaw(AllAsRaw(fs)) && AllBytes(AllAsRaw(fs)) == EncodeFields(fs)
    ensures AllAbove(fs, last) ==> RawAbove(AllAsRaw(fs), last)
    decreases fs
  {
    hide IsRaw, Bytes, Number, EncodeField;
    match fs {
      case NoFields =>
      case More(f, rest) =>
        FieldIsRaw(f);
        FieldsAreRaw(rest, last);
    }
  }

  /** Skip passes over exactly one field of the specification, whatever follows it. */
  lemma SkipsStandardField(f: Field, rest: seq<byte>)
    requires IsField(f) && |EncodeField(f) + rest| < TWO63
    ensures SkipFrom(EncodeField(f) + rest, 0, 0) == Skipped(|EncodeField(f)|)
  {
    hide SkipFrom, IsRaw, Bytes, EncodeField, IsField;
    FieldIsRaw(f);
    var d := EncodeField(f) + rest;
    assert d[0..] == d;
    HasAtSuffix(d, 0, EncodeField(f), rest);
    SkipsField(d, 0, AsRaw(f), 0);
  }

  /** Any sequence of fields of the specification with higher numbers can be carried as unknown bytes. */
  lemma StandardFieldsAreUnknown(fs: Fields, last: int)
    requires AreFields(fs) && AllAbove(fs, last)
    ensures AreUnknown(EncodeFields(fs), last)
  {
    hide AreRaw, RawAbove, AllBytes, EncodeFields, AreFields, AllAbove;
    FieldsAreRaw(fs, last);
  }

  /** A group may be closed by the tag of another group. */
  lemma MismatchedEndIsSkipped()
    ensures SkipFrom([0x5b, 0x64], 0, 0) == Skipped(2)
  {
    var d: seq<byte> := [0x5b, 0x64];
    assert IsTag([0x5b], 3) && IsTag([0x64], 4);
    assert HasAt(d, 0, [0x5b]) && HasAt(d, 1, [0x64]);
    SkipsOpen(d, 0, [0x5b], 0);
    SkipsClose(d, 1, [0x64], 0);
  }

  lemma NothingIsUnknown(last: int)
    ensures AreUnknown([], last)
  {
    assert AreRaw(NoRaw) && RawAbove(NoRaw, last) && AllBytes(NoRaw) == [];
  }
}
