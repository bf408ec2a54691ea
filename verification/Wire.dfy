/**
 The wire format below the level of messages: tags, length-delimited bytes, fixed64, and the
 skipping of fields that a message does not know (Protocol Buffers Encoding, sections
 "Message Structure" and "Length-Delimited Records").
 */
module WireFormat {
  import opened Varints

  type u64 = x: int | 0 <= x < TWO64
  type i64 = x: int | -TWO63 <= x < TWO63
  type i32 = x: int | -TWO31 <= x < TWO31

  /** uint64(x) of a signed field. */
  function AsU64(x: i64): u64 {
    if x < 0 then x + TWO64 else x
  }

  /** What or-ing the bytes into an int64 (or int) leaves. */
  function AsI64(v: u64): i64 {
    if v >= TWO63 then v - TWO64 else v
  }

  /** What or-ing the bytes into an int32 leaves: the low 32 bits. */
  function AsI32(v: u64): i32 {
    var w := v % TWO32;
    if w >= TWO31 then w - TWO32 else w
  }

  /** All conversions keep the value up to multiples of the width; with the range of the type that fixes it. */
  lemma ConversionsWrap(x: i64, v: u64) returns (q: int)
    ensures AsU64(x) == x || AsU64(x) == x + TWO64
    ensures AsI64(v) == v || AsI64(v) == v - TWO64
    ensures AsI32(v) == v - TWO32 * q
  {
    var w := v % TWO32;
    q := if w >= TWO31 then v / TWO32 + 1 else v / TWO32;
  }

  lemma AsI64Inverts(x: i64)
    ensures AsI64(AsU64(x)) == x
  {
  }

  lemma AsI32Inverts(x: i32)
    ensures AsI32(AsU64(x)) == x
  {
    if x < 0 {
      assert (x + TWO64) == TWO32 * (TWO32 - 1) + (x + TWO32);
    }
  }

  // ---- Records as they are written ----

  function Le(v: nat, n: nat): (s: seq<byte>)
    ensures |s| == n
  {
    if n == 0 then [] else [v % 256] + Le(v / 256, n - 1)
  }

  function Delimited(tag: byte, s: seq<byte>): seq<byte> {
    [tag] + (Varint(|s|) + s)
  }

  /** A string field; the empty string is not written. */
  function StringRecord(tag: byte, s: seq<byte>): seq<byte> {
    if s == [] then [] else Delimited(tag, s)
  }

  function VarintRecord(tag: byte, v: u64): seq<byte> {
    if v == 0 then [] else [tag] + Varint(v)
  }

  function Fixed64Record(tag: byte, v: u64): seq<byte> {
    if v == 0 then [] else [tag] + Le(v, 8)
  }

  // ---- Records as they are read ----

  datatype Tag = Tag(num: int, wireType: nat)

  function ReadTag(d: seq<byte>, i: nat): (r: Parsed<Tag>)
    requires i <= |d|
    ensures r.Parsed? ==> i < r.next <= |d| && r.value.num > 0
  {
    match ReadVarint(d, i)
    case Failed(e) => Failed(e)
    case Parsed(wire, next) =>
      if wire % 8 == 4 then Failed(EndGroupForNonGroup)
      else if AsI32(wire / 8) <= 0 then Failed(IllegalTag)
      else Parsed(Tag(AsI32(wire / 8), wire % 8), next)
  }

  /** The end of a length-delimited payload, with the int overflows the code guards against. */
  function ReadBytes(d: seq<byte>, i: nat): (r: Parsed<seq<byte>>)
    requires i <= |d|
    ensures r.Parsed? ==> i < r.next <= |d|
  {
    match ReadVarint(d, i)
    case Failed(e) => Failed(e)
    case Parsed(len, next) =>
      if len >= TWO63 || next + len >= TWO63 then Failed(InvalidLength)
      else if next + len > |d| then Failed(UnexpectedEof)
      else Parsed(d[next..next + len], next + len)
  }

  function FromLe(d: seq<byte>, i: nat, n: nat): nat
    requires i + n <= |d|
    decreases n
  {
    if n == 0 then 0 else d[i] + 256 * FromLe(d, i + 1, n - 1)
  }

  /** Byte k of a fixed width is the digit of weight 256^k: below it comes less than that, above it multiples of the next. */
  lemma {:induction false} LeByte(v: nat, n: nat, k: nat) returns (low: nat, high: nat)
    requires k < n
    ensures v == low + Pow256(k) * (Le(v, n)[k] + 256 * high) && low < Pow256(k)
    decreases k
  {
    if k == 0 {
      low, high := 0, v / 256;
    } else {
      low, high := LeByte(v / 256, n - 1, k - 1);
      ScaleBy256(Pow256(k - 1), Le(v, n)[k] + 256 * high);
      low := v % 256 + 256 * low;
    }
  }

  lemma ScaleBy256(p: nat, x: nat)
    ensures 256 * (p * x) == (256 * p) * x
  {
  }

  lemma {:induction false} FromLeFits(d: seq<byte>, i: nat, n: nat)
    requires i + n <= |d|
    ensures FromLe(d, i, n) < Pow256(n)
    decreases n
  {
    if n > 0 {
      FromLeFits(d, i + 1, n - 1);
    }
  }

  lemma Pow256Of8()
    ensures Pow256(8) == TWO64
  {
    assert Pow256(2) == 256 * Pow256(1);
    assert Pow256(4) == 256 * Pow256(3);
    assert Pow256(6) == 256 * Pow256(5);
    assert Pow256(8) == 256 * Pow256(7);
  }

  function ReadFixed64(d: seq<byte>, i: nat): (r: Parsed<u64>)
    requires i <= |d|
    ensures r.Parsed? ==> i < r.next <= |d|
  {
    if i + 8 > |d| then Failed(UnexpectedEof)
    else
      FromLeFits(d, i, 8);
      Pow256Of8();
      Parsed(FromLe(d, i, 8), i + 8)
  }

  lemma ReadTagReads(d: seq<byte>, i: nat, tag: byte)
    requires HasAt(d, i, [tag]) && 8 <= tag < 128 && tag % 8 != 4
    ensures ReadTag(d, i) == Parsed(Tag(tag / 8, tag % 8), i + 1)
  {
    assert Varint(tag) == [tag];
    ReadVarintReads(d, i, tag);
  }

  lemma ReadBytesReads(d: seq<byte>, i: nat, s: seq<byte>)
    requires |d| < TWO63 && HasAt(d, i, Varint(|s|) + s)
    ensures ReadBytes(d, i) == Parsed(s, i + |Varint(|s|) + s|)
  {
    HasAtSplit(d, i, Varint(|s|), s);
    ReadVarintReads(d, i, |s|);
    var next := i + |Varint(|s|)|;
    assert d[next..next + |s|] == s;
  }

  function Pow256(n: nat): nat {
    if n == 0 then 1 else 256 * Pow256(n - 1)
  }

  lemma {:induction false} FromLeInverts(d: seq<byte>, i: nat, v: nat, n: nat)
    requires v < Pow256(n) && HasAt(d, i, Le(v, n))
    ensures FromLe(d, i, n) == v
    decreases n
  {
    if n > 0 {
      assert d[i + 0] == Le(v, n)[0];
      HasAtSplit(d, i, [v % 256], Le(v / 256, n - 1));
      FromLeInverts(d, i + 1, v / 256, n - 1);
    }
  }

  lemma ReadFixed64Reads(d: seq<byte>, i: nat, v: u64)
    requires HasAt(d, i, Le(v, 8))
    ensures ReadFixed64(d, i) == Parsed(v, i + 8)
  {
    Pow256Of8();
    FromLeInverts(d, i, v, 8);
  }

  // ---- Skipping ----

  datatype SkipResult = Skipped(n: nat) | SkipFailed(error: WireError)

  /** skip: from index i of s, inside depth open groups. The result may lie past the end of s. */
  function SkipFrom(s: seq<byte>, i: nat, depth: nat): (r: SkipResult)
    ensures r.Skipped? ==> r.n > i
    decreases |s| - i
  {
    if i >= |s| then SkipFailed(UnexpectedEof)
    else
      match SkipField(s, i, depth)
      case SkipFailed(e) => SkipFailed(e)
      case Skipped(n) =>
        var depth' := DepthAfter(s, i, depth);
        if n >= TWO63 then SkipFailed(InvalidLength)
        else if depth' == 0 then Skipped(n)
        else SkipFrom(s, n, depth')
  }

  /** One turn of skip's loop: tag and payload. */
  function SkipField(s: seq<byte>, i: nat, depth: nat): (r: SkipResult)
    requires i < |s|
    ensures r.Skipped? ==> r.n > i
  {
    match ReadVarint(s, i)
    case Failed(e) => SkipFailed(e)
    case Parsed(wire, next) =>
      match wire % 8
      case 0 => (match VarintFrom(s, next, 0) case Parsed(_, n) => Skipped(n) case Failed(e) => SkipFailed(e))
      case 1 => Skipped(next + 8)
      case 2 =>
        (match ReadVarint(s, next)
         case Failed(e) => SkipFailed(e)
         case Parsed(len, n) => if len >= TWO63 then SkipFailed(InvalidLength) else Skipped(n + len))
      case 3 => Skipped(next)
      case 4 => if depth == 0 then SkipFailed(UnexpectedEndOfGroup) else Skipped(next)
      case 5 => Skipped(next + 4)
      case _ => SkipFailed(IllegalWireType)
  }

  function DepthAfter(s: seq<byte>, i: nat, depth: nat): nat
    requires i < |s|
  {
    match ReadVarint(s, i)
    case Failed(_) => depth
    case Parsed(wire, _) =>
      if wire % 8 == 3 then depth + 1
      else if wire % 8 == 4 && depth > 0 then depth - 1
      else depth
  }

  /** The default case of every message: skip one field and keep its bytes. */
  function ReadUnknown(d: seq<byte>, i: nat): (r: Parsed<seq<byte>>)
    requires i <= |d|
    ensures r.Parsed? ==> i < r.next <= |d| && r.value == d[i..r.next]
  {
    match SkipFrom(d[i..], 0, 0)
    case SkipFailed(e) => Failed(e)
    case Skipped(n) =>
      if i + n >= TWO63 then Failed(InvalidLength)
      else if i + n > |d| then Failed(UnexpectedEof)
      else Parsed(d[i..i + n], i + n)
  }

  /**
   From index i to the end, d holds complete fields with numbers above last only. Such bytes
   are what a message with field numbers 1..last can carry as unknown fields.
   */
  predicate OnlyUnknown(d: seq<byte>, i: nat, last: int)
    requires i <= |d|
    decreases |d| - i
  {
    i == |d| ||
    match ReadTag(d, i)
    case Failed(_) => false
    case Parsed(tag, _) =>
      tag.num > last &&
      match ReadUnknown(d, i)
      case Failed(_) => false
      case Parsed(_, next) => OnlyUnknown(d, next, last)
  }

  /** Reading depends only on what lies ahead. */
  lemma {:induction false} VarintFromShifts(d: seq<byte>, i: nat, u: seq<byte>, p: nat, k: nat)
    requires i <= |d| && p <= |u| && d[i..] == u[p..]
    ensures VarintFrom(d, i, k) ==
            match VarintFrom(u, p, k) case Parsed(v, n) => Parsed(v, n - p + i) case Failed(e) => Failed(e)
    decreases |d| - i
  {
    assert |d| - i == |u| - p;
    if k < 10 && i < |d| {
      assert d[i] == d[i..][0] == u[p..][0] == u[p];
      if d[i] >= 128 {
        assert d[i + 1..] == d[i..][1..] == u[p + 1..];
        VarintFromShifts(d, i + 1, u, p + 1, k + 1);
      }
    }
  }

  lemma {:induction false} OnlyUnknownShifts(d: seq<byte>, i: nat, u: seq<byte>, p: nat, last: int)
    requires i <= |d| < TWO63 && p <= |u| < TWO63 && d[i..] == u[p..]
    ensures OnlyUnknown(d, i, last) == OnlyUnknown(u, p, last)
    decreases |d| - i
  {
    hide VarintFrom, SkipFrom;
    assert |d| - i == |u| - p;
    if i < |d| {
      VarintFromShifts(d, i, u, p, 0);
      var r := ReadUnknown(d, i);
      if r.Parsed? {
        var n := r.next - i;
        assert d[i + n..] == d[i..][n..] == u[p + n..];
        OnlyUnknownShifts(d, i + n, u, p + n, last);
      }
    }
  }
}
