/** The protobuf fast path: reading one vid from an edge's field stream without decoding the rest. */
module ProtoScan {
  import opened Prelude
  import opened Bytes

  datatype CodecError = IncorrectValue(message: string)

  const VARINT_MAX: nat := 10

  // ===== Base 128 varints =====

  function Pow128(n: nat): (p: nat)
    ensures p > 0
  {
    if n == 0 then 1 else 128 * Pow128(n - 1)
  }

  /** The groups of seven bits, least significant first. */
  function GroupValue(bytes: seq<Byte>): nat {
    if bytes == [] then 0 else bytes[0] % 128 + 128 * GroupValue(bytes[1..])
  }

  /** One varint: at most ten bytes, all but the last marked as continued. */
  predicate IsVarint(bytes: seq<Byte>) {
    && 1 <= |bytes| <= VARINT_MAX && bytes[|bytes| - 1] < 128
    && forall i :: 0 <= i < |bytes| - 1 ==> bytes[i] >= 128
  }

  /** Bits beyond the sixty-fourth are dropped. */
  function VarintValue(bytes: seq<Byte>): (v: nat)
    ensures v < TWO_64
  {
    GroupValue(bytes) % TWO_64
  }

  lemma Pow128Values()
    ensures Pow128(1) == 128 && Pow128(9) == TWO_63 && Pow128(10) == 128 * TWO_63
  {
    assert Pow128(2) == 0x4000;
    assert Pow128(4) == 0x1000_0000;
    assert Pow128(6) == 0x400_0000_0000;
    assert Pow128(8) == 0x100_0000_0000_0000;
    assert Pow128(9) == TWO_63;
  }

  lemma {:induction false} Pow128Grows(a: nat, b: nat)
    requires a <= b
    ensures Pow128(a) <= Pow128(b)
    decreases b
  {
    if a < b { Pow128Grows(a, b - 1); }
  }

  lemma {:induction false} GroupBound(bytes: seq<Byte>)
    ensures GroupValue(bytes) < Pow128(|bytes|)
  {
    if bytes != [] { GroupBound(bytes[1..]); }
  }

  lemma {:induction false} GroupOneMore(bytes: seq<Byte>, b: Byte)
    ensures GroupValue(bytes + [b]) == GroupValue(bytes) + (b % 128) * Pow128(|bytes|)
  {
    if bytes == [] {
      assert (bytes + [b])[1..] == [];
    } else {
      GroupOneMore(bytes[1..], b);
      assert (bytes + [b])[1..] == bytes[1..] + [b];
      DistributeGroups(GroupValue(bytes[1..]), b % 128, Pow128(|bytes| - 1));
    }
  }

  lemma DistributeGroups(v: nat, d: nat, q: nat)
    ensures 128 * (v + d * q) == 128 * v + d * (128 * q)
  {
  }

  /** Seven bits shifted into place, cut to sixty-four. */
  function Shifted(b: Byte, i: nat): nat { (b % 128 * Pow128(i)) % TWO_64 }

  /** The first nine groups fit. */
  lemma NineGroupsFit(bytes: seq<Byte>)
    requires |bytes| < VARINT_MAX
    ensures GroupValue(bytes) < TWO_63
  {
    GroupBound(bytes);
    Pow128Values();
    Pow128Grows(|bytes|, VARINT_MAX - 1);
  }

  lemma LastGroup(value: nat, d: nat)
    requires value < TWO_63 && d < 128
    ensures value + (d * TWO_63) % TWO_64 == (value + d * TWO_63) % TWO_64
  {
    TopBit(d);
    SplitMod(value, d * TWO_63);
  }

  /** Ten groups and no more: the sum of the groups below, with the tenth cut to one bit. */
  lemma SumIsValue(bytes: seq<Byte>, b: Byte)
    requires |bytes| < VARINT_MAX
    ensures GroupValue(bytes) + Shifted(b, |bytes|) == GroupValue(bytes + [b]) % TWO_64
  {
    hide GroupValue, Pow128, Shifted;
    var value, d := GroupValue(bytes), b % 128;
    NineGroupsFit(bytes);
    GroupOneMore(bytes, b);
    ShiftedIs(b, |bytes|);
    if |bytes| < VARINT_MAX - 1 {
      NineGroupsFit(bytes + [b]);
      SumFits(value, d * Pow128(|bytes|));
    } else {
      Pow128Values();
      LastGroup(value, d);
    }
  }

  lemma ShiftedIs(b: Byte, i: nat)
    ensures Shifted(b, i) == (b % 128 * Pow128(i)) % TWO_64 && b % 128 * Pow128(i) >= 0
  {
  }

  lemma SumFits(value: nat, x: int)
    requires x >= 0 && value + x < TWO_64
    ensures value + x % TWO_64 == (value + x) % TWO_64
  {
  }

  lemma TopBit(d: nat)
    requires d < 128
    ensures (d * TWO_63) % TWO_64 == d % 2 * TWO_63
  {
    assert d * TWO_63 == d / 2 * TWO_64 + d % 2 * TWO_63;
    RemainderOf(d / 2, d % 2 * TWO_63);
  }

  lemma RemainderOf(q: nat, r: nat)
    requires r < TWO_64
    ensures (q * TWO_64 + r) % TWO_64 == r
  {
  }

  lemma SplitMod(a: nat, b: nat)
    requires a + b % TWO_64 < TWO_64
    ensures (a + b) % TWO_64 == a + b % TWO_64
  {
    assert b == b / TWO_64 * TWO_64 + b % TWO_64;
    RemainderOf(b / TWO_64, a + b % TWO_64);
  }

  /** The varint a buffer starts with: its value and its length. */
  function ReadVarint(buf: seq<Byte>): (r: Option<(nat, nat)>) {
    var n := VarintLength(buf, 0);
    if n.None? then None else Some((VarintValue(buf[..n.value]), n.value))
  }

  function VarintLength(buf: seq<Byte>, i: nat): (n: Option<nat>)
    ensures n.Some? ==> i < n.value <= |buf| && n.value <= VARINT_MAX && buf[n.value - 1] < 128
    ensures n.Some? ==> forall j :: i <= j < n.value - 1 ==> buf[j] >= 128
    decreases VARINT_MAX - i
  {
    if i >= |buf| || i >= VARINT_MAX then None
    else if buf[i] < 128 then Some(i + 1)
    else VarintLength(buf, i + 1)
  }

  /** The reading loop. The groups occupy different bits, so joining them is adding them. */
  method ReadVarintLoop(buf: seq<Byte>) returns (r: Option<(nat, nat)>)
    ensures r == ReadVarint(buf)
  {
    hide GroupValue, Shifted, VarintLength, Pow128;
    var result: nat := 0;
    var i := 0;
    NoGroups(buf);
    while i < |buf| && i < VARINT_MAX
      invariant 0 <= i <= |buf| && i <= VARINT_MAX
      invariant i < VARINT_MAX ==> result == GroupValue(buf[..i])
      invariant VarintLength(buf, 0) == VarintLength(buf, i)
    {
      var byte := buf[i];
      SumIsValue(buf[..i], byte);
      assert buf[..i] + [byte] == buf[..i + 1];
      LengthStep(buf, i);
      result := result + Shifted(byte, i);
      if byte < 128 { return Some((result, i + 1)); }
      if i + 1 < VARINT_MAX { NineGroupsFit(buf[..i + 1]); }
      i := i + 1;
    }
    LengthEnd(buf, i);
    return None;
  }

  lemma NoGroups(buf: seq<Byte>)
    ensures GroupValue(buf[..0]) == 0
  {
  }

  lemma LengthStep(buf: seq<Byte>, i: nat)
    requires i < |buf| && i < VARINT_MAX
    ensures VarintLength(buf, i) == if buf[i] < 128 then Some(i + 1) else VarintLength(buf, i + 1)
  {
  }

  lemma LengthEnd(buf: seq<Byte>, i: nat)
    requires i >= |buf| || i >= VARINT_MAX
    ensures VarintLength(buf, i) == None
  {
  }

  lemma {:induction false} FindsEnd(bytes: seq<Byte>, rest: seq<Byte>, i: nat)
    requires IsVarint(bytes) && i < |bytes|
    ensures VarintLength(bytes + rest, i) == Some(|bytes|)
    decreases |bytes| - i
  {
    assert (bytes + rest)[i] == bytes[i];
    if i < |bytes| - 1 { FindsEnd(bytes, rest, i + 1); }
  }

  /** Whatever follows a varint, it is read back. */
  lemma ReadsVarint(bytes: seq<Byte>, rest: seq<Byte>)
    requires IsVarint(bytes)
    ensures ReadVarint(bytes + rest) == Some((VarintValue(bytes), |bytes|))
  {
    FindsEnd(bytes, rest, 0);
    assert (bytes + rest)[..|bytes|] == bytes;
  }

  // ----- Encoding -----

  function EncodeVarint(v: nat): (bytes: seq<Byte>)
    ensures bytes != []
  {
    if v < 128 then [v] else [128 + v % 128] + EncodeVarint(v / 128)
  }

  lemma {:induction false} EncodeShape(v: nat, n: nat)
    requires v < Pow128(n) && n > 0
    ensures var bytes := EncodeVarint(v);
            && |bytes| <= n && bytes[|bytes| - 1] < 128 && (forall i :: 0 <= i < |bytes| - 1 ==> bytes[i] >= 128)
            && GroupValue(bytes) == v && (v >= Pow128(n - 1) && n > 1 ==> |bytes| == n)
  {
    var bytes := EncodeVarint(v);
    if v >= 128 {
      if n == 1 { Pow128Values(); }
      EncodeShape(v / 128, n - 1);
      assert bytes[1..] == EncodeVarint(v / 128);
      assert v == 128 * (v / 128) + v % 128;
    } else if n > 1 {
      Pow128Grows(1, n - 1);
      assert bytes[1..] == [];
    } else {
      assert bytes[1..] == [];
    }
  }

  /** Reading undoes encoding, for every 64-bit value and any suffix. */
  lemma VarintRoundTrip(v: nat, rest: seq<Byte>)
    requires v < TWO_64
    ensures IsVarint(EncodeVarint(v)) && VarintValue(EncodeVarint(v)) == v
    ensures ReadVarint(EncodeVarint(v) + rest) == Some((v, |EncodeVarint(v)|))
  {
    hide EncodeVarint, GroupValue, Pow128, ReadVarint;
    Pow128Values();
    EncodeShape(v, 10);
    ReadsVarint(EncodeVarint(v), rest);
  }

  /** A vid as the unsigned value on the wire, and back. */
  function ToWire(i: int): (v: int)
    ensures IsI64(i) ==> 0 <= v < TWO_64 && (v == i || v == i + TWO_64)
  {
    if i < 0 then i + TWO_64 else i
  }

  function FromWire(v: nat): (i: int) { if v >= TWO_63 then v - TWO_64 else v }

  lemma NegativeVidTakesTenBytes(i: int)
    requires IsI64(i) && i < 0
    ensures |EncodeVarint(ToWire(i))| == VARINT_MAX
  {
    hide EncodeVarint, GroupValue, Pow128;
    Pow128Values();
    EncodeShape(ToWire(i), 10);
  }

  // ===== Field streams =====

  /** A field on the wire, with its own encodings of tag, value and length. */
  datatype Field =
    | VarintField(tag: seq<Byte>, value: seq<Byte>)
    | Fixed64(tag: seq<Byte>, bytes: seq<Byte>)
    | LengthDelimited(tag: seq<Byte>, length: seq<Byte>, payload: seq<Byte>)
    | Fixed32(tag: seq<Byte>, bytes: seq<Byte>)

  function Number(f: Field): nat { VarintValue(f.tag) / 8 }

  function WireType(f: Field): nat {
    match f
    case VarintField(_, _) => 0
    case Fixed64(_, _) => 1
    case LengthDelimited(_, _, _) => 2
    case Fixed32(_, _) => 5
  }

  predicate WellFormed(f: Field) {
    && IsVarint(f.tag) && VarintValue(f.tag) % 8 == WireType(f)
    && match f
       case VarintField(_, value) => IsVarint(value)
       case Fixed64(_, bytes) => |bytes| == 8
       case LengthDelimited(_, length, payload) => IsVarint(length) && VarintValue(length) == |payload|
       case Fixed32(_, bytes) => |bytes| == 4
  }

  function Body(f: Field): seq<Byte> {
    match f
    case VarintField(_, value) => value
    case Fixed64(_, bytes) => bytes
    case LengthDelimited(_, length, payload) => length + payload
    case Fixed32(_, bytes) => bytes
  }

  function Whole(f: Field): seq<Byte> { f.tag + Body(f) }

  function Stream(fields: seq<Field>): seq<Byte> {
    if fields == [] then [] else Whole(fields[0]) + Stream(fields[1..])
  }

  lemma NoFields()
    ensures Stream([]) == []
  {
  }

  lemma StreamHead(fields: seq<Field>)
    requires fields != []
    ensures Stream(fields) == Whole(fields[0]) + Stream(fields[1..])
  {
  }

  ghost predicate AllWellFormed(fields: seq<Field>) { forall i :: 0 <= i < |fields| ==> WellFormed(fields[i]) }

  /** The field carries the target as a varint. */
  predicate Carries(f: Field, target: nat) { f.VarintField? && Number(f) == target }

  /** The first value of the target in the stream. */
  function FirstValue(fields: seq<Field>, target: nat): Option<nat> {
    if fields == [] then None
    else if Carries(fields[0], target) then Some(VarintValue(fields[0].value))
    else FirstValue(fields[1..], target)
  }

  /** What a full decode keeps: the last value of the target. */
  function LastValue(fields: seq<Field>, target: nat): Option<nat> {
    if fields == [] then None
    else if Carries(fields[|fields| - 1], target) then Some(VarintValue(fields[|fields| - 1].value))
    else LastValue(fields[..|fields| - 1], target)
  }

  /** An absent field is its default, zero. */
  function VidOf(value: Option<nat>): int { if value.None? then 0 else FromWire(value.value) }

  // ===== The scanner =====

  function Scan(data: seq<Byte>, target: nat): (r: Result<int, CodecError>)
    decreases |data|
  {
    if data == [] then Ok(0)
    else
      match ReadVarint(data)
      case None => Err(IncorrectValue("Truncated tag"))
      case Some((tag, n)) =>
        var rest := data[n..];
        if tag / 8 == target && tag % 8 == 0 then
          match ReadVarint(rest)
          case None => Err(IncorrectValue("Truncated vid field"))
          case Some((value, _)) => Ok(FromWire(value))
        else
          match BodyLength(rest, tag % 8)
          case Err(e) => Err(e)
          case Ok(skip) => Scan(if skip <= |rest| then rest[skip..] else [], target)
  }

  /** How many bytes to skip after a tag of the wire type. */
  function BodyLength(rest: seq<Byte>, wireType: nat): Result<nat, CodecError> {
    if wireType == 0 then
      match ReadVarint(rest)
      case None => Err(IncorrectValue("Truncated varint"))
      case Some((_, n)) => Ok(n)
    else if wireType == 1 then Ok(8)
    else if wireType == 2 then
      match ReadVarint(rest)
      case None => Err(IncorrectValue("Truncated length prefix"))
      case Some((len, n)) => Ok(n + len)
    else if wireType == 5 then Ok(4)
    else Err(IncorrectValue("Unsupported wire type"))
  }

  method DecodeEdgeVidProto(data: seq<Byte>, target: nat) returns (r: Result<int, CodecError>)
    ensures r == Scan(data, target)
  {
    hide ReadVarint;
    var pos := 0;
    while pos < |data|
      invariant 0 <= pos
      invariant Scan(data, target) == Scan(if pos <= |data| then data[pos..] else [], target)
    {
      var tag := ReadVarintLoop(data[pos..]);
      if tag.None? { return Err(IncorrectValue("Truncated tag")); }
      ReadWithin(data[pos..]);
      ghost var rest := data[pos..][tag.value.1..];
      pos := pos + tag.value.1;
      assert rest == data[pos..];
      if tag.value.0 / 8 == target && tag.value.0 % 8 == 0 {
        var value := ReadVarintLoop(data[pos..]);
        if value.None? { return Err(IncorrectValue("Truncated vid field")); }
        return Ok(FromWire(value.value.0));
      }
      var wireType := tag.value.0 % 8;
      var skip: nat := 0;
      if wireType == 0 {
        var v := ReadVarintLoop(data[pos..]);
        if v.None? { return Err(IncorrectValue("Truncated varint")); }
        skip := v.value.1;
      } else if wireType == 1 {
        skip := 8;
      } else if wireType == 2 {
        var v := ReadVarintLoop(data[pos..]);
        if v.None? { return Err(IncorrectValue("Truncated length prefix")); }
        skip := v.value.1 + v.value.0;
      } else if wireType == 5 {
        skip := 4;
      } else {
        return Err(IncorrectValue("Unsupported wire type"));
      }
      assert skip <= |rest| ==> rest[skip..] == data[pos + skip..];
      pos := pos + skip;
    }
    return Ok(0);
  }

  lemma ReadWithin(buf: seq<Byte>)
    ensures var r := ReadVarint(buf); r.Some? ==> 0 < r.value.1 <= |buf|
  {
  }

  lemma ScanField(f: Field, after: seq<Byte>, target: nat)
    requires WellFormed(f)
    ensures Scan(Whole(f) + after, target) ==
              if Carries(f, target) then Ok(FromWire(VarintValue(f.value))) else Scan(after, target)
  {
    hide ReadVarint, BodyLength, IsVarint, VarintValue;
    var data := Whole(f) + after;
    assert data == f.tag + (Body(f) + after);
    ReadsVarint(f.tag, Body(f) + after);
    ReadWithin(data);
    assert data[|f.tag|..] == Body(f) + after;
    BodyIsSkipped(f, after);
    assert (Body(f) + after)[|Body(f)|..] == after;
    if Carries(f, target) { ReadsVarint(f.value, after); }
  }

  /** The scanner stops at the first value of the target in a run of whole fields, or goes on after them. */
  lemma {:induction false} ScanPasses(fields: seq<Field>, tail: seq<Byte>, target: nat)
    requires AllWellFormed(fields)
    ensures var first := FirstValue(fields, target);
            Scan(Stream(fields) + tail, target) == if first.Some? then Ok(VidOf(first)) else Scan(tail, target)
  {
    hide Scan, Whole, WellFormed, Carries, VarintValue;
    if fields == [] {
      assert Stream(fields) + tail == tail;
    } else {
      StreamHead(fields);
      assert Stream(fields) + tail == Whole(fields[0]) + (Stream(fields[1..]) + tail);
      ScanField(fields[0], Stream(fields[1..]) + tail, target);
      ScanPasses(fields[1..], tail, target);
    }
  }

  /** A group or an unassigned wire type after whole fields without the target is refused. */
  lemma UnsupportedIsRefused(fields: seq<Field>, tag: seq<Byte>, rest: seq<Byte>, target: nat)
    requires AllWellFormed(fields) && FirstValue(fields, target).None?
    requires IsVarint(tag) && VarintValue(tag) % 8 in {3, 4, 6, 7}
    ensures Scan(Stream(fields) + (tag + rest), target) == Err(IncorrectValue("Unsupported wire type"))
  {
    hide AllWellFormed, FirstValue, Stream, Scan, IsVarint, VarintValue;
    ScanPasses(fields, tag + rest, target);
    ScanStopsAt(tag, rest, target);
  }

  lemma ScanStopsAt(tag: seq<Byte>, rest: seq<Byte>, target: nat)
    requires IsVarint(tag) && VarintValue(tag) % 8 in {3, 4, 6, 7}
    ensures Scan(tag + rest, target) == Err(IncorrectValue("Unsupported wire type"))
  {
    ReadsVarint(tag, rest);
    hide ReadVarint, IsVarint, VarintValue;
    assert tag + rest != [];
  }

  /** On every well-formed stream the scanner returns the first value of the target, zero if there is none. */
  lemma ScanFindsFirst(fields: seq<Field>, target: nat)
    requires AllWellFormed(fields)
    ensures Scan(Stream(fields), target) == Ok(VidOf(FirstValue(fields, target)))
  {
    ScanPasses(fields, [], target);
    assert Stream(fields) + [] == Stream(fields);
  }

  lemma BodyIsSkipped(f: Field, tail: seq<Byte>)
    requires WellFormed(f)
    ensures BodyLength(Body(f) + tail, WireType(f)) == Ok(|Body(f)|)
  {
    if f.VarintField? {
      ReadsVarint(f.value, tail);
    } else if f.LengthDelimited? {
      assert Body(f) + tail == f.length + (f.payload + tail);
      ReadsVarint(f.length, f.payload + tail);
    }
  }

  // ===== Cut streams =====

  /** The tag, with the varint after it if the wire type has one: what the scanner reads, as against skips. */
  function HeadLength(f: Field): nat {
    |f.tag| + match f
              case VarintField(_, value) => |value|
              case LengthDelimited(_, length, _) => |length|
              case _ => 0
  }

  /** Where a cut falls: behind how many whole fields, and how far into the next. */
  datatype Cut = Cut(whole: nat, into: nat)

  function CutAt(fields: seq<Field>, n: nat): Cut {
    if fields == [] || n < |Whole(fields[0])| then Cut(0, n)
    else
      var c := CutAt(fields[1..], n - |Whole(fields[0])|);
      Cut(c.whole + 1, c.into)
  }

  lemma {:induction false} CutParts(fields: seq<Field>, n: nat)
    requires n <= |Stream(fields)|
    ensures var c := CutAt(fields, n);
            && c.whole <= |fields|
            && (c.whole == |fields| ==> c.into == 0)
            && (c.whole < |fields| ==> c.into < |Whole(fields[c.whole])|)
            && Stream(fields)[..n] ==
                 Stream(fields[..c.whole]) + if c.whole < |fields| then Whole(fields[c.whole])[..c.into] else []
  {
    hide Whole, Stream;
    NoFields();
    if fields == [] {
    } else {
      var f, rest := fields[0], Stream(fields[1..]);
      StreamHead(fields);
      if n < |Whole(f)| {
        assert fields[..0] == [];
        assert Stream(fields)[..n] == [] + Whole(f)[..n];
      } else {
        var m := n - |Whole(f)|;
        var c := CutAt(fields[1..], m);
        CutParts(fields[1..], m);
        var seen := fields[..c.whole + 1];
        assert seen[0] == f && seen[1..] == fields[1..][..c.whole];
        StreamHead(seen);
        assert Stream(fields)[..n] == Whole(f) + rest[..m];
        var cut := if c.whole + 1 < |fields| then Whole(fields[c.whole + 1])[..c.into] else [];
        assert Whole(f) + (Stream(seen[1..]) + cut) == Stream(seen) + cut;
      }
    }
  }

  lemma {:induction false} NoEnd(bytes: seq<Byte>, n: nat, i: nat)
    requires IsVarint(bytes) && i <= n < |bytes|
    ensures VarintLength(bytes[..n], i) == None
    decreases n - i
  {
    if i < n { NoEnd(bytes, n, i + 1); }
  }

  /** A cut varint cannot be read. */
  lemma CutVarint(bytes: seq<Byte>, n: nat)
    requires IsVarint(bytes) && n < |bytes|
    ensures ReadVarint(bytes[..n]) == None
  {
    NoEnd(bytes, n, 0);
  }

  /** A stream of one cut field is refused exactly when the cut falls inside the head, and otherwise read as empty. */
  lemma CutField(f: Field, n: nat, target: nat)
    requires WellFormed(f) && n < |Whole(f)|
    ensures var r := Scan(Whole(f)[..n], target); if 0 < n < HeadLength(f) then r.Err? else r == Ok(0)
  {
    hide ReadVarint, IsVarint, VarintValue, BodyLength;
    var data := Whole(f)[..n];
    if 0 < n < |f.tag| {
      assert data == f.tag[..n];
      CutVarint(f.tag, n);
    } else if n > 0 {
      var cut := Body(f)[..n - |f.tag|];
      assert data == f.tag + cut;
      ReadsVarint(f.tag, cut);
      ReadWithin(data);
      assert data[|f.tag|..] == cut;
      if n < HeadLength(f) {
        CutHead(f, n - |f.tag|);
      } else {
        CutBody(f, n - |f.tag|);
        assert Scan([], target) == Ok(0);
      }
    }
  }

  lemma CutHead(f: Field, n: nat)
    requires WellFormed(f) && n < HeadLength(f) - |f.tag| && n <= |Body(f)|
    ensures ReadVarint(Body(f)[..n]) == None && BodyLength(Body(f)[..n], WireType(f)).Err?
  {
    hide ReadVarint, IsVarint, VarintValue;
    var varint := if f.VarintField? then f.value else f.length;
    assert Body(f)[..n] == varint[..n];
    CutVarint(varint, n);
  }

  lemma CutBody(f: Field, n: nat)
    requires WellFormed(f) && HeadLength(f) - |f.tag| <= n < |Body(f)|
    ensures BodyLength(Body(f)[..n], WireType(f)) == Ok(|Body(f)|) && !f.VarintField?
  {
    hide ReadVarint, VarintValue;
    if f.LengthDelimited? {
      assert Body(f)[..n] == f.length + f.payload[..n - |f.length|];
      ReadsVarint(f.length, f.payload[..n - |f.length|]);
    }
  }

  /**
   * Every prefix of every well-formed stream: refused exactly when the target was not read before the cut and the cut
   * falls inside a tag, a varint or a length prefix, and otherwise answered from the whole fields before the cut.
   */
  lemma CutStreamExactly(fields: seq<Field>, n: nat, target: nat)
    requires AllWellFormed(fields) && n <= |Stream(fields)|
    ensures var c := CutAt(fields, n);
            var r := Scan(Stream(fields)[..n], target);
            && c.whole <= |fields|
            && var first := FirstValue(fields[..c.whole], target);
               && (r.Err? <==> first.None? && c.whole < |fields| && 0 < c.into < HeadLength(fields[c.whole]))
               && (r.Ok? ==> r.value == VidOf(first))
  {
    hide Scan, Stream, FirstValue, HeadLength, Whole, WellFormed, CutAt;
    var c := CutAt(fields, n);
    CutParts(fields, n);
    var cut := if c.whole < |fields| then Whole(fields[c.whole])[..c.into] else [];
    ScanPasses(fields[..c.whole], cut, target);
    if c.whole < |fields| {
      CutField(fields[c.whole], c.into, target);
    } else {
      EmptyScan(target);
    }
  }

  lemma EmptyScan(target: nat)
    ensures Scan([], target) == Ok(0)
  {
  }

  // ===== Agreement with a full decode =====

  ghost predicate AtMostOnce(fields: seq<Field>, target: nat) {
    forall i, j :: 0 <= i < j < |fields| ==> !(Carries(fields[i], target) && Carries(fields[j], target))
  }

  lemma {:induction false} FirstAt(fields: seq<Field>, target: nat, i: nat)
    requires i < |fields| && Carries(fields[i], target) && forall j :: 0 <= j < i ==> !Carries(fields[j], target)
    ensures FirstValue(fields, target) == Some(VarintValue(fields[i].value))
  {
    if i > 0 { FirstAt(fields[1..], target, i - 1); }
  }

  lemma {:induction false} LastAt(fields: seq<Field>, target: nat, i: nat)
    requires i < |fields| && Carries(fields[i], target) && forall j :: i < j < |fields| ==> !Carries(fields[j], target)
    ensures LastValue(fields, target) == Some(VarintValue(fields[i].value))
  {
    if i < |fields| - 1 { LastAt(fields[..|fields| - 1], target, i); }
  }

  lemma {:induction false} NoneCarries(fields: seq<Field>, target: nat)
    requires forall j :: 0 <= j < |fields| ==> !Carries(fields[j], target)
    ensures FirstValue(fields, target) == None == LastValue(fields, target)
  {
    hide Carries;
    if fields == [] {
    } else {
      NoneCarries(fields[1..], target);
      NoneCarries(fields[..|fields| - 1], target);
    }
  }

  /** With the target at most once, skipping finds what a full decode finds. */
  lemma ScanEqualsDecode(fields: seq<Field>, target: nat)
    requires AllWellFormed(fields) && AtMostOnce(fields, target)
    ensures Scan(Stream(fields), target) == Ok(VidOf(LastValue(fields, target)))
  {
    ScanFindsFirst(fields, target);
    hide Carries, Scan;
    if i :| 0 <= i < |fields| && Carries(fields[i], target) {
      FirstAt(fields, target, i);
      LastAt(fields, target, i);
    } else {
      NoneCarries(fields, target);
    }
  }

  /** In general they agree exactly when the first and the last value of the target are the same vid. */
  lemma ScanAgreesIff(fields: seq<Field>, target: nat)
    requires AllWellFormed(fields)
    ensures Scan(Stream(fields), target) == Ok(VidOf(LastValue(fields, target))) <==>
              FirstValue(fields, target) == LastValue(fields, target)
  {
    hide Carries, Scan, Stream, FirstValue, LastValue, AllWellFormed;
    ScanFindsFirst(fields, target);
    if i :| 0 <= i < |fields| && Carries(fields[i], target) {
      SomeCarries(fields, target, i);
    } else {
      NoneCarries(fields, target);
    }
  }

  lemma {:induction false} SomeCarries(fields: seq<Field>, target: nat, i: nat)
    requires i < |fields| && Carries(fields[i], target)
    ensures FirstValue(fields, target).Some? && FirstValue(fields, target).value < TWO_64
    ensures LastValue(fields, target).Some? && LastValue(fields, target).value < TWO_64
    decreases |fields|
  {
    if !Carries(fields[0], target) { SomeCarries(fields[1..], target, i - 1); }
    if !Carries(fields[|fields| - 1], target) { SomeCarries(fields[..|fields| - 1], target, i); }
  }

  // ===== Edges =====

  function TagOf(number: nat): (tag: seq<Byte>) { EncodeVarint(8 * number) }

  /** A field is left out when it holds its default. */
  function IntField(number: nat, i: int): seq<Field>
    requires IsI64(i)
  {
    if i == 0 then [] else [VarintField(TagOf(number), EncodeVarint(ToWire(i)))]
  }

  const PROTO_MAGIC: Byte := 0xCA

  /** The wire form of an edge: source, destination, then the type, the rank and the properties. */
  function EncodeEdge(src: int, dst: int, others: seq<Field>): seq<Byte>
    requires IsI64(src) && IsI64(dst)
  {
    [PROTO_MAGIC] + Stream(IntField(1, src) + IntField(2, dst) + others)
  }

  /** Well-formed fields for the type, the rank and the properties, beside endpoints that fit. */
  ghost predicate EdgeParts(src: int, dst: int, others: seq<Field>) {
    && IsI64(src) && IsI64(dst)
    && AllWellFormed(others) && forall i :: 0 <= i < |others| ==> Number(others[i]) !in {1, 2}
  }

  /** The destination of every encoded edge, and the first such field of every well-formed stream. */
  method DecodeEdgeDst(data: seq<Byte>, json: seq<Byte> -> Result<int, CodecError>) returns (r: Result<int, CodecError>)
    ensures data == [] ==> r == Err(IncorrectValue("Empty data"))
    ensures data != [] ==> r == if data[0] == 0xCA then Scan(data[1..], 2) else json(data)
    ensures forall fields :: AllWellFormed(fields) && data == [0xCA] + Stream(fields) ==>
              r == Ok(VidOf(FirstValue(fields, 2)))
    ensures forall src, dst, others :: EdgeParts(src, dst, others) && data == EncodeEdge(src, dst, others) ==>
              r == Ok(dst)
  {
    if data == [] { return Err(IncorrectValue("Empty data")); }
    if data[0] == PROTO_MAGIC {
      r := DecodeEdgeVidProto(data[1..], 2);
      StreamsDecode(data, 2, r);
    } else {
      return json(data);
    }
  }

  /** The source of every encoded edge, and the first such field of every well-formed stream. */
  method DecodeEdgeSrc(data: seq<Byte>, json: seq<Byte> -> Result<int, CodecError>) returns (r: Result<int, CodecError>)
    ensures data == [] ==> r == Err(IncorrectValue("Empty data"))
    ensures data != [] ==> r == if data[0] == 0xCA then Scan(data[1..], 1) else json(data)
    ensures forall fields :: AllWellFormed(fields) && data == [0xCA] + Stream(fields) ==>
              r == Ok(VidOf(FirstValue(fields, 1)))
    ensures forall src, dst, others :: EdgeParts(src, dst, others) && data == EncodeEdge(src, dst, others) ==>
              r == Ok(src)
  {
    if data == [] { return Err(IncorrectValue("Empty data")); }
    if data[0] == PROTO_MAGIC {
      r := DecodeEdgeVidProto(data[1..], 1);
      StreamsDecode(data, 1, r);
    } else {
      return json(data);
    }
  }

  lemma StreamsDecode(data: seq<Byte>, target: nat, r: Result<int, CodecError>)
    requires data != [] && target in {1, 2} && r == Scan(data[1..], target)
    ensures forall fields :: AllWellFormed(fields) && data == [PROTO_MAGIC] + Stream(fields) ==>
              r == Ok(VidOf(FirstValue(fields, target)))
    ensures forall src, dst, others :: EdgeParts(src, dst, others) && data == EncodeEdge(src, dst, others) ==>
              r == Ok(if target == 1 then src else dst)
  {
    hide Scan, AllWellFormed, FirstValue, Stream, EncodeEdge;
    forall fields | AllWellFormed(fields) && data == [PROTO_MAGIC] + Stream(fields)
      ensures r == Ok(VidOf(FirstValue(fields, target)))
    {
      assert data[1..] == Stream(fields);
      ScanFindsFirst(fields, target);
    }
    forall src, dst, others | EdgeParts(src, dst, others) && data == EncodeEdge(src, dst, others)
      ensures r == Ok(if target == 1 then src else dst)
    {
      EdgeVidsRoundTrip(src, dst, others);
    }
  }

  lemma IntFieldCarries(number: nat, i: int)
    requires IsI64(i) && i != 0 && number in {1, 2}
    ensures var f := IntField(number, i)[0]; WellFormed(f) && Number(f) == number && VarintValue(f.value) == ToWire(i)
  {
    hide EncodeVarint, ReadVarint, VarintValue, IsVarint;
    VarintRoundTrip(8 * number, []);
    VarintRoundTrip(ToWire(i), []);
  }

  lemma {:induction false} FirstSkips(a: seq<Field>, b: seq<Field>, target: nat)
    requires forall i :: 0 <= i < |a| ==> !Carries(a[i], target)
    ensures FirstValue(a + b, target) == FirstValue(b, target)
  {
    if a == [] {
      assert a + b == b;
    } else {
      FirstSkips(a[1..], b, target);
      assert (a + b)[1..] == a[1..] + b;
    }
  }

  lemma FirstOfEdge(src: int, dst: int, others: seq<Field>, target: nat)
    requires EdgeParts(src, dst, others) && target in {1, 2}
    ensures var fields := IntField(1, src) + IntField(2, dst) + others;
            AllWellFormed(fields) && VidOf(FirstValue(fields, target)) == if target == 1 then src else dst
  {
    hide WellFormed, Number, VarintValue, FirstValue, LastValue, IntField;
    var one, two := IntField(1, src), IntField(2, dst);
    IntFieldIs(1, src);
    IntFieldIs(2, dst);
    NoneCarries(others, target);
    assert one + two + others == one + (two + others);
    if target == 1 {
      if src != 0 {
        FirstAt(one + (two + others), 1, 0);
      } else {
        FirstSkips(two, others, 1);
        assert one + (two + others) == two + others;
      }
    } else {
      FirstSkips(one, two + others, 2);
      if dst != 0 {
        FirstAt(two + others, 2, 0);
      } else {
        assert two + others == others;
      }
    }
  }

  lemma IntFieldIs(number: nat, i: int)
    requires IsI64(i) && number in {1, 2}
    ensures var fs := IntField(number, i);
            && (i == 0 ==> fs == [])
            && (i != 0 ==> |fs| == 1 && WellFormed(fs[0]) && fs[0].VarintField? && Number(fs[0]) == number)
            && (i != 0 ==> FromWire(VarintValue(fs[0].value)) == i)
  {
    if i != 0 { IntFieldCarries(number, i); }
  }

  /** A repeated field: the scanner answers with the first value, a full decode with the last. */
  lemma RepeatedFieldDiffers()
    ensures var fields := IntField(2, 5) + IntField(2, 7);
            AllWellFormed(fields) && Scan(Stream(fields), 2) == Ok(5) && VidOf(LastValue(fields, 2)) == 7
  {
    hide WellFormed, Number, VarintValue, FirstValue, LastValue, IntField, Scan, Stream;
    IntFieldIs(2, 5);
    IntFieldIs(2, 7);
    var fields := IntField(2, 5) + IntField(2, 7);
    ScanFindsFirst(fields, 2);
    FirstAt(fields, 2, 0);
    LastAt(fields, 2, 1);
  }

  /** The fast path reads back the endpoints of every encoded edge, negative ones included. */
  lemma EdgeVidsRoundTrip(src: int, dst: int, others: seq<Field>)
    requires EdgeParts(src, dst, others)
    ensures var data := EncodeEdge(src, dst, others);
            data[0] == PROTO_MAGIC && Scan(data[1..], 1) == Ok(src) && Scan(data[1..], 2) == Ok(dst)
  {
    var fields := IntField(1, src) + IntField(2, dst) + others;
    FirstOfEdge(src, dst, others, 1);
    FirstOfEdge(src, dst, others, 2);
    ScanFindsFirst(fields, 1);
    ScanFindsFirst(fields, 2);
    assert EncodeEdge(src, dst, others)[1..] == Stream(fields);
  }
}
