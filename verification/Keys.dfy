/** The key builders of the data keyspace, as the executor and the bulk loader both write them. */
module Keys {
  import opened Bytes
  import opened Text

  function VertexKey(space: string, vid: int): string { space + ":vertex:" + Decimal(vid) }

  function TagVidKey(space: string, tag: string, vid: int): string {
    space + ":tagvid:" + (tag + ":" + Decimal(vid))
  }

  function EdgePrefix(space: string): string { space + ":edge:" }

  function InEdgePrefix(space: string): string { space + ":in-edge:" }

  function EdgeSrcPrefix(space: string, src: int): string { EdgePrefix(space) + (Decimal(src) + ":") }

  function InEdgeDstPrefix(space: string, dst: int): string { InEdgePrefix(space) + (Decimal(dst) + ":") }

  /** What follows the keyspace prefix: the grouping vertex, the type, the far vertex and the rank. */
  function EdgeTail(near: int, edgeType: string, far: int, rank: int): string {
    Decimal(near) + ":" + (edgeType + ":" + (Decimal(far) + ":" + Decimal(rank)))
  }

  function EdgeKey(space: string, src: int, edgeType: string, dst: int, rank: int): string {
    EdgePrefix(space) + EdgeTail(src, edgeType, dst, rank)
  }

  function InEdgeKey(space: string, dst: int, edgeType: string, src: int, rank: int): string {
    InEdgePrefix(space) + EdgeTail(dst, edgeType, src, rank)
  }

  function CounterPrefix(space: string, isIn: bool): string {
    space + (if isIn then ":indeg:" else ":outdeg:")
  }

  function CounterKey(space: string, isIn: bool, edgeType: string, vid: int): string {
    CounterPrefix(space, isIn) + (edgeType + ":" + Decimal(vid))
  }

  /** The segments of every key, when none of them contains the separator. */
  lemma KeyFormats(space: string, name: string, a: int, b: int, rank: int)
    requires IsSegment(space) && IsSegment(name)
    ensures Split(VertexKey(space, a)) == [space, "vertex", Decimal(a)]
    ensures Split(TagVidKey(space, name, a)) == [space, "tagvid", name, Decimal(a)]
    ensures Split(EdgeKey(space, a, name, b, rank)) == [space, "edge", Decimal(a), name, Decimal(b), Decimal(rank)]
    ensures Split(InEdgeKey(space, b, name, a, rank)) ==
              [space, "in-edge", Decimal(b), name, Decimal(a), Decimal(rank)]
    ensures Split(CounterKey(space, true, name, a)) == [space, "indeg", name, Decimal(a)]
    ensures Split(CounterKey(space, false, name, a)) == [space, "outdeg", name, Decimal(a)]
    ensures Split(ReverseKey(space, a)) == [space, "vid-rev", Decimal(a)]
  {
    hide Split, Decimal;
    TwoSegments(space, ":vertex:", "vertex", Decimal(a));
    TwoSegments(space, ":tagvid:", "tagvid", name + ":" + Decimal(a));
    TwoSegments(space, ":indeg:", "indeg", name + ":" + Decimal(a));
    TwoSegments(space, ":outdeg:", "outdeg", name + ":" + Decimal(a));
    TwoSegments(space, ":vid-rev:", "vid-rev", Decimal(a));
    SplitHead(name, Decimal(a));
    SplitSegment(Decimal(a));
    TwoSegments(space, ":edge:", "edge", EdgeTail(a, name, b, rank));
    TwoSegments(space, ":in-edge:", "in-edge", EdgeTail(b, name, a, rank));
    TailFormat(a, name, b, rank);
    TailFormat(b, name, a, rank);
  }

  lemma TwoSegments(space: string, mark: string, kind: string, rest: string)
    requires IsSegment(space) && IsSegment(kind) && mark == ":" + kind + ":"
    ensures Split(space + mark + rest) == [space, kind] + Split(rest)
  {
    hide Split;
    assert space + mark + rest == space + ":" + (kind + ":" + rest);
    SplitHead(space, kind + ":" + rest);
    SplitHead(kind, rest);
  }

  lemma TailFormat(near: int, name: string, far: int, rank: int)
    requires IsSegment(name)
    ensures Split(EdgeTail(near, name, far, rank)) == [Decimal(near), name, Decimal(far), Decimal(rank)]
  {
    hide Split, Decimal;
    SplitHead(Decimal(near), name + ":" + (Decimal(far) + ":" + Decimal(rank)));
    SplitHead(name, Decimal(far) + ":" + Decimal(rank));
    SplitHead(Decimal(far), Decimal(rank));
    SplitSegment(Decimal(rank));
  }

  // ===== The string-VID mapping =====

  function HexDigit(d: nat): (c: char)
    requires d < 16
  {
    "0123456789abcdef"[d]
  }

  lemma HexDigitInjective(d: nat, e: nat)
    requires d < 16 && e < 16 && HexDigit(d) == HexDigit(e)
    ensures d == e
  {
  }

  function EncodeComponent(value: seq<Byte>): string {
    if value == [] then "" else [HexDigit(value[0] / 16), HexDigit(value[0] % 16)] + EncodeComponent(value[1..])
  }

  ghost function HexValue(c: char): int {
    if '0' <= c <= '9' then c as int - '0' as int else c as int - 'a' as int + 10
  }

  /** Each byte is two lower-case hexadecimal digits, the high one first. */
  lemma {:induction false} EncodeComponentExactly(value: seq<Byte>, i: nat)
    ensures |EncodeComponent(value)| == 2 * |value|
    ensures i < |value| ==>
              var (high, low) := (EncodeComponent(value)[2 * i], EncodeComponent(value)[2 * i + 1]);
              && ('0' <= high <= '9' || 'a' <= high <= 'f') && ('0' <= low <= '9' || 'a' <= low <= 'f')
              && value[i] == 16 * HexValue(high) + HexValue(low)
  {
    if value != [] {
      EncodeComponentExactly(value[1..], if i == 0 then 0 else i - 1);
      HexDigitExactly(value[0] / 16);
      HexDigitExactly(value[0] % 16);
      hide HexDigit, HexValue;
    }
  }

  lemma HexDigitExactly(d: nat)
    requires d < 16
    ensures var c := HexDigit(d); HexValue(c) == d && ('0' <= c <= '9' || 'a' <= c <= 'f')
  {
  }

  lemma {:induction false} EncodeComponentInjective(a: seq<Byte>, b: seq<Byte>)
    requires EncodeComponent(a) == EncodeComponent(b)
    ensures a == b
  {
    if a != [] && b != [] {
      var ea, eb := EncodeComponent(a), EncodeComponent(b);
      assert ea[0] == eb[0] && ea[1] == eb[1] && ea[2..] == eb[2..];
      HexDigitInjective(a[0] / 16, b[0] / 16);
      HexDigitInjective(a[0] % 16, b[0] % 16);
      EncodeComponentInjective(a[1..], b[1..]);
      assert a == [a[0]] + a[1..] && b == [b[0]] + b[1..];
    }
  }

  function ForwardKey(space: string, value: seq<Byte>): string { space + ":vid-map:" + EncodeComponent(value) }

  function ReverseKey(space: string, vid: int): string { space + ":vid-rev:" + Decimal(vid) }

  predicate IsMappingKey(space: string, key: string) { space + ":vid-map:" <= key || space + ":vid-rev:" <= key }

  lemma ForwardKeyFormat(space: string, value: seq<Byte>)
    requires IsSegment(space)
    ensures Split(ForwardKey(space, value)) == [space, "vid-map", EncodeComponent(value)]
  {
    var hex := EncodeComponent(value);
    forall j | 0 <= j < |hex| ensures hex[j] != ':' { EncodeComponentExactly(value, j / 2); }
    hide Split, EncodeComponent;
    TwoSegments(space, ":vid-map:", "vid-map", hex);
    SplitSegment(hex);
  }

  lemma ForwardKeyInjective(space: string, a: seq<Byte>, b: seq<Byte>)
    requires ForwardKey(space, a) == ForwardKey(space, b)
    ensures a == b
  {
    ConcatCancels(space + ":vid-map:", EncodeComponent(a), EncodeComponent(b));
    EncodeComponentInjective(a, b);
  }

  lemma ReverseKeyInjective(space: string, i: int, j: int)
    requires IsI64(i) && IsI64(j) && ReverseKey(space, i) == ReverseKey(space, j)
    ensures i == j
  {
    ConcatCancels(space + ":vid-rev:", Decimal(i), Decimal(j));
    DecimalInjective(i, j);
  }

  lemma ForwardIsNotReverse(space: string, value: seq<Byte>, i: int)
    ensures ForwardKey(space, value) != ReverseKey(space, i)
  {
    assert ForwardKey(space, value)[|space| + 5] == 'm';
    assert ReverseKey(space, i)[|space| + 5] == 'r';
  }

  /** Mapping keys are neither vertex keys nor edge keys of the same space. */
  lemma MappingKeysStandApart(space: string, key: string, i: int)
    requires IsMappingKey(space, key)
    ensures key != VertexKey(space, i)
    ensures !(EdgeSrcPrefix(space, i) <= key) && !(InEdgeDstPrefix(space, i) <= key)
  {
    assert key[|space| + 1] == 'v' && key[|space| + 2] == 'i';
    assert VertexKey(space, i)[|space| + 2] == 'e';
    assert EdgeSrcPrefix(space, i)[|space| + 1] == 'e';
    assert InEdgeDstPrefix(space, i)[|space| + 1] == 'i';
  }

  lemma BuildersMakeMappingKeys(space: string, value: seq<Byte>, i: int)
    ensures IsMappingKey(space, ForwardKey(space, value)) && IsMappingKey(space, ReverseKey(space, i))
  {
  }

  lemma VertexKeyStandsApart(space: string, i: int, j: int)
    requires IsI64(i) && IsI64(j)
    ensures VertexKey(space, i) == VertexKey(space, j) ==> i == j
    ensures !(EdgeSrcPrefix(space, j) <= VertexKey(space, i)) && !(InEdgeDstPrefix(space, j) <= VertexKey(space, i))
  {
    if VertexKey(space, i) == VertexKey(space, j) {
      ConcatCancels(space + ":vertex:", Decimal(i), Decimal(j));
      DecimalInjective(i, j);
    }
    assert VertexKey(space, i)[|space| + 1] == 'v';
    assert EdgeSrcPrefix(space, j)[|space| + 1] == 'e';
    assert InEdgeDstPrefix(space, j)[|space| + 1] == 'i';
  }
}
