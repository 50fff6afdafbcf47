/** Writing rows column by column, and reading them back under their own schema or a later one. */
module RowCodec {
  import opened Prelude
  import opened Bytes
  import opened RowFormat

  // ===== The version header =====

  const ENCODING_VERSION: Byte := 8

  predicate IsI32(v: int) { -0x8000_0000 <= v < 0x8000_0000 }

  function VersionWidth(version: int): (w: nat)
    ensures 1 <= w <= 4
  {
    var v := if version < 0 then -version else version;
    if v < 0x80 then 1 else if v < 0x8000 then 2 else if v < 0x80_0000 then 3 else 4
  }

  /** The fewest bytes, up to four, whose upper half of values is left for the sign. */
  lemma WidthExactly(version: int)
    requires IsI32(version)
    ensures var w := VersionWidth(version);
            && (w < 4 ==> 0 - Pow256(w) < 2 * version < Pow256(w))
            && (w > 1 ==> !(0 - Pow256(w - 1) < 2 * version < Pow256(w - 1)))
  {
    Pow256Values();
    hide Pow256;
  }

  /** The low-order bytes of the version in two's complement. */
  function VersionBytes(version: int): (bs: seq<Byte>)
    requires IsI32(version)
    ensures |bs| == VersionWidth(version)
  {
    Pow256Values();
    BigEndian(ToUnsigned(version, 4), VersionWidth(version))
  }

  lemma DivPow(u: nat, k: nat)
    ensures u / Pow256(k) / 256 == u / Pow256(k + 1)
  {
    DivDiv(u, Pow256(k));
  }

  lemma DivDiv(u: nat, p: nat)
    requires p > 0
    ensures u / p / 256 == u / (256 * p)
  {
    var q := u / p;
    var rest := q % 256 * p + u % p;
    Decompose(u, p);
    Decompose(q, 256);
    RegroupBytes(q / 256, q % 256, p);
    BelowProduct(q % 256, p, u % p);
    DivUnique(u, 256 * p, q / 256, rest);
  }

  lemma RegroupBytes(a: nat, b: nat, p: nat)
    ensures (a * 256 + b) * p == a * (256 * p) + b * p
  {
  }

  lemma BelowProduct(d: nat, p: nat, r: nat)
    requires d < 256 && r < p
    ensures d * p + r < 256 * p
  {
    assert d * p <= 255 * p;
  }

  method WriteSchemaVersion(version: int) returns (out: seq<Byte>)
    requires IsI32(version)
    ensures out == VersionBytes(version)
  {
    hide BigEndian, Pow256;
    Pow256Values();
    var u: nat := ToUnsigned(version, 4);
    var bytes := VersionWidth(version);
    out := [];
    Nothing(u / Pow256(bytes));
    for i := 0 to bytes
      invariant out == BigEndian(u / Pow256(bytes - i), i)
    {
      var shift := bytes - 1 - i;
      DivPow(u, shift);
      OneByteMore(u / Pow256(shift), i);
      out := out + [u / Pow256(shift) % 256];
    }
    assert Pow256(0) == 1;
  }

  lemma Nothing(n: nat)
    ensures BigEndian(n, 0) == []
  {
  }

  lemma OneByteMore(n: nat, i: nat)
    ensures BigEndian(n, i + 1) == BigEndian(n / 256, i) + [n % 256]
  {
  }

  /** `(v << 8) | byte` on 32 bits. */
  function ReadVersion(bytes: seq<Byte>): int {
    if bytes == [] then 0 else Wrap32(ReadVersion(bytes[..|bytes| - 1]) * 256 + bytes[|bytes| - 1])
  }

  function Wrap32(v: int): (r: int)
    ensures IsI32(r) && (v - r) % 0x1_0000_0000 == 0
  {
    var u := v % 0x1_0000_0000;
    if u >= 0x8000_0000 then u - 0x1_0000_0000 else u
  }

  method ReadSchemaVersion(data: seq<Byte>, width: nat) returns (v: int)
    requires 1 + width <= |data|
    ensures v == ReadVersion(data[1..1 + width])
  {
    v := 0;
    for i := 0 to width
      invariant v == ReadVersion(data[1..1 + i])
    {
      assert data[1..1 + i + 1][..i] == data[1..1 + i];
      v := Wrap32(v * 256 + data[1 + i]);
    }
  }

  lemma {:induction false} ReadIsBigEndian(bytes: seq<Byte>)
    ensures ReadVersion(bytes) == Wrap32(FromBigEndian(bytes))
  {
    if bytes == [] {
    } else {
      var prior := bytes[..|bytes| - 1];
      ReadIsBigEndian(prior);
      WrapStep(FromBigEndian(prior), bytes[|bytes| - 1]);
    }
  }

  lemma WrapStep(v: int, b: Byte)
    ensures Wrap32(Wrap32(v) * 256 + b) == Wrap32(v * 256 + b)
  {
    var k := v / 0x1_0000_0000;
    assert v == k * 0x1_0000_0000 + v % 0x1_0000_0000;
    var k' := if v % 0x1_0000_0000 >= 0x8000_0000 then k + 1 else k;
    assert v == Wrap32(v) + k' * 0x1_0000_0000;
    WrapIgnoresMultiples(Wrap32(v) * 256 + b, k' * 256);
  }

  lemma WrapIgnoresMultiples(v: int, k: int)
    ensures Wrap32(v + k * 0x1_0000_0000) == Wrap32(v)
  {
    var q, r := v / 0x1_0000_0000, v % 0x1_0000_0000;
    assert v + k * 0x1_0000_0000 == (q + k) * 0x1_0000_0000 + r;
  }

  lemma {:induction false} LowBytes(n: nat, width: nat)
    ensures FromBigEndian(BigEndian(n, width)) == n % Pow256(width)
  {
    if width == 0 {
    } else {
      LowBytes(n / 256, width - 1);
      assert BigEndian(n, width)[..width - 1] == BigEndian(n / 256, width - 1);
      ModStep(n, Pow256(width - 1));
    }
  }

  lemma ModStep(n: nat, p: nat)
    requires p > 0
    ensures n % (256 * p) == n / 256 % p * 256 + n % 256
  {
    var m := n / 256;
    var q, r := m / p, m % p;
    Decompose(m, p);
    assert q * p * 256 == q * (256 * p);
    DivUnique(n, 256 * p, q, r * 256 + n % 256);
  }

  /** A schema version reads back exactly when it is not negative, or so negative that it takes all four bytes. */
  lemma VersionReadsBackIff(version: int)
    requires IsI32(version)
    ensures ReadVersion(VersionBytes(version)) == version <==> version >= 0 || version <= -0x80_0000
  {
    hide BigEndian, FromBigEndian, Pow256, ReadVersion;
    Pow256Values();
    var u: nat := ToUnsigned(version, 4);
    LowBytes(u, VersionWidth(version));
    ReadIsBigEndian(VersionBytes(version));
  }

  // ===== What a row looks like =====

  /** The fixed bytes of the first `k` columns: a NULL writes none. */
  function FixedArea(ps: seq<PropertyDef>, values: seq<Value>, parse: Parsers, k: nat): seq<Byte>
    requires k <= |ps| == |values|
  {
    if k == 0 then []
    else FixedArea(ps, values, parse, k - 1) + CellOf(ps, values, parse, k - 1)
  }

  function CellOf(ps: seq<PropertyDef>, values: seq<Value>, parse: Parsers, i: nat): seq<Byte>
    requires i < |ps| == |values|
  {
    var cell := FixedPart(ps[i].propType, values[i], |VarArea(ps, values, i)|, parse);
    if values[i].Null? || cell.Err? then [] else cell.value
  }

  function VarArea(ps: seq<PropertyDef>, values: seq<Value>, k: nat): seq<Byte>
    requires k <= |ps| == |values|
  {
    if k == 0 then [] else VarArea(ps, values, k - 1) + VarPart(ps[k - 1].propType, values[k - 1])
  }

  function FlagArea(s: Schema, values: seq<Value>, k: nat): (flags: seq<Byte>)
    requires k <= |values|
    ensures |flags| == NullFlagsSize(s)
  {
    if k == 0 then Zeros(NullFlagsSize(s)) else Flagged(FlagArea(s, values, k - 1), k - 1, values[k - 1].Null?)
  }

  /** The column takes the value. */
  ghost predicate Accepts(p: PropertyDef, v: Value, parse: Parsers) {
    if v.Null? then p.nullable else Takes(p.propType, v, parse)
  }

  /** What is wrong with a value that the column does not take. */
  ghost function Refusal(p: PropertyDef, v: Value): CodecError {
    if v.Null? then NotNullable(p.name)
    else if !HasKind(p.propType, v) then BadType
    else match p.propType
         case DateType => IncorrectValue(NotADate)
         case DateTimeType => IncorrectValue(NotADateTime)
         case _ => OutOfRange
  }

  ghost predicate AllAccepted(ps: seq<PropertyDef>, values: seq<Value>, parse: Parsers, k: nat)
    requires k <= |ps| == |values|
  {
    forall i :: 0 <= i < k ==> Accepts(ps[i], values[i], parse)
  }

  function Header(version: int): (h: seq<Byte>)
    requires IsI32(version)
    ensures |h| == 1 + VersionWidth(version)
  {
    [ENCODING_VERSION + VersionWidth(version)] + VersionBytes(version)
  }

  function RowOf(s: Schema, values: seq<Value>, parse: Parsers): seq<Byte>
    requires IsI32(s.version) && |values| == |s.properties|
  {
    var n := |values|;
    Header(s.version) + FlagArea(s, values, n) + FixedArea(s.properties, values, parse, n) +
    VarArea(s.properties, values, n)
  }

  // ===== The writer =====

  class RowWriter {
    const schema: Schema
    const parse: Parsers
    var buffer: seq<Byte>
    var nullFlags: seq<Byte>
    var varData: seq<Byte>
    var valuesSet: seq<bool>

    ghost predicate Valid()
      reads this
    {
      |valuesSet| == |schema.properties| && |nullFlags| == NullFlagsSize(schema)
    }

    constructor (schema: Schema, parse: Parsers)
      ensures Valid() && this.schema == schema && this.parse == parse
      ensures buffer == [] && varData == [] && nullFlags == Zeros(NullFlagsSize(schema)) &&
        forall i :: 0 <= i < |valuesSet| ==> !valuesSet[i]
    {
      this.schema, this.parse := schema, parse;
      buffer, varData, nullFlags := [], [], Zeros(NullFlagsSize(schema));
      valuesSet := seq(|schema.properties|, _ => false);
    }

    method SetValue(index: nat, value: Value) returns (e: Option<CodecError>)
      requires Valid()
      modifies this
      ensures Valid()
      ensures index >= |schema.properties| ==> e == Some(UnknownField(index)) && valuesSet == old(valuesSet)
      ensures index < |schema.properties| ==> valuesSet == old(valuesSet)[index := true]
      ensures index < |schema.properties| && e.None? ==> Accepts(schema.properties[index], value, parse)
      ensures index < |schema.properties| && Accepts(schema.properties[index], value, parse) ==> e.None?
      ensures index < |schema.properties| && e.Some? ==> e.value == Refusal(schema.properties[index], value)
      ensures e.None? && value.Null? ==> buffer == old(buffer) && varData == old(varData)
      ensures e.None? && !value.Null? ==>
                var cell := FixedPart(schema.properties[index].propType, value, |old(varData)|, parse);
                && cell.Ok? && buffer == old(buffer) + cell.value
                && varData == old(varData) + VarPart(schema.properties[index].propType, value)
      ensures e.None? ==> nullFlags == Flagged(old(nullFlags), index, value.Null?)
      ensures e.Some? ==> buffer == old(buffer) && varData == old(varData)
    {
      hide Takes, HasKind, FixedPart;
      if index >= |schema.properties| { return Some(UnknownField(index)); }
      var prop := schema.properties[index];
      valuesSet := valuesSet[index := true];
      if value.Null? {
        if !prop.nullable { return Some(NotNullable(prop.name)); }
        nullFlags := Flagged(nullFlags, index, true);
        return None;
      }
      nullFlags := Flagged(nullFlags, index, false);
      TakesExactly(prop.propType, value, |varData|, parse);
      var cell := FixedPart(prop.propType, value, |varData|, parse);
      if cell.Err? { return Some(cell.error); }
      buffer := buffer + cell.value;
      varData := varData + VarPart(prop.propType, value);
      return None;
    }

    ghost predicate IsFirstUnset(i: nat)
      requires Valid() && i < |valuesSet|
      reads this
    {
      && !valuesSet[i] && !schema.properties[i].nullable
      && forall j :: 0 <= j < i ==> valuesSet[j] || schema.properties[j].nullable
    }

    method Encode() returns (r: Result<seq<Byte>, CodecError>)
      requires Valid() && IsI32(schema.version)
      ensures r.Ok? <==> forall i :: 0 <= i < |valuesSet| ==> valuesSet[i] || schema.properties[i].nullable
      ensures r.Ok? ==> r.value == Header(schema.version) + nullFlags + buffer + varData
      ensures r.Err? ==> exists i ::
                0 <= i < |valuesSet| && IsFirstUnset(i) && r.error == FieldUnset(schema.properties[i].name)
    {
      for i := 0 to |schema.properties|
        invariant forall j :: 0 <= j < i ==> valuesSet[j] || schema.properties[j].nullable
      {
        if !valuesSet[i] && !schema.properties[i].nullable { return Err(FieldUnset(schema.properties[i].name)); }
      }
      var result: seq<Byte> := [ENCODING_VERSION + VersionWidth(schema.version)];
      var version := WriteSchemaVersion(schema.version);
      result := result + version;
      result := result + nullFlags;
      result := result + buffer;
      result := result + varData;
      return Ok(result);
    }
  }

  /** The three areas as they are after `i` columns. */
  ghost predicate WrittenSoFar(s: Schema, values: seq<Value>, parse: Parsers, i: nat, buffer: seq<Byte>,
                               varData: seq<Byte>, nullFlags: seq<Byte>)
    requires i <= |values| == |s.properties|
  {
    && buffer == FixedArea(s.properties, values, parse, i) && varData == VarArea(s.properties, values, i)
    && nullFlags == FlagArea(s, values, i)
  }

  lemma NothingWritten(s: Schema, values: seq<Value>, parse: Parsers)
    requires |values| == |s.properties|
    ensures WrittenSoFar(s, values, parse, 0, [], [], Zeros(NullFlagsSize(s)))
  {
  }

  lemma OneMoreWritten(s: Schema, values: seq<Value>, parse: Parsers, i: nat, buffer: seq<Byte>, varData: seq<Byte>,
                       nullFlags: seq<Byte>)
    requires i < |values| == |s.properties| && WrittenSoFar(s, values, parse, i, buffer, varData, nullFlags)
    ensures var (t, v) := (s.properties[i].propType, values[i]);
            var cell := FixedPart(t, v, |varData|, parse);
            cell.Ok? || v.Null? ==>
              WrittenSoFar(s, values, parse, i + 1, if v.Null? then buffer else buffer + cell.value,
                           if v.Null? then varData else varData + VarPart(t, v), Flagged(nullFlags, i, v.Null?))
  {
    hide FixedPart, Flagged;
    NullHasNoTail(s.properties[i].propType, values[i]);
  }

  lemma AllWritten(s: Schema, values: seq<Value>, parse: Parsers, buffer: seq<Byte>, varData: seq<Byte>,
                   nullFlags: seq<Byte>)
    requires IsI32(s.version) && |values| == |s.properties|
    requires WrittenSoFar(s, values, parse, |values|, buffer, varData, nullFlags)
    ensures Header(s.version) + nullFlags + buffer + varData == RowOf(s, values, parse)
  {
  }

  /** Set every column once, in order, and encode. */
  method WriteRow(s: Schema, values: seq<Value>, parse: Parsers) returns (r: Result<seq<Byte>, CodecError>)
    requires IsI32(s.version) && |values| == |s.properties|
    ensures r.Ok? <==> AllAccepted(s.properties, values, parse, |values|)
    ensures r.Ok? ==> r.value == RowOf(s, values, parse)
    ensures r.Err? ==> exists i ::
              && 0 <= i < |values| && AllAccepted(s.properties, values, parse, i)
              && !Accepts(s.properties[i], values[i], parse) && r.error == Refusal(s.properties[i], values[i])
  {
    hide FixedPart, VarPart, Flagged, Accepts, WrittenSoFar, RowOf, Header, NullFlagsSize, Zeros, Refusal;
    var w := new RowWriter(s, parse);
    NothingWritten(s, values, parse);
    for i := 0 to |values|
      invariant w.Valid() && w.schema == s && w.parse == parse && AllAccepted(s.properties, values, parse, i)
      invariant WrittenSoFar(s, values, parse, i, w.buffer, w.varData, w.nullFlags)
      invariant forall j :: 0 <= j < i ==> w.valuesSet[j]
    {
      OneMoreWritten(s, values, parse, i, w.buffer, w.varData, w.nullFlags);
      var e := w.SetValue(i, values[i]);
      if e.Some? { return Err(e.value); }
    }
    AllWritten(s, values, parse, w.buffer, w.varData, w.nullFlags);
    r := w.Encode();
  }

  lemma NullHasNoTail(t: PropertyType, v: Value)
    ensures v.Null? ==> VarPart(t, v) == []
  {
  }

  // ===== Readers =====

  /** `header & 0b00011000`, and `header & 0b00000111`. */
  function HeaderVersion(h: Byte): (v: nat)
    ensures v in {0, 8, 16, 24}
  {
    h / 8 % 4 * 8
  }

  function HeaderWidth(h: Byte): (w: nat)
    ensures w < 8
  {
    h % 8
  }

  /** The size of the header, if the data has one. */
  function ParseHeader(data: seq<Byte>): (r: Result<nat, CodecError>)
    ensures r.Ok? ==> 2 <= r.value <= |data|
  {
    if data == [] then Err(IncorrectValue(EmptyData))
    else if HeaderVersion(data[0]) != ENCODING_VERSION then Err(InvalidEncodingVersion(HeaderVersion(data[0])))
    else if HeaderWidth(data[0]) == 0 then Err(IncorrectValue(NoVersion))
    else if |data| < 1 + HeaderWidth(data[0]) then Err(IncorrectValue(ShortHeader))
    else Ok(1 + HeaderWidth(data[0]))
  }

  /** In the first byte the three high bits are ignored, the next two are the format, the rest the version's width. */
  lemma HeaderExactly(data: seq<Byte>, high: nat, format: nat, width: nat)
    requires data != [] && high < 8 && format < 4 && width < 8 && data[0] == 32 * high + 8 * format + width
    ensures ParseHeader([]) == Err(IncorrectValue(EmptyData))
    ensures ParseHeader(data) ==
              if format != 1 then Err(InvalidEncodingVersion(8 * format))
              else if width == 0 then Err(IncorrectValue(NoVersion))
              else if |data| <= width then Err(IncorrectValue(ShortHeader))
              else Ok(1 + width)
  {
    assert data[0] / 8 == 4 * high + format && data[0] % 8 == width;
  }

  /** Column `index` of a row written under `s`. */
  function ReadColumn(s: Schema, data: seq<Byte>, header: nat, index: nat,
                      isText: seq<Byte> -> bool): Result<Value, CodecError> {
    if index >= |s.properties| then Err(UnknownField(index))
    else if header + index / 8 >= |data| then Err(IncorrectValue(FlagOutOfBounds))
    else if TestBit(data[header + index / 8], index % 8) then Ok(Null)
    else
      var start := header + NullFlagsSize(s);
      ReadCell(s.properties[index].propType, data, start + FixedOffset(s.properties, index), start + FixedDataSize(s),
               isText)
  }

  method ReadValueFromRow(s: Schema, data: seq<Byte>, header: nat, index: nat,
                          isText: seq<Byte> -> bool) returns (r: Result<Value, CodecError>)
    ensures r == ReadColumn(s, data, header, index, isText)
  {
    hide ReadCell, TestBit, NullFlagsSize, Size;
    if index >= |s.properties| { return Err(UnknownField(index)); }
    if header + index / 8 >= |data| { return Err(IncorrectValue(FlagOutOfBounds)); }
    if TestBit(data[header + index / 8], index % 8) { return Ok(Null); }
    var offset := header + NullFlagsSize(s);
    for i := 0 to index
      invariant offset == header + NullFlagsSize(s) + FixedOffset(s.properties, i)
    {
      offset := offset + Size(s.properties[i].propType);
    }
    return ReadCell(s.properties[index].propType, data, offset, header + NullFlagsSize(s) + FixedDataSize(s), isText);
  }

  // ===== Rows read back =====

  lemma {:induction false} FlagsRecordNulls(s: Schema, values: seq<Value>, k: nat, j: nat)
    requires k <= |values| && j / 8 < NullFlagsSize(s)
    ensures IsFlagged(FlagArea(s, values, k), j) <==> j < k && values[j].Null?
  {
    if k == 0 {
      ZeroHasNoBits(j % 8);
    } else {
      FlagsRecordNulls(s, values, k - 1, j);
      FlaggedTests(FlagArea(s, values, k - 1), k - 1, values[k - 1].Null?, j);
    }
  }

  /** Among the first `k` columns, a NULL leaves no gap: its column takes no fixed bytes anyway. */
  ghost predicate NoGaps(ps: seq<PropertyDef>, values: seq<Value>, k: nat)
    requires k <= |ps| == |values|
  {
    forall i :: 0 <= i < k && values[i].Null? ==> Size(ps[i].propType) == 0
  }

  lemma CellSize(ps: seq<PropertyDef>, values: seq<Value>, parse: Parsers, i: nat)
    requires i < |ps| == |values| && Accepts(ps[i], values[i], parse) && !values[i].Null?
    ensures var at := |VarArea(ps, values, i)|;
            FixedPart(ps[i].propType, values[i], at, parse) == Ok(CellOf(ps, values, parse, i)) &&
              |CellOf(ps, values, parse, i)| == Size(ps[i].propType)
  {
    TakesExactly(ps[i].propType, values[i], |VarArea(ps, values, i)|, parse);
    FixedPartSize(ps[i].propType, values[i], |VarArea(ps, values, i)|, parse);
  }

  /** The columns before `k` end where the reader looks for column `k` exactly if no NULL among them left a gap. */
  lemma {:induction false} ColumnsLineUp(ps: seq<PropertyDef>, values: seq<Value>, parse: Parsers, k: nat)
    requires k <= |ps| == |values| && AllAccepted(ps, values, parse, k)
    ensures |FixedArea(ps, values, parse, k)| <= FixedOffset(ps, k)
    ensures |FixedArea(ps, values, parse, k)| == FixedOffset(ps, k) <==> NoGaps(ps, values, k)
  {
    hide CellOf, Accepts, FixedPart, VarArea, Size;
    if k == 0 {
    } else {
      ColumnsLineUp(ps, values, parse, k - 1);
      if values[k - 1].Null? { NullHasNoCell(ps, values, parse, k - 1); } else { CellSize(ps, values, parse, k - 1); }
      assert NoGaps(ps, values, k) <==>
        NoGaps(ps, values, k - 1) && (values[k - 1].Null? ==> Size(ps[k - 1].propType) == 0);
    }
  }

  lemma NullHasNoCell(ps: seq<PropertyDef>, values: seq<Value>, parse: Parsers, i: nat)
    requires i < |ps| == |values| && values[i].Null?
    ensures CellOf(ps, values, parse, i) == []
  {
  }

  lemma {:induction false} FixedAreaGrows(ps: seq<PropertyDef>, values: seq<Value>, parse: Parsers, k: nat, n: nat)
    requires k <= n <= |ps| == |values|
    ensures FixedArea(ps, values, parse, k) <= FixedArea(ps, values, parse, n)
    decreases n
  {
    hide CellOf;
    if k < n { FixedAreaGrows(ps, values, parse, k, n - 1); }
  }

  lemma {:induction false} VarAreaGrows(ps: seq<PropertyDef>, values: seq<Value>, k: nat, n: nat)
    requires k <= n <= |ps| == |values|
    ensures VarArea(ps, values, k) <= VarArea(ps, values, n)
    decreases n
  {
    hide VarPart;
    if k < n { VarAreaGrows(ps, values, k, n - 1); }
  }

  lemma HeaderParses(s: Schema, values: seq<Value>, parse: Parsers)
    requires IsI32(s.version) && |values| == |s.properties|
    ensures ParseHeader(RowOf(s, values, parse)) == Ok(1 + VersionWidth(s.version))
    ensures RowOf(s, values, parse)[1..1 + VersionWidth(s.version)] == VersionBytes(s.version)
  {
    hide FlagArea, FixedArea, VarArea, VersionBytes;
    var row, w := RowOf(s, values, parse), VersionWidth(s.version);
    assert row[0] == ENCODING_VERSION + w;
    assert row[1..1 + w] == VersionBytes(s.version);
  }

  /** A NULL reads back as NULL, and no value is taken for one, in every column that the flags have a bit for. */
  lemma NullReadsBack(s: Schema, values: seq<Value>, parse: Parsers, i: nat, isText: seq<Byte> -> bool)
    requires IsI32(s.version) && |values| == |s.properties| && i < |values| && i / 8 < NullFlagsSize(s)
    ensures var r := ReadColumn(s, RowOf(s, values, parse), 1 + VersionWidth(s.version), i, isText);
            values[i].Null? ==> r == Ok(Null)
    ensures var row, header := RowOf(s, values, parse), 1 + VersionWidth(s.version);
            header + i / 8 < |row| && (TestBit(row[header + i / 8], i % 8) <==> values[i].Null?)
  {
    FlagsRecordNulls(s, values, |values|, i);
    hide FlagArea, FixedArea, VarArea, Header, TestBit;
    var row, header := RowOf(s, values, parse), 1 + VersionWidth(s.version);
    assert row[header + i / 8] == FlagArea(s, values, |values|)[i / 8];
  }

  /** A NULL beyond the flags leaves no mark: it reads back only if the data, or the type, happens to read as NULL. */
  lemma NullReadsBackIff(s: Schema, values: seq<Value>, parse: Parsers, i: nat, isText: seq<Byte> -> bool)
    requires IsI32(s.version) && |values| == |s.properties| && i < |values| && values[i].Null?
    ensures var row, header := RowOf(s, values, parse), 1 + VersionWidth(s.version);
            var at, t := header + NullFlagsSize(s) + FixedOffset(s.properties, i), s.properties[i].propType;
            ReadColumn(s, row, header, i, isText) == Ok(Null) <==>
              || i / 8 < NullFlagsSize(s)
              || (header + i / 8 < |row| && TestBit(row[header + i / 8], i % 8))
              || (header + i / 8 < |row| && (t.Timestamp? || t.FixedString?) && at + Size(t) <= |row|)
  {
    hide RowOf, TestBit, NullFlagsSize, FixedOffset, BigEndian, FromBigEndian, DecodeSigned, ReadDay, ReadMoment;
    if i / 8 < NullFlagsSize(s) { NullReadsBack(s, values, parse, i, isText); }
  }

  /** What is written after the header and the flags. */
  lemma RowSlices(s: Schema, values: seq<Value>, parse: Parsers)
    requires IsI32(s.version) && |values| == |s.properties|
    ensures var row, start := RowOf(s, values, parse), 1 + VersionWidth(s.version) + NullFlagsSize(s);
            var fixed := FixedArea(s.properties, values, parse, |values|);
            && |row| == start + |fixed| + |VarArea(s.properties, values, |values|)|
            && row[start..start + |fixed|] == fixed && row[start + |fixed|..] == VarArea(s.properties, values, |values|)
  {
    hide FlagArea, FixedArea, VarArea, Header;
  }

  /** Column `i` is read from where its cell was written. */
  lemma CellIsInPlace(s: Schema, values: seq<Value>, parse: Parsers, i: nat)
    requires IsI32(s.version) && |values| == |s.properties| && i < |values|
    requires AllAccepted(s.properties, values, parse, |values|) && NoGaps(s.properties, values, i) && !values[i].Null?
    ensures var row, start := RowOf(s, values, parse), 1 + VersionWidth(s.version) + NullFlagsSize(s);
            var at, size := start + FixedOffset(s.properties, i), Size(s.properties[i].propType);
            at + size <= |row| && row[at..at + size] == CellOf(s.properties, values, parse, i)
  {
    hide RowOf, FixedArea, CellOf, VarArea, Accepts, FixedPart, VersionWidth, NullFlagsSize, FixedOffset;
    var ps := s.properties;
    RowSlices(s, values, parse);
    ColumnsLineUp(ps, values, parse, i);
    CellSize(ps, values, parse, i);
    FixedAreaGrows(ps, values, parse, i + 1, |values|);
    FixedOneMore(ps, values, parse, i);
    SubSlice(RowOf(s, values, parse), 1 + VersionWidth(s.version) + NullFlagsSize(s),
             FixedArea(ps, values, parse, |values|),
             FixedArea(ps, values, parse, i), CellOf(ps, values, parse, i));
  }

  lemma FixedOneMore(ps: seq<PropertyDef>, values: seq<Value>, parse: Parsers, i: nat)
    requires i < |ps| == |values|
    ensures FixedArea(ps, values, parse, i + 1) == FixedArea(ps, values, parse, i) + CellOf(ps, values, parse, i)
  {
  }

  lemma VarOneMore(ps: seq<PropertyDef>, values: seq<Value>, i: nat)
    requires i < |ps| == |values|
    ensures VarArea(ps, values, i + 1) == VarArea(ps, values, i) + VarPart(ps[i].propType, values[i])
  {
  }

  lemma SubSlice(data: seq<Byte>, start: nat, area: seq<Byte>, before: seq<Byte>, part: seq<Byte>)
    requires start + |area| <= |data| && data[start..start + |area|] == area && before + part <= area
    ensures start + |before| + |part| <= |data| && data[start + |before|..start + |before| + |part|] == part
  {
    forall j | 0 <= j < |part| ensures data[start + |before| + j] == part[j] {
      assert data[start..start + |area|][|before| + j] == data[start + (|before| + j)];
      assert area[|before| + j] == (before + part)[|before| + j];
    }
  }

  /** Without gaps the variable area starts where the reader looks for it. */
  lemma TextIsInPlace(s: Schema, values: seq<Value>, parse: Parsers, i: nat)
    requires IsI32(s.version) && |values| == |s.properties| && i < |values|
    requires AllAccepted(s.properties, values, parse, |values|) && NoGaps(s.properties, values, |values|)
    requires s.properties[i].propType.StringType? && values[i].Str?
    ensures var row := RowOf(s, values, parse);
            var start := 1 + VersionWidth(s.version) + NullFlagsSize(s) + FixedDataSize(s);
            var at := start + |VarArea(s.properties, values, i)|;
            at + |values[i].text| <= |row| && row[at..at + |values[i].text|] == values[i].text
    ensures |VarArea(s.properties, values, i)| + |values[i].text| <= |VarArea(s.properties, values, |values|)|
  {
    hide RowOf, FixedArea, VarArea, Accepts, FixedOffset, VersionWidth, NullFlagsSize;
    var ps := s.properties;
    RowSlices(s, values, parse);
    ColumnsLineUp(ps, values, parse, |values|);
    VarAreaGrows(ps, values, i + 1, |values|);
    VarOneMore(ps, values, i);
    var all, start := VarArea(ps, values, |values|), 1 + VersionWidth(s.version) + NullFlagsSize(s) + FixedDataSize(s);
    var row := RowOf(s, values, parse);
    assert row[start..start + |all|] == all;
    SubSlice(row, start, all, VarArea(ps, values, i), values[i].text);
  }

  /** Every column takes its value, and the text fits 32-bit places. */
  ghost predicate Fitting(s: Schema, values: seq<Value>, parse: Parsers) {
    && IsI32(s.version) && |values| == |s.properties| && AllAccepted(s.properties, values, parse, |values|)
    && |VarArea(s.properties, values, |values|)| < 0x1_0000_0000
  }

  /** The bit where the reader looks for the null flag of column `i` is in the row, and clear. */
  predicate FlagIsClear(row: seq<Byte>, header: nat, i: nat) {
    header + i / 8 < |row| && !TestBit(row[header + i / 8], i % 8)
  }

  lemma TextTaken(t: PropertyType, v: Value, parse: Parsers)
    ensures t.StringType? && Takes(t, v, parse) ==> v.Str?
  {
  }

  /**
   * With no gap before it and, for text, none anywhere, a value is read as its column gives it back, unless the bit
   * taken for its null flag is set or missing.
   */
  lemma ColumnReadsAs(s: Schema, values: seq<Value>, parse: Parsers, i: nat, isText: seq<Byte> -> bool)
    requires Fitting(s, values, parse) && i < |values| && !values[i].Null?
    requires NoGaps(s.properties, values, if s.properties[i].propType.StringType? then |values| else i)
    ensures var row, header := RowOf(s, values, parse), 1 + VersionWidth(s.version);
            ReadColumn(s, row, header, i, isText) ==
              if header + i / 8 >= |row| then Err(IncorrectValue(FlagOutOfBounds))
              else if !FlagIsClear(row, header, i) then Ok(Null)
              else GivesBack(s.properties[i].propType, values[i], parse, isText)
  {
    hide RowOf, VarArea, CellOf, ReadCell, FixedPart, TestBit, Takes, GivesBack, FixedOffset, NullFlagsSize;
    var t, at := s.properties[i].propType, |VarArea(s.properties, values, i)|;
    assert Accepts(s.properties[i], values[i], parse);
    TextTaken(t, values[i], parse);
    CellIsInPlace(s, values, parse, i);
    CellSize(s.properties, values, parse, i);
    if t.StringType? { TextIsInPlace(s, values, parse, i); }
    var start := 1 + VersionWidth(s.version) + NullFlagsSize(s);
    CellRoundTrip(t, values[i], at, parse, RowOf(s, values, parse), start + FixedOffset(s.properties, i),
                  start + FixedDataSize(s), isText);
  }

  /** So a value its column is faithful to reads back exactly if that bit is clear. */
  lemma ColumnReadsBackIff(s: Schema, values: seq<Value>, parse: Parsers, i: nat, isText: seq<Byte> -> bool)
    requires Fitting(s, values, parse) && i < |values| && Faithful(s.properties[i].propType, values[i], isText)
    requires NoGaps(s.properties, values, if s.properties[i].propType.StringType? then |values| else i)
    ensures var row, header := RowOf(s, values, parse), 1 + VersionWidth(s.version);
            ReadColumn(s, row, header, i, isText) == Ok(values[i]) <==> FlagIsClear(row, header, i)
  {
    hide RowOf, VarArea, ReadColumn, TestBit, Takes, GivesBack, Faithful;
    FaithfulValue(s.properties[i].propType, values[i], isText);
    FaithfulExactly(s.properties[i].propType, values[i], parse, isText);
    ColumnReadsAs(s, values, parse, i, isText);
  }

  /** So it reads back whenever its column is among those the flags have bits for. */
  lemma ColumnReadsBack(s: Schema, values: seq<Value>, parse: Parsers, i: nat, isText: seq<Byte> -> bool)
    requires Fitting(s, values, parse) && i < |values| && Faithful(s.properties[i].propType, values[i], isText)
    requires NoGaps(s.properties, values, if s.properties[i].propType.StringType? then |values| else i)
    requires i / 8 < NullFlagsSize(s)
    ensures ReadColumn(s, RowOf(s, values, parse), 1 + VersionWidth(s.version), i, isText) == Ok(values[i])
  {
    hide RowOf, ReadColumn, TestBit, Faithful, NullFlagsSize;
    FaithfulValue(s.properties[i].propType, values[i], isText);
    NullReadsBack(s, values, parse, i, isText);
    ColumnReadsBackIff(s, values, parse, i, isText);
  }

  lemma FaithfulValue(t: PropertyType, v: Value, isText: seq<Byte> -> bool)
    requires Faithful(t, v, isText)
    ensures !v.Null? && (t.StringType? ==> v.Str?)
  {
  }

  // ===== Schema evolution =====

  /** Schemas by version, with the highest version as the current one. */
  class MemorySchemaProvider {
    var schemas: map<int, Schema>
    var latestVersion: Option<int>

    ghost predicate Valid()
      reads this
    {
      && (latestVersion.None? ==> forall v :: v !in schemas)
      && (latestVersion.Some? ==>
            latestVersion.value in schemas && forall v :: v in schemas ==> v <= latestVersion.value)
      && forall v :: v in schemas ==> schemas[v].version == v
    }

    constructor ()
      ensures Valid() && schemas == map[]
    {
      schemas, latestVersion := map[], None;
    }

    method AddSchema(schema: Schema)
      requires Valid()
      modifies this
      ensures Valid() && schemas == old(schemas)[schema.version := schema]
    {
      if latestVersion.None? || latestVersion.value < schema.version {
        latestVersion := Some(schema.version);
      }
      schemas := schemas[schema.version := schema];
    }

    function CurrentSchema(): (r: Option<Schema>)
      requires Valid()
      reads this
      ensures r.Some? ==> r.value.version in schemas && forall v :: v in schemas ==> v <= r.value.version
      ensures r.None? <==> forall v :: v !in schemas
    {
      if latestVersion.None? then None
      else
        assert schemas[latestVersion.value].version == latestVersion.value;
        Some(schemas[latestVersion.value])
    }
  }

  function Position(ps: seq<PropertyDef>, name: string): (r: Option<nat>)
    ensures r.Some? ==> r.value < |ps| && ps[r.value].name == name && forall i :: 0 <= i < r.value ==>
              ps[i].name != name
    ensures r.None? ==> forall i :: 0 <= i < |ps| ==> ps[i].name != name
  {
    if ps == [] then None
    else if ps[0].name == name then Some(0)
    else
      var rest := Position(ps[1..], name);
      if rest.None? then None else Some(rest.value + 1)
  }

  function DefaultOf(p: PropertyDef): Value { if p.defaultValue.Some? then p.defaultValue.value else Null }

  /** A column of the target schema as the row can answer it. */
  function FieldOf(p: PropertyDef, rowSchema: Schema, data: seq<Byte>, header: nat,
                   isText: seq<Byte> -> bool): Result<Value, CodecError> {
    match Position(rowSchema.properties, p.name)
    case Some(i) => ReadColumn(rowSchema, data, header, i, isText)
    case None => Ok(DefaultOf(p))
  }

  /** No later column has the same name. */
  ghost predicate IsLastNamed(ps: seq<PropertyDef>, i: int, n: nat)
    requires n <= |ps|
  {
    0 <= i < n && forall j :: i < j < n ==> ps[j].name != ps[i].name
  }

  /** Every column of the current schema, read from the row or filled in. */
  method ReadAll(target: Schema, rowSchema: Schema, data: seq<Byte>, header: nat,
                 isText: seq<Byte> -> bool) returns (r: Result<map<string, Value>, CodecError>)
    ensures r.Ok? <==> forall i :: 0 <= i < |target.properties| ==>
              FieldOf(target.properties[i], rowSchema, data, header, isText).Ok?
    ensures r.Ok? ==> forall name :: name in r.value <==> Position(target.properties, name).Some?
    ensures r.Ok? ==> forall i :: IsLastNamed(target.properties, i, |target.properties|) ==>
              target.properties[i].name in r.value &&
                FieldOf(target.properties[i], rowSchema, data, header, isText) == Ok(r.value[target.properties[i].name])
  {
    hide ReadColumn;
    var ps := target.properties;
    var result: map<string, Value> := map[];
    for k := 0 to |ps|
      invariant forall i :: 0 <= i < k ==> FieldOf(ps[i], rowSchema, data, header, isText).Ok?
      invariant forall name :: name in result ==> exists i :: 0 <= i < k && ps[i].name == name
      invariant forall i :: IsLastNamed(ps, i, k) ==>
                ps[i].name in result && FieldOf(ps[i], rowSchema, data, header, isText) == Ok(result[ps[i].name])
      invariant forall i :: 0 <= i < k ==> ps[i].name in result
    {
      var value: Value;
      var at := Position(rowSchema.properties, ps[k].name);
      if at.Some? {
        var read := ReadValueFromRow(rowSchema, data, header, at.value, isText);
        if read.Err? { return Err(read.error); }
        value := read.value;
      } else {
        value := DefaultOf(ps[k]);
      }
      result := result[ps[k].name := value];
    }
    return Ok(result);
  }

  /** Open a row by the version in its header, and read it under the current schema. */
  method ReadRow(data: seq<Byte>, provider: MemorySchemaProvider,
                 isText: seq<Byte> -> bool) returns (r: Result<map<string, Value>, CodecError>, ghost version: int)
    requires provider.Valid()
    ensures ParseHeader(data).Err? ==> r == Err(ParseHeader(data).error)
    ensures ParseHeader(data).Ok? ==>
              && version == ReadVersion(data[1..ParseHeader(data).value])
              && (version !in provider.schemas ==> r == Err(IncorrectValue(UnknownVersion)))
    ensures ParseHeader(data).Ok? && version in provider.schemas ==>
              var target, row := provider.CurrentSchema().value, provider.schemas[version];
              var ps, header := target.properties, ParseHeader(data).value;
              && (r.Ok? <==> forall i :: 0 <= i < |ps| ==> FieldOf(ps[i], row, data, header, isText).Ok?)
              && (r.Ok? ==> forall name :: name in r.value <==> Position(ps, name).Some?)
              && (r.Ok? ==> forall i :: IsLastNamed(ps, i, |ps|) ==>
                    ps[i].name in r.value && FieldOf(ps[i], row, data, header, isText) == Ok(r.value[ps[i].name]))
  {
    hide FieldOf, ReadVersion;
    version := 0;
    var header := ParseHeader(data);
    if header.Err? { return Err(header.error), version; }
    var v := ReadSchemaVersion(data, header.value - 1);
    version := v;
    if v !in provider.schemas { return Err(IncorrectValue(UnknownVersion)), version; }
    var target := provider.CurrentSchema();
    r := ReadAll(target.value, provider.schemas[v], data, header.value, isText);
  }

  /** A row without gaps whose texts are texts, in which no value is taken for NULL and no NULL for a value. */
  ghost predicate Readable(s: Schema, values: seq<Value>, parse: Parsers, isText: seq<Byte> -> bool) {
    && Fitting(s, values, parse) && NoGaps(s.properties, values, |values|)
    && forall i :: 0 <= i < |values| ==> ReadsAlone(s, values, parse, i, isText)
  }

  ghost predicate ReadsAlone(s: Schema, values: seq<Value>, parse: Parsers, i: nat, isText: seq<Byte> -> bool)
    requires IsI32(s.version) && |values| == |s.properties| && i < |values|
  {
    if values[i].Null? then i / 8 < NullFlagsSize(s)
    else
      && (s.properties[i].propType.StringType? && values[i].Str? ==> isText(values[i].text))
      && FlagIsClear(RowOf(s, values, parse), 1 + VersionWidth(s.version), i)
  }

  /** What column `p` of a later schema is answered with: the first column of its name, or its default, or NULL. */
  ghost predicate IsAnswer(s: Schema, values: seq<Value>, parse: Parsers, isText: seq<Byte> -> bool, p: PropertyDef,
                           answer: Value)
    requires |values| == |s.properties|
  {
    if forall i :: 0 <= i < |values| ==> s.properties[i].name != p.name then
      match p.defaultValue
      case Some(v) => answer == v
      case None => answer == Null
    else exists i :: 0 <= i < |values| && IsFirstNamed(s, p.name, i) &&
                     ComesBackAs(s.properties[i], values[i], parse, isText, answer)
  }

  ghost predicate IsFirstNamed(s: Schema, name: string, i: nat)
    requires i < |s.properties|
  {
    s.properties[i].name == name && forall j :: 0 <= j < i ==> s.properties[j].name != name
  }

  /** NULL as NULL, and what the column is faithful to as it was. */
  ghost predicate ComesBackAs(p: PropertyDef, v: Value, parse: Parsers, isText: seq<Byte> -> bool, answer: Value) {
    && (v.Null? ==> answer == Null)
    && (!v.Null? ==> Takes(p.propType, v, parse) && GivesBack(p.propType, v, parse, isText) == Ok(answer))
    && (v.Null? || Faithful(p.propType, v, isText) ==> answer == v)
  }

  lemma TextIsGivenBack(t: PropertyType, v: Value, parse: Parsers, isText: seq<Byte> -> bool)
    requires Takes(t, v, parse) && !v.Null? && (t.StringType? ==> isText(v.text))
    ensures var r := GivesBack(t, v, parse, isText); r.Ok? && (Faithful(t, v, isText) ==> r.value == v)
  {
    FaithfulExactly(t, v, parse, isText);
  }

  lemma CellComesBack(s: Schema, values: seq<Value>, parse: Parsers, isText: seq<Byte> -> bool, i: nat)
    requires Readable(s, values, parse, isText) && i < |values|
    ensures var r := ReadColumn(s, RowOf(s, values, parse), 1 + VersionWidth(s.version), i, isText);
            r.Ok? && ComesBackAs(s.properties[i], values[i], parse, isText, r.value)
  {
    hide RowOf, ReadColumn, Takes, GivesBack, Faithful, TestBit, NullFlagsSize, VarArea;
    assert ReadsAlone(s, values, parse, i, isText) && Accepts(s.properties[i], values[i], parse);
    if values[i].Null? {
      NullReadsBack(s, values, parse, i, isText);
    } else {
      ColumnReadsAs(s, values, parse, i, isText);
      TextTaken(s.properties[i].propType, values[i], parse);
      TextIsGivenBack(s.properties[i].propType, values[i], parse, isText);
    }
  }

  /** Under any later schema a readable row answers each column with what was written, or its default, or NULL. */
  lemma RowEvolves(s: Schema, values: seq<Value>, parse: Parsers, isText: seq<Byte> -> bool, p: PropertyDef)
    requires Readable(s, values, parse, isText)
    ensures var r := FieldOf(p, s, RowOf(s, values, parse), 1 + VersionWidth(s.version), isText);
            r.Ok? && IsAnswer(s, values, parse, isText, p, r.value)
  {
    hide RowOf, ReadColumn, ComesBackAs, ReadsAlone;
    var at := Position(s.properties, p.name);
    if at.Some? { CellComesBack(s, values, parse, isText, at.value); }
  }

  /** Writing a row and reading it through the provider, whatever schemas were added since. */
  method WriteThenRead(s: Schema, values: seq<Value>, parse: Parsers, provider: MemorySchemaProvider,
                       isText: seq<Byte> -> bool)
      returns (r: Result<map<string, Value>, CodecError>)
    requires Readable(s, values, parse, isText) && (s.version >= 0 || s.version <= -0x80_0000)
    requires provider.Valid() && s.version in provider.schemas && provider.schemas[s.version] == s
    ensures r.Ok?
    ensures var ps := provider.CurrentSchema().value.properties;
            && (forall name :: name in r.value <==> Position(ps, name).Some?)
            && forall i :: IsLastNamed(ps, i, |ps|) ==>
                 IsAnswer(s, values, parse, isText, ps[i], r.value[ps[i].name])
  {
    hide FieldOf, RowOf, ReadsAlone, VersionBytes, ReadVersion, IsAnswer;
    var row := WriteRow(s, values, parse);
    HeaderParses(s, values, parse);
    VersionReadsBackIff(s.version);
    ghost var ps := provider.CurrentSchema().value.properties;
    forall i | 0 <= i < |ps|
      ensures var answer := FieldOf(ps[i], s, RowOf(s, values, parse), 1 + VersionWidth(s.version), isText);
              answer.Ok? && IsAnswer(s, values, parse, isText, ps[i], answer.value)
    {
      RowEvolves(s, values, parse, isText, ps[i]);
    }
    ghost var version;
    r, version := ReadRow(row.value, provider, isText);
  }

  // ===== Where rows do not read back =====

  function Column(name: string, t: PropertyType, nullable: bool): PropertyDef { PropertyDef(name, t, nullable, None) }

  /** A NULL writes no fixed bytes, so the columns after it are read one place too far. */
  lemma NullShiftsColumns(parse: Parsers, isText: seq<Byte> -> bool)
    ensures var s := Schema(1, [Column("a", Int8, true), Column("b", Int8, true), Column("c", Int8, true)]);
            ReadColumn(s, RowOf(s, [Null, Int(5), Int(6)], parse), 2, 1, isText) == Ok(Int(6))
  {
    var ps := [Column("a", Int8, true), Column("b", Int8, true), Column("c", Int8, true)];
    var s, values := Schema(1, ps), [Null, Int(5), Int(6)];
    hide NullFlagsSize, FixedOffset, TestBit, FixedArea, VarArea, RowOf, ReadCell;
    ThreeColumns(s);
    ShiftedArea(ps, parse);
    NullReadsBack(s, values, parse, 1, isText);
    RowSlices(s, values, parse);
    var row := RowOf(s, values, parse);
    assert row[3..5] == [5, 6] && row[4] == [5, 6][1];
    ReadByte(row, 4, 3 + FixedDataSize(s), isText);
  }

  lemma ThreeColumns(s: Schema)
    requires |s.properties| == 3
    requires forall i :: 0 <= i < 3 ==> s.properties[i].nullable && s.properties[i].propType == Int8
    ensures NullFlagsSize(s) == 1 && FixedOffset(s.properties, 1) == 1
  {
    AllNullable(s.properties);
    assert FixedOffset(s.properties, 0) == 0;
  }

  lemma ReadByte(data: seq<Byte>, offset: nat, varStart: nat, isText: seq<Byte> -> bool)
    requires offset < |data|
    ensures ReadCell(Int8, data, offset, varStart, isText) == Ok(Int(data[offset]))
  {
  }

  lemma {:induction false} AllNullable(ps: seq<PropertyDef>)
    requires forall i :: 0 <= i < |ps| ==> ps[i].nullable
    ensures Nullables(ps) == |ps|
  {
    if ps == [] {
    } else {
      AllNullable(ps[..|ps| - 1]);
    }
  }

  lemma ShiftedArea(ps: seq<PropertyDef>, parse: Parsers)
    requires |ps| == 3 && forall i :: 0 <= i < 3 ==> ps[i].propType == Int8
    ensures FixedArea(ps, [Null, Int(5), Int(6)], parse, 3) == [5, 6]
  {
    var values := [Null, Int(5), Int(6)];
    OneByte(5);
    OneByte(6);
    Pow256Values();
    hide VarArea, BigEndian, Pow256;
    FixedOneMore(ps, values, parse, 0);
    FixedOneMore(ps, values, parse, 1);
    FixedOneMore(ps, values, parse, 2);
    assert FixedArea(ps, values, parse, 0) == [];
    assert CellOf(ps, values, parse, 0) == [];
    assert CellOf(ps, values, parse, 1) == [5];
    assert CellOf(ps, values, parse, 2) == [6];
  }

  /** With no nullable column there are no flags, and the reader takes the data for them. */
  lemma NoFlagsMisread(parse: Parsers, isText: seq<Byte> -> bool)
    ensures var s := Schema(1, [Column("a", BoolType, false)]);
            ReadColumn(s, RowOf(s, [Bool(true)], parse), 2, 0, isText) == Ok(Null)
  {
    var ps := [Column("a", BoolType, false)];
    var s, values := Schema(1, ps), [Bool(true)];
    RowSlices(s, values, parse);
    assert CellOf(ps, values, parse, 0) == [1];
    assert FixedArea(ps, values, parse, 1) == [1];
    assert Nullables(ps[..0]) == 0 && Nullables(ps) == 0 && NullFlagsSize(s) == 0;
    var row := RowOf(s, values, parse);
    assert row[2..3] == [1] && row[2] == [1][0];
  }

  lemma {:induction false} NoneNullable(ps: seq<PropertyDef>)
    requires forall i :: 0 <= i < |ps| ==> !ps[i].nullable
    ensures Nullables(ps) == 0
  {
    if ps == [] {
    } else {
      NoneNullable(ps[..|ps| - 1]);
    }
  }

  /** Nine columns of which the last alone may be NULL. */
  function NineColumns(): (ps: seq<PropertyDef>)
    ensures |ps| == 9 && forall i :: 0 <= i < 9 ==> ps[i] == Column("c", Int8, i == 8)
  {
    seq(9, i => Column("c", Int8, i == 8))
  }

  function EightZeros(): (values: seq<Value>)
    ensures |values| == 9 && forall i :: 0 <= i < 9 ==> values[i] == if i == 8 then Null else Int(0)
  {
    seq(9, i => if i == 8 then Null else Int(0))
  }

  lemma ZeroCell(parse: Parsers)
    ensures FixedPart(Int8, Int(0), 0, parse) == Ok([0])
  {
    Pow256Values();
    OneByte(0);
    assert EncodeSigned(0, 1) == [0];
  }

  lemma NinthIsAccepted(parse: Parsers)
    ensures AllAccepted(NineColumns(), EightZeros(), parse, 9)
  {
    hide NineColumns, EightZeros, FixedPart;
    ZeroCell(parse);
  }

  lemma NinthHasNoFlag()
    ensures NullFlagsSize(Schema(1, NineColumns())) == 1
  {
    hide NineColumns;
    NoneNullable(NineColumns()[..8]);
  }

  lemma FirstIsZero(parse: Parsers)
    ensures FixedArea(NineColumns(), EightZeros(), parse, 1) == [0]
  {
    hide NineColumns, EightZeros, FixedPart;
    ZeroCell(parse);
    assert FixedArea(NineColumns(), EightZeros(), parse, 0) == [];
  }

  /** One byte of flags has no bit for the ninth column, so its NULL is lost. */
  lemma NinthNullIsLost(parse: Parsers, isText: seq<Byte> -> bool)
    ensures var s := Schema(1, NineColumns());
            && AllAccepted(s.properties, EightZeros(), parse, 9)
            && ReadColumn(s, RowOf(s, EightZeros(), parse), 2, 8, isText) != Ok(Null)
  {
    hide NineColumns, EightZeros, AllAccepted, NullFlagsSize, FixedArea, VarArea, RowOf, TestBit, ReadColumn;
    var ps, values := NineColumns(), EightZeros();
    var s := Schema(1, ps);
    NinthIsAccepted(parse);
    NinthHasNoFlag();
    FirstIsZero(parse);
    FixedAreaGrows(ps, values, parse, 1, 9);
    RowSlices(s, values, parse);
    var row, fixed := RowOf(s, values, parse), FixedArea(ps, values, parse, 9);
    assert fixed[0] == 0;
    assert row[3] == row[3..3 + |fixed|][0];
    ZeroHasNoBits(0);
    NullReadsBackIff(s, values, parse, 8, isText);
  }
}
