/** The row layout: schemas, cells, null flags and version headers. */
module RowFormat {
  import opened Prelude
  import opened Bytes

  type U16 = x: int | 0 <= x < 0x1_0000
  type U32 = x: int | 0 <= x < 0x1_0000_0000

  datatype Day = Day(year: U16, month: Byte, day: Byte)

  datatype Moment = Moment(date: Day, hour: Byte, minute: Byte, second: Byte, microsecond: U32)

  /** Text is its UTF-8 bytes; `Other` stands for every value these columns refuse. */
  datatype Value =
    | Null
    | Bool(b: bool)
    | Int(i: int)
    | Str(text: seq<Byte>)
    | Date(day: Day)
    | DateTime(moment: Moment)
    | Other

  datatype PropertyType =
    | BoolType
    | Int8
    | Int16
    | Int32
    | Int64
    | StringType
    | FixedString(len: nat)
    | Timestamp
    | DateType
    | DateTimeType

  datatype PropertyDef = PropertyDef(name: string, propType: PropertyType, nullable: bool, defaultValue: Option<Value>)

  datatype Schema = Schema(version: int, properties: seq<PropertyDef>)

  datatype CodecError =
    | UnknownField(index: nat)
    | NotNullable(name: string)
    | FieldUnset(name: string)
    | OutOfRange
    | BadType
    | InvalidEncodingVersion(version: nat)
    | IncorrectValue(reason: Reason)

  datatype Reason =
    | DataOutOfBounds
    | StringOutOfBounds
    | FlagOutOfBounds
    | NotText
    | NotADate
    | NotADateTime
    | EmptyData
    | NoVersion
    | ShortHeader
    | UnknownVersion

  /** `Date::parse` and `DateTime::parse`. */
  datatype Parsers = Parsers(date: seq<Byte> -> Option<Day>, dateTime: seq<Byte> -> Option<Moment>)

  function Size(t: PropertyType): nat {
    match t
    case BoolType => 1
    case Int8 => 1
    case Int16 => 2
    case Int32 => 4
    case Int64 => 8
    case StringType => 8
    case FixedString(len) => len
    case Timestamp => 8
    case DateType => 4
    case DateTimeType => 15
  }

  function Nullables(ps: seq<PropertyDef>): nat {
    if ps == [] then 0 else Nullables(ps[..|ps| - 1]) + if ps[|ps| - 1].nullable then 1 else 0
  }

  function NullFlagsSize(s: Schema): nat {
    if Nullables(s.properties) == 0 then 0 else (Nullables(s.properties) - 1) / 8 + 1
  }

  lemma {:induction false} NullablesExactly(ps: seq<PropertyDef>)
    ensures Nullables(ps) == |set i | 0 <= i < |ps| && ps[i].nullable|
  {
    if ps == [] {
    } else {
      var prior := ps[..|ps| - 1];
      NullablesExactly(prior);
      var before := set i | 0 <= i < |prior| && prior[i].nullable;
      var all := set i | 0 <= i < |ps| && ps[i].nullable;
      assert all == if ps[|ps| - 1].nullable then before + {|ps| - 1} else before;
    }
  }

  /** The flags are the fewest bytes with a bit for each nullable column. */
  lemma FlagsSizeExactly(s: Schema)
    ensures var n := |set i | 0 <= i < |s.properties| && s.properties[i].nullable|;
            n <= 8 * NullFlagsSize(s) < n + 8
  {
    NullablesExactly(s.properties);
    hide Nullables;
  }

  /** Where column `i` starts in the fixed area. */
  function FixedOffset(ps: seq<PropertyDef>, i: nat): nat
    requires i <= |ps|
  {
    if i == 0 then 0 else FixedOffset(ps, i - 1) + Size(ps[i - 1].propType)
  }

  function FixedDataSize(s: Schema): nat { FixedOffset(s.properties, |s.properties|) }

  // ===== Cells =====

  function IntCell(i: int, width: nat): Result<seq<Byte>, CodecError> {
    if Fits(i, width) then Ok(EncodeSigned(i, width)) else Err(OutOfRange)
  }

  function DayBytes(d: Day): (bs: seq<Byte>)
    ensures |bs| == 4
  {
    BigEndian(d.year * 0x1_0000 + d.month * 0x100 + d.day, 4)
  }

  function MomentBytes(m: Moment): (bs: seq<Byte>)
    ensures |bs| == 15
  {
    BigEndian(m.date.year, 2) + [m.date.month, m.date.day, m.hour, m.minute, m.second] +
    BigEndian(m.microsecond, 4) + [0, 0, 0, 0]
  }

  function Zeros(n: nat): (z: seq<Byte>)
    ensures |z| == n && forall i :: 0 <= i < n ==> z[i] == 0
  {
    seq(n, _ => 0)
  }

  /** The fixed bytes of a non-null cell. A string's are its place and length in the variable area. */
  function FixedPart(t: PropertyType, v: Value, at: nat, parse: Parsers): Result<seq<Byte>, CodecError> {
    match t
    case BoolType => if v.Bool? then Ok([if v.b then 1 else 0]) else Err(BadType)
    case Int8 => if v.Int? then IntCell(v.i, 1) else Err(BadType)
    case Int16 => if v.Int? then IntCell(v.i, 2) else Err(BadType)
    case Int32 => if v.Int? then IntCell(v.i, 4) else Err(BadType)
    case Int64 => if v.Int? then IntCell(v.i, 8) else Err(BadType)
    case StringType => if v.Str? then Ok(BigEndian(at, 4) + BigEndian(|v.text|, 4)) else Err(BadType)
    case FixedString(len) =>
      if !v.Str? then Err(BadType)
      else if |v.text| > len then Err(OutOfRange)
      else Ok(v.text + Zeros(len - |v.text|))
    case Timestamp => if v.Int? then IntCell(v.i, 8) else Err(BadType)
    case DateType =>
      if v.Date? then Ok(DayBytes(v.day))
      else if !v.Str? then Err(BadType)
      else
        var d := parse.date(v.text);
        if d.Some? then Ok(DayBytes(d.value)) else Err(IncorrectValue(NotADate))
    case DateTimeType =>
      if v.DateTime? then Ok(MomentBytes(v.moment))
      else if !v.Str? then Err(BadType)
      else
        var m := parse.dateTime(v.text);
        if m.Some? then Ok(MomentBytes(m.value)) else Err(IncorrectValue(NotADateTime))
  }

  function VarPart(t: PropertyType, v: Value): seq<Byte> { if t.StringType? && v.Str? then v.text else [] }

  /** Reading a cell, with the checks that keep it inside the data. `isText` is the UTF-8 check. */
  function ReadCell(t: PropertyType, data: seq<Byte>, offset: nat, varStart: nat,
                    isText: seq<Byte> -> bool): Result<Value, CodecError> {
    if offset + Size(t) > |data| then Err(IncorrectValue(DataOutOfBounds))
    else
      var cell := data[offset..offset + Size(t)];
      match t
      case BoolType => Ok(Bool(cell[0] != 0))
      case Int8 => Ok(Int(cell[0]))
      case Int16 => Ok(Int(DecodeSigned(cell)))
      case Int32 => Ok(Int(DecodeSigned(cell)))
      case Int64 => Ok(Int(DecodeSigned(cell)))
      case StringType =>
        var start := varStart + FromBigEndian(cell[..4]);
        var end := start + FromBigEndian(cell[4..]);
        if end > |data| then Err(IncorrectValue(StringOutOfBounds))
        else if isText(data[start..end]) then Ok(Str(data[start..end])) else Err(IncorrectValue(NotText))
      case DateType => Ok(Date(ReadDay(cell)))
      case DateTimeType => Ok(DateTime(ReadMoment(cell)))
      case _ => Ok(Null)
  }

  function ReadDay(cell: seq<Byte>): Day
    requires |cell| == 4
  {
    FromBigEndianBound(cell);
    Pow256Values();
    var val := FromBigEndian(cell);
    Day(val / 0x1_0000, val / 0x100 % 0x100, val % 0x100)
  }

  function ReadMoment(cell: seq<Byte>): Moment
    requires |cell| == 15
  {
    FromBigEndianBound(cell[..2]);
    FromBigEndianBound(cell[7..11]);
    Pow256Values();
    Moment(Day(FromBigEndian(cell[..2]), cell[2], cell[3]), cell[4], cell[5], cell[6], FromBigEndian(cell[7..11]))
  }

  lemma DayRoundTrip(d: Day)
    ensures ReadDay(DayBytes(d)) == d
  {
    var val := d.year * 0x1_0000 + d.month * 0x100 + d.day;
    hide BigEndian, FromBigEndian, Pow256;
    Pow256Values();
    BigEndianRoundTrip(val, 4);
    PackedDay(d.year, d.month, d.day);
  }

  lemma PackedDay(year: U16, month: Byte, day: Byte)
    ensures var val := year * 0x1_0000 + month * 0x100 + day;
            val / 0x1_0000 == year && val / 0x100 % 0x100 == month && val % 0x100 == day
  {
    var val, high := year * 0x1_0000 + month * 0x100 + day, year * 0x100 + month;
    assert val == high * 0x100 + day;
    assert val / 0x100 == high && high / 0x100 == year;
  }

  lemma MomentRoundTrip(m: Moment)
    ensures ReadMoment(MomentBytes(m)) == m
  {
    Pow256Values();
    BigEndianRoundTrip(m.date.year, 2);
    BigEndianRoundTrip(m.microsecond, 4);
    hide BigEndian, FromBigEndian;
    var year, micro := BigEndian(m.date.year, 2), BigEndian(m.microsecond, 4);
    var cell := MomentBytes(m);
    assert cell == year + [m.date.month, m.date.day, m.hour, m.minute, m.second] + micro + [0, 0, 0, 0];
    assert cell[..2] == year && cell[7..11] == micro;
  }

  /** A value of a kind the column can hold. */
  ghost predicate HasKind(t: PropertyType, v: Value) {
    match t
    case BoolType => v.Bool?
    case Int8 | Int16 | Int32 | Int64 | Timestamp => v.Int?
    case StringType | FixedString(_) => v.Str?
    case DateType => v.Date? || v.Str?
    case DateTimeType => v.DateTime? || v.Str?
  }

  /** A value the column can hold. */
  ghost predicate Takes(t: PropertyType, v: Value, parse: Parsers) {
    match t
    case BoolType => v.Bool?
    case Int8 => v.Int? && -0x80 <= v.i < 0x80
    case Int16 => v.Int? && -0x8000 <= v.i < 0x8000
    case Int32 => v.Int? && -0x8000_0000 <= v.i < 0x8000_0000
    case Int64 | Timestamp => v.Int? && -0x8000_0000_0000_0000 <= v.i < 0x8000_0000_0000_0000
    case StringType => v.Str?
    case FixedString(len) => v.Str? && |v.text| <= len
    case DateType => v.Date? || (v.Str? && parse.date(v.text).Some?)
    case DateTimeType => v.DateTime? || (v.Str? && parse.dateTime(v.text).Some?)
  }

  /** What a column gives back for a value it took. */
  ghost function GivesBack(t: PropertyType, v: Value, parse: Parsers, isText: seq<Byte> -> bool)
      : Result<Value, CodecError>
    requires Takes(t, v, parse)
  {
    match t
    case Int8 => Ok(Int(if v.i < 0 then v.i + 0x100 else v.i))
    case StringType => if isText(v.text) then Ok(v) else Err(IncorrectValue(NotText))
    case FixedString(_) | Timestamp => Ok(Null)
    case DateType => Ok(if v.Date? then v else Date(parse.date(v.text).value))
    case DateTimeType => Ok(if v.DateTime? then v else DateTime(parse.dateTime(v.text).value))
    case _ => Ok(v)
  }

  /** A cell is written exactly for the values the column takes; the others are refused for what is wrong with them. */
  lemma TakesExactly(t: PropertyType, v: Value, at: nat, parse: Parsers)
    ensures var r := FixedPart(t, v, at, parse);
            && (r.Ok? <==> Takes(t, v, parse)) && (!HasKind(t, v) ==> r == Err(BadType))
            && (HasKind(t, v) && r.Err? ==>
                  r.error == match t
                             case DateType => IncorrectValue(NotADate)
                             case DateTimeType => IncorrectValue(NotADateTime)
                             case _ => OutOfRange)
  {
    Pow256Values();
    hide BigEndian, EncodeSigned, DayBytes, MomentBytes;
  }

  /** What is stored in the columns whose cells are not given back. */
  lemma SilentCells(t: PropertyType, v: Value, at: nat, parse: Parsers)
    requires Takes(t, v, parse) && FixedPart(t, v, at, parse).Ok?
    ensures var cell := FixedPart(t, v, at, parse).value;
            && (t.Timestamp? ==> |cell| == 8 && DecodeSigned(cell) == v.i)
            && (t.FixedString? ==>
                  |cell| == t.len && v.text <= cell && forall i :: |v.text| <= i < t.len ==> cell[i] == 0)
  {
    if t.Timestamp? { IntCellRoundTrip(v.i, t); }
    hide BigEndian, EncodeSigned, DecodeSigned;
  }

  /** The values a column gives back as they were. */
  predicate Faithful(t: PropertyType, v: Value, isText: seq<Byte> -> bool) {
    match t
    case BoolType => v.Bool?
    case Int8 => v.Int? && 0 <= v.i < 0x80
    case Int16 => v.Int? && Fits(v.i, 2)
    case Int32 => v.Int? && Fits(v.i, 4)
    case Int64 => v.Int? && Fits(v.i, 8)
    case StringType => v.Str? && isText(v.text)
    case DateType => v.Date?
    case DateTimeType => v.DateTime?
    case _ => false
  }

  lemma FixedPartSize(t: PropertyType, v: Value, at: nat, parse: Parsers)
    ensures var r := FixedPart(t, v, at, parse); r.Ok? ==> |r.value| == Size(t)
  {
  }

  /** They are the values it takes and gives back. */
  lemma FaithfulExactly(t: PropertyType, v: Value, parse: Parsers, isText: seq<Byte> -> bool)
    requires !v.Null?
    ensures Faithful(t, v, isText) <==> Takes(t, v, parse) && GivesBack(t, v, parse, isText) == Ok(v)
  {
    Pow256Values();
  }

  /** Reading a cell gives the written value back as the column does, if the text is where the cell says. */
  lemma CellRoundTrip(t: PropertyType, v: Value, at: nat, parse: Parsers, data: seq<Byte>, offset: nat, varStart: nat,
                      isText: seq<Byte> -> bool)
    requires Takes(t, v, parse) && FixedPart(t, v, at, parse).Ok?
    requires offset + Size(t) <= |data| && data[offset..offset + Size(t)] == FixedPart(t, v, at, parse).value
    requires t.StringType? ==>
              at + |v.text| < 0x1_0000_0000 && varStart + at + |v.text| <= |data| &&
                data[varStart + at..varStart + at + |v.text|] == v.text
    ensures ReadCell(t, data, offset, varStart, isText) == GivesBack(t, v, parse, isText)
  {
    hide BigEndian, FromBigEndian, EncodeSigned, DecodeSigned, MomentBytes, DayBytes, ReadDay, ReadMoment, Pow256;
    var cell := data[offset..offset + Size(t)];
    if v.Int? {
      Pow256Values();
      IntCellRoundTrip(v.i, t);
    } else if t.DateType? {
      DayRoundTrip(if v.Date? then v.day else parse.date(v.text).value);
    } else if t.DateTimeType? {
      MomentRoundTrip(if v.DateTime? then v.moment else parse.dateTime(v.text).value);
    } else if t.StringType? {
      PlaceRoundTrip(at, |v.text|);
    }
  }

  lemma IntCellRoundTrip(i: int, t: PropertyType)
    requires Fits(i, Size(t)) && Size(t) > 0
    ensures DecodeSigned(EncodeSigned(i, Size(t))) == i
    ensures Size(t) == 1 ==> EncodeSigned(i, 1)[0] == if i < 0 then i + 0x100 else i
  {
    SignedRoundTrip(i, Size(t));
    if Size(t) == 1 { OneByte(i); }
  }

  lemma OneByte(i: int)
    requires Fits(i, 1)
    ensures EncodeSigned(i, 1)[0] == if i < 0 then i + 0x100 else i
  {
    Pow256Values();
    var u := ToUnsigned(i, 1);
    assert BigEndian(u / 256, 0) == [];
    assert u % 256 == u;
  }

  lemma PlaceRoundTrip(at: nat, length: nat)
    requires at < 0x1_0000_0000 && length < 0x1_0000_0000
    ensures var cell := BigEndian(at, 4) + BigEndian(length, 4);
            FromBigEndian(cell[..4]) == at && FromBigEndian(cell[4..]) == length
  {
    Pow256Values();
    BigEndianRoundTrip(at, 4);
    BigEndianRoundTrip(length, 4);
    hide BigEndian, FromBigEndian;
    var cell := BigEndian(at, 4) + BigEndian(length, 4);
    assert cell[..4] == BigEndian(at, 4) && cell[4..] == BigEndian(length, 4);
  }

  /** One-byte integers come back exactly when they are not negative. */
  lemma Int8ReadsBackIff(i: int, data: seq<Byte>, offset: nat, varStart: nat, isText: seq<Byte> -> bool)
    requires Fits(i, 1) && offset < |data| && data[offset] == EncodeSigned(i, 1)[0]
    ensures ReadCell(Int8, data, offset, varStart, isText) == Ok(Int(i)) <==> i >= 0
  {
    IntCellRoundTrip(i, Int8);
    hide EncodeSigned, DecodeSigned, FromBigEndian;
  }

  // ===== Null flags =====

  predicate TestBit(b: nat, k: nat) { if k == 0 then b % 2 == 1 else TestBit(b / 2, k - 1) }

  /** `b | 1 << k`, or `b & !(1 << k)`. */
  function WithBit(b: nat, k: nat, on: bool): (r: nat) {
    if k == 0 then b / 2 * 2 + (if on then 1 else 0) else WithBit(b / 2, k - 1, on) * 2 + b % 2
  }

  function Pow2(w: nat): nat { if w == 0 then 1 else 2 * Pow2(w - 1) }

  lemma {:induction false} WithBitBound(b: nat, k: nat, on: bool, w: nat)
    requires b < Pow2(w) && k < w
    ensures WithBit(b, k, on) < Pow2(w)
  {
    assert Pow2(w) == 2 * Pow2(w - 1) && b / 2 < Pow2(w - 1);
    if k > 0 { WithBitBound(b / 2, k - 1, on, w - 1); }
  }

  function FlagByte(b: Byte, k: nat, on: bool): (r: Byte)
    requires k < 8
  {
    assert Pow2(8) == 256 by { assert Pow2(4) == 16; }
    WithBitBound(b, k, on, 8);
    WithBit(b, k, on)
  }

  /** Setting a bit sets it and leaves the others. */
  lemma {:induction false} WithBitTests(b: nat, k: nat, on: bool, j: nat)
    ensures TestBit(WithBit(b, k, on), j) == if j == k then on else TestBit(b, j)
    decreases k
  {
    if k > 0 && j > 0 {
      WithBitTests(b / 2, k - 1, on, j - 1);
      assert WithBit(b, k, on) / 2 == WithBit(b / 2, k - 1, on);
    }
  }

  lemma {:induction false} ZeroHasNoBits(k: nat)
    ensures !TestBit(0, k)
  {
    if k > 0 { ZeroHasNoBits(k - 1); }
  }

  /** `set_null_flag`: a column beyond the flags has none. */
  function Flagged(flags: seq<Byte>, index: nat, isNull: bool): (r: seq<Byte>)
    ensures |r| == |flags|
  {
    if index / 8 >= |flags| then flags else flags[index / 8 := FlagByte(flags[index / 8], index % 8, isNull)]
  }

  predicate IsFlagged(flags: seq<Byte>, index: nat)
    requires index / 8 < |flags|
  {
    TestBit(flags[index / 8], index % 8)
  }

  lemma FlaggedTests(flags: seq<Byte>, index: nat, isNull: bool, j: nat)
    requires j / 8 < |flags|
    ensures IsFlagged(Flagged(flags, index, isNull), j) == if j == index then isNull else IsFlagged(flags, j)
  {
    if index / 8 == j / 8 { WithBitTests(flags[j / 8], index % 8, isNull, j % 8); }
  }
}
