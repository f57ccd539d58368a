/**
 Cells and rows of a binary-log row event (`binlog/rbr.go`): how long a cell is, what it holds, and
 the walk over a row's cells.

 A read beyond the end of the data and every error of the reader are both `None`. `rest` is the data
 from the cell's first byte on.
 */
module Cells {
  import opened Bytes
  import opened Decimal
  import opened Time

  /** The type codes of the binary log. */
  datatype Type =
    | Null | Tiny | Short | Int24 | Long | LongLong | Float | Double | Year
    | Date | NewDate | OldTime | DateTime | Timestamp
    | Time2 | DateTime2 | Timestamp2
    | NewDecimal | Bit | Enum | Set
    | Varchar | VarString | String
    | Json | TinyBlob | MediumBlob | LongBlob | Blob | Vector | Geometry
    | Unsupported

  /**
   What the table map and the schema say of a column: whether it is a signed integer or a `BINARY`,
   the scale its decimals are kept at, and what contents its character set, members or JSON parser
   refuse.
   */
  datatype Column = Column(typ: Type, meta: nat, signed: bool, binary: bool, scale: nat, refuses: Octets -> bool)

  /**
   What is handed to the column's builder. Dates are the fields given to the calendar, an instant is counted
   from 1970, and a member of an enumeration or a set of members is its number.
   */
  datatype Value =
    | NullValue
    | Whole(n: int)
    | Floating(bits: nat)
    | Span(micros: int)
    | Instant(elapsed: nat)
    | Day(year: nat, month: nat, day: nat)
    | Moment(year: nat, month: nat, day: nat, hour: nat, minute: nat, second: nat, fraction: nat)
    | Fixed(unscaled: int)
    | Members(number: nat)
    | Content(bytes: Octets)

  // The codes that MySQL puts in the high byte of a string column's metadata.
  const ENUM_CODE := 247
  const SET_CODE := 248

  function Low(meta: nat): nat {
    meta % 256
  }

  function High(meta: nat): nat {
    meta / 256 % 256
  }

  /** The bits 12 and 13 of a string's metadata are its length bits 8 and 9, inverted. */
  function StringMax(meta: nat): nat {
    (3 - meta / 4096 % 4) * 256 + Low(meta)
  }

  function Take(rest: Octets, n: nat): Option<Octets> {
    if n <= |rest| then Some(rest[..n]) else None
  }

  /** A length of `k` bytes, least significant first, and then that many bytes. */
  function Prefixed(rest: Octets, k: nat): Option<Octets> {
    if k > |rest| then None
    else
      var l := LittleEndian(rest[..k]);
      if k + l <= |rest| then Some(rest[k..k + l]) else None
  }

  function PrefixedLength(rest: Octets, k: nat): Option<nat> {
    if k > |rest| then None else Some(k + LittleEndian(rest[..k]))
  }

  function DecimalLength(meta: nat): Option<nat> {
    if Low(meta) > High(meta) then None else Some(Size(Layout(High(meta), Low(meta))))
  }

  function BitLength(meta: nat): nat {
    (High(meta) * 8 + Low(meta) + 7) / 8
  }

  /** `CellLength`. */
  function CellLength(rest: Octets, t: Type, meta: nat): Option<nat> {
    match t
    case Null => Some(0)
    case Tiny | Year => Some(1)
    case Short => Some(2)
    case Int24 => Some(3)
    case Long | Float | Timestamp => Some(4)
    case LongLong | Double => Some(8)
    case Date | OldTime | NewDate => Some(3)
    case DateTime => Some(8)
    case Varchar | VarString => PrefixedLength(rest, if meta > 255 then 2 else 1)
    case Bit => Some(BitLength(meta))
    case Timestamp2 => Some(4 + (meta + 1) / 2)
    case DateTime2 => Some(5 + (meta + 1) / 2)
    case Time2 => Some(3 + (meta + 1) / 2)
    case NewDecimal => DecimalLength(meta)
    case Enum | Set => Some(Low(meta))
    case Json | TinyBlob | MediumBlob | LongBlob | Blob | Geometry | Vector =>
      if 1 <= meta <= 4 then PrefixedLength(rest, meta) else None
    case String =>
      if High(meta) == ENUM_CODE || High(meta) == SET_CODE then Some(Low(meta))
      else PrefixedLength(rest, if StringMax(meta) > 255 then 2 else 1)
    case Unsupported => None
  }

  // ----- The value of a cell and how many bytes were read -----

  type Read = Option<(nat, Value)>

  function Signed(n: int, width: nat): int {
    var range: int := Pow(256, width);
    if 2 * n >= range then n - range else n
  }

  function ReadInteger(rest: Octets, size: nat, signed: bool): Read {
    match Take(rest, size)
    case None => None
    case Some(bs) =>
      var n := LittleEndian(bs);
      Some((size, Whole(if signed then Signed(n, size) else n)))
  }

  /** Years are counted from 1900; 0 is the year 0. */
  function ReadYear(rest: Octets): Read {
    match Take(rest, 1)
    case None => None
    case Some(bs) =>
      var n: int := bs[0];
      Some((1, Whole(if n == 0 then 0 else n + 1900)))
  }

  function ReadFloat(rest: Octets, size: nat): Read {
    match Take(rest, size)
    case None => None
    case Some(bs) => Some((size, Floating(LittleEndian(bs))))
  }

  function ReadTimestamp(rest: Octets): Read {
    match Take(rest, 4)
    case None => None
    case Some(bs) => Some((4, Instant(LittleEndian(bs) * 1_000_000)))
  }

  /** Five bits of day, four of month, and the year. */
  function ReadDate(rest: Octets): Read {
    match Take(rest, 3)
    case None => None
    case Some(bs) =>
      var n := LittleEndian(bs);
      Some((3, Day(n / 512, n / 32 % 16, n % 32)))
  }

  /** The decimal number YYYYMMDDhhmmss. */
  function ReadDateTime(rest: Octets): Read {
    match Take(rest, 8)
    case None => None
    case Some(bs) =>
      var n := LittleEndian(bs);
      var d, t := n / 1_000_000, n % 1_000_000;
      Some((8, Moment(d / 10_000, d % 10_000 / 100, d % 100, t / 10_000, t % 10_000 / 100, t % 100, 0)))
  }

  function ReadOldTime(rest: Octets): Read {
    match Take(rest, 3)
    case None => None
    case Some(bs) => Some((3, Span(DecodeOldTime(Signed(LittleEndian(bs), 3)) * 1_000_000)))
  }

  function ReadTime(rest: Octets, decimals: nat): Read {
    if decimals > 6 then
      if |rest| < 3 then None
      else Some((3 + (decimals + 1) / 2, Span(FromParts(BigEndian(rest[..3]) - 0x80_0000, 0, 0))))
    else
      match Take(rest, 3 + FractionBytes(decimals))
      case None => None
      case Some(bs) => Some((3 + (decimals + 1) / 2, Span(DecodeTime(bs, decimals))))
  }

  /** `TIMESTAMP2` and `DATETIME2`: the size is that of the fraction only for metadata 1 to 6. */
  function MomentSize(whole: nat, decimals: nat): nat {
    match decimals
    case 1 => whole + 1
    case 2 => whole + 1
    case 3 => whole + 2
    case 4 => whole + 2
    case 5 => whole + 3
    case 6 => whole + 3
    case _ => whole
  }

  function ReadTimestamp2(rest: Octets, decimals: nat): Read {
    match Take(rest, MomentSize(4, decimals))
    case None => None
    case Some(bs) =>
      Some((|bs|, Instant(BigEndian(bs[..4]) * 1_000_000 + FractionMicros(BigEndian(bs[4..]), decimals))))
  }

  /** The fields that are packed into the five bytes, less their offset, in 64-bit arithmetic. */
  function Unpacked(stored: nat, micros: nat): Value {
    var n := (stored + 0x1_0000_0000_0000_0000 - 0x80_0000_0000) % 0x1_0000_0000_0000_0000;
    var ymd, hms := n / 0x2_0000, n % 0x2_0000;
    Moment(ymd / 32 / 13, ymd / 32 % 13, ymd % 32, hms / 4096, hms / 64 % 64, hms % 64, micros)
  }

  function ReadDateTime2(rest: Octets, decimals: nat): Read {
    match Take(rest, MomentSize(5, decimals))
    case None => None
    case Some(bs) =>
      Some((|bs|, Unpacked(BigEndian(bs[..5]), FractionMicros(BigEndian(bs[5..]), decimals))))
  }

  function ReadText(rest: Octets, k: nat, refuses: Octets -> bool): Read {
    match Prefixed(rest, k)
    case None => None
    case Some(content) => if refuses(content) then None else Some((|content| + k, Content(content)))
  }

  function ReadMember(rest: Octets, size: nat, refuses: Octets -> bool): Read {
    match Take(rest, size)
    case None => None
    case Some(bs) =>
      if refuses(bs) then None else Some((size, Members(LittleEndian(bs) % 0x1_0000_0000_0000_0000)))
  }

  function ReadEnum(rest: Octets, size: nat, refuses: Octets -> bool): Read {
    if size == 1 || size == 2 then ReadMember(rest, size, refuses) else None
  }

  function ReadBit(rest: Octets, l: nat): Read {
    if l > 8 then None
    else
      match Take(rest, l)
      case None => None
      case Some(bs) => Some((l, Whole(BigEndian(bs))))
  }

  function ReadDecimal(rest: Octets, precision: nat, scale: nat, desired: nat): Read {
    if scale > precision || precision == 0 then None
    else
      LayoutNotEmpty(precision, scale);
      var l := Size(Layout(precision, scale));
      if l > 40 || l > |rest| then None
      else
        match Decimal.Unscaled(rest[..l], precision, scale, desired)
        case None => None
        case Some(n) => Some((l, Fixed(n)))
  }

  function ReadBlob(rest: Octets, meta: nat, refuses: Octets -> bool): Read {
    if 1 <= meta <= 4 then ReadText(rest, meta, refuses) else None
  }

  function FillUp(content: Octets, max: nat): (bs: Octets)
    ensures |bs| == if |content| < max then max else |content|
    ensures content <= bs && forall i :: |content| <= i < |bs| ==> bs[i] == 0
  {
    content + if |content| < max then seq(max - |content|, _ => 0) else []
  }

  /** `BINARY(max)` is filled up with zeros, which the log leaves off. */
  function ReadBinary(rest: Octets, max: nat): Read {
    match Prefixed(rest, 1)
    case None => None
    case Some(content) => Some((|content| + 1, Content(FillUp(content, max))))
  }

  function ReadString(rest: Octets, meta: nat, binary: bool, refuses: Octets -> bool): Read {
    if High(meta) == ENUM_CODE then ReadEnum(rest, Low(meta), refuses)
    else if High(meta) == SET_CODE then ReadMember(rest, Low(meta), refuses)
    else if StringMax(meta) > 255 then ReadText(rest, 2, refuses)
    else if binary then ReadBinary(rest, StringMax(meta))
    else ReadText(rest, 1, refuses)
  }

  /** `CellValue`. */
  function CellValue(rest: Octets, c: Column): Read {
    match c.typ
    case Tiny => ReadInteger(rest, 1, c.signed)
    case Year => ReadYear(rest)
    case Short => ReadInteger(rest, 2, c.signed)
    case Int24 => ReadInteger(rest, 3, c.signed)
    case Long => ReadInteger(rest, 4, c.signed)
    case Float => ReadFloat(rest, 4)
    case Double => ReadFloat(rest, 8)
    case Timestamp => ReadTimestamp(rest)
    case LongLong => ReadInteger(rest, 8, c.signed)
    case Date | NewDate => ReadDate(rest)
    case OldTime => ReadOldTime(rest)
    case DateTime => ReadDateTime(rest)
    case Varchar | VarString => ReadText(rest, if c.meta > 255 then 2 else 1, c.refuses)
    case Bit => ReadBit(rest, BitLength(c.meta))
    case Timestamp2 => ReadTimestamp2(rest, c.meta)
    case DateTime2 => ReadDateTime2(rest, c.meta)
    case Time2 => ReadTime(rest, c.meta)
    case NewDecimal => ReadDecimal(rest, High(c.meta), Low(c.meta), c.scale)
    case Enum => ReadEnum(rest, Low(c.meta), c.refuses)
    case Set => ReadMember(rest, Low(c.meta), c.refuses)
    case Json | TinyBlob | MediumBlob | LongBlob | Blob | Vector | Geometry => ReadBlob(rest, c.meta, c.refuses)
    case String => ReadString(rest, c.meta, c.binary, c.refuses)
    case Null | Unsupported => None
  }

  /** A fractional-second precision that MySQL can declare. */
  predicate PlainFraction(c: Column) {
    c.typ.Timestamp2? || c.typ.DateTime2? ==> c.meta <= 6
  }

  /** The cell starts with its length. */
  predicate IsText(t: Type) {
    || t.Varchar? || t.VarString? || t.String?
    || t.Json? || t.TinyBlob? || t.MediumBlob? || t.LongBlob? || t.Blob? || t.Vector? || t.Geometry?
  }

  lemma {:induction false} TextReads(rest: Octets, c: Column)
    requires IsText(c.typ) && CellValue(rest, c).Some?
    ensures CellLength(rest, c.typ, c.meta) == Some(CellValue(rest, c).value.0)
  {
  }

  lemma {:induction false} FixedReads(rest: Octets, c: Column)
    requires !IsText(c.typ) && CellValue(rest, c).Some?
    ensures CellLength(rest, c.typ, c.meta) == Some(CellValue(rest, c).value.0) <==> PlainFraction(c)
  {
    match c.typ {
      case NewDecimal =>
        LayoutNotEmpty(High(c.meta), Low(c.meta));
      case Timestamp2 | DateTime2 =>
      case Time2 | Enum | Set | Bit =>
      case _ =>
    }
  }

  /**
   Whatever the column and the data, a cell that is read takes `CellLength` bytes if and only if it is
   not a timestamp or datetime that claims more than six fractional digits.
   */
  lemma {:induction false} ReadsCellLength(rest: Octets, c: Column)
    requires CellValue(rest, c).Some?
    ensures CellLength(rest, c.typ, c.meta) == Some(CellValue(rest, c).value.0) <==> PlainFraction(c)
  {
    if IsText(c.typ) {
      TextReads(rest, c);
    } else {
      FixedReads(rest, c);
    }
  }

  /** The bytes are one whole cell of the column, and the reader accepts them. */
  predicate IsCell(bs: Octets, c: Column) {
    CellLength(bs, c.typ, c.meta) == Some(|bs|) && CellValue(bs, c).Some?
  }

  lemma {:induction false} TakeLocal(bs: Octets, more: Octets, n: nat)
    requires n <= |bs|
    ensures Take(bs + more, n) == Take(bs, n)
  {
    assert (bs + more)[..n] == bs[..n];
  }

  lemma {:induction false} PrefixedLocal(bs: Octets, more: Octets, k: nat)
    requires PrefixedLength(bs, k) == Some(|bs|)
    ensures Prefixed(bs + more, k) == Prefixed(bs, k)
  {
    assert (bs + more)[..k] == bs[..k];
    assert (bs + more)[k..|bs|] == bs[k..|bs|];
  }

  lemma {:induction false} StringIsLocal(bs: Octets, more: Octets, c: Column)
    requires c.typ.String? && IsCell(bs, c)
    ensures CellValue(bs + more, c) == CellValue(bs, c)
  {
    if High(c.meta) != ENUM_CODE && High(c.meta) != SET_CODE {
      PrefixedLocal(bs, more, if StringMax(c.meta) > 255 then 2 else 1);
    } else {
      TakeLocal(bs, more, |bs|);
    }
  }

  lemma {:induction false} TextIsLocal(bs: Octets, more: Octets, c: Column)
    requires IsText(c.typ) && IsCell(bs, c)
    ensures CellValue(bs + more, c) == CellValue(bs, c)
  {
    if c.typ.String? {
      StringIsLocal(bs, more, c);
    } else if c.typ.Varchar? || c.typ.VarString? {
      PrefixedLocal(bs, more, if c.meta > 255 then 2 else 1);
    } else {
      PrefixedLocal(bs, more, c.meta);
    }
  }

  lemma {:induction false} FixedIsLocal(bs: Octets, more: Octets, c: Column)
    requires !IsText(c.typ) && IsCell(bs, c) && PlainFraction(c)
    ensures CellValue(bs + more, c) == CellValue(bs, c)
  {
    TakeLocal(bs, more, |bs|);
    match c.typ {
      case Time2 =>
        TakeLocal(bs, more, 3);
      case NewDecimal =>
      case Timestamp2 | DateTime2 =>
      case Enum | Set | Bit =>
      case _ =>
    }
  }

  /** What follows a cell does not change how it is read. */
  lemma {:induction false} CellIsLocal(bs: Octets, more: Octets, c: Column)
    requires IsCell(bs, c) && PlainFraction(c)
    ensures CellValue(bs + more, c) == CellValue(bs, c)
  {
    if IsText(c.typ) {
      TextIsLocal(bs, more, c);
    } else {
      FixedIsLocal(bs, more, c);
    }
  }

  /** A timestamp claiming seven fractional digits is read short. */
  lemma {:induction false} MisalignedTimestamp(rest: Octets, c: Column)
    requires c.typ.Timestamp2? && c.meta == 7 && |rest| >= 8
    ensures CellValue(rest, c) == Some((4, Instant(BigEndian(rest[..4]) * 1_000_000)))
    ensures CellLength(rest, c.typ, c.meta) == Some(8)
  {
    assert rest[..4][..4] == rest[..4];
  }

  // ----- Cells that MySQL writes -----

  /** A decimal's digits, padded from its scale to the builder's. */
  function Padded(negative: bool, ds: seq<Digit>, scale: nat, desired: nat): int {
    if scale == 0 || scale > desired then Decimal.Signed(negative, Decimal.Number(ds))
    else Decimal.Signed(negative, Decimal.Number(ds) * Pow(10, desired - scale))
  }

  lemma {:induction false} ReadEncodedDecimal(negative: bool, ds: seq<Digit>, scale: nat, desired: nat)
    requires 0 < |ds| <= 65 && scale <= |ds| && (scale > 0 ==> scale <= desired)
    ensures var bs := Encode(negative, ds, |ds|, scale);
            ReadDecimal(bs, |ds|, scale, desired) == Some((|bs|, Fixed(Padded(negative, ds, scale, desired))))
  {
    var bs := Encode(negative, ds, |ds|, scale);
    BufferSuffices(|ds|, scale);
    UnscaledOfEncoding(negative, ds, |ds|, scale, desired);
    assert bs[..|bs|] == bs;
  }

  lemma {:induction false} PaddedIsExact(negative: bool, ds: seq<Digit>, scale: nat, desired: nat)
    requires 0 < |ds| && scale <= |ds| && (scale > 0 ==> scale <= desired)
    ensures IsExact(Some(Padded(negative, ds, scale, desired)),
                    Decimal.Signed(negative, Decimal.Number(ds)), scale, desired)
            <==> scale > 0 || desired == 0 || Decimal.Number(ds) == 0
  {
    UnscaledOfEncoding(negative, ds, |ds|, scale, desired);
    DecimalRoundTrip(negative, ds, |ds|, scale, desired);
  }

  lemma {:induction false} DecimalIsCell(bs: Octets, c: Column, read: int)
    requires c.typ.NewDecimal? && ReadDecimal(bs, High(c.meta), Low(c.meta), c.scale) == Some((|bs|, Fixed(read)))
    ensures IsCell(bs, c) && CellValue(bs, c) == Some((|bs|, Fixed(read)))
  {
    ReadsCellLength(bs, c);
  }

  /**
   Every decimal that MySQL can store, with no more fractional digits than the builder keeps, is one whole
   cell. What is read is its value at the builder's scale if and only if it has fractional digits, or the
   builder keeps none, or it is 0: a decimal without fractional digits is not padded.
   */
  lemma {:induction false} DecimalCell(negative: bool, ds: seq<Digit>, scale: nat, c: Column) returns (read: int)
    requires c.typ.NewDecimal? && 0 < |ds| <= 65 && scale <= |ds|
    requires High(c.meta) == |ds| && Low(c.meta) == scale && (scale > 0 ==> scale <= c.scale)
    ensures IsCell(Encode(negative, ds, |ds|, scale), c)
    ensures CellValue(Encode(negative, ds, |ds|, scale), c) == Some((|Encode(negative, ds, |ds|, scale)|, Fixed(read)))
    ensures IsExact(Some(read), Decimal.Signed(negative, Decimal.Number(ds)), scale, c.scale)
            <==> scale > 0 || c.scale == 0 || Decimal.Number(ds) == 0
  {
    read := Padded(negative, ds, scale, c.scale);
    ReadEncodedDecimal(negative, ds, scale, c.scale);
    DecimalIsCell(Encode(negative, ds, |ds|, scale), c, read);
    PaddedIsExact(negative, ds, scale, c.scale);
  }

  /** Every duration that MySQL can store is one whole cell, and is read as its microseconds. */
  lemma {:induction false} TimeCell(t: Time.Duration, c: Column)
    requires c.typ.Time2? && IsTime(t, c.meta)
    ensures var bs := EncodeTime(t, c.meta);
            IsCell(bs, c) && CellValue(bs, c) == Some((|bs|, Span(Micros(t, c.meta))))
  {
    var bs := EncodeTime(t, c.meta);
    TimeRoundTrip(t, c.meta);
    assert bs[..|bs|] == bs;
  }
}
