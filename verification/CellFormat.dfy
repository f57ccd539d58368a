/**
 How MySQL writes the cells of a row image, type by type, from the values themselves: sizes, byte orders,
 offsets and length prefixes are written out here and shared with nothing that reads them. Decimals and
 durations are written by `Decimal.Encode` and `Time.EncodeTime`, whose bytes `DecimalFormat.EncodeHolds` and
 `Time.CellIsOffsetNumber` state.
 */
module CellFormat {
  import opened Bytes
  import opened Decimal
  import opened Time
  import opened Cells
  import opened RowWalk

  /** A value as a client stored it. A fraction is counted in units of the column's last digit. */
  datatype Stored =
    | WholeNumber(n: int)
    | CalendarYear(year: nat)
    | FloatBits(bits: nat)
    | UnixSeconds(seconds: nat)
    | UnixFraction(seconds: nat, fraction: nat)
    | CalendarDate(year: nat, month: nat, day: nat)
    | OldClock(year: nat, month: nat, day: nat, hour: nat, minute: nat, second: nat)
    | Clock(year: nat, month: nat, day: nat, hour: nat, minute: nat, second: nat, fraction: nat)
    | OldDuration(t: Time.Duration)
    | ExactDuration(t: Time.Duration)
    | DecimalNumber(negative: bool, digits: seq<Digit>, scale: nat)
    | BitField(width: nat, number: nat)
    | EnumIndex(size: nat, number: nat)
    | SetBits(size: nat, number: nat)
    | VarText(text: Octets)
    | LongText(text: Octets)
    | CharText(max: nat, text: Octets)

  // ----- Columns -----

  /** How many bytes an integer of the type takes; 0 for other types. */
  function IntegerSize(t: Type): nat {
    match t
    case Tiny => 1
    case Short => 2
    case Int24 => 3
    case Long => 4
    case LongLong => 8
    case _ => 0
  }

  /** How many values `k` bytes have. */
  function Range(k: nat): nat {
    match k
    case 1 => 0x100
    case 2 => 0x1_0000
    case 3 => 0x100_0000
    case 4 => 0x1_0000_0000
    case 5 => 0x100_0000_0000
    case 6 => 0x1_0000_0000_0000
    case 7 => 0x100_0000_0000_0000
    case 8 => 0x1_0000_0000_0000_0000
    case _ => 1
  }

  /** How many fractions of a second there are with that many digits. */
  function Fractions(decimals: nat): nat {
    match decimals
    case 1 => 10
    case 2 => 100
    case 3 => 1_000
    case 4 => 10_000
    case 5 => 100_000
    case 6 => 1_000_000
    case _ => 1
  }

  /** The metadata of a `CHAR` or `BINARY` of at most `max` bytes: bits 8 and 9 of `max` are inverted in it. */
  function CharMeta(max: nat): nat
    requires max < 1024
  {
    (254 - 16 * (max / 256)) * 256 + max % 256
  }

  predicate IsBlob(t: Type) {
    t.Json? || t.TinyBlob? || t.MediumBlob? || t.LongBlob? || t.Blob? || t.Vector? || t.Geometry?
  }

  /** Enumerations and sets may also be announced as strings, with their own type in the metadata. */
  predicate IsMember(c: Column, own: Type, code: nat, size: nat) {
    (c.typ == own && c.meta % 256 == size) || (c.typ == String && c.meta == code * 256 + size)
  }

  // ----- Cells -----

  /** Two's complement. */
  function Complement(n: int, k: nat): nat
    requires -(Range(k) as int) <= n < Range(k)
  {
    if n < 0 then n + Range(k) else n
  }

  /** Two digits of a fraction to a byte. */
  function FractionCell(fraction: nat, decimals: nat): Octets {
    ToBigEndian(if decimals % 2 == 1 then fraction * 10 else fraction, (decimals + 1) / 2)
  }

  /** A fraction of a second in microseconds. */
  function MicrosOf(fraction: nat, decimals: nat): nat {
    match decimals
    case 1 => fraction * 100_000
    case 2 => fraction * 10_000
    case 3 => fraction * 1_000
    case 4 => fraction * 100
    case 5 => fraction * 10
    case 6 => fraction
    case _ => 0
  }

  /** The decimal number YYYYMMDDhhmmss. */
  function OldClockNumber(y: nat, m: nat, d: nat, h: nat, mi: nat, s: nat): nat {
    y * 10_000_000_000 + m * 100_000_000 + d * 1_000_000 + h * 10_000 + mi * 100 + s
  }

  /** The fields of a date and time, packed: thirteen months to a year, and bits for the rest. */
  function ClockNumber(y: nat, m: nat, d: nat, h: nat, mi: nat, s: nat): nat {
    ((y * 13 + m) * 32 + d) * 0x2_0000 + h * 4096 + mi * 64 + s
  }

  function Zeros(n: nat): (bs: Octets)
    ensures |bs| == n
  {
    seq(n, _ => 0)
  }

  /** The column stores such values, and its builder accepts them with all their fractional digits. */
  predicate Fits(v: Stored, c: Column) {
    match v
    case WholeNumber(n) =>
      var k := IntegerSize(c.typ);
      k > 0 && if c.signed then -(Range(k) as int) <= 2 * n < Range(k) else 0 <= n < Range(k)
    case CalendarYear(y) => c.typ == Year && (y == 0 || 1901 <= y <= 2155)
    case FloatBits(bits) => (c.typ == Float && bits < Range(4)) || (c.typ == Type.Double && bits < Range(8))
    case UnixSeconds(s) => c.typ == Timestamp && s < Range(4)
    case UnixFraction(s, f) => c.typ == Timestamp2 && s < Range(4) && c.meta <= 6 && f < Fractions(c.meta)
    case CalendarDate(y, m, d) => (c.typ == Date || c.typ == NewDate) && y <= 9999 && m <= 12 && d <= 31
    case OldClock(y, m, d, h, mi, s) =>
      c.typ == DateTime && y <= 9999 && m <= 12 && d <= 31 && h <= 23 && mi <= 59 && s <= 59
    case Clock(y, m, d, h, mi, s, f) =>
      && c.typ == DateTime2 && y <= 9999 && m <= 12 && d <= 31 && h <= 23 && mi <= 59 && s <= 59
      && c.meta <= 6 && f < Fractions(c.meta)
    case OldDuration(t) => c.typ == OldTime && t.hours <= 838 && t.minutes <= 59 && t.seconds <= 59 && t.fraction == 0
    case ExactDuration(t) => c.typ == Time2 && IsTime(t, c.meta)
    case DecimalNumber(_, ds, scale) =>
      c.typ == NewDecimal && 0 < |ds| <= 65 && scale <= |ds| && scale <= c.scale && c.meta == |ds| * 256 + scale
    case BitField(width, n) =>
      && c.typ == Bit && 1 <= width <= 64 && c.meta == width / 8 * 256 + width % 8
      && n < Range((width + 7) / 8)
    case EnumIndex(k, n) =>
      IsMember(c, Enum, 247, k) && 1 <= k <= 2 && n < Range(k) && !c.refuses(ToLittleEndian(n, k))
    case SetBits(k, n) =>
      IsMember(c, Set, 248, k) && 1 <= k <= 8 && n < Range(k) && !c.refuses(ToLittleEndian(n, k))
    case VarText(text) => (c.typ == Varchar || c.typ == VarString) && |text| <= c.meta <= 65535 && !c.refuses(text)
    case LongText(text) => IsBlob(c.typ) && 1 <= c.meta <= 4 && |text| < Range(c.meta) && !c.refuses(text)
    case CharText(max, text) =>
      && c.typ == String && |text| <= max < 1024 && c.meta == CharMeta(max)
      && (c.binary ==> max <= 255) && (c.binary || !c.refuses(text))
  }

  /** The bytes of a value in the row image. */
  function Write(v: Stored, c: Column): Octets
    requires Fits(v, c)
  {
    match v
    case WholeNumber(n) => ToLittleEndian(Complement(n, IntegerSize(c.typ)), IntegerSize(c.typ))
    case CalendarYear(y) => [if y == 0 then 0 else y - 1900]
    case FloatBits(bits) => ToLittleEndian(bits, if c.typ == Float then 4 else 8)
    case UnixSeconds(s) => ToLittleEndian(s, 4)
    case UnixFraction(s, f) => ToBigEndian(s, 4) + FractionCell(f, c.meta)
    case CalendarDate(y, m, d) => ToLittleEndian(y * 512 + m * 32 + d, 3)
    case OldClock(y, m, d, h, mi, s) =>
      ToLittleEndian(OldClockNumber(y, m, d, h, mi, s), 8)
    case Clock(y, m, d, h, mi, s, f) =>
      ToBigEndian(0x80_0000_0000 + ClockNumber(y, m, d, h, mi, s), 5) + FractionCell(f, c.meta)
    case OldDuration(t) => ToLittleEndian(Complement(OldTimeNumber(t), 3), 3)
    case ExactDuration(t) => EncodeTime(t, c.meta)
    case DecimalNumber(negative, ds, scale) => Encode(negative, ds, |ds|, scale)
    case BitField(width, n) => ToBigEndian(n, (width + 7) / 8)
    case EnumIndex(k, n) => ToLittleEndian(n, k)
    case SetBits(k, n) => ToLittleEndian(n, k)
    case VarText(text) => ToLittleEndian(|text|, if c.meta > 255 then 2 else 1) + text
    case LongText(text) => ToLittleEndian(|text|, c.meta) + text
    case CharText(max, text) => ToLittleEndian(|text|, if max > 255 then 2 else 1) + text
  }

  function ZeroDigits(k: nat): (ds: seq<Digit>)
    ensures |ds| == k
  {
    seq(k, _ => 0)
  }

  /** The signed number of the digits with `k` zeros behind them. */
  function ScaledBy(negative: bool, ds: seq<Digit>, k: nat): int {
    Decimal.Signed(negative, Decimal.Number(ds + ZeroDigits(k)))
  }

  /** What the value is, to the column's builder. */
  function Means(v: Stored, c: Column): Value
    requires Fits(v, c)
  {
    match v
    case WholeNumber(n) => Whole(n)
    case CalendarYear(y) => Whole(y)
    case FloatBits(bits) => Floating(bits)
    case UnixSeconds(s) => Instant(s * 1_000_000)
    case UnixFraction(s, f) => Instant(s * 1_000_000 + MicrosOf(f, c.meta))
    case CalendarDate(y, m, d) => Day(y, m, d)
    case OldClock(y, m, d, h, mi, s) => Moment(y, m, d, h, mi, s, 0)
    case Clock(y, m, d, h, mi, s, f) => Moment(y, m, d, h, mi, s, MicrosOf(f, c.meta))
    case OldDuration(t) => Span(Micros(t, 0))
    case ExactDuration(t) => Span(Micros(t, c.meta))
    case DecimalNumber(negative, ds, scale) => Fixed(ScaledBy(negative, ds, c.scale - scale))
    case BitField(_, n) => Whole(n)
    case EnumIndex(_, n) => Members(n)
    case SetBits(_, n) => Members(n)
    case VarText(text) => Content(text)
    case LongText(text) => Content(text)
    case CharText(max, text) => Content(if c.binary then text + Zeros(max - |text|) else text)
  }

  /**
   What the reader does not get wrong: not a negative duration of the older form other than whole hours, nor
   a decimal without fractional digits for a builder that keeps some.
   */
  predicate Exact(v: Stored, c: Column) {
    match v
    case OldDuration(t) => !t.negative || (t.minutes == 0 && t.seconds == 0)
    case DecimalNumber(_, ds, scale) => scale > 0 || c.scale == 0 || Decimal.Number(ds) == 0
    case _ => true
  }

  // ----- Numbers -----

  /** The bytes are one whole cell, and are read as the value. */
  predicate ReadAs(bs: Octets, c: Column, val: Value) {
    CellLength(bs, c.typ, c.meta) == Some(|bs|) && CellValue(bs, c) == Some((|bs|, val))
  }

  lemma {:induction false} RangeIsPow(k: nat)
    requires k <= 8
    ensures Range(k) == Pow(256, k)
  {
    if k > 0 {
      RangeIsPow(k - 1);
    }
  }

  lemma {:induction false} LittleReads(n: nat, k: nat)
    requires k <= 8 && n < Range(k)
    ensures LittleEndian(ToLittleEndian(n, k)) == n
  {
    RangeIsPow(k);
    LittleEndianInverse(n, k);
  }

  lemma {:induction false} BigReads(n: nat, k: nat)
    requires k <= 8 && n < Range(k)
    ensures BigEndian(ToBigEndian(n, k)) == n
  {
    RangeIsPow(k);
    BigEndianInverse(n, k);
  }

  lemma {:induction false} TakeAll(bs: Octets)
    ensures Take(bs, |bs|) == Some(bs)
  {
    assert bs[..|bs|] == bs;
  }

  lemma {:induction false} IntegerReads(n: int, k: nat, c: Column)
    requires k == IntegerSize(c.typ) > 0
    requires if c.signed then -(Range(k) as int) <= 2 * n < Range(k) else 0 <= n < Range(k)
    ensures ReadAs(ToLittleEndian(Complement(n, k), k), c, Whole(n))
  {
    RangeIsPow(k);
    LittleReads(Complement(n, k), k);
    TakeAll(ToLittleEndian(Complement(n, k), k));
  }

  lemma {:induction false} FloatReads(bits: nat, k: nat, c: Column)
    requires (c.typ == Float && k == 4) || (c.typ == Type.Double && k == 8)
    requires bits < Range(k)
    ensures ReadAs(ToLittleEndian(bits, k), c, Floating(bits))
  {
    LittleReads(bits, k);
    TakeAll(ToLittleEndian(bits, k));
  }

  lemma {:induction false} BitMetaReads(width: nat, meta: nat)
    requires width <= 64 && meta == width / 8 * 256 + width % 8
    ensures BitLength(meta) == (width + 7) / 8
  {
    var q, r := width / 8, width % 8;
    DivUnique(meta, 256, q, r);
    assert width == q * 8 + r;
  }

  lemma {:induction false} BitFieldReads(width: nat, n: nat, k: nat, c: Column)
    requires c.typ == Bit && 1 <= width <= 64 && c.meta == width / 8 * 256 + width % 8
    requires k == (width + 7) / 8 <= 8 && n < Range(k)
    ensures ReadAs(ToBigEndian(n, k), c, Whole(n))
  {
    BitMetaReads(width, c.meta);
    BigReads(n, k);
    TakeAll(ToBigEndian(n, k));
  }

  lemma {:induction false} MembersRead(n: nat, k: nat, c: Column)
    requires 1 <= k <= 8 && n < Range(k) && !c.refuses(ToLittleEndian(n, k))
    requires (IsMember(c, Enum, 247, k) && k <= 2) || IsMember(c, Set, 248, k)
    ensures ReadAs(ToLittleEndian(n, k), c, Members(n))
  {
    LittleReads(n, k);
    TakeAll(ToLittleEndian(n, k));
    assert c.typ == String ==> Low(c.meta) == k && (High(c.meta) == 247 || High(c.meta) == 248);
    assert n % Range(8) == n;
  }

  lemma {:induction false} CancelFactor(a: int, b: int, q: int)
    requires q > 0
    ensures a * q == b * q <==> a == b
  {
    if a > b {
      Multiple(a - b, q);
      assert (a - b) * q == a * q - b * q;
    } else if a < b {
      Multiple(b - a, q);
      assert (b - a) * q == b * q - a * q;
    }
  }

  lemma {:induction false} ScaledExactly(read: int, value: int, scale: nat, desired: nat)
    requires scale <= desired
    ensures IsExact(Some(read), value, scale, desired) <==> read == value * Pow(10, desired - scale)
  {
    var p: int, q: int := Pow(10, desired - scale), Pow(10, scale);
    PowAdd(10, desired - scale, scale);
    Assoc(value, p, q);
    CancelFactor(read, value * p, q);
  }

  lemma {:induction false} ZerosAreZero(k: nat)
    ensures Decimal.Number(ZeroDigits(k)) == 0
  {
    if k > 0 {
      assert ZeroDigits(k)[..k - 1] == ZeroDigits(k - 1);
      ZerosAreZero(k - 1);
    }
  }

  lemma {:induction false} ScaledByZeros(negative: bool, ds: seq<Digit>, k: nat)
    ensures ScaledBy(negative, ds, k) == Decimal.Signed(negative, Decimal.Number(ds)) * Pow(10, k)
  {
    NumberAppend(ds, ZeroDigits(k));
    ZerosAreZero(k);
    SignedTimes(negative, Decimal.Number(ds), Pow(10, k));
  }

  lemma {:induction false} ExactlyScaled(read: int, negative: bool, ds: seq<Digit>, scale: nat, desired: nat)
    requires scale <= desired
    ensures IsExact(Some(read), Decimal.Signed(negative, Decimal.Number(ds)), scale, desired)
            <==> read == ScaledBy(negative, ds, desired - scale)
  {
    ScaledByZeros(negative, ds, desired - scale);
    ScaledExactly(read, Decimal.Signed(negative, Decimal.Number(ds)), scale, desired);
  }

  lemma {:induction false} FixedIsReadAs(bs: Octets, c: Column, read: int, x: int)
    requires IsCell(bs, c) && CellValue(bs, c) == Some((|bs|, Fixed(read)))
    ensures ReadAs(bs, c, Fixed(x)) <==> x == read
  {
  }

  lemma {:induction false} DecimalMetaReads(precision: nat, scale: nat, meta: nat)
    requires scale <= precision <= 65 && meta == precision * 256 + scale
    ensures High(meta) == precision && Low(meta) == scale
  {
    DivUnique(meta, 256, precision, scale);
  }

  lemma {:induction false} DecimalReads(negative: bool, ds: seq<Digit>, scale: nat, c: Column)
    requires c.typ == NewDecimal && 0 < |ds| <= 65 && c.meta == |ds| * 256 + scale
    requires scale <= |ds| && scale <= c.scale
    ensures IsCell(Encode(negative, ds, |ds|, scale), c)
    ensures ReadAs(Encode(negative, ds, |ds|, scale), c, Fixed(ScaledBy(negative, ds, c.scale - scale)))
            <==> scale > 0 || c.scale == 0 || Decimal.Number(ds) == 0
  {
    DecimalMetaReads(|ds|, scale, c.meta);
    var read := DecimalCell(negative, ds, scale, c);
    ExactlyScaled(read, negative, ds, scale, c.scale);
    FixedIsReadAs(Encode(negative, ds, |ds|, scale), c, read, ScaledBy(negative, ds, c.scale - scale));
  }

  // ----- Dates and times -----

  lemma {:induction false} YearReads(y: nat, c: Column)
    requires c.typ == Year && (y == 0 || 1901 <= y <= 2155)
    ensures ReadAs([if y == 0 then 0 else y - 1900], c, Whole(y))
  {
    TakeAll([if y == 0 then 0 else y - 1900]);
  }

  lemma {:induction false} SecondsRead(s: nat, c: Column)
    requires c.typ == Timestamp && s < Range(4)
    ensures ReadAs(ToLittleEndian(s, 4), c, Instant(s * 1_000_000))
  {
    LittleReads(s, 4);
    TakeAll(ToLittleEndian(s, 4));
  }

  lemma {:induction false} DateFields(y: nat, m: nat, d: nat, n: nat)
    requires m < 16 && d < 32 && n == y * 512 + m * 32 + d
    ensures n / 512 == y && n / 32 % 16 == m && n % 32 == d
  {
    assert n / 32 == y * 16 + m;
  }

  lemma {:induction false} DateReads(y: nat, m: nat, d: nat, n: nat, c: Column)
    requires (c.typ == Date || c.typ == NewDate) && y <= 9999 && m <= 12 && d <= 31 && n == y * 512 + m * 32 + d
    ensures ReadAs(ToLittleEndian(n, 3), c, Day(y, m, d))
  {
    LittleReads(n, 3);
    TakeAll(ToLittleEndian(n, 3));
    DateFields(y, m, d, n);
  }

  lemma {:induction false} DecimalFields(d: nat, y: nat, m: nat, day: nat)
    requires m < 100 && day < 100 && d == y * 10_000 + m * 100 + day
    ensures d / 10_000 == y && d % 10_000 / 100 == m && d % 100 == day
  {
  }

  lemma {:induction false} OldClockReads(y: nat, m: nat, day: nat, h: nat, mi: nat, s: nat, n: nat, c: Column)
    requires c.typ == DateTime && y <= 9999 && m <= 12 && day <= 31 && h <= 23 && mi <= 59 && s <= 59
    requires n == OldClockNumber(y, m, day, h, mi, s)
    ensures ReadAs(ToLittleEndian(n, 8), c, Moment(y, m, day, h, mi, s, 0))
  {
    var d, t := y * 10_000 + m * 100 + day, h * 10_000 + mi * 100 + s;
    LittleReads(n, 8);
    TakeAll(ToLittleEndian(n, 8));
    DivUnique(n, 1_000_000, d, t);
    DecimalFields(d, y, m, day);
    DecimalFields(t, h, mi, s);
  }

  lemma {:induction false} FractionFits(f: nat, decimals: nat, stored: nat)
    requires decimals <= 6 && f < Fractions(decimals) && stored == if decimals % 2 == 1 then f * 10 else f
    ensures stored < Range((decimals + 1) / 2)
    ensures FractionMicros(stored, decimals) == MicrosOf(f, decimals)
  {
  }

  lemma {:induction false} FractionReads(f: nat, decimals: nat)
    requires decimals <= 6 && f < Fractions(decimals)
    ensures |FractionCell(f, decimals)| == (decimals + 1) / 2
    ensures FractionMicros(BigEndian(FractionCell(f, decimals)), decimals) == MicrosOf(f, decimals)
  {
    var stored := if decimals % 2 == 1 then f * 10 else f;
    FractionFits(f, decimals, stored);
    BigReads(stored, (decimals + 1) / 2);
  }

  lemma {:induction false} TwoParts(a: Octets, b: Octets)
    ensures (a + b)[..|a|] == a && (a + b)[|a|..] == (a + b)[|a|..|a| + |b|] == b
  {
  }

  lemma {:induction false} Timestamp2Reads(a: Octets, b: Octets, s: nat, micros: nat, c: Column)
    requires c.typ == Timestamp2 && c.meta <= 6 && |a| == 4 && |b| == (c.meta + 1) / 2
    requires BigEndian(a) == s && FractionMicros(BigEndian(b), c.meta) == micros
    ensures ReadAs(a + b, c, Instant(s * 1_000_000 + micros))
  {
    TwoParts(a, b);
    TakeAll(a + b);
  }

  lemma {:induction false} DateTime2Reads(a: Octets, b: Octets, stored: nat, micros: nat, c: Column)
    requires c.typ == DateTime2 && c.meta <= 6 && |a| == 5 && |b| == (c.meta + 1) / 2
    requires BigEndian(a) == stored && FractionMicros(BigEndian(b), c.meta) == micros
    ensures ReadAs(a + b, c, Unpacked(stored, micros))
  {
    TwoParts(a, b);
    TakeAll(a + b);
  }

  lemma {:induction false} UnixFractionReads(s: nat, f: nat, c: Column)
    requires c.typ == Timestamp2 && s < Range(4) && c.meta <= 6 && f < Fractions(c.meta)
    ensures ReadAs(ToBigEndian(s, 4) + FractionCell(f, c.meta), c, Instant(s * 1_000_000 + MicrosOf(f, c.meta)))
  {
    BigReads(s, 4);
    FractionReads(f, c.meta);
    Timestamp2Reads(ToBigEndian(s, 4), FractionCell(f, c.meta), s, MicrosOf(f, c.meta), c);
  }

  lemma {:induction false} DayFields(y: nat, m: nat, d: nat, ymd: nat)
    requires m < 13 && d < 32 && ymd == (y * 13 + m) * 32 + d
    ensures ymd / 32 / 13 == y && ymd / 32 % 13 == m && ymd % 32 == d
  {
    DivUnique(ymd, 32, y * 13 + m, d);
    DivUnique(y * 13 + m, 13, y, m);
  }

  lemma {:induction false} TimeFields(h: nat, mi: nat, s: nat, hms: nat)
    requires mi < 64 && s < 64 && hms == h * 4096 + mi * 64 + s
    ensures hms / 4096 == h && hms / 64 % 64 == mi && hms % 64 == s
  {
    DivUnique(hms, 64, h * 64 + mi, s);
    DivUnique(h * 64 + mi, 64, h, mi);
    DivUnique(hms, 4096, h, mi * 64 + s);
  }

  lemma {:induction false} ClockFields(y: nat, m: nat, d: nat, h: nat, mi: nat, s: nat, micros: nat, n: nat)
    requires y <= 9999 && m < 13 && d < 32 && h < 32 && mi < 64 && s < 64
    requires n == ClockNumber(y, m, d, h, mi, s)
    ensures n < 0x80_0000_0000 && Unpacked(0x80_0000_0000 + n, micros) == Moment(y, m, d, h, mi, s, micros)
  {
    var ymd, hms := (y * 13 + m) * 32 + d, h * 4096 + mi * 64 + s;
    assert 0 <= hms < 0x2_0000 && n == ymd * 0x2_0000 + hms;
    DivUnique(n, 0x2_0000, ymd, hms);
    DayFields(y, m, d, ymd);
    TimeFields(h, mi, s, hms);
  }

  lemma {:induction false} ClockReads(
    y: nat, m: nat, d: nat, h: nat, mi: nat, s: nat, f: nat, n: nat, c: Column)
    requires c.typ == DateTime2 && y <= 9999 && m <= 12 && d <= 31 && h <= 23 && mi <= 59 && s <= 59
    requires c.meta <= 6 && f < Fractions(c.meta)
    requires n == ClockNumber(y, m, d, h, mi, s)
    ensures ReadAs(ToBigEndian(0x80_0000_0000 + n, 5) + FractionCell(f, c.meta), c,
                   Moment(y, m, d, h, mi, s, MicrosOf(f, c.meta)))
  {
    ClockFields(y, m, d, h, mi, s, MicrosOf(f, c.meta), n);
    BigReads(0x80_0000_0000 + n, 5);
    FractionReads(f, c.meta);
    DateTime2Reads(ToBigEndian(0x80_0000_0000 + n, 5), FractionCell(f, c.meta), 0x80_0000_0000 + n,
                   MicrosOf(f, c.meta), c);
  }

  lemma {:induction false} OldDurationReads(t: Time.Duration, c: Column)
    requires c.typ == OldTime && t.hours <= 838 && t.minutes <= 59 && t.seconds <= 59 && t.fraction == 0
    ensures IsCell(ToLittleEndian(Complement(OldTimeNumber(t), 3), 3), c)
    ensures ReadAs(ToLittleEndian(Complement(OldTimeNumber(t), 3), 3), c, Span(Micros(t, 0)))
            <==> !t.negative || (t.minutes == 0 && t.seconds == 0)
  {
    RangeIsPow(3);
    LittleReads(Complement(OldTimeNumber(t), 3), 3);
    OldTimeExact(t);
    TakeAll(ToLittleEndian(Complement(OldTimeNumber(t), 3), 3));
  }

  // ----- Texts -----

  lemma {:induction false} PrefixReads(text: Octets, k: nat)
    requires 1 <= k <= 4 && |text| < Range(k)
    ensures Prefixed(ToLittleEndian(|text|, k) + text, k) == Some(text)
    ensures PrefixedLength(ToLittleEndian(|text|, k) + text, k) == Some(k + |text|)
  {
    LittleReads(|text|, k);
    TwoParts(ToLittleEndian(|text|, k), text);
  }

  lemma {:induction false} VarTextReads(text: Octets, k: nat, c: Column)
    requires (c.typ == Varchar || c.typ == VarString) && |text| <= c.meta <= 65535 && !c.refuses(text)
    requires k == if c.meta > 255 then 2 else 1
    ensures ReadAs(ToLittleEndian(|text|, k) + text, c, Content(text))
  {
    PrefixReads(text, k);
  }

  lemma {:induction false} LongTextReads(text: Octets, c: Column)
    requires IsBlob(c.typ) && 1 <= c.meta <= 4 && |text| < Range(c.meta) && !c.refuses(text)
    ensures ReadAs(ToLittleEndian(|text|, c.meta) + text, c, Content(text))
  {
    PrefixReads(text, c.meta);
  }

  lemma {:induction false} CharMetaReads(max: nat)
    requires max < 1024
    ensures StringMax(CharMeta(max)) == max && High(CharMeta(max)) != 247 && High(CharMeta(max)) != 248
  {
    var q, meta := max / 256, CharMeta(max);
    DivUnique(meta, 256, 254 - 16 * q, max % 256);
    DivUnique(meta, 4096, 15 - q, 14 * 256 + max % 256);
  }

  lemma {:induction false} CharReads(max: nat, text: Octets, k: nat, c: Column)
    requires c.typ == String && |text| <= max < 1024 && c.meta == CharMeta(max)
    requires (c.binary ==> max <= 255) && (c.binary || !c.refuses(text)) && k == if max > 255 then 2 else 1
    ensures ReadAs(ToLittleEndian(|text|, k) + text, c,
                   Content(if c.binary then text + Zeros(max - |text|) else text))
  {
    CharMetaReads(max);
    PrefixReads(text, k);
    assert FillUp(text, max) == text + Zeros(max - |text|);
  }

  // ----- Every cell -----

  ghost predicate Reads(v: Stored, c: Column)
    requires Fits(v, c)
  {
    IsCell(Write(v, c), c) && PlainFraction(c) && (ReadAs(Write(v, c), c, Means(v, c)) <==> Exact(v, c))
  }

  lemma {:induction false} NumberReads(v: Stored, c: Column)
    requires (v.WholeNumber? || v.FloatBits? || v.BitField?) && Fits(v, c)
    ensures Reads(v, c)
  {
    match v {
      case WholeNumber(n) => IntegerReads(n, IntegerSize(c.typ), c);
      case FloatBits(bits) => FloatReads(bits, if c.typ == Float then 4 else 8, c);
      case BitField(width, n) => BitFieldReads(width, n, (width + 7) / 8, c);
    }
  }

  lemma {:induction false} DecimalWritten(v: Stored, c: Column)
    requires v.DecimalNumber? && Fits(v, c)
    ensures Write(v, c) == Encode(v.negative, v.digits, |v.digits|, v.scale)
    ensures Means(v, c) == Fixed(ScaledBy(v.negative, v.digits, c.scale - v.scale))
  {
  }

  lemma {:induction false} DecimalNumberReads(v: Stored, c: Column)
    requires v.DecimalNumber? && Fits(v, c)
    ensures Reads(v, c)
  {
    DecimalWritten(v, c);
    DecimalReads(v.negative, v.digits, v.scale, c);
  }

  lemma {:induction false} MemberReads(v: Stored, c: Column)
    requires (v.EnumIndex? || v.SetBits?) && Fits(v, c)
    ensures Reads(v, c)
  {
    MembersRead(v.number, v.size, c);
  }

  lemma {:induction false} ShortTimeReads(v: Stored, c: Column)
    requires (v.CalendarYear? || v.UnixSeconds? || v.CalendarDate? || v.OldDuration?) && Fits(v, c)
    ensures Reads(v, c)
  {
    match v {
      case CalendarYear(y) => YearReads(y, c);
      case UnixSeconds(s) => SecondsRead(s, c);
      case CalendarDate(y, m, d) => DateReads(y, m, d, y * 512 + m * 32 + d, c);
      case OldDuration(t) => OldDurationReads(t, c);
    }
  }

  lemma {:induction false} FractionTimeReads(v: Stored, c: Column)
    requires (v.UnixFraction? || v.Clock?) && Fits(v, c)
    ensures Reads(v, c)
  {
    match v {
      case UnixFraction(s, f) => UnixFractionReads(s, f, c);
      case Clock(y, m, d, h, mi, s, f) => ClockReads(y, m, d, h, mi, s, f, ClockNumber(y, m, d, h, mi, s), c);
    }
  }

  lemma {:induction false} LongTimeReads(v: Stored, c: Column)
    requires (v.OldClock? || v.ExactDuration?) && Fits(v, c)
    ensures Reads(v, c)
  {
    match v {
      case OldClock(y, m, d, h, mi, s) => OldClockReads(y, m, d, h, mi, s, OldClockNumber(y, m, d, h, mi, s), c);
      case ExactDuration(t) => TimeCell(t, c);
    }
  }

  lemma {:induction false} TextReadsBack(v: Stored, c: Column)
    requires (v.VarText? || v.LongText? || v.CharText?) && Fits(v, c)
    ensures Reads(v, c)
  {
    match v {
      case VarText(text) => VarTextReads(text, if c.meta > 255 then 2 else 1, c);
      case LongText(text) => LongTextReads(text, c);
      case CharText(max, text) => CharReads(max, text, if max > 255 then 2 else 1, c);
    }
  }

  lemma {:induction false} StoredReads(v: Stored, c: Column)
    requires Fits(v, c)
    ensures Reads(v, c)
  {
    if v.WholeNumber? || v.FloatBits? || v.BitField? {
      NumberReads(v, c);
    } else if v.DecimalNumber? {
      DecimalNumberReads(v, c);
    } else if v.EnumIndex? || v.SetBits? {
      MemberReads(v, c);
    } else if v.VarText? || v.LongText? || v.CharText? {
      TextReadsBack(v, c);
    } else if v.CalendarYear? || v.UnixSeconds? || v.CalendarDate? || v.OldDuration? {
      ShortTimeReads(v, c);
    } else if v.UnixFraction? || v.Clock? {
      FractionTimeReads(v, c);
    } else {
      LongTimeReads(v, c);
    }
  }

  /**
   Every value that MySQL can store, of every type, is written as one whole cell of its column, and what is
   read from it, whatever follows, is the value, if and only if it is one that the reader does not get wrong.
   */
  lemma {:induction false} CellReadsBack(v: Stored, c: Column, more: Octets)
    requires Fits(v, c)
    ensures IsCell(Write(v, c), c) && PlainFraction(c)
    ensures CellValue(Write(v, c) + more, c) == Some((|Write(v, c)|, Means(v, c))) <==> Exact(v, c)
  {
    StoredReads(v, c);
    CellIsLocal(Write(v, c), more, c);
  }

  // ----- Whole rows -----

  predicate RowFits(vs: seq<Option<Stored>>, cs: seq<Column>) {
    |vs| == |cs| && forall i :: 0 <= i < |vs| ==> vs[i].Some? ==> Fits(vs[i].value, cs[i])
  }

  function WriteRow(vs: seq<Option<Stored>>, cs: seq<Column>): (cells: seq<RowCell>)
    requires RowFits(vs, cs)
    ensures |cells| == |cs|
  {
    seq(|vs|, i requires 0 <= i < |vs| => if vs[i].None? then None else Some(Write(vs[i].value, cs[i])))
  }

  /**
   For every schema and every row of storable values and nulls, the walk over the image that MySQL writes ends
   at its end and reads a null for each null and, of what the reader does not get wrong, each value.
   */
  lemma {:induction false} RowReadsBack(vs: seq<Option<Stored>>, cs: seq<Column>) returns (read: seq<Value>)
    requires RowFits(vs, cs)
    ensures var cells := WriteRow(vs, cs);
            Walk(CellValue, Image(cells), Nulls(cells), cs) == Some((|Image(cells)|, read))
    ensures |read| == |vs| && forall i :: 0 <= i < |vs| ==>
              if vs[i].None? then read[i] == NullValue
              else Exact(vs[i].value, cs[i]) ==> read[i] == Means(vs[i].value, cs[i])
  {
    var cells := WriteRow(vs, cs);
    forall i | 0 <= i < |cs| && cells[i].Some?
      ensures IsCell(cells[i].value, cs[i]) && PlainFraction(cs[i])
    {
      CellReadsBack(vs[i].value, cs[i], []);
    }
    RowAlignment(cells, cs);
    read := Meanings(CellValue, cells, cs);
    forall i | 0 <= i < |vs| && vs[i].Some? && Exact(vs[i].value, cs[i])
      ensures read[i] == Means(vs[i].value, cs[i])
    {
      CellReadsBack(vs[i].value, cs[i], []);
      assert Write(vs[i].value, cs[i]) + [] == Write(vs[i].value, cs[i]);
    }
  }
}
