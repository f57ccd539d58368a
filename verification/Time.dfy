/**
 TIME cells of the binary log (`binlog/rbr.go`): the packed form with a fraction, `TIME2`, and the
 older three-byte form.
 */
module Time {
  import opened Bytes

  /** A signed duration of hours, minutes, seconds and a fraction counted in units of 10^-decimals s. */
  datatype Duration = Duration(negative: bool, hours: nat, minutes: nat, seconds: nat, fraction: nat)

  function FractionBytes(decimals: nat): nat {
    (decimals + 1) / 2
  }

  predicate IsTime(t: Duration, decimals: nat) {
    && t.hours < 1024 && t.minutes < 64 && t.seconds < 64
    && decimals <= 6 && t.fraction < Pow(10, decimals)
  }

  /** What the duration is in microseconds. */
  function Micros(t: Duration, decimals: nat): int
    requires decimals <= 6
  {
    var n: int := (t.hours * 3600 + t.minutes * 60 + t.seconds) * 1_000_000 + t.fraction * Pow(10, 6 - decimals);
    if t.negative then -n else n
  }

  /** MySQL keeps an even number of fractional digits. */
  function StoredFraction(t: Duration, decimals: nat): nat {
    if decimals % 2 == 1 then t.fraction * 10 else t.fraction
  }

  function Packed(t: Duration): nat {
    t.hours * 4096 + t.minutes * 64 + t.seconds
  }

  /**
   The whole seconds offset by 2^23, and the fraction. A negative value with a fraction borrows one
   from the whole part and stores the fraction's complement.
   */
  function Parts(t: Duration, decimals: nat): (parts: (nat, nat))
    requires IsTime(t, decimals)
    ensures parts.0 < 0x100_0000 && parts.1 < Pow(256, FractionBytes(decimals))
  {
    var f: int := StoredFraction(t, decimals);
    FractionFits(t, decimals);
    if !t.negative then (0x80_0000 + Packed(t), f)
    else if f == 0 then (0x80_0000 - Packed(t), 0)
    else (0x80_0000 - Packed(t) - 1, Pow(256, FractionBytes(decimals)) - f)
  }

  /** How MySQL stores the duration. */
  function EncodeTime(t: Duration, decimals: nat): (bs: Octets)
    requires IsTime(t, decimals)
    ensures |bs| == 3 + FractionBytes(decimals)
  {
    var (whole, f) := Parts(t, decimals);
    ToBigEndian(whole, 3) + ToBigEndian(f, FractionBytes(decimals))
  }

  lemma {:induction false} Powers()
    ensures Pow(10, 0) == 1 && Pow(10, 1) == 10 && Pow(10, 2) == 100 && Pow(10, 3) == 1_000
    ensures Pow(10, 4) == 10_000 && Pow(10, 5) == 100_000 && Pow(10, 6) == 1_000_000
    ensures Pow(256, 0) == 1 && Pow(256, 1) == 0x100 && Pow(256, 2) == 0x1_0000 && Pow(256, 3) == 0x100_0000
  {
  }

  lemma {:induction false} FractionFits(t: Duration, decimals: nat)
    requires IsTime(t, decimals)
    ensures StoredFraction(t, decimals) < Pow(256, FractionBytes(decimals))
  {
    Powers();
  }

  /** The stored fraction as microseconds, for `TIME2` metadata 1 to 6; other metadata has none. */
  function FractionMicros(frac: nat, decimals: nat): nat {
    match decimals
    case 1 => frac / 10 * 100_000
    case 2 => frac * 10_000
    case 3 => frac / 10 * 1_000
    case 4 => frac * 100
    case 5 => frac / 10 * 10
    case 6 => frac
    case _ => 0
  }

  /** Microseconds from the stored whole part, less its offset, and the stored fraction. */
  function FromParts(whole: int, stored: nat, decimals: nat): (micros: int)
    requires stored < Pow(256, FractionBytes(decimals))
  {
    var negative := whole < 0;
    var borrow := negative && stored != 0;
    var frac: nat := if borrow then Pow(256, FractionBytes(decimals)) - stored else stored;
    var hms: int := (if negative then -whole else whole) - (if borrow then 1 else 0);
    var hour, minute, second := hms / 4096 % 1024, hms / 64 % 64, hms % 64;
    var micros: int := (hour * 3600 + minute * 60 + second) * 1_000_000 + FractionMicros(frac, decimals);
    if negative then -micros else micros
  }

  /** The `TypeTime2` case of `CellValue`: the microseconds of a cell. */
  function DecodeTime(bs: Octets, decimals: nat): (micros: int)
    requires |bs| == 3 + FractionBytes(decimals)
  {
    BigEndianBound(bs[3..]);
    FromParts(BigEndian(bs[..3]) - 0x80_0000, if 1 <= decimals <= 6 then BigEndian(bs[3..]) else 0, decimals)
  }

  lemma {:induction false} UnpackPacked(t: Duration)
    requires t.hours < 1024 && t.minutes < 64 && t.seconds < 64
    ensures Packed(t) / 4096 % 1024 == t.hours
    ensures Packed(t) / 64 % 64 == t.minutes
    ensures Packed(t) % 64 == t.seconds
  {
    assert Packed(t) / 4096 == t.hours;
    assert Packed(t) / 64 == t.hours * 64 + t.minutes;
  }

  lemma {:induction false} FractionInverse(t: Duration, decimals: nat)
    requires IsTime(t, decimals)
    ensures FractionMicros(StoredFraction(t, decimals), decimals) == t.fraction * Pow(10, 6 - decimals)
  {
    Powers();
  }

  lemma {:induction false} PartsInverse(whole: nat, f: nat, k: nat)
    requires whole < 0x100_0000 && f < Pow(256, k)
    ensures var bs := ToBigEndian(whole, 3) + ToBigEndian(f, k);
            BigEndian(bs[..3]) == whole && BigEndian(bs[3..]) == f
  {
    Powers();
    var bs := ToBigEndian(whole, 3) + ToBigEndian(f, k);
    assert bs[..3] == ToBigEndian(whole, 3) && bs[3..] == ToBigEndian(f, k);
    BigEndianInverse(whole, 3);
    BigEndianInverse(f, k);
  }

  lemma {:induction false} DecodeParts(whole: nat, f: nat, decimals: nat)
    requires whole < 0x100_0000 && f < Pow(256, FractionBytes(decimals)) && decimals <= 6
    ensures DecodeTime(ToBigEndian(whole, 3) + ToBigEndian(f, FractionBytes(decimals)), decimals)
            == FromParts(whole - 0x80_0000, f, decimals)
  {
    PartsInverse(whole, f, FractionBytes(decimals));
    Powers();
  }

  lemma {:induction false} MicrosFromParts(t: Duration, decimals: nat)
    requires IsTime(t, decimals)
    ensures var (whole, f) := Parts(t, decimals);
            FromParts(whole - 0x80_0000, f, decimals) == Micros(t, decimals)
  {
    UnpackPacked(t);
    FractionInverse(t, decimals);
    FractionFits(t, decimals);
  }

  /** Decoding gives back every signed duration, also one of less than a second below zero. */
  lemma {:induction false} TimeRoundTrip(t: Duration, decimals: nat)
    requires IsTime(t, decimals)
    ensures DecodeTime(EncodeTime(t, decimals), decimals) == Micros(t, decimals)
  {
    var (whole, f) := Parts(t, decimals);
    DecodeParts(whole, f, decimals);
    MicrosFromParts(t, decimals);
  }

  // ----- The bytes -----

  lemma {:induction false} BigEndianAppend(a: Octets, b: Octets)
    ensures BigEndian(a + b) == BigEndian(a) * Pow(256, |b|) + BigEndian(b)
  {
    if b == [] {
      assert a + b == a;
    } else {
      var n := |b| - 1;
      assert (a + b)[..|a + b| - 1] == a + b[..n];
      BigEndianAppend(a, b[..n]);
      assert BigEndian(a) * Pow(256, |b|) == (BigEndian(a) * Pow(256, n)) * 256;
    }
  }

  /** The whole part and the fraction, in as many bytes as pairs of digits, make up one number. */
  lemma {:induction false} CellNumber(t: Duration, decimals: nat)
    requires IsTime(t, decimals)
    ensures var (whole, f) := Parts(t, decimals);
            BigEndian(EncodeTime(t, decimals)) == whole * Pow(256, FractionBytes(decimals)) + f
  {
    var (whole, f) := Parts(t, decimals);
    Powers();
    BigEndianInverse(whole, 3);
    BigEndianInverse(f, FractionBytes(decimals));
    BigEndianAppend(ToBigEndian(whole, 3), ToBigEndian(f, FractionBytes(decimals)));
  }

  /** How many numbers the bytes of the fraction have. */
  function Unit(decimals: nat): nat {
    match decimals
    case 0 => 1
    case 1 => 0x100
    case 2 => 0x100
    case 3 => 0x1_0000
    case 4 => 0x1_0000
    case _ => 0x100_0000
  }

  lemma {:induction false} UnitIsPow(decimals: nat)
    requires decimals <= 6
    ensures Unit(decimals) == Pow(256, FractionBytes(decimals))
  {
    Powers();
  }

  lemma {:induction false} Mirrored(packed: nat, f: nat, u: nat)
    ensures (0x80_0000 + packed) * u + f + ((0x80_0000 - packed - 1) * u + (u - f)) == 0x100_0000 * u
    ensures (0x80_0000 + packed) * u + (0x80_0000 - packed) * u == 0x100_0000 * u
  {
  }

  /**
   A cell is one big-endian number: of a duration that is not negative, ten bits of hours, six of minutes and
   six of seconds behind the top bit, and then the fraction, two digits to a byte; and the numbers of a duration
   and of its negative are as far below and above the offset.
   */
  lemma {:induction false} CellIsOffsetNumber(t: Duration, decimals: nat)
    requires IsTime(t, decimals)
    ensures var p, n := EncodeTime(t.(negative := false), decimals), EncodeTime(t.(negative := true), decimals);
            && BigEndian(p) == (0x80_0000 + t.hours * 4096 + t.minutes * 64 + t.seconds) * Unit(decimals)
                               + (if decimals % 2 == 1 then t.fraction * 10 else t.fraction)
            && BigEndian(p) + BigEndian(n) == 0x100_0000 * Unit(decimals)
  {
    UnitIsPow(decimals);
    CellNumber(t.(negative := false), decimals);
    CellNumber(t.(negative := true), decimals);
    Mirrored(Packed(t), StoredFraction(t, decimals), Unit(decimals));
  }

  // ----- The older form -----

  /** `TIME` as MySQL stored it before 5.6.4: the decimal number HHMMSS, negated when negative. */
  function OldTimeNumber(t: Duration): int {
    var n: int := t.hours * 10000 + t.minutes * 100 + t.seconds;
    if t.negative then -n else n
  }

  /** Division that drops the fraction, as Go's does; the remainder has the dividend's sign. */
  function Quotient(a: int, b: nat): int
    requires b > 0
  {
    if a < 0 then -(-a / b) else a / b
  }

  function Remainder(a: int, b: nat): int
    requires b > 0
  {
    if a < 0 then -(-a % b) else a % b
  }

  /** The `TypeTime` case of `CellValue`: the seconds of the number stored. */
  function DecodeOldTime(val: int): int {
    var hour := Quotient(val, 10000);
    if val < 0 then
      var minute, second := -Quotient(Remainder(val, 10000), 100), -Remainder(val, 100);
      hour * 3600 + minute * 60 + second
    else
      var minute, second := Quotient(Remainder(val, 10000), 100), Remainder(val, 100);
      hour * 3600 + minute * 60 + second
  }

  lemma {:induction false} OldTimeFields(h: nat, m: nat, s: nat)
    requires m < 60 && s < 60
    ensures var n := h * 10000 + m * 100 + s;
            n / 10000 == h && n % 10000 == m * 100 + s && (m * 100 + s) / 100 == m && n % 100 == s
  {
    DivUnique(h * 10000 + m * 100 + s, 10000, h, m * 100 + s);
    DivUnique(h * 10000 + m * 100 + s, 100, h * 100 + m, s);
    DivUnique(m * 100 + s, 100, m, s);
  }

  /**
   The older form is read back exactly when it is not negative or is a whole number of hours: below
   zero the reader negates the minutes and seconds, which are already negative, but not the hours.
   */
  lemma {:induction false} OldTimeExact(t: Duration)
    requires t.minutes < 60 && t.seconds < 60 && t.fraction == 0
    ensures DecodeOldTime(OldTimeNumber(t)) * 1_000_000 == Micros(t, 0)
            <==> !t.negative || (t.minutes == 0 && t.seconds == 0)
  {
    var h, m, s := t.hours, t.minutes, t.seconds;
    var n := h * 10000 + m * 100 + s;
    OldTimeFields(h, m, s);
    var signed := if t.negative && n > 0 then -(h as int) else h;
    assert DecodeOldTime(OldTimeNumber(t)) == signed * 3600 + m * 60 + s;
  }

  /** -01:30:00 in the older form is read as minus half an hour. */
  lemma {:induction false} OldTimeMisread()
    ensures var t := Duration(true, 1, 30, 0, 0);
            OldTimeNumber(t) == -13000 && DecodeOldTime(-13000) == -1800 && Micros(t, 0) == -5400 * 1_000_000
  {
  }
}
