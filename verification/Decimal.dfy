/**
 NEWDECIMAL cells of the binary log (`binlog/rbr.go`).

 MySQL stores a decimal as groups of up to nine digits on each side of the point, each group a
 big-endian integer, flips the leading bit, and inverts every byte of a negative value. `Encode`
 states that format from the digits; `DecodeDecimal` is the reader.
 */
module Decimal {
  import opened Bytes

  type Digit = x: int | 0 <= x < 10

  /** How many digits a group holds. */
  type Group = w: nat | w <= 9

  const DIG_TO_BYTES: seq<nat> := [0, 1, 1, 2, 2, 3, 3, 4, 4, 4]

  function GroupBytes(w: Group): (k: nat)
    ensures k == DIG_TO_BYTES[w]
  {
    if w < 9 then (w + 1) / 2 else 4
  }

  const POWERS_OF_10: seq<nat> := [
    1,
    10,
    100,
    1_000,
    10_000,
    100_000,
    1_000_000,
    10_000_000,
    100_000_000,
    1_000_000_000,
    10_000_000_000,
    100_000_000_000,
    1_000_000_000_000,
    10_000_000_000_000,
    100_000_000_000_000,
    1_000_000_000_000_000,
    10_000_000_000_000_000,
    100_000_000_000_000_000,
    1_000_000_000_000_000_000,
    10_000_000_000_000_000_000
  ]

  lemma {:induction false} PowerTable(i: nat)
    requires i < |POWERS_OF_10|
    ensures POWERS_OF_10[i] == Pow(10, i)
  {
    if i > 0 {
      PowerTable(i - 1);
    }
  }

  // ----- The format -----

  function Nines(n: nat): (ws: seq<Group>)
    ensures |ws| == n && forall w :: w in ws ==> w == 9
  {
    seq(n, _ => 9)
  }

  /** The widths, in digits, of the groups of a `DECIMAL(precision, scale)`. */
  function Layout(precision: nat, scale: nat): (ws: seq<Group>)
    requires scale <= precision
    ensures Width(ws) == precision
  {
    var intg := precision - scale;
    GroupsMeasure(intg % 9, intg / 9, scale / 9, scale % 9);
    [intg % 9] + Nines(intg / 9) + Nines(scale / 9) + [scale % 9]
  }

  function Width(ws: seq<Group>): nat {
    if ws == [] then 0 else Width(ws[..|ws| - 1]) + ws[|ws| - 1]
  }

  function Size(ws: seq<Group>): nat
  {
    if ws == [] then 0 else Size(ws[..|ws| - 1]) + GroupBytes(ws[|ws| - 1])
  }

  /** `c` with `w` more digits, which read `b`. */
  function Extend(c: nat, w: nat, b: nat): nat {
    c * Pow(10, w) + b
  }

  function Number(ds: seq<Digit>): nat {
    if ds == [] then 0 else Number(ds[..|ds| - 1]) * 10 + ds[|ds| - 1]
  }

  /** One group of digits. */
  function Block(ds: seq<Digit>): (bs: Octets)
    requires |ds| <= 9
    ensures |bs| == GroupBytes(|ds|)
  {
    ToBigEndian(Number(ds), GroupBytes(|ds|))
  }

  function EncodeGroups(ds: seq<Digit>, ws: seq<Group>): (bs: Octets)
    requires |ds| == Width(ws)
    ensures |bs| == Size(ws)
    decreases |ws|
  {
    if ws == [] then []
    else
      var n := |ws| - 1;
      var k := Width(ws[..n]);
      EncodeGroups(ds[..k], ws[..n]) + Block(ds[k..])
  }

  function FlipTop(b: Byte): Byte {
    if b < 128 then b + 128 else b - 128
  }

  function Invert(bs: Octets): Octets {
    seq(|bs|, i requires 0 <= i < |bs| => 255 - bs[i])
  }

  function WithSign(negative: bool, m: Octets): (bs: Octets)
    requires m != []
    ensures |bs| == |m|
  {
    var flipped := m[0 := FlipTop(m[0])];
    if negative then Invert(flipped) else flipped
  }

  /** How MySQL stores a value with these digits and this sign. */
  function Encode(negative: bool, ds: seq<Digit>, precision: nat, scale: nat): (bs: Octets)
    requires 0 < precision == |ds| && scale <= precision
    ensures |bs| == Size(Layout(precision, scale)) > 0
  {
    LayoutNotEmpty(precision, scale);
    WithSign(negative, EncodeGroups(ds, Layout(precision, scale)))
  }

  // ----- What the reader computes -----

  function IsNegative(bs: Octets): bool
    requires bs != []
  {
    bs[0] < 128
  }

  function Magnitude(bs: Octets): Octets
    requires bs != []
  {
    var flipped := bs[0 := FlipTop(bs[0])];
    if IsNegative(bs) then Invert(flipped) else flipped
  }

  /** Reads the groups one after another, most significant first. */
  function Coefficient(d: Octets, ws: seq<Group>): nat
    requires Size(ws) <= |d|
  {
    if ws == [] then 0
    else
      var n := |ws| - 1;
      Extend(Coefficient(d, ws[..n]), ws[n], BigEndian(d[Size(ws[..n])..Size(ws)]))
  }

  function Signed(negative: bool, n: int): int {
    if negative then -n else n
  }

  /**
   The unscaled value given to a builder whose scale is `desired`; nothing when the cell has more
   fractional digits than that. A cell of scale 0 is never padded.
   */
  function Unscaled(bs: Octets, precision: nat, scale: nat, desired: nat): Option<int>
    requires scale <= precision && bs != [] && |bs| == Size(Layout(precision, scale))
  {
    var n := Coefficient(Magnitude(bs), Layout(precision, scale));
    if scale == 0 then Some(Signed(IsNegative(bs), n))
    else if scale > desired then None
    else Some(Signed(IsNegative(bs), n * Pow(10, desired - scale)))
  }

  // ----- The shape of the layout -----

  lemma {:induction false} WidthAppend(a: seq<Group>, b: seq<Group>)
    ensures Width(a + b) == Width(a) + Width(b)
  {
    if b == [] {
      assert a + b == a;
    } else {
      assert (a + b)[..|a + b| - 1] == a + b[..|b| - 1];
      WidthAppend(a, b[..|b| - 1]);
    }
  }

  lemma {:induction false} SizeAppend(a: seq<Group>, b: seq<Group>)
    ensures Size(a + b) == Size(a) + Size(b)
  {
    if b == [] {
      assert a + b == a;
    } else {
      assert (a + b)[..|a + b| - 1] == a + b[..|b| - 1];
      SizeAppend(a, b[..|b| - 1]);
    }
  }

  lemma {:induction false} NinesMeasure(n: nat)
    ensures Width(Nines(n)) == 9 * n && Size(Nines(n)) == 4 * n
  {
    if n > 0 {
      assert Nines(n)[..n - 1] == Nines(n - 1);
      NinesMeasure(n - 1);
    }
  }

  lemma {:induction false} GroupsMeasure(x: Group, m: nat, n: nat, y: Group)
    ensures var ws := [x] + Nines(m) + Nines(n) + [y];
            && Width(ws) == x + 9 * m + 9 * n + y
            && Size(ws) == GroupBytes(x) + 4 * m + 4 * n + GroupBytes(y)
  {
    var a, b, c, d := [x], Nines(m), Nines(n), [y];
    NinesMeasure(m);
    NinesMeasure(n);
    WidthAppend(a, b);
    WidthAppend(a + b, c);
    WidthAppend(a + b + c, d);
    SizeAppend(a, b);
    SizeAppend(a + b, c);
    SizeAppend(a + b + c, d);
    assert a[..0] == [] && d[..0] == [];
  }

  /** The closed form by which the cell's length is computed. */
  lemma {:induction false} LayoutSize(precision: nat, scale: nat)
    requires scale <= precision
    ensures var intg := precision - scale;
            Size(Layout(precision, scale))
            == intg / 9 * 4 + GroupBytes(intg % 9) + scale / 9 * 4 + GroupBytes(scale % 9)
  {
    var intg := precision - scale;
    GroupsMeasure(intg % 9, intg / 9, scale / 9, scale % 9);
  }

  lemma {:induction false} LayoutNotEmpty(precision: nat, scale: nat)
    requires scale <= precision && 0 < precision
    ensures Size(Layout(precision, scale)) > 0
  {
    LayoutSize(precision, scale);
  }

  lemma {:induction false} SideBound(x: nat)
    ensures 9 * (x / 9 * 4 + GroupBytes(x % 9)) <= 4 * x + 8
  {
    var q, r := x / 9, x % 9;
    assert x == 9 * q + r;
    assert 9 * GroupBytes(r) <= 4 * r + 8;
  }

  /** Every decimal MySQL can declare fits the reader's 40-byte buffer. */
  lemma {:induction false} BufferSuffices(precision: nat, scale: nat)
    requires scale <= precision <= 65
    ensures Size(Layout(precision, scale)) <= 40
  {
    LayoutSize(precision, scale);
    SideBound(precision - scale);
    SideBound(scale);
  }

  // ----- Decoding inverts encoding -----

  lemma {:induction false} NumberBound(ds: seq<Digit>)
    ensures Number(ds) < Pow(10, |ds|)
  {
    if ds != [] {
      NumberBound(ds[..|ds| - 1]);
    }
  }

  lemma {:induction false} NumberAppend(a: seq<Digit>, b: seq<Digit>)
    ensures Number(a + b) == Extend(Number(a), |b|, Number(b))
  {
    if b == [] {
      assert a + b == a;
    } else {
      var b' := b[..|b| - 1];
      assert (a + b)[..|a + b| - 1] == a + b';
      NumberAppend(a, b');
      assert Number(a) * Pow(10, |b|) == (Number(a) * Pow(10, |b'|)) * 10;
    }
  }

  /** A group's digits fit its bytes and leave the leading bit free. */
  lemma {:induction false} GroupFits(w: Group)
    ensures w == 0 || 2 * Pow(10, w) < Pow(256, GroupBytes(w))
    ensures Pow(10, w) <= Pow(256, GroupBytes(w))
  {
    PowerTable(w);
    assert Pow(256, 1) == 256;
    assert Pow(256, 2) == 256 * Pow(256, 1);
    assert Pow(256, 3) == 256 * Pow(256, 2);
    assert Pow(256, 4) == 256 * Pow(256, 3);
  }

  lemma {:induction false} CoefficientLocal(d: Octets, e: Octets, ws: seq<Group>)
    requires Size(ws) <= |d| && d <= e
    ensures Coefficient(d, ws) == Coefficient(e, ws)
  {
    if ws != [] {
      var n := |ws| - 1;
      CoefficientLocal(d, e, ws[..n]);
      assert d[Size(ws[..n])..Size(ws)] == e[Size(ws[..n])..Size(ws)];
    }
  }

  lemma {:induction false} BlockInverse(ds: seq<Digit>)
    requires |ds| <= 9
    ensures BigEndian(Block(ds)) == Number(ds)
    ensures ds != [] ==> Block(ds)[0] < 128
  {
    GroupFits(|ds|);
    NumberBound(ds);
    BigEndianInverse(Number(ds), GroupBytes(|ds|));
    if ds != [] {
      LeadingBitFree(Number(ds), GroupBytes(|ds|));
    }
  }

  lemma {:induction false} TailOf(a: Octets, b: Octets)
    ensures a <= a + b && (a + b)[|a|..|a| + |b|] == b
  {
  }

  lemma {:induction false} LastBlock(ds: seq<Digit>, ws: seq<Group>)
    requires ws != [] && |ds| == Width(ws)
    ensures var n := |ws| - 1;
            var k := Width(ws[..n]);
            var e := EncodeGroups(ds, ws);
            && EncodeGroups(ds[..k], ws[..n]) <= e
            && e[Size(ws[..n])..Size(ws)] == Block(ds[k..])
  {
    var n := |ws| - 1;
    var k := Width(ws[..n]);
    TailOf(EncodeGroups(ds[..k], ws[..n]), Block(ds[k..]));
  }

  lemma {:induction false} LastNumber(ds: seq<Digit>, ws: seq<Group>, k: nat)
    requires ws != [] && |ds| == Width(ws) && k == Width(ws[..|ws| - 1])
    ensures BigEndian(EncodeGroups(ds, ws)[Size(ws[..|ws| - 1])..Size(ws)]) == Number(ds[k..])
  {
    LastBlock(ds, ws);
    BlockInverse(ds[k..]);
  }

  lemma {:induction false} FrontCoefficient(ds: seq<Digit>, ws: seq<Group>, k: nat)
    requires ws != [] && |ds| == Width(ws) && k == Width(ws[..|ws| - 1])
    ensures Coefficient(EncodeGroups(ds, ws), ws[..|ws| - 1])
            == Coefficient(EncodeGroups(ds[..k], ws[..|ws| - 1]), ws[..|ws| - 1])
  {
    LastBlock(ds, ws);
    CoefficientLocal(EncodeGroups(ds[..k], ws[..|ws| - 1]), EncodeGroups(ds, ws), ws[..|ws| - 1]);
  }

  lemma {:induction false} CoefficientOf(d: Octets, ws: seq<Group>, ds: seq<Digit>, a: seq<Digit>, b: seq<Digit>)
    requires ds == a + b && ws != [] && Size(ws) <= |d| && |b| == ws[|ws| - 1]
    requires Coefficient(d, ws[..|ws| - 1]) == Number(a)
    requires BigEndian(d[Size(ws[..|ws| - 1])..Size(ws)]) == Number(b)
    ensures Coefficient(d, ws) == Number(ds)
  {
    NumberAppend(a, b);
  }

  lemma {:induction false} SplitAt(ds: seq<Digit>, ws: seq<Group>, k: nat)
    requires ws != [] && |ds| == Width(ws) && k == Width(ws[..|ws| - 1])
    ensures k <= |ds| && ds == ds[..k] + ds[k..] && |ds[k..]| == ws[|ws| - 1]
  {
  }

  lemma {:induction false} LastGroupInverse(ds: seq<Digit>, ws: seq<Group>, k: nat)
    requires ws != [] && |ds| == Width(ws) && k == Width(ws[..|ws| - 1])
    requires Coefficient(EncodeGroups(ds[..k], ws[..|ws| - 1]), ws[..|ws| - 1]) == Number(ds[..k])
    ensures Coefficient(EncodeGroups(ds, ws), ws) == Number(ds)
  {
    FrontCoefficient(ds, ws, k);
    LastNumber(ds, ws, k);
    SplitAt(ds, ws, k);
    CoefficientOf(EncodeGroups(ds, ws), ws, ds, ds[..k], ds[k..]);
  }

  lemma {:induction false} CoefficientInverse(ds: seq<Digit>, ws: seq<Group>)
    requires |ds| == Width(ws)
    ensures Coefficient(EncodeGroups(ds, ws), ws) == Number(ds)
    decreases |ws|
  {
    if ws != [] {
      var n := |ws| - 1;
      var k := Width(ws[..n]);
      CoefficientInverse(ds[..k], ws[..n]);
      LastGroupInverse(ds, ws, k);
    }
  }

  lemma {:induction false} SignBitFree(ds: seq<Digit>, ws: seq<Group>)
    requires |ds| == Width(ws) && Size(ws) > 0
    ensures EncodeGroups(ds, ws)[0] < 128
    decreases |ws|
  {
    var n := |ws| - 1;
    var k := Width(ws[..n]);
    if Size(ws[..n]) > 0 {
      SignBitFree(ds[..k], ws[..n]);
    } else {
      BlockInverse(ds[k..]);
    }
  }

  lemma {:induction false} SignInverse(negative: bool, m: Octets)
    requires m != [] && m[0] < 128
    ensures IsNegative(WithSign(negative, m)) == negative
    ensures Magnitude(WithSign(negative, m)) == m
  {
  }

  /** The reader undoes the sign step of the writer. */
  lemma {:induction false} MagnitudeInverse(negative: bool, ds: seq<Digit>, precision: nat, scale: nat)
    requires 0 < precision == |ds| && scale <= precision
    ensures var bs := Encode(negative, ds, precision, scale);
            && IsNegative(bs) == negative
            && Magnitude(bs) == EncodeGroups(ds, Layout(precision, scale))
  {
    LayoutNotEmpty(precision, scale);
    SignBitFree(ds, Layout(precision, scale));
    SignInverse(negative, EncodeGroups(ds, Layout(precision, scale)));
  }

  lemma {:induction false} UnscaledOfEncoding(negative: bool, ds: seq<Digit>, precision: nat, scale: nat, desired: nat)
    requires 0 < precision == |ds| && scale <= precision
    ensures Unscaled(Encode(negative, ds, precision, scale), precision, scale, desired)
            == if scale == 0 then Some(Signed(negative, Number(ds)))
               else if scale > desired then None
               else Some(Signed(negative, Number(ds) * Pow(10, desired - scale)))
  {
    MagnitudeInverse(negative, ds, precision, scale);
    CoefficientInverse(ds, Layout(precision, scale));
  }

  /** `unscaled / 10^desired` is `value / 10^scale`. */
  predicate IsExact(unscaled: Option<int>, value: int, scale: nat, desired: nat) {
    unscaled.Some? && unscaled.value * Pow(10, scale) == value * Pow(10, desired)
  }

  /**
   For every precision, scale and signed digit string, and every scale of the builder, the reader
   gives the value exactly, at the builder's scale, if and only if the cell has fractional digits
   and no more than the builder keeps, or has none and the builder keeps none or the value is 0.
   */
  lemma {:induction false} DecimalRoundTrip(negative: bool, ds: seq<Digit>, precision: nat, scale: nat, desired: nat)
    requires 0 < precision == |ds| && scale <= precision
    ensures var r := Unscaled(Encode(negative, ds, precision, scale), precision, scale, desired);
            IsExact(r, Signed(negative, Number(ds)), scale, desired)
            <==> (if scale > 0 then scale <= desired else desired == 0 || Number(ds) == 0)
  {
    UnscaledOfEncoding(negative, ds, precision, scale, desired);
    var v := Signed(negative, Number(ds));
    if scale == 0 {
      PaddingMatters(v, desired);
    } else if scale <= desired {
      PowAdd(10, desired - scale, scale);
      Assoc(v, Pow(10, desired - scale), Pow(10, scale));
      SignedTimes(negative, Number(ds), Pow(10, desired - scale));
    }
  }

  lemma {:induction false} SignedTimes(negative: bool, n: nat, p: nat)
    ensures Signed(negative, n * p) == Signed(negative, n) * p
  {
  }

  lemma {:induction false} PaddingMatters(v: int, desired: nat)
    ensures v * Pow(10, 0) == v * Pow(10, desired) <==> desired == 0 || v == 0
  {
    if desired > 0 {
      var p := Pow(10, desired - 1);
      assert Pow(10, desired) == 10 * p;
      if v > 0 {
        Multiple(v, 10 * p - 1);
        assert v * (10 * p - 1) == v * (10 * p) - v;
      } else if v < 0 {
        Multiple(-v, 10 * p - 1);
        assert (-v) * (10 * p - 1) == v - v * (10 * p);
      }
    }
  }

  /** The value handed on has no more digits than the builder's column allows. */
  lemma {:induction false} UnscaledBound(negative: bool, ds: seq<Digit>, precision: nat, scale: nat, desired: nat)
    requires 0 < precision == |ds| && scale <= precision && scale <= desired
    ensures var r := Unscaled(Encode(negative, ds, precision, scale), precision, scale, desired);
            var bound: int := Pow(10, precision - scale + desired);
            r.Some? && -bound < r.value < bound
  {
    UnscaledOfEncoding(negative, ds, precision, scale, desired);
    NumberBound(ds);
    PowAdd(10, precision, desired - scale);
    BelowProduct(Number(ds), Pow(10, precision), Pow(10, desired - scale));
  }

  lemma {:induction false} BelowProduct(n: nat, b: nat, p: nat)
    requires n < b && 0 < p
    ensures n <= n * p < b * p
  {
  }

  // ----- The reader -----

  method PowerOf10(i: nat) returns (p: nat)
    requires i < |POWERS_OF_10|
    ensures p == Pow(10, i)
  {
    PowerTable(i);
    p := POWERS_OF_10[i];
  }

  /** Reads a group of `size` bytes at `pos`. */
  method ReadGroup(d: Octets, pos: nat, size: nat) returns (val: nat)
    requires size <= 4 && pos + size <= |d|
    ensures val == BigEndian(d[pos..pos + size])
  {
    val := 0;
    for i := 0 to size
      invariant val == BigEndian(d[pos..pos + i])
    {
      assert d[pos..pos + i + 1][..i] == d[pos..pos + i];
      val := val * 0x100 + d[pos + i];
    }
  }

  lemma {:induction false} CoefficientStep(d: Octets, ws: seq<Group>, w: Group)
    requires Size(ws) + GroupBytes(w) <= |d|
    ensures Size(ws + [w]) == Size(ws) + GroupBytes(w)
    ensures Coefficient(d, ws + [w])
            == Extend(Coefficient(d, ws), w, BigEndian(d[Size(ws)..Size(ws) + GroupBytes(w)]))
  {
    assert (ws + [w])[..|ws|] == ws;
  }

  /** Reads one group of `w` digits into the coefficient. */
  method AddGroup(d: Octets, pos: nat, w: Group, coeff: nat, ghost ws: seq<Group>) returns (coeff': nat)
    requires pos == Size(ws) && pos + GroupBytes(w) <= |d|
    requires coeff == Coefficient(d, ws)
    ensures Size(ws + [w]) == pos + GroupBytes(w)
    ensures coeff' == Coefficient(d, ws + [w])
  {
    var val := ReadGroup(d, pos, GroupBytes(w));
    var multiplier := PowerOf10(w);
    CoefficientStep(d, ws, w);
    coeff' := coeff * multiplier + val;
  }

  /** Reads `count` full groups of nine digits. */
  method ReadNines(d: Octets, pos: nat, count: nat, coeff: nat, ghost ws: seq<Group>)
    returns (pos': nat, coeff': nat)
    requires pos == Size(ws) && pos + 4 * count <= |d|
    requires coeff == Coefficient(d, ws)
    ensures pos' == Size(ws + Nines(count)) == pos + 4 * count
    ensures coeff' == Coefficient(d, ws + Nines(count))
  {
    pos', coeff' := pos, coeff;
    assert ws + Nines(0) == ws;
    for i := 0 to count
      invariant pos' == Size(ws + Nines(i)) == pos + 4 * i
      invariant coeff' == Coefficient(d, ws + Nines(i))
    {
      assert ws + Nines(i + 1) == (ws + Nines(i)) + [9];
      coeff' := AddGroup(d, pos', 9, coeff', ws + Nines(i));
      pos' := pos' + 4;
    }
  }

  /** Undoes the sign step in place on a copy of the cell. */
  method CopyMagnitude(cell: Octets) returns (isNegative: bool, d: array<Byte>)
    requires cell != []
    ensures fresh(d) && isNegative == IsNegative(cell)
    ensures d[..] == Magnitude(cell)
    ensures isNegative <==> cell[0] < 128
    ensures d.Length == |cell| && d[0] == if isNegative then 127 - cell[0] else cell[0] - 128
    ensures forall i :: 0 < i < |cell| ==> d[i] == if isNegative then 255 - cell[i] else cell[i]
  {
    d := new Byte[|cell|](i requires 0 <= i < |cell| => cell[i]);
    isNegative := d[0] < 0x80;
    d[0] := FlipTop(d[0]);
    ghost var flipped := cell[0 := FlipTop(cell[0])];
    assert d[..] == flipped;
    if isNegative {
      for i := 0 to d.Length
        invariant forall j :: 0 <= j < i ==> d[j] == 255 - flipped[j]
        invariant forall j :: i <= j < d.Length ==> d[j] == flipped[j]
      {
        d[i] := 255 - d[i];
      }
    }
  }

  /** Appends `k` zero digits, at most nineteen. */
  method PadBy(coeff: nat, k: nat, ghost n: nat, ghost done: nat) returns (coeff': nat)
    requires coeff == n * Pow(10, done) && k < |POWERS_OF_10|
    ensures coeff' == n * Pow(10, done + k)
  {
    var multiplier := PowerOf10(k);
    PowAdd(10, done, k);
    Assoc(n, Pow(10, done), Pow(10, k));
    coeff' := coeff * multiplier;
  }

  /** Appends zero digits, nineteen at a time. */
  method Pad(coeff: nat, scale: nat, desired: nat) returns (padded: nat)
    requires scale <= desired
    ensures padded == coeff * Pow(10, desired - scale)
  {
    padded := coeff;
    var fp := scale;
    assert Pow(10, 0) == 1;
    if fp < desired {
      while fp + 19 < desired
        invariant scale <= fp < desired
        invariant padded == coeff * Pow(10, fp - scale)
      {
        padded := PadBy(padded, 19, coeff, fp - scale);
        fp := fp + 19;
      }
      padded := PadBy(padded, desired - fp, coeff, fp - scale);
    }
  }

  /** The integer part, and how many bytes it took. */
  method ReadInteger(d: Octets, intg0: nat, intg0x: Group) returns (at: nat, coeff: nat)
    requires GroupBytes(intg0x) + intg0 * 4 <= |d|
    ensures at == GroupBytes(intg0x) + intg0 * 4 == Size([intg0x] + Nines(intg0))
    ensures coeff == Coefficient(d, [intg0x] + Nines(intg0))
  {
    coeff := AddGroup(d, 0, intg0x, 0, []);
    assert [] + [intg0x] == [intg0x];
    at, coeff := ReadNines(d, GroupBytes(intg0x), intg0, coeff, [intg0x]);
  }

  /** The fraction, read on from the integer part. */
  method ReadFraction(d: Octets, pos: nat, frac0: nat, frac0x: Group, coeff: nat, ghost ws: seq<Group>)
    returns (coeff': nat)
    requires pos == Size(ws) && pos + frac0 * 4 + GroupBytes(frac0x) <= |d|
    requires coeff == Coefficient(d, ws)
    ensures Size(ws + Nines(frac0) + [frac0x]) <= |d|
    ensures coeff' == Coefficient(d, ws + Nines(frac0) + [frac0x])
  {
    var at, c := ReadNines(d, pos, frac0, coeff, ws);
    coeff' := AddGroup(d, at, frac0x, c, ws + Nines(frac0));
  }

  lemma {:induction false} NoFraction(d: Octets, ws: seq<Group>)
    requires Size(ws) <= |d|
    ensures Size(ws + Nines(0) + [0]) == Size(ws)
    ensures Coefficient(d, ws + Nines(0) + [0]) == Coefficient(d, ws)
  {
    assert ws + Nines(0) == ws;
    CoefficientStep(d, ws, 0);
    assert Pow(10, 0) == 1;
  }

  /** All groups, the fraction only if there is one. */
  method ReadCoefficient(d: Octets, precision: nat, scale: nat) returns (coeff: nat)
    requires scale <= precision && |d| == Size(Layout(precision, scale))
    ensures coeff == Coefficient(d, Layout(precision, scale))
  {
    var intg := precision - scale;
    var intg0, frac0 := intg / 9, scale / 9;
    var intg0x: Group, frac0x: Group := intg - intg0 * 9, scale - frac0 * 9;
    LayoutSize(precision, scale);
    ghost var ws: seq<Group> := [intg0x] + Nines(intg0);
    assert Layout(precision, scale) == ws + Nines(frac0) + [frac0x];
    var at;
    at, coeff := ReadInteger(d, intg0, intg0x);
    if scale == 0 {
      NoFraction(d, ws);
    } else {
      coeff := ReadFraction(d, at, frac0, frac0x, coeff, ws);
    }
  }

  /** The `TypeNewDecimal` case of `CellValue`. */
  method DecodeDecimal(data: Octets, pos: nat, precision: nat, scale: nat, desired: nat)
    returns (l: nat, r: Option<int>)
    requires 0 < precision && scale <= precision
    requires Size(Layout(precision, scale)) <= 40 && pos + Size(Layout(precision, scale)) <= |data|
    ensures 0 < l == Size(Layout(precision, scale))
    ensures r == Unscaled(data[pos..pos + l], precision, scale, desired)
  {
    var intg := precision - scale;
    LayoutSize(precision, scale);
    LayoutNotEmpty(precision, scale);
    l := intg / 9 * 4 + GroupBytes(intg % 9) + scale / 9 * 4 + GroupBytes(scale % 9);
    var isNegative, d := CopyMagnitude(data[pos..pos + l]);
    var coeff := ReadCoefficient(d[..], precision, scale);
    if scale == 0 {
      return l, Some(Signed(isNegative, coeff));
    }
    if scale > desired {
      return l, None;
    }
    coeff := Pad(coeff, scale, desired);
    return l, Some(Signed(isNegative, coeff));
  }
}
