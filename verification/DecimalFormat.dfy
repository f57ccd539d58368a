/**
 A NEWDECIMAL cell, byte by byte: where the digits of a value are, without the groups and the sign step
 by which it is written and read.
 */
module DecimalFormat {
  import opened Bytes
  import opened Decimal

  /** Up to nine digits take up to four bytes. */
  function BytesFor(w: Group): nat {
    match w
    case 0 => 0
    case 1 => 1
    case 2 => 1
    case 3 => 2
    case 4 => 2
    case 5 => 3
    case 6 => 3
    case _ => 4
  }

  function At(d: Octets, p: nat): nat
    requires p < |d|
  {
    d[p]
  }

  /** The number in the `k` bytes at `p`, the most significant one first. */
  function Value(d: Octets, p: nat, k: nat): nat
    requires p + k <= |d| && k <= 4
  {
    match k
    case 0 => 0
    case 1 => At(d, p)
    case 2 => 256 * At(d, p) + At(d, p + 1)
    case 3 => 65536 * At(d, p) + 256 * At(d, p + 1) + At(d, p + 2)
    case _ => 16777216 * At(d, p) + 65536 * At(d, p + 1) + 256 * At(d, p + 2) + At(d, p + 3)
  }

  /** The `w` digits from the `a`-th on are those of the number in the `k` bytes at `p`. */
  predicate DigitsAt(d: Octets, p: nat, k: nat, ds: seq<Digit>, a: nat, w: Group)
    requires p + k <= |d| && k <= 4 && a + w <= |ds|
  {
    && Value(d, p, k) < POWERS_OF_10[w]
    && forall i :: a <= i < a + w ==> ds[i] == Value(d, p, k) / POWERS_OF_10[a + w - 1 - i] % 10
  }

  /** The cell without its sign: the bytes of a negative value are complements, and then the top bit is set. */
  function Unsigned(negative: bool, bs: Octets): (d: Octets)
    requires bs != [] && (if negative then bs[0] < 128 else bs[0] >= 128)
    ensures |d| == |bs|
  {
    seq(|bs|, i requires 0 <= i < |bs| =>
      (if negative then 255 - bs[i] else bs[i]) - if i == 0 then 128 else 0)
  }

  /**
   First the `x` digits that are left over of the integer part, then `m` times nine digits in four bytes
   each, and behind the point `n` times, and at last the `y` digits that are left over of the fraction.
   */
  predicate GroupsHold(d: Octets, ds: seq<Digit>, x: Group, m: nat, n: nat, y: Group)
    requires |ds| == x + 9 * m + 9 * n + y
  {
    var first, last := BytesFor(x), BytesFor(y);
    && |d| == first + 4 * m + 4 * n + last
    && DigitsAt(d, 0, first, ds, 0, x)
    && (forall g :: 0 <= g < m ==> DigitsAt(d, first + 4 * g, 4, ds, x + 9 * g, 9))
    && (forall g :: 0 <= g < n ==> DigitsAt(d, first + 4 * m + 4 * g, 4, ds, x + 9 * m + 9 * g, 9))
    && DigitsAt(d, first + 4 * m + 4 * n, last, ds, x + 9 * m + 9 * n, y)
  }

  predicate Holds(d: Octets, ds: seq<Digit>, precision: nat, scale: nat)
    requires scale <= precision == |ds|
  {
    var intg := precision - scale;
    GroupsHold(d, ds, intg % 9, intg / 9, scale / 9, scale % 9)
  }

  // ----- Groups -----

  lemma {:induction false} ValueIsBigEndian(d: Octets, p: nat, k: nat)
    requires p + k <= |d| && k <= 4
    ensures Value(d, p, k) == BigEndian(d[p..p + k])
  {
    if k > 0 {
      assert d[p..p + k][..k - 1] == d[p..p + k - 1];
      ValueIsBigEndian(d, p, k - 1);
    }
  }

  lemma {:induction false} NumberDigit(ds: seq<Digit>, t: nat)
    requires t < |ds|
    ensures Number(ds) / Pow(10, |ds| - 1 - t) % 10 == ds[t]
  {
    var a, b := ds[..t + 1], ds[t + 1..];
    assert ds == a + b;
    NumberAppend(a, b);
    NumberBound(b);
    DivUnique(Number(ds), Pow(10, |b|), Number(a), Number(b));
    assert a[..t] == ds[..t];
    DivUnique(Number(a), 10, Number(a[..t]), ds[t]);
  }

  /** The `k` bytes at `p` are the group of the `w` digits from the `a`-th on. */
  predicate GroupAt(d: Octets, p: nat, k: nat, ds: seq<Digit>, a: nat, w: Group) {
    p + k <= |d| && a + w <= |ds| && d[p..p + k] == Block(ds[a..a + w])
  }

  lemma {:induction false} GroupInFront(
    f: Octets, d: Octets, p: nat, k: nat, ds: seq<Digit>, b: nat, a: nat, w: Group)
    requires f <= d && b <= |ds| && GroupAt(f, p, k, ds[..b], a, w)
    ensures GroupAt(d, p, k, ds, a, w)
  {
    assert ds[..b][a..a + w] == ds[a..a + w];
    assert d[p..p + k] == f[p..p + k];
  }

  lemma {:induction false} LastGroupPlace(ds: seq<Digit>, ws: seq<Group>, n: nat, p: nat, k: nat, a: nat, w: Group)
    requires |ws| == n + 1 && |ds| == Width(ws)
    requires p == Size(ws[..n]) && a == Width(ws[..n]) && w == ws[n] && k == GroupBytes(w)
    ensures GroupAt(EncodeGroups(ds, ws), p, k, ds, a, w)
  {
    LastBlock(ds, ws);
    assert ds[a..a + w] == ds[a..];
  }

  lemma {:induction false} PrefixOfFront(ws: seq<Group>, n: nat, g: nat)
    requires |ws| == n + 1 && g < n
    ensures Size(ws[..n][..g]) == Size(ws[..g]) && Width(ws[..n][..g]) == Width(ws[..g])
    ensures Width(ws[..n]) <= Width(ws)
  {
    assert ws[..n][..g] == ws[..g];
  }

  lemma {:induction false} GroupBehindFront(
    ds: seq<Digit>, ws: seq<Group>, n: nat, b: nat, p: nat, k: nat, a: nat, w: Group)
    requires |ws| == n + 1 && |ds| == Width(ws) && b == Width(ws[..n]) <= |ds|
    requires GroupAt(EncodeGroups(ds[..b], ws[..n]), p, k, ds[..b], a, w)
    ensures GroupAt(EncodeGroups(ds, ws), p, k, ds, a, w)
  {
    LastBlock(ds, ws);
    GroupInFront(EncodeGroups(ds[..b], ws[..n]), EncodeGroups(ds, ws), p, k, ds, b, a, w);
  }

  /** The g-th group of digits, behind those before it. */
  lemma {:induction false} GroupPlace(ds: seq<Digit>, ws: seq<Group>, g: nat, p: nat, k: nat, a: nat, w: Group)
    requires g < |ws| && |ds| == Width(ws)
    requires p == Size(ws[..g]) && a == Width(ws[..g]) && w == ws[g] && k == GroupBytes(w)
    ensures GroupAt(EncodeGroups(ds, ws), p, k, ds, a, w)
    decreases |ws|
  {
    var n := |ws| - 1;
    if g == n {
      LastGroupPlace(ds, ws, n, p, k, a, w);
    } else {
      var front, b := ws[..n], Width(ws[..n]);
      PrefixOfFront(ws, n, g);
      GroupPlace(ds[..b], front, g, p, k, a, w);
      GroupBehindFront(ds, ws, n, b, p, k, a, w);
    }
  }

  lemma {:induction false} NumberDigits(part: seq<Digit>, ds: seq<Digit>, a: nat, w: Group, i: nat)
    requires a <= i < a + w <= |ds| && part == ds[a..a + w]
    ensures ds[i] == Number(part) / POWERS_OF_10[a + w - 1 - i] % 10
  {
    NumberDigit(part, i - a);
    PowerTable(a + w - 1 - i);
  }

  lemma {:induction false} BlockDigits(d: Octets, p: nat, k: nat, ds: seq<Digit>, a: nat, w: Group)
    requires k == GroupBytes(w) && GroupAt(d, p, k, ds, a, w)
    ensures DigitsAt(d, p, k, ds, a, w)
  {
    var part := ds[a..a + w];
    BlockInverse(part);
    ValueIsBigEndian(d, p, k);
    NumberBound(part);
    PowerTable(w);
    forall i | a <= i < a + w
      ensures ds[i] == Value(d, p, k) / POWERS_OF_10[a + w - 1 - i] % 10
    {
      NumberDigits(part, ds, a, w, i);
    }
  }

  lemma {:induction false} GroupDigits(ds: seq<Digit>, ws: seq<Group>, g: nat, p: nat, k: nat, a: nat, w: Group)
    requires g < |ws| && |ds| == Width(ws)
    requires p == Size(ws[..g]) && a == Width(ws[..g]) && w == ws[g] && k == GroupBytes(w)
    ensures p + k <= Size(ws) && a + w <= |ds| && DigitsAt(EncodeGroups(ds, ws), p, k, ds, a, w)
  {
    GroupPlace(ds, ws, g, p, k, a, w);
    BlockDigits(EncodeGroups(ds, ws), p, k, ds, a, w);
  }

  // ----- The whole cell -----

  lemma {:induction false} FrontMeasure(x: Group, m: nat, n: nat)
    ensures var ws := [x] + Nines(m) + Nines(n);
            Width(ws) == x + 9 * m + 9 * n && Size(ws) == BytesFor(x) + 4 * m + 4 * n
  {
    NinesMeasure(m);
    NinesMeasure(n);
    WidthAppend([x], Nines(m));
    WidthAppend([x] + Nines(m), Nines(n));
    SizeAppend([x], Nines(m));
    SizeAppend([x] + Nines(m), Nines(n));
    assert [x][..0] == [];
  }

  function Groups(x: Group, m: nat, n: nat, y: Group): (ws: seq<Group>)
    ensures |ws| == m + n + 2
  {
    [x] + Nines(m) + Nines(n) + [y]
  }

  lemma {:induction false} FirstDigits(ds: seq<Digit>, x: Group, m: nat, n: nat, y: Group, d: Octets)
    requires |ds| == Width(Groups(x, m, n, y)) && d == EncodeGroups(ds, Groups(x, m, n, y))
    ensures BytesFor(x) <= |d| && x <= |ds| && DigitsAt(d, 0, BytesFor(x), ds, 0, x)
  {
    GroupDigits(ds, Groups(x, m, n, y), 0, 0, BytesFor(x), 0, x);
  }

  lemma {:induction false} IntegerDigits(ds: seq<Digit>, x: Group, m: nat, n: nat, y: Group, d: Octets, g: nat)
    requires |ds| == Width(Groups(x, m, n, y)) && d == EncodeGroups(ds, Groups(x, m, n, y)) && g < m
    ensures BytesFor(x) + 4 * g + 4 <= |d| && x + 9 * g + 9 <= |ds|
    ensures DigitsAt(d, BytesFor(x) + 4 * g, 4, ds, x + 9 * g, 9)
  {
    var ws := Groups(x, m, n, y);
    FrontMeasure(x, g, 0);
    assert ws[..1 + g] == [x] + Nines(g) + Nines(0);
    GroupDigits(ds, ws, 1 + g, BytesFor(x) + 4 * g, 4, x + 9 * g, 9);
  }

  lemma {:induction false} FractionDigits(ds: seq<Digit>, x: Group, m: nat, n: nat, y: Group, d: Octets, g: nat)
    requires |ds| == Width(Groups(x, m, n, y)) && d == EncodeGroups(ds, Groups(x, m, n, y)) && g < n
    ensures BytesFor(x) + 4 * m + 4 * g + 4 <= |d| && x + 9 * m + 9 * g + 9 <= |ds|
    ensures DigitsAt(d, BytesFor(x) + 4 * m + 4 * g, 4, ds, x + 9 * m + 9 * g, 9)
  {
    var ws := Groups(x, m, n, y);
    FrontMeasure(x, m, g);
    assert ws[..1 + m + g] == [x] + Nines(m) + Nines(g);
    GroupDigits(ds, ws, 1 + m + g, BytesFor(x) + 4 * m + 4 * g, 4, x + 9 * m + 9 * g, 9);
  }

  lemma {:induction false} LastPlace(x: Group, m: nat, n: nat, y: Group)
    ensures var ws := Groups(x, m, n, y);
            && Width(ws[..1 + m + n]) == x + 9 * m + 9 * n && Width(ws) == x + 9 * m + 9 * n + y
            && Size(ws[..1 + m + n]) == BytesFor(x) + 4 * m + 4 * n
            && Size(ws) == BytesFor(x) + 4 * m + 4 * n + BytesFor(y)
  {
    var ws := Groups(x, m, n, y);
    FrontMeasure(x, m, n);
    assert ws[..1 + m + n] == [x] + Nines(m) + Nines(n);
  }

  lemma {:induction false} LastDigits(ds: seq<Digit>, x: Group, m: nat, n: nat, y: Group, d: Octets)
    requires |ds| == Width(Groups(x, m, n, y)) && d == EncodeGroups(ds, Groups(x, m, n, y))
    ensures BytesFor(x) + 4 * m + 4 * n + BytesFor(y) == |d| && x + 9 * m + 9 * n + y == |ds|
    ensures DigitsAt(d, BytesFor(x) + 4 * m + 4 * n, BytesFor(y), ds, x + 9 * m + 9 * n, y)
  {
    var ws := Groups(x, m, n, y);
    LastPlace(x, m, n, y);
    GroupDigits(ds, ws, 1 + m + n, BytesFor(x) + 4 * m + 4 * n, BytesFor(y), x + 9 * m + 9 * n, y);
  }

  lemma {:induction false} EncodedGroupsHold(ds: seq<Digit>, x: Group, m: nat, n: nat, y: Group, d: Octets)
    requires |ds| == x + 9 * m + 9 * n + y == Width(Groups(x, m, n, y)) && d == EncodeGroups(ds, Groups(x, m, n, y))
    ensures GroupsHold(d, ds, x, m, n, y)
  {
    FirstDigits(ds, x, m, n, y, d);
    LastDigits(ds, x, m, n, y, d);
    forall g | 0 <= g < m
      ensures DigitsAt(d, BytesFor(x) + 4 * g, 4, ds, x + 9 * g, 9)
    {
      IntegerDigits(ds, x, m, n, y, d, g);
    }
    forall g | 0 <= g < n
      ensures DigitsAt(d, BytesFor(x) + 4 * m + 4 * g, 4, ds, x + 9 * m + 9 * g, 9)
    {
      FractionDigits(ds, x, m, n, y, d, g);
    }
  }

  lemma {:induction false} LayoutHolds(ds: seq<Digit>, precision: nat, scale: nat)
    requires 0 < precision == |ds| && scale <= precision
    ensures Holds(EncodeGroups(ds, Layout(precision, scale)), ds, precision, scale)
  {
    var intg := precision - scale;
    var ws := Layout(precision, scale);
    assert ws == Groups(intg % 9, intg / 9, scale / 9, scale % 9);
    EncodedGroupsHold(ds, intg % 9, intg / 9, scale / 9, scale % 9, EncodeGroups(ds, ws));
  }

  lemma {:induction false} SignSteps(m: Octets)
    requires m != [] && m[0] < 128
    ensures WithSign(false, m)[0] >= 128 && Unsigned(false, WithSign(false, m)) == m
    ensures WithSign(true, m)[0] < 128 && Unsigned(true, WithSign(true, m)) == m
    ensures forall i :: 0 <= i < |m| ==> WithSign(false, m)[i] + WithSign(true, m)[i] == 255
  {
  }

  /** The digits of every value stand in its cell where the format puts them, and the top bit tells its sign. */
  lemma {:induction false} EncodeHolds(negative: bool, ds: seq<Digit>, precision: nat, scale: nat)
    requires 0 < precision == |ds| && scale <= precision
    ensures var bs := Encode(negative, ds, precision, scale);
            && (if negative then bs[0] < 128 else bs[0] >= 128)
            && Holds(Unsigned(negative, bs), ds, precision, scale)
  {
    var ws := Layout(precision, scale);
    LayoutNotEmpty(precision, scale);
    SignBitFree(ds, ws);
    SignSteps(EncodeGroups(ds, ws));
    LayoutHolds(ds, precision, scale);
  }

  /** The cells of a value and of its negative are complements, byte by byte. */
  lemma {:induction false} NegativeIsComplement(ds: seq<Digit>, precision: nat, scale: nat, i: nat)
    requires 0 < precision == |ds| && scale <= precision && i < |Encode(false, ds, precision, scale)|
    ensures Encode(false, ds, precision, scale)[i] + Encode(true, ds, precision, scale)[i] == 255
  {
    var ws := Layout(precision, scale);
    LayoutNotEmpty(precision, scale);
    SignBitFree(ds, ws);
    SignSteps(EncodeGroups(ds, ws));
  }
}
