/** Bytes and the fixed-width integers made of them. */
module Bytes {

  type Byte = x: int | 0 <= x < 256

  type Octets = seq<Byte>

  datatype Option<T> = None | Some(value: T)

  function Pow(b: nat, e: nat): (p: nat)
    ensures b > 0 ==> p > 0
  {
    if e == 0 then 1 else b * Pow(b, e - 1)
  }

  lemma {:induction false} PowAdd(b: nat, m: nat, n: nat)
    ensures Pow(b, m + n) == Pow(b, m) * Pow(b, n)
  {
    if m > 0 {
      PowAdd(b, m - 1, n);
      Assoc(b, Pow(b, m - 1), Pow(b, n));
    }
  }

  lemma {:induction false} Assoc(a: int, b: int, c: int)
    ensures a * b * c == a * (b * c)
  {
  }

  // ----- Most significant byte first -----

  function BigEndian(bs: Octets): nat {
    if bs == [] then 0
    else BigEndian(bs[..|bs| - 1]) * 256 + bs[|bs| - 1]
  }

  function ToBigEndian(v: nat, k: nat): (bs: Octets)
    ensures |bs| == k
  {
    if k == 0 then [] else ToBigEndian(v / 256, k - 1) + [v % 256]
  }

  lemma {:induction false} BigEndianInverse(v: nat, k: nat)
    requires v < Pow(256, k)
    ensures BigEndian(ToBigEndian(v, k)) == v
  {
    if k > 0 {
      BigEndianInverse(v / 256, k - 1);
      var bs := ToBigEndian(v, k);
      assert bs[..k - 1] == ToBigEndian(v / 256, k - 1);
    }
  }

  lemma {:induction false} BigEndianBound(bs: Octets)
    ensures BigEndian(bs) < Pow(256, |bs|)
  {
    if bs != [] {
      BigEndianBound(bs[..|bs| - 1]);
    }
  }

  /** The leading bit of a value below half the range is free. */
  lemma {:induction false} LeadingBitFree(v: nat, k: nat)
    requires k > 0 && 2 * v < Pow(256, k)
    ensures ToBigEndian(v, k)[0] < 128
  {
    if k > 1 {
      assert 2 * (v / 256) < Pow(256, k - 1);
      LeadingBitFree(v / 256, k - 1);
    }
  }

  // ----- Least significant byte first -----

  function LittleEndian(bs: Octets): nat {
    if bs == [] then 0 else bs[0] + 256 * LittleEndian(bs[1..])
  }

  /** Keeps only the low `k` bytes, as an unsigned conversion does. */
  function ToLittleEndian(v: nat, k: nat): (bs: Octets)
    ensures |bs| == k
  {
    if k == 0 then [] else [v % 256] + ToLittleEndian(v / 256, k - 1)
  }

  lemma {:induction false} LittleEndianInverse(v: nat, k: nat)
    ensures LittleEndian(ToLittleEndian(v, k)) == v % Pow(256, k)
  {
    if k > 0 {
      LittleEndianInverse(v / 256, k - 1);
      ModStep(v, Pow(256, k - 1));
    }
  }

  lemma {:induction false} LittleEndianBound(bs: Octets)
    ensures LittleEndian(bs) < Pow(256, |bs|)
  {
    if bs != [] {
      LittleEndianBound(bs[1..]);
    }
  }

  lemma {:induction false} ModStep(v: nat, p: nat)
    requires p > 0
    ensures v % (256 * p) == v % 256 + 256 * ((v / 256) % p)
    ensures v / (256 * p) == v / 256 / p
  {
    var q, r := (v / 256) / p, (v / 256) % p;
    assert v == 256 * (q * p + r) + v % 256;
    assert v == q * (256 * p) + (256 * r + v % 256);
    assert 256 * r + v % 256 < 256 * p;
    DivUnique(v, 256 * p, q, 256 * r + v % 256);
  }

  lemma {:induction false} DivUnique(v: int, d: int, q: int, r: int)
    requires d > 0 && 0 <= r < d && v == q * d + r
    ensures v / d == q && v % d == r
  {
    var q', r' := v / d, v % d;
    assert q * d - q' * d == r' - r;
    if q > q' {
      Multiple(q - q', d);
    } else if q < q' {
      Multiple(q' - q, d);
    }
  }

  lemma {:induction false} Multiple(a: int, d: int)
    requires a >= 1 && d > 0
    ensures a * d >= d
  {
    assert (a - 1) * d >= 0;
  }

  // ----- Which byte is which -----

  lemma {:induction false} LittleEndianByte(v: nat, k: nat, i: nat)
    requires i < k
    ensures ToLittleEndian(v, k)[i] == v / Pow(256, i) % 256
  {
    if i > 0 {
      LittleEndianByte(v / 256, k - 1, i - 1);
      ModStep(v, Pow(256, i - 1));
    }
  }

  lemma {:induction false} BigEndianByte(v: nat, k: nat, i: nat)
    requires i < k
    ensures ToBigEndian(v, k)[i] == v / Pow(256, k - 1 - i) % 256
  {
    if i < k - 1 {
      BigEndianByte(v / 256, k - 1, i);
      ModStep(v, Pow(256, k - 2 - i));
    }
  }

  // ----- Bytes inside bytes -----

  /** `bs` stands in `d` at `pos`. */
  predicate Has(d: Octets, pos: nat, bs: Octets)
    decreases bs
  {
    if bs == [] then pos <= |d|
    else pos < |d| && d[pos] == bs[0] && Has(d, pos + 1, bs[1..])
  }

  lemma {:induction false} HasSlice(d: Octets, pos: nat, bs: Octets)
    ensures Has(d, pos, bs) <==> pos + |bs| <= |d| && d[pos..pos + |bs|] == bs
    decreases bs
  {
    if bs != [] {
      HasSlice(d, pos + 1, bs[1..]);
      if pos + |bs| <= |d| {
        var slice := d[pos..pos + |bs|];
        assert slice == [d[pos]] + d[pos + 1..pos + |bs|];
        assert bs == [bs[0]] + bs[1..];
        assert slice[1..] == d[pos + 1..pos + |bs|];
      }
    }
  }

  lemma {:induction false} HasMiddle(a: Octets, b: Octets, c: Octets)
    ensures Has(a + b + c, |a|, b)
  {
    HasSlice(a + b + c, |a|, b);
  }

  lemma {:induction false} HasNested(d: Octets, pos: nat, a: Octets, at: nat, b: Octets)
    requires Has(d, pos, a) && Has(a, at, b)
    ensures Has(d, pos + at, b)
  {
    HasSlice(d, pos, a);
    HasSlice(a, at, b);
    HasSlice(d, pos + at, b);
    var slice := d[pos + at..pos + at + |b|];
    forall i | 0 <= i < |b| ensures slice[i] == b[i] {
      assert a[at..at + |b|][i] == a[at + i];
      assert d[pos..pos + |a|][at + i] == d[pos + at + i];
    }
  }

  lemma {:induction false} HasExtended(d: Octets, pos: nat, bs: Octets, more: Octets)
    requires Has(d, pos, bs)
    ensures Has(d + more, pos, bs)
  {
    HasSlice(d, pos, bs);
    HasSlice(d + more, pos, bs);
    assert (d + more)[pos..pos + |bs|] == d[pos..pos + |bs|];
  }

  lemma {:induction false} HasAt(d: Octets, pos: nat, bs: Octets, i: nat)
    requires Has(d, pos, bs) && i < |bs|
    ensures pos + |bs| <= |d| && d[pos + i] == bs[i]
  {
    HasSlice(d, pos, bs);
    assert d[pos..pos + |bs|][i] == bs[i];
  }

  function Concat(ks: seq<Octets>): Octets {
    if ks == [] then [] else ks[0] + Concat(ks[1..])
  }

  /** The i-th of the parts, behind those before it. */
  lemma {:induction false} ConcatPlace(ks: seq<Octets>, i: nat)
    requires i < |ks|
    ensures Has(Concat(ks), |Concat(ks[..i])|, ks[i])
  {
    var first, rest := ks[0], Concat(ks[1..]);
    if i == 0 {
      HasMiddle([], first, rest);
      assert [] + first + rest == first + rest;
    } else {
      ConcatPlace(ks[1..], i - 1);
      assert ks[..i][1..] == ks[1..][..i - 1];
      HasMiddle(first, rest, []);
      assert first + rest + [] == first + rest;
      HasNested(first + rest, |first|, rest, |Concat(ks[1..][..i - 1])|, ks[i]);
    }
  }

  lemma {:induction false} ConcatSnoc(ks: seq<Octets>, k: Octets)
    ensures Concat(ks + [k]) == Concat(ks) + k
  {
    if ks == [] {
      assert [k][1..] == [] && [] + [k] == [k];
    } else {
      ConcatSnoc(ks[1..], k);
      assert (ks + [k])[1..] == ks[1..] + [k];
    }
  }

  lemma {:induction false} Regroup<T>(a: seq<T>, b: seq<T>, c: seq<T>)
    ensures a + (b + c) == a + b + c
  {
  }
}
