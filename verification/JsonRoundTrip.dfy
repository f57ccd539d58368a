/**
 Reading a binary JSON document back.

 A document comes back as it was if and only if every key has at most 255 bytes, provided that the
 size of every container fits the field that holds it; longer keys come back cut.
 */
module JsonRoundTrip {
  import opened Bytes
  import opened Json

  /** The sizes that the fields of a container can hold. */
  function Limit(large: bool): nat {
    if large then 0x1_0000_0000 else 0x1_0000
  }

  lemma {:induction false} FieldInverse(d: Octets, pos: nat, v: nat, large: bool)
    requires Has(d, pos, ToField(v, large))
    ensures pos + OffsetSize(large) <= |d| && Field(d, pos, large) == v % Limit(large)
  {
    HasSlice(d, pos, ToField(v, large));
    assert Pow(256, 2) == 0x1_0000 && Pow(256, 4) == 0x1_0000_0000;
    LittleEndianInverse(v, OffsetSize(large));
  }

  // ----- Where the parts of a container lie -----

  /** What stands behind a first part is found behind it. */
  lemma {:induction false} HasBehind(first: Octets, rest: Octets, at: nat, bs: Octets)
    requires Has(rest, at, bs)
    ensures Has(first + rest, |first| + at, bs)
  {
    HasMiddle(first, rest, []);
    assert first + rest + [] == first + rest;
    HasNested(first + rest, |first|, rest, at, bs);
  }

  lemma {:induction false} HasFirst(first: Octets, rest: Octets)
    ensures Has(first + rest, 0, first)
  {
    HasMiddle([], first, rest);
    assert [] + first + rest == first + rest;
  }

  lemma {:induction false} PayloadsBefore(vs: seq<Encoded>, i: nat)
    requires 0 < i <= |vs|
    ensures |Payloads(vs[..i])| == |Payload(vs[0])| + |Payloads(vs[1..][..i - 1])|
  {
    assert vs[..i][1..] == vs[1..][..i - 1];
  }

  lemma {:induction false} NextEntry(vs: seq<Encoded>, offset: nat, large: bool, i: nat, e: Octets)
    requires 0 < i < |vs|
    requires Has(Entries(vs[1..], offset + |Payload(vs[0])|, large), EntryAt(i - 1, large), e)
    ensures Has(Entries(vs, offset, large), EntryAt(i, large), e)
  {
    HasBehind(Entry(vs[0], offset, large), Entries(vs[1..], offset + |Payload(vs[0])|, large),
              EntryAt(i - 1, large), e);
  }

  lemma {:induction false} EntryPlace(vs: seq<Encoded>, offset: nat, large: bool, i: nat)
    requires i < |vs|
    ensures Has(Entries(vs, offset, large), EntryAt(i, large), Entry(vs[i], offset + |Payloads(vs[..i])|, large))
  {
    var next := offset + |Payload(vs[0])|;
    if i == 0 {
      HasFirst(Entry(vs[0], offset, large), Entries(vs[1..], next, large));
    } else {
      EntryPlace(vs[1..], next, large, i - 1);
      PayloadsBefore(vs, i);
      NextEntry(vs, offset, large, i, Entry(vs[i], offset + |Payloads(vs[..i])|, large));
    }
  }

  lemma {:induction false} PayloadPlace(vs: seq<Encoded>, i: nat)
    requires i < |vs|
    ensures Has(Payloads(vs), |Payloads(vs[..i])|, Payload(vs[i]))
  {
    var first, rest := Payload(vs[0]), Payloads(vs[1..]);
    if i == 0 {
      HasFirst(first, rest);
    } else {
      PayloadPlace(vs[1..], i - 1);
      assert vs[..i][1..] == vs[1..][..i - 1];
      HasBehind(first, rest, |Payloads(vs[1..][..i - 1])|, Payload(vs[i]));
    }
  }

  lemma {:induction false} KeyEntryPlace(ks: seq<Octets>, offset: nat, large: bool, i: nat)
    requires i < |ks|
    ensures Has(KeyEntries(ks, offset, large), KeyEntryAt(i, large), KeyEntry(ks[i], offset + |Concat(ks[..i])|, large))
  {
    var first, next := KeyEntry(ks[0], offset, large), offset + |ks[0]|;
    var rest := KeyEntries(ks[1..], next, large);
    if i == 0 {
      HasFirst(first, rest);
    } else {
      KeyEntryPlace(ks[1..], next, large, i - 1);
      assert ks[..i][1..] == ks[1..][..i - 1];
      HasBehind(first, rest, KeyEntryAt(i - 1, large), KeyEntry(ks[i], offset + |Concat(ks[..i])|, large));
    }
  }

  // ----- Reading the parts -----

  /** The value is read back from the front of any data that starts with its encoding. */
  ghost predicate ReadsBack(e: Encoded, j: Json) {
    && (IsLiteral(e) ==> |e.bytes| == 1)
    && forall more :: Decode(e.typ, e.bytes + more) == Some(j)
  }

  lemma {:induction false} EntryInverse(d: Octets, pos: nat, e: Encoded, offset: nat, large: bool)
    requires Has(d, pos, Entry(e, offset, large)) && offset < Limit(large)
    requires IsLiteral(e) ==> |e.bytes| == 1
    ensures pos + 1 + OffsetSize(large) <= |d| && d[pos] == e.typ
    ensures IsLiteral(e) ==> d[pos + 1] == e.bytes[0]
    ensures !IsLiteral(e) ==> Field(d, pos + 1, large) == offset
  {
    var entry, field := Entry(e, offset, large), ToField(EntryValue(e, offset), large);
    HasAt(d, pos, entry, 0);
    HasAt(d, pos, entry, 1);
    HasMiddle([e.typ], field, []);
    assert [e.typ] + field + [] == entry;
    HasNested(d, pos, entry, 1, field);
    FieldInverse(d, pos + 1, EntryValue(e, offset), large);
  }

  lemma {:induction false} ValueInverse(
    d: Octets, pos: nat, header: nat, e: Encoded, offset: nat, large: bool, j: Json)
    requires Has(d, pos, Entry(e, offset, large)) && Has(d, offset, Payload(e))
    requires offset < Limit(large) && 0 < header <= offset
    requires ReadsBack(e, j)
    ensures pos + 1 + OffsetSize(large) <= |d| && DecodeEntry(d, pos, header, large) == Some(j)
  {
    EntryInverse(d, pos, e, offset, large);
    HasSlice(d, offset, Payload(e));
    var more := if IsLiteral(e) then [] else d[offset + |e.bytes|..];
    assert IsLiteral(e) || d[offset..] == e.bytes + more;
    assert Decode(e.typ, e.bytes + more) == Some(j);
    assert IsLiteral(e) ==> (e.bytes + more)[0] == e.bytes[0];
  }

  /** The i-th value of a container is read back. */
  lemma {:induction false} NthValue(
    d: Octets, base: nat, header: nat, vs: seq<Encoded>, start: nat, large: bool, i: nat, j: Json)
    requires i < |vs| && |d| < Limit(large) && 0 < header <= start
    requires Has(d, base, Entries(vs, start, large)) && Has(d, start, Payloads(vs))
    requires ReadsBack(vs[i], j)
    ensures base + EntryAt(i, large) + 1 + OffsetSize(large) <= |d|
    ensures DecodeEntry(d, base + EntryAt(i, large), header, large) == Some(j)
  {
    var at := |Payloads(vs[..i])|;
    EntryPlace(vs, start, large, i);
    HasNested(d, base, Entries(vs, start, large), EntryAt(i, large), Entry(vs[i], start + at, large));
    PayloadPlace(vs, i);
    HasNested(d, start, Payloads(vs), at, Payload(vs[i]));
    ValueInverse(d, base + EntryAt(i, large), header, vs[i], start + at, large, j);
  }

  lemma {:induction false} AllAre<T>(rs: seq<Option<T>>, vs: seq<T>)
    requires |rs| == |vs| && forall i :: 0 <= i < |rs| ==> rs[i] == Some(vs[i])
    ensures All(rs) == Some(vs)
  {
    assert All(rs).value == vs;
  }

  ghost predicate AllReadBack(vs: seq<Encoded>, js: seq<Json>) {
    |vs| == |js| && forall i {:trigger ReadsBack(vs[i], js[i])} :: 0 <= i < |vs| ==> ReadsBack(vs[i], js[i])
  }

  lemma {:induction false} EntryReadsBack(
    d: Octets, base: nat, header: nat, vs: seq<Encoded>, start: nat, large: bool, js: seq<Json>, i: nat)
    requires i < |vs| && |d| < Limit(large) && 0 < header <= start && AllReadBack(vs, js)
    requires Has(d, base, Entries(vs, start, large)) && Has(d, start, Payloads(vs))
    ensures base + EntryAt(i, large) + 1 + OffsetSize(large) <= |d|
    ensures DecodeEntry(d, base + EntryAt(i, large), header, large) == Some(js[i])
  {
    assert ReadsBack(vs[i], js[i]);
    NthValue(d, base, header, vs, start, large, i, js[i]);
  }

  lemma {:induction false} ValuesInverse(
    d: Octets, base: nat, header: nat, vs: seq<Encoded>, start: nat, large: bool, js: seq<Json>)
    requires base + EntryAt(|vs|, large) <= |d| < Limit(large) && 0 < header <= start
    requires Has(d, base, Entries(vs, start, large)) && Has(d, start, Payloads(vs)) && AllReadBack(vs, js)
    ensures All(DecodeEntries(d, base, header, |vs|, large)) == Some(js)
  {
    var rs := DecodeEntries(d, base, header, |vs|, large);
    forall i | 0 <= i < |rs| ensures rs[i] == Some(js[i]) {
      EntryReadsBack(d, base, header, vs, start, large, js, i);
    }
    AllAre(rs, js);
  }

  /** What is left of a key whose length is stored in one byte. */
  function Cut(key: Octets): Octets {
    key[..|key| % 256]
  }

  /** The stored length of a key is its length modulo 256. */
  lemma {:induction false} KeyLength(d: Octets, pos: nat, key: Octets, offset: nat, large: bool)
    requires Has(d, pos, KeyEntry(key, offset, large))
    ensures pos + OffsetSize(large) + 2 <= |d| && Field(d, pos, large) == offset % Limit(large)
    ensures offset < Limit(large) ==> Field(d, pos, large) == offset
    ensures Field(d, pos + OffsetSize(large), false) == |key| % 256
  {
    var entry, field, length: Octets := KeyEntry(key, offset, large), ToField(offset, large), [|key| % 256, 0];
    HasMiddle([], field, length);
    assert [] + field + length == entry;
    HasNested(d, pos, entry, 0, field);
    FieldInverse(d, pos, offset, large);
    HasMiddle(field, length, []);
    assert field + length + [] == entry;
    HasNested(d, pos, entry, OffsetSize(large), length);
    HasSlice(d, pos + OffsetSize(large), length);
    assert length[1..] == [0] && [0][1..] == [];
    assert LittleEndian(length) == |key| % 256;
  }

  lemma {:induction false} KeyInverse(d: Octets, pos: nat, key: Octets, offset: nat, large: bool)
    requires Has(d, pos, KeyEntry(key, offset, large)) && Has(d, offset, key)
    requires offset < Limit(large)
    ensures pos + OffsetSize(large) + 2 <= |d| && DecodeKey(d, pos, large) == Some(Cut(key))
  {
    var n := |key| % 256;
    HasSlice(d, offset, key);
    KeyLength(d, pos, key, offset, large);
    assert d[offset..offset + |key|][..n] == d[offset..offset + n];
  }

  lemma {:induction false} NthKey(d: Octets, base: nat, ks: seq<Octets>, start: nat, large: bool, i: nat)
    requires i < |ks| && |d| < Limit(large)
    requires Has(d, base, KeyEntries(ks, start, large)) && Has(d, start, Concat(ks))
    ensures base + KeyEntryAt(i, large) + OffsetSize(large) + 2 <= |d|
    ensures DecodeKey(d, base + KeyEntryAt(i, large), large) == Some(Cut(ks[i]))
  {
    var at := |Concat(ks[..i])|;
    KeyEntryPlace(ks, start, large, i);
    HasNested(d, base, KeyEntries(ks, start, large), KeyEntryAt(i, large), KeyEntry(ks[i], start + at, large));
    ConcatPlace(ks, i);
    HasNested(d, start, Concat(ks), at, ks[i]);
    KeyInverse(d, base + KeyEntryAt(i, large), ks[i], start + at, large);
  }

  function CutAll(ks: seq<Octets>): (cs: seq<Octets>)
    ensures |cs| == |ks|
  {
    seq(|ks|, i requires 0 <= i < |ks| => Cut(ks[i]))
  }

  lemma {:induction false} KeysInverse(d: Octets, base: nat, ks: seq<Octets>, start: nat, large: bool)
    requires base + KeyEntryAt(|ks|, large) <= |d| < Limit(large)
    requires Has(d, base, KeyEntries(ks, start, large)) && Has(d, start, Concat(ks))
    ensures All(DecodeKeys(d, base, |ks|, large)) == Some(CutAll(ks))
  {
    var rs := DecodeKeys(d, base, |ks|, large);
    forall i | 0 <= i < |rs| ensures rs[i] == Some(CutAll(ks)[i]) {
      NthKey(d, base, ks, start, large, i);
    }
    AllAre(rs, CutAll(ks));
  }

  // ----- Reading a container -----

  /** The parts of a container, one after another, and where they begin. */
  lemma {:induction false} FourParts(
    head: Octets, a: Octets, b: Octets, c: Octets, e: Octets, p: nat, q: nat, r: nat, s: nat)
    requires p == |head| && q == p + |a| && r == q + |b| && s == r + |c|
    ensures var d := head + a + b + c + e;
            |d| == s + |e| && Has(d, p, a) && Has(d, q, b) && Has(d, r, c) && Has(d, s, e)
  {
    var d := head + a + b + c + e;
    HasMiddle(head, a, b + c + e);
    assert head + a + (b + c + e) == d;
    HasMiddle(head + a, b, c + e);
    assert head + a + b + (c + e) == d;
    HasMiddle(head + a + b, c, e);
    HasMiddle(head + a + b + c, e, []);
    assert head + a + b + c + e + [] == d;
  }

  /** A header with the count and the size, and then the entries and the values. */
  ghost predicate IsArray(d: Octets, vs: seq<Encoded>, large: bool) {
    var w, start := OffsetSize(large), ArrayStart(|vs|, large);
    && |d| == start + |Payloads(vs)|
    && Has(d, 0, ToField(|vs|, large)) && Has(d, w, ToField(|d|, large))
    && Has(d, 2 * w, Entries(vs, start, large)) && Has(d, start, Payloads(vs))
  }

  ghost predicate HoldsHeader(d: Octets, ks: seq<Octets>, large: bool) {
    Has(d, 0, ToField(|ks|, large)) && Has(d, OffsetSize(large), ToField(|d|, large))
  }

  ghost predicate HoldsKeys(d: Octets, ks: seq<Octets>, large: bool) {
    && Has(d, 2 * OffsetSize(large), KeyEntries(ks, ObjectStart(|ks|, large), large))
    && Has(d, ObjectStart(|ks|, large), Concat(ks))
  }

  ghost predicate HoldsValues(d: Octets, ks: seq<Octets>, vs: seq<Encoded>, large: bool) {
    var base, start := 2 * OffsetSize(large) + KeyEntryAt(|ks|, large), ObjectStart(|ks|, large) + |Concat(ks)|;
    Has(d, base, Entries(vs, start, large)) && Has(d, start, Payloads(vs))
  }

  ghost predicate IsObject(d: Octets, ks: seq<Octets>, vs: seq<Encoded>, large: bool) {
    && |d| == ObjectStart(|ks|, large) + |Concat(ks)| + |Payloads(vs)|
    && HoldsHeader(d, ks, large) && HoldsKeys(d, ks, large) && HoldsValues(d, ks, vs, large)
  }

  lemma {:induction false} ArrayShape(vs: seq<Encoded>, large: bool)
    ensures IsArray(ArrayLayout(vs, large), vs, large)
  {
    var w, start := OffsetSize(large), ArrayStart(|vs|, large);
    FourParts([], ToField(|vs|, large), ToField(start + |Payloads(vs)|, large), Entries(vs, start, large), Payloads(vs),
              0, w, 2 * w, start);
    assert [] + ToField(|vs|, large) == ToField(|vs|, large);
  }

  ghost predicate SixPlaces(
    d: Octets, count: Octets, size: Octets, a: Octets, b: Octets, c: Octets, e: Octets,
    w: nat, p: nat, q: nat, r: nat, s: nat)
  {
    && |d| == s + |e|
    && Has(d, 0, count) && Has(d, w, size) && Has(d, p, a) && Has(d, q, b) && Has(d, r, c) && Has(d, s, e)
  }

  lemma {:induction false} SixParts(
    count: Octets, size: Octets, a: Octets, b: Octets, c: Octets, e: Octets, w: nat, p: nat, q: nat, r: nat, s: nat)
    requires w == |count| && p == w + |size| && q == p + |a| && r == q + |b| && s == r + |c|
    ensures SixPlaces(count + size + a + b + c + e, count, size, a, b, c, e, w, p, q, r, s)
  {
    FourParts(count + size, a, b, c, e, p, q, r, s);
    var rest := a + b + c + e;
    HasMiddle([], count, size + rest);
    HasMiddle(count, size, rest);
    assert [] + count + (size + rest) == count + size + rest == count + size + a + b + c + e;
  }

  lemma {:induction false} ObjectHoldsHeader(ks: seq<Octets>, vs: seq<Encoded>, large: bool)
    requires |ks| == |vs|
    ensures |ObjectLayout(ks, vs, large)| == ObjectStart(|ks|, large) + |Concat(ks)| + |Payloads(vs)|
    ensures HoldsHeader(ObjectLayout(ks, vs, large), ks, large)
  {
    ObjectPlaces(ks, vs, large);
  }

  lemma {:induction false} ObjectPlaces(ks: seq<Octets>, vs: seq<Encoded>, large: bool)
    requires |ks| == |vs|
    ensures var d, w, keyStart := ObjectLayout(ks, vs, large), OffsetSize(large), ObjectStart(|ks|, large);
            var base, start := 2 * w + KeyEntryAt(|ks|, large), keyStart + |Concat(ks)|;
            var size := start + |Payloads(vs)|;
            SixPlaces(d, ToField(|ks|, large), ToField(size, large), KeyEntries(ks, keyStart, large),
                      Entries(vs, start, large), Concat(ks), Payloads(vs), w, 2 * w, base, keyStart, start)
  {
    var w, keyStart := OffsetSize(large), ObjectStart(|ks|, large);
    var base, start := 2 * w + KeyEntryAt(|ks|, large), keyStart + |Concat(ks)|;
    SixParts(ToField(|ks|, large), ToField(start + |Payloads(vs)|, large), KeyEntries(ks, keyStart, large),
             Entries(vs, start, large), Concat(ks), Payloads(vs), w, 2 * w, base, keyStart, start);
  }

  lemma {:induction false} ObjectHoldsKeys(ks: seq<Octets>, vs: seq<Encoded>, large: bool)
    requires |ks| == |vs|
    ensures HoldsKeys(ObjectLayout(ks, vs, large), ks, large)
  {
    ObjectPlaces(ks, vs, large);
  }

  lemma {:induction false} ObjectHoldsValues(ks: seq<Octets>, vs: seq<Encoded>, large: bool)
    requires |ks| == |vs|
    ensures HoldsValues(ObjectLayout(ks, vs, large), ks, vs, large)
  {
    ObjectPlaces(ks, vs, large);
  }

  /** The two fields in front of every container. */
  lemma {:induction false} HeaderInverse(d: Octets, more: Octets, n: nat, large: bool)
    requires n < Limit(large) && 2 * OffsetSize(large) <= |d| < Limit(large)
    requires Has(d, 0, ToField(n, large)) && Has(d, OffsetSize(large), ToField(|d|, large))
    ensures Field(d + more, 0, large) == n && Field(d + more, OffsetSize(large), large) == |d|
    ensures (d + more)[..|d|] == d
  {
    HasExtended(d, 0, ToField(n, large), more);
    HasExtended(d, OffsetSize(large), ToField(|d|, large), more);
    FieldInverse(d + more, 0, n, large);
    FieldInverse(d + more, OffsetSize(large), |d|, large);
  }

  lemma {:induction false} ArrayInverse(d: Octets, vs: seq<Encoded>, large: bool, js: seq<Json>, more: Octets)
    requires IsArray(d, vs, large) && |vs| == |js| && |d| < Limit(large)
    requires AllReadBack(vs, js)
    ensures DecodeArray(d + more, large) == Some(Array(js))
  {
    var n, start := |vs|, ArrayStart(|vs|, large);
    HeaderInverse(d, more, n, large);
    ValuesInverse(d, 2 * OffsetSize(large), start, vs, start, large, js);
  }

  lemma {:induction false} ObjectKeysInverse(d: Octets, ks: seq<Octets>, vs: seq<Encoded>, large: bool)
    requires IsObject(d, ks, vs, large) && |ks| == |vs| && |d| < Limit(large)
    ensures DecodeMemberKeys(d, |ks|, large) == Some(CutAll(ks))
  {
    KeysInverse(d, 2 * OffsetSize(large), ks, ObjectStart(|ks|, large), large);
  }

  lemma {:induction false} ObjectValuesInverse(
    d: Octets, ks: seq<Octets>, vs: seq<Encoded>, large: bool, js: seq<Json>)
    requires IsObject(d, ks, vs, large) && |ks| == |vs| == |js| && |d| < Limit(large)
    requires AllReadBack(vs, js)
    ensures DecodeMemberValues(d, |ks|, large) == Some(js)
  {
    var keyStart := ObjectStart(|ks|, large);
    var base := 2 * OffsetSize(large) + KeyEntryAt(|ks|, large);
    ValuesInverse(d, base, keyStart, vs, keyStart + |Concat(ks)|, large, js);
    MemberValuesAre(d, |ks|, large, base, keyStart);
  }

  lemma {:induction false} MembersInverse(d: Octets, ks: seq<Octets>, vs: seq<Encoded>, large: bool, js: seq<Json>)
    requires IsObject(d, ks, vs, large) && |ks| == |vs| == |js| && |d| < Limit(large)
    requires AllReadBack(vs, js)
    ensures DecodeMembers(d, |ks|, large) == Some(Object(Members(CutAll(ks), js)))
  {
    ObjectKeysInverse(d, ks, vs, large);
    ObjectValuesInverse(d, ks, vs, large, js);
  }

  lemma {:induction false} ObjectInverse(
    d: Octets, ks: seq<Octets>, vs: seq<Encoded>, large: bool, js: seq<Json>, more: Octets)
    requires IsObject(d, ks, vs, large) && |ks| == |vs| == |js| && |d| < Limit(large)
    requires AllReadBack(vs, js)
    ensures DecodeObject(d + more, large) == Some(Object(Members(CutAll(ks), js)))
  {
    MembersInverse(d, ks, vs, large, js);
    HeaderInverse(d, more, |ks|, large);
  }

  // ----- Reading any value -----

  lemma {:induction false} LengthInverse(n: nat, more: Octets)
    requires StringLength(n).Some?
    ensures DecodeLength(StringLength(n).value + more, 5) == Some((n, |StringLength(n).value|))
  {
    var bs := StringLength(n).value;
    var data := bs + more;
    var high: nat, top: nat := n / 128, n / 16384;
    if |bs| == 2 {
      assert data[1..][0] == bs[1];
      assert DecodeLength(data[1..], 4) == Some((high, 1));
    } else if |bs| == 3 {
      assert data[1..][1..][0] == bs[2] && data[1..][0] == bs[1];
      assert DecodeLength(data[1..][1..], 3) == Some((top, 1));
      assert high % 128 + 128 * top == high;
      assert DecodeLength(data[1..], 4) == Some((high, 2));
    }
  }

  lemma {:induction false} TextInverse(text: Octets, more: Octets)
    requires EncodeText(text).Some?
    ensures Decode(STRING, EncodeText(text).value.bytes + more) == Some(Text(text))
  {
    var length := StringLength(|text|).value;
    var data := length + text + more;
    assert data == length + (text + more);
    LengthInverse(|text|, text + more);
    assert data[|length|..|length| + |text|] == text;
  }

  lemma {:induction false} DoubleInverse(bits: Word, more: Octets)
    ensures DecodeDouble(ToLittleEndian(bits, 8) + more) == Some(Double(bits))
  {
    assert (ToLittleEndian(bits, 8) + more)[..8] == ToLittleEndian(bits, 8);
    LittleEndianInverse(bits, 8);
    assert Pow(256, 8) == 0x1_0000_0000_0000_0000;
  }

  /** The size of a container fits the field that holds it. */
  predicate SizeFits(e: Encoded) {
    && (e.typ == SMALL_ARRAY || e.typ == SMALL_OBJECT ==> |e.bytes| < Limit(false))
    && (e.typ == LARGE_ARRAY || e.typ == LARGE_OBJECT ==> |e.bytes| < Limit(true))
  }

  /** The size of every container, at any depth, fits the field that holds it. */
  ghost predicate SizesFit(j: Json) {
    && (Encode(j).Some? ==> SizeFits(Encode(j).value))
    && match j
       case Array(elements) => forall i :: 0 <= i < |elements| ==> SizesFit(elements[i])
       case Object(members) => forall i :: 0 <= i < |members| ==> SizesFit(members[i].value)
       case _ => true
  }

  /** The document with all its keys cut. */
  function Stored(j: Json): Json {
    match j
    case Array(elements) => Array(seq(|elements|, i requires 0 <= i < |elements| => Stored(elements[i])))
    case Object(members) =>
      Object(seq(|members|, i requires 0 <= i < |members| => Member(Cut(members[i].key), Stored(members[i].value))))
    case _ => j
  }

  ghost predicate ShortKeys(j: Json) {
    match j
    case Array(elements) => forall i :: 0 <= i < |elements| ==> ShortKeys(elements[i])
    case Object(members) => forall i :: 0 <= i < |members| ==> |members[i].key| <= 255 && ShortKeys(members[i].value)
    case _ => true
  }

  function StoredChildren(j: Json): (js: seq<Json>)
    ensures |js| == |Children(j)|
  {
    seq(|Children(j)|, i requires 0 <= i < |Children(j)| => Stored(Children(j)[i]))
  }

  lemma {:induction false} LeafRoundTrip(j: Json)
    requires !j.Array? && !j.Object? && Encode(j).Some?
    ensures ReadsBack(Encode(j).value, j)
  {
    var e := Encode(j).value;
    forall more ensures Decode(e.typ, e.bytes + more) == Some(j) {
      if j.Text? {
        TextInverse(j.text, more);
      } else if j.Double? {
        DoubleInverse(j.bits, more);
      }
    }
  }

  lemma {:induction false} ArrayRoundTrip(vs: seq<Encoded>, js: seq<Json>, large: bool)
    requires |vs| == |js| && SizeFits(Encoded(ArrayType(large), ArrayLayout(vs, large)))
    requires AllReadBack(vs, js)
    ensures ReadsBack(Encoded(ArrayType(large), ArrayLayout(vs, large)), Array(js))
  {
    var d := ArrayLayout(vs, large);
    ArrayShape(vs, large);
    forall more ensures Decode(ArrayType(large), d + more) == Some(Array(js)) {
      ArrayInverse(d, vs, large, js, more);
    }
  }

  lemma {:induction false} ObjectRoundTrip(ks: seq<Octets>, vs: seq<Encoded>, js: seq<Json>, large: bool)
    requires |ks| == |vs| == |js| && SizeFits(Encoded(ObjectType(large), ObjectLayout(ks, vs, large)))
    requires AllReadBack(vs, js)
    ensures ReadsBack(Encoded(ObjectType(large), ObjectLayout(ks, vs, large)), Object(Members(CutAll(ks), js)))
  {
    var d := ObjectLayout(ks, vs, large);
    ObjectHoldsHeader(ks, vs, large);
    ObjectHoldsKeys(ks, vs, large);
    ObjectHoldsValues(ks, vs, large);
    forall more ensures Decode(ObjectType(large), d + more) == Some(Object(Members(CutAll(ks), js))) {
      ObjectInverse(d, ks, vs, large, js, more);
    }
  }

  lemma {:induction false} ContainerRoundTrip(j: Json, vs: seq<Encoded>)
    requires |vs| == |Children(j)| && EncodeSmallest(j, vs).Some? && SizeFits(EncodeSmallest(j, vs).value)
    requires AllReadBack(vs, StoredChildren(j))
    ensures ReadsBack(EncodeSmallest(j, vs).value, Stored(j))
  {
    var js := StoredChildren(j);
    if j.Array? {
      ArrayRoundTrip(vs, js, EncodeArray(vs, false).None?);
      assert Stored(j) == Array(js);
    } else {
      var ks := Keys(j.members);
      ObjectRoundTrip(ks, vs, js, EncodeObject(ks, vs, false).None?);
      assert Members(CutAll(ks), js) == Stored(j).members;
    }
  }

  /** For every nested document whose sizes fit, reading gives back its stored form, whatever follows it. */
  lemma {:induction false} RoundTrip(j: Json)
    requires SizesFit(j) && Encode(j).Some?
    ensures ReadsBack(Encode(j).value, Stored(j))
    decreases j
  {
    if j.Array? || j.Object? {
      var vs, js := All(EncodeChildren(j)).value, Children(j);
      forall i | 0 <= i < |js| ensures ReadsBack(vs[i], StoredChildren(j)[i]) {
        assert EncodeChildren(j)[i] == Encode(js[i]);
        RoundTrip(js[i]);
      }
      ContainerRoundTrip(j, vs);
    } else {
      LeafRoundTrip(j);
    }
  }

  lemma {:induction false} StoredIsSame(j: Json)
    ensures Stored(j) == j <==> ShortKeys(j)
    decreases j
  {
    match j
    case Array(elements) =>
      forall i | 0 <= i < |elements| ensures Stored(elements[i]) == elements[i] <==> ShortKeys(elements[i]) {
        StoredIsSame(elements[i]);
      }
      assert Stored(j) == j <==> Stored(j).elements == elements;
      assert forall i :: 0 <= i < |elements| ==> Stored(j).elements[i] == Stored(elements[i]);
    case Object(members) =>
      forall i | 0 <= i < |members|
        ensures Stored(j).members[i] == members[i] <==> |members[i].key| <= 255 && ShortKeys(members[i].value)
      {
        StoredIsSame(members[i].value);
        assert Cut(members[i].key) == members[i].key <==> |members[i].key| <= 255;
      }
      assert Stored(j) == j <==> Stored(j).members == members;
    case _ =>
  }

  /** A whole document comes back as it was if and only if all its keys are short. */
  lemma {:induction false} DocumentRoundTrip(j: Json)
    requires SizesFit(j) && EncodeDocument(j).Some?
    ensures DecodeDocument(EncodeDocument(j).value) == Some(Stored(j))
    ensures DecodeDocument(EncodeDocument(j).value) == Some(j) <==> ShortKeys(j)
  {
    RoundTrip(j);
    StoredIsSame(j);
    var e := Encode(j).value;
    assert ([e.typ] + e.bytes)[1..] == e.bytes + [];
    assert Decode(e.typ, e.bytes + []) == Some(Stored(j));
  }
}
