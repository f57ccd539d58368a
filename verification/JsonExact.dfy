/**
 Exactly which documents come back: those with short keys whose container sizes fit their fields.

 A container whose size does not fit cuts off the first of its values that is too long. What is read
 of a value that is cut off is never that value.
 */
module JsonExact {
  import opened Bytes
  import opened Json
  import opened JsonRoundTrip
  import opened JsonSizes

  // ----- Data that begins like an encoding -----

  /** One begins with the other. */
  predicate Agrees(x: Octets, bytes: Octets) {
    x <= bytes || bytes <= x
  }

  /** Nothing that agrees with the encoding reads as the value. */
  ghost predicate NeverReads(e: Encoded, j: Json) {
    forall x :: Agrees(x, e.bytes) ==> Decode(e.typ, x) != Some(j)
  }

  /** No part of the encoding that a small container can hold reads as the value. */
  ghost predicate CutNeverReads(e: Encoded, j: Json) {
    forall x :: x <= e.bytes && |x| <= MAX_OFFSET ==> Decode(e.typ, x) != Some(j)
  }

  lemma {:induction false} HasCut(d: Octets, e: Octets, pos: nat, bs: Octets)
    requires Agrees(d, e) && Has(e, pos, bs) && pos + |bs| <= |d|
    ensures Has(d, pos, bs)
  {
    HasSlice(e, pos, bs);
    HasSlice(d, pos, bs);
    assert d[pos..pos + |bs|] == e[pos..pos + |bs|];
  }

  lemma {:induction false} AgreesBehind(d: Octets, e: Octets, pos: nat, bs: Octets)
    requires d <= e && Has(e, pos, bs) && pos <= |d|
    ensures Agrees(d[pos..], bs)
    ensures |d| - pos <= |bs| ==> d[pos..] <= bs
  {
    HasSlice(e, pos, bs);
    if |d| - pos <= |bs| {
      assert d[pos..] == e[pos..pos + |bs|][..|d| - pos];
    } else {
      assert d[pos..pos + |bs|] == bs;
    }
  }

  // ----- Containers that were read -----

  lemma {:induction false} HeaderRead(x: Octets, e: Octets, n: nat, large: bool)
    requires Agrees(x, e) && 2 * OffsetSize(large) <= |x| && 2 * OffsetSize(large) <= |e|
    requires Has(e, 0, ToField(n, large)) && Has(e, OffsetSize(large), ToField(|e|, large))
    ensures Field(x, 0, large) == n % Limit(large) && (n < Limit(large) ==> Field(x, 0, large) == n)
    ensures Field(x, OffsetSize(large), large) == |e| % Limit(large)
    ensures |e| % Limit(large) <= |x| ==> x[..|e| % Limit(large)] <= e
  {
    HasCut(x, e, 0, ToField(n, large));
    HasCut(x, e, OffsetSize(large), ToField(|e|, large));
    FieldInverse(x, 0, n, large);
    FieldInverse(x, OffsetSize(large), |e|, large);
  }

  /** An array is read from what its stored size leaves of it. */
  lemma {:induction false} ArrayRead(x: Octets, e: Octets, vs: seq<Encoded>, large: bool, j: Json)
    returns (d: Octets)
    requires |vs| < Limit(large) && IsArray(e, vs, large) && Agrees(x, e)
    requires DecodeArray(x, large) == Some(j)
    ensures d <= e && |d| == |e| % Limit(large) && ArrayStart(|vs|, large) <= |d|
    ensures DecodeElements(d, |vs|, large) == Some(j)
  {
    HeaderRead(x, e, |vs|, large);
    d := x[..|e| % Limit(large)];
  }

  /** And so is an object. */
  lemma {:induction false} ObjectRead(
    x: Octets, e: Octets, ks: seq<Octets>, vs: seq<Encoded>, large: bool, ms: seq<Member>)
    returns (d: Octets)
    requires |ks| == |vs| == |ms| && IsObject(e, ks, vs, large) && Agrees(x, e)
    requires DecodeObject(x, large) == Some(Object(ms))
    ensures d <= e && |d| == |e| % Limit(large) && ObjectStart(|ks|, large) <= |d|
    ensures !large ==> |d| <= MAX_OFFSET
    ensures DecodeMembers(d, |ks|, large) == Some(Object(ms))
  {
    HeaderRead(x, e, |ks|, large);
    d := x[..|e| % Limit(large)];
  }

  lemma {:induction false} EntryRead(d: Octets, pos: nat, header: nat, v: Encoded, at: nat, large: bool, j: Json)
    requires Has(d, pos, Entry(v, at, large)) && !IsLiteral(v) && at < Limit(large) && 0 < header
    requires pos + 1 + OffsetSize(large) <= |d| && DecodeEntry(d, pos, header, large) == Some(j)
    ensures at <= |d| && Decode(v.typ, d[at..]) == Some(j)
  {
    EntryInverse(d, pos, v, at, large);
  }

  lemma {:induction false} NthOfAll(
    d: Octets, base: nat, header: nat, n: nat, large: bool, js: seq<Json>, i: nat, pos: nat)
    requires base + EntryAt(n, large) <= |d| && 0 < header && i < n && pos == base + EntryAt(i, large)
    requires All(DecodeEntries(d, base, header, n, large)) == Some(js)
    ensures pos + 1 + OffsetSize(large) <= |d| && |js| == n && DecodeEntry(d, pos, header, large) == Some(js[i])
  {
    assert DecodeEntries(d, base, header, n, large)[i] == Some(js[i]);
  }

  lemma {:induction false} EntryLeft(
    d: Octets, e: Octets, base: nat, vs: seq<Encoded>, start: nat, large: bool, i: nat, pos: nat, at: nat)
    requires d <= e && Has(e, base, Entries(vs, start, large)) && i < |vs| && base + EntryAt(|vs|, large) <= |d|
    requires pos == base + EntryAt(i, large) && at == start + |Payloads(vs[..i])|
    ensures pos + 1 + OffsetSize(large) <= |d| && Has(d, pos, Entry(vs[i], at, large))
  {
    EntryPlace(vs, start, large, i);
    HasNested(e, base, Entries(vs, start, large), EntryAt(i, large), Entry(vs[i], at, large));
    HasCut(d, e, pos, Entry(vs[i], at, large));
  }

  /** The values of a container that has been read from a part of it. */
  ghost predicate ValuesRead(
    d: Octets, e: Octets, base: nat, header: nat, vs: seq<Encoded>, start: nat, large: bool, js: seq<Json>)
  {
    && d <= e && Has(e, base, Entries(vs, start, large)) && Has(e, start, Payloads(vs))
    && base + EntryAt(|vs|, large) <= |d| && 0 < header
    && All(DecodeEntries(d, base, header, |vs|, large)) == Some(js)
  }

  /** The i-th of them was read from where it was stored. */
  lemma {:induction false} ValueDecoded(
    d: Octets, e: Octets, base: nat, header: nat, vs: seq<Encoded>, start: nat, large: bool, js: seq<Json>,
    i: nat, at: nat)
    requires ValuesRead(d, e, base, header, vs, start, large, js) && i < |vs| == |js| && !IsLiteral(vs[i])
    requires at == start + |Payloads(vs[..i])| < Limit(large)
    ensures at <= |d| && Decode(vs[i].typ, d[at..]) == Some(js[i])
  {
    var pos := base + EntryAt(i, large);
    NthOfAll(d, base, header, |vs|, large, js, i, pos);
    EntryLeft(d, e, base, vs, start, large, i, pos, at);
    EntryRead(d, pos, header, vs[i], at, large, js[i]);
  }

  /** And that is the part that is left of it. */
  lemma {:induction false} ValueLeft(d: Octets, e: Octets, vs: seq<Encoded>, start: nat, i: nat, at: nat)
    requires d <= e && Has(e, start, Payloads(vs)) && i < |vs| && !IsLiteral(vs[i])
    requires at == start + |Payloads(vs[..i])| <= |d|
    ensures Agrees(d[at..], vs[i].bytes) && (|d| - at <= |vs[i].bytes| ==> d[at..] <= vs[i].bytes)
  {
    PayloadPlace(vs, i);
    HasNested(e, start, Payloads(vs), |Payloads(vs[..i])|, vs[i].bytes);
    AgreesBehind(d, e, at, vs[i].bytes);
  }

  lemma {:induction false} UnreadHere(
    d: Octets, e: Octets, base: nat, header: nat, vs: seq<Encoded>, start: nat, large: bool, js: seq<Json>,
    i: nat, at: nat)
    requires d <= e && Has(e, base, Entries(vs, start, large)) && Has(e, start, Payloads(vs))
    requires base + EntryAt(|vs|, large) <= |d| && 0 < header && i < |vs| == |js| && !IsLiteral(vs[i])
    requires at == start + |Payloads(vs[..i])| < Limit(large)
    requires at <= |d| ==> Decode(vs[i].typ, d[at..]) != Some(js[i])
    ensures All(DecodeEntries(d, base, header, |vs|, large)) != Some(js)
  {
    if All(DecodeEntries(d, base, header, |vs|, large)) == Some(js) {
      ValueDecoded(d, e, base, header, vs, start, large, js, i, at);
    }
  }

  /** A container cannot be read if one of its values cannot be read from what is left of it. */
  lemma {:induction false} NeverReadHere(
    d: Octets, e: Octets, base: nat, header: nat, vs: seq<Encoded>, start: nat, large: bool, js: seq<Json>, i: nat)
    requires d <= e && Has(e, base, Entries(vs, start, large)) && Has(e, start, Payloads(vs))
    requires base + EntryAt(|vs|, large) <= |d| && 0 < header && i < |vs| == |js| && !IsLiteral(vs[i])
    requires start + |Payloads(vs[..i])| < Limit(large)
    requires NeverReads(vs[i], js[i]) || (|d| <= MAX_OFFSET < |vs[i].bytes| && CutNeverReads(vs[i], js[i]))
    ensures All(DecodeEntries(d, base, header, |vs|, large)) != Some(js)
  {
    var at := start + |Payloads(vs[..i])|;
    if at <= |d| {
      ValueLeft(d, e, vs, start, i, at);
    }
    UnreadHere(d, e, base, header, vs, start, large, js, i, at);
  }

  lemma {:induction false} MembersRead(d: Octets, n: nat, large: bool, ms: seq<Member>, i: nat)
    requires ObjectStart(n, large) <= |d| && i < n && DecodeMembers(d, n, large) == Some(Object(ms))
    ensures |ms| == n && DecodeKey(d, 2 * OffsetSize(large) + KeyEntryAt(i, large), large) == Some(ms[i].key)
  {
    assert DecodeKeys(d, 2 * OffsetSize(large), n, large)[i].Some?;
  }

  lemma {:induction false} KeyEntryLeft(
    d: Octets, e: Octets, ks: seq<Octets>, large: bool, i: nat, pos: nat, at: nat)
    requires d <= e && HoldsKeys(e, ks, large) && ObjectStart(|ks|, large) <= |d| && i < |ks|
    requires pos == 2 * OffsetSize(large) + KeyEntryAt(i, large)
    requires at == ObjectStart(|ks|, large) + |Concat(ks[..i])|
    ensures pos + OffsetSize(large) + 2 <= |d| && Has(d, pos, KeyEntry(ks[i], at, large))
  {
    var base, start := 2 * OffsetSize(large), ObjectStart(|ks|, large);
    KeyEntryPlace(ks, start, large, i);
    HasNested(e, base, KeyEntries(ks, start, large), KeyEntryAt(i, large), KeyEntry(ks[i], at, large));
    HasCut(d, e, pos, KeyEntry(ks[i], at, large));
  }

  lemma {:induction false} KeyHasItsLength(d: Octets, pos: nat, key: Octets, at: nat, large: bool, read: Octets)
    requires Has(d, pos, KeyEntry(key, at, large)) && pos + OffsetSize(large) + 2 <= |d|
    requires DecodeKey(d, pos, large) == Some(read)
    ensures |read| == |key| % 256
  {
    KeyLength(d, pos, key, at, large);
  }

  /** A key that is read has the length that was stored. */
  lemma {:induction false} KeyRead(d: Octets, e: Octets, ks: seq<Octets>, large: bool, ms: seq<Member>, i: nat)
    requires d <= e && HoldsKeys(e, ks, large) && ObjectStart(|ks|, large) <= |d| && i < |ks|
    requires DecodeMembers(d, |ks|, large) == Some(Object(ms))
    ensures |ms| == |ks| && |ms[i].key| == |ks[i]| % 256
  {
    var pos, at := 2 * OffsetSize(large) + KeyEntryAt(i, large), ObjectStart(|ks|, large) + |Concat(ks[..i])|;
    MembersRead(d, |ks|, large, ms, i);
    KeyEntryLeft(d, e, ks, large, i, pos, at);
    KeyHasItsLength(d, pos, ks[i], at, large, ms[i].key);
  }

  // ----- Containers that cannot be read -----

  /** The first value that is too long still begins where a small container can point to. */
  lemma {:induction false} FirstLong(vs: seq<Encoded>, start: nat) returns (i: nat)
    requires ValuesFit(vs, start) && !ShortValues(vs) && start <= MAX_OFFSET
    ensures i < |vs| && |Payload(vs[i])| > MAX_OFFSET
    ensures start + |Payloads(vs[..i])| <= MAX_OFFSET
  {
    if |Payload(vs[0])| > MAX_OFFSET {
      i := 0;
      assert vs[..0] == [];
    } else {
      var rest := vs[1..];
      assert !ShortValues(rest) by {
        var k :| 0 <= k < |vs| && |Payload(vs[k])| > MAX_OFFSET;
        assert rest[k - 1] == vs[k];
      }
      i := FirstLong(rest, start + |Payload(vs[0])|);
      i := i + 1;
      PayloadsBefore(vs, i);
    }
  }

  lemma {:induction false} BeginsInside(vs: seq<Encoded>, i: nat)
    requires i < |vs| && |Payload(vs[i])| > 0
    ensures |Payloads(vs[..i])| < |Payloads(vs)|
  {
    PayloadPlace(vs, i);
    HasSlice(Payloads(vs), |Payloads(vs[..i])|, Payload(vs[i]));
  }

  lemma {:induction false} ElementsRead(d: Octets, n: nat, large: bool, js: seq<Json>)
    requires ArrayStart(n, large) <= |d| && DecodeElements(d, n, large) == Some(Array(js))
    ensures All(DecodeEntries(d, 2 * OffsetSize(large), ArrayStart(n, large), n, large)) == Some(js)
  {
  }

  lemma {:induction false} FitArrayUnread(x: Octets, vs: seq<Encoded>, large: bool, js: seq<Json>, i: nat)
    requires Agrees(x, ArrayLayout(vs, large)) && |ArrayLayout(vs, large)| < Limit(large)
    requires i < |vs| == |js| && !IsLiteral(vs[i]) && vs[i].bytes != [] && NeverReads(vs[i], js[i])
    ensures DecodeArray(x, large) != Some(Array(js))
  {
    var e, start := ArrayLayout(vs, large), ArrayStart(|vs|, large);
    if DecodeArray(x, large) == Some(Array(js)) {
      ArrayShape(vs, large);
      var d := ArrayRead(x, e, vs, large, Array(js));
      ElementsRead(d, |vs|, large, js);
      BeginsInside(vs, i);
      NeverReadHere(d, e, 2 * OffsetSize(large), start, vs, start, large, js, i);
    }
  }

  /** A small array that is too long for its size loses its first long value, or has no room for its entries. */
  lemma {:induction false} LongArrayUnread(x: Octets, vs: seq<Encoded>, js: seq<Json>)
    requires Agrees(x, ArrayLayout(vs, false)) && EncodeArray(vs, false).Some? && |vs| == |js|
    requires MAX_OFFSET < |ArrayLayout(vs, false)| < Limit(true)
    requires forall i :: 0 <= i < |vs| && |Payload(vs[i])| > MAX_OFFSET ==> CutNeverReads(vs[i], js[i])
    ensures DecodeArray(x, false) != Some(Array(js))
  {
    var e, start := ArrayLayout(vs, false), ArrayStart(|vs|, false);
    SmallArraySize(vs);
    if DecodeArray(x, false) == Some(Array(js)) {
      ArrayShape(vs, false);
      var d := ArrayRead(x, e, vs, false, Array(js));
      if !ShortValues(vs) {
        ElementsRead(d, |vs|, false, js);
        var i := FirstLong(vs, start);
        NeverReadHere(d, e, 4, start, vs, start, false, js, i);
      }
    }
  }

  lemma {:induction false} AssembledValues(
    ks: Option<seq<Octets>>, read: Option<seq<Json>>, ms: seq<Member>, js: seq<Json>)
    requires ks.Some? && read.Some? ==> |ks.value| == |read.value|
    requires Assemble(ks, read) == Some(Object(ms))
    requires |js| == |ms| && forall i :: 0 <= i < |ms| ==> js[i] == ms[i].value
    ensures read == Some(js)
  {
    assert ms == Members(ks.value, read.value);
    assert read.value == js;
  }

  lemma {:induction false} MemberValuesRead(d: Octets, n: nat, large: bool, ms: seq<Member>, js: seq<Json>)
    requires ObjectStart(n, large) <= |d| && DecodeMembers(d, n, large) == Some(Object(ms))
    requires |js| == |ms| && forall i :: 0 <= i < |ms| ==> js[i] == ms[i].value
    ensures DecodeMemberValues(d, n, large) == Some(js)
  {
    AssembledValues(DecodeMemberKeys(d, n, large), DecodeMemberValues(d, n, large), ms, js);
  }

  lemma {:induction false} ObjectIsObject(ks: seq<Octets>, vs: seq<Encoded>, large: bool)
    requires |ks| == |vs|
    ensures IsObject(ObjectLayout(ks, vs, large), ks, vs, large)
  {
    ObjectHoldsHeader(ks, vs, large);
    ObjectHoldsKeys(ks, vs, large);
    ObjectHoldsValues(ks, vs, large);
  }

  lemma {:induction false} LongKeyUnread(
    x: Octets, ks: seq<Octets>, vs: seq<Encoded>, large: bool, ms: seq<Member>, i: nat)
    requires |ks| == |vs| == |ms| && Agrees(x, ObjectLayout(ks, vs, large))
    requires i < |ks| && ms[i].key == ks[i] && |ks[i]| > 255
    ensures DecodeObject(x, large) != Some(Object(ms))
  {
    var e := ObjectLayout(ks, vs, large);
    if DecodeObject(x, large) == Some(Object(ms)) {
      ObjectIsObject(ks, vs, large);
      var d := ObjectRead(x, e, ks, vs, large, ms);
      KeyRead(d, e, ks, large, ms, i);
    }
  }

  lemma {:induction false} MemberValuesNeverRead(
    d: Octets, e: Octets, vs: seq<Encoded>, large: bool, js: seq<Json>, i: nat, base: nat, header: nat, start: nat)
    requires |vs| == |js| && header == ObjectStart(|vs|, large) <= |d|
    requires base == 2 * OffsetSize(large) + KeyEntryAt(|vs|, large)
    requires d <= e && Has(e, base, Entries(vs, start, large)) && Has(e, start, Payloads(vs))
    requires i < |vs| && !IsLiteral(vs[i]) && start + |Payloads(vs[..i])| < Limit(large)
    requires NeverReads(vs[i], js[i]) || (|d| <= MAX_OFFSET < |vs[i].bytes| && CutNeverReads(vs[i], js[i]))
    ensures DecodeMemberValues(d, |vs|, large) != Some(js)
  {
    NeverReadHere(d, e, base, header, vs, start, large, js, i);
    MemberValuesAre(d, |vs|, large, base, header);
  }

  lemma {:induction false} ObjectValuesPlace(
    e: Octets, ks: seq<Octets>, vs: seq<Encoded>, large: bool, base: nat, start: nat)
    requires |ks| == |vs| && IsObject(e, ks, vs, large)
    requires base == 2 * OffsetSize(large) + KeyEntryAt(|ks|, large)
    requires start == ObjectStart(|ks|, large) + |Concat(ks)|
    ensures Has(e, base, Entries(vs, start, large)) && Has(e, start, Payloads(vs))
  {
  }

  lemma {:induction false} ObjectUnread(
    x: Octets, e: Octets, ks: seq<Octets>, vs: seq<Encoded>, large: bool, ms: seq<Member>, js: seq<Json>, i: nat)
    requires |ks| == |vs| == |ms| == |js| && forall k :: 0 <= k < |ms| ==> js[k] == ms[k].value
    requires IsObject(e, ks, vs, large) && Agrees(x, e) && i < |vs| && !IsLiteral(vs[i])
    requires ObjectStart(|ks|, large) + |Concat(ks)| + |Payloads(vs[..i])| < Limit(large)
    requires NeverReads(vs[i], js[i])
             || (!large && MAX_OFFSET < |vs[i].bytes| && CutNeverReads(vs[i], js[i]))
    ensures DecodeObject(x, large) != Some(Object(ms))
  {
    if DecodeObject(x, large) == Some(Object(ms)) {
      var n, header := |ks|, ObjectStart(|ks|, large);
      var base, start := 2 * OffsetSize(large) + KeyEntryAt(n, large), header + |Concat(ks)|;
      ObjectValuesPlace(e, ks, vs, large, base, start);
      var d := ObjectRead(x, e, ks, vs, large, ms);
      MemberValuesNeverRead(d, e, vs, large, js, i, base, header, start);
      MemberValuesRead(d, n, large, ms, js);
    }
  }

  lemma {:induction false} FitObjectUnread(
    x: Octets, ks: seq<Octets>, vs: seq<Encoded>, large: bool, ms: seq<Member>, js: seq<Json>, i: nat)
    requires |ks| == |vs| == |ms| == |js| && forall k :: 0 <= k < |ms| ==> js[k] == ms[k].value
    requires Agrees(x, ObjectLayout(ks, vs, large)) && |ObjectLayout(ks, vs, large)| < Limit(large)
    requires i < |vs| && !IsLiteral(vs[i]) && vs[i].bytes != [] && NeverReads(vs[i], js[i])
    ensures DecodeObject(x, large) != Some(Object(ms))
  {
    ObjectIsObject(ks, vs, large);
    BeginsInside(vs, i);
    ObjectUnread(x, ObjectLayout(ks, vs, large), ks, vs, large, ms, js, i);
  }

  lemma {:induction false} LongMember(ks: seq<Octets>, vs: seq<Encoded>) returns (i: nat)
    requires |ks| == |vs| && EncodeObject(ks, vs, false).Some?
    requires MAX_OFFSET < |ObjectLayout(ks, vs, false)| < Limit(true)
    requires forall i :: 0 <= i < |ks| ==> |ks[i]| <= 255
    ensures i < |vs| && |Payload(vs[i])| > MAX_OFFSET
    ensures ObjectStart(|ks|, false) + |Concat(ks)| + |Payloads(vs[..i])| <= MAX_OFFSET
  {
    SmallObjectSize(ks, vs);
    KeyChecksBoundTheEnd(ks, ObjectStart(|ks|, false));
    i := FirstLong(vs, ObjectStart(|ks|, false) + |Concat(ks)|);
  }

  /** A small object with short keys that is too long for its size loses its first long value. */
  lemma {:induction false} LongObjectUnread(
    x: Octets, ks: seq<Octets>, vs: seq<Encoded>, ms: seq<Member>, js: seq<Json>)
    requires |ks| == |vs| == |ms| == |js| && forall k :: 0 <= k < |ms| ==> js[k] == ms[k].value
    requires Agrees(x, ObjectLayout(ks, vs, false)) && EncodeObject(ks, vs, false).Some?
    requires MAX_OFFSET < |ObjectLayout(ks, vs, false)| < Limit(true)
    requires forall i :: 0 <= i < |ks| ==> |ks[i]| <= 255
    requires forall i :: 0 <= i < |vs| && |Payload(vs[i])| > MAX_OFFSET ==> CutNeverReads(vs[i], js[i])
    ensures DecodeObject(x, false) != Some(Object(ms))
  {
    ObjectIsObject(ks, vs, false);
    var i := LongMember(ks, vs);
    ObjectUnread(x, ObjectLayout(ks, vs, false), ks, vs, false, ms, js, i);
  }

  // ----- Documents -----

  /** The document's keys are short and its sizes fit. */
  ghost predicate Sound(j: Json) {
    ShortKeys(j) && SizesFit(j)
  }

  lemma {:induction false} ChildSmaller(j: Json, vs: seq<Encoded>, i: nat)
    requires (j.Array? || j.Object?) && |vs| == |Children(j)| && i < |vs| && EncodeSmallest(j, vs).Some?
    ensures |Payload(vs[i])| <= |EncodeSmallest(j, vs).value.bytes|
  {
    ValueIsInside(vs, i);
  }

  lemma {:induction false} LeafIsSound(j: Json)
    ensures j.Array? || j.Object? || Sound(j)
  {
  }

  /** A container whose own size and keys are right is unsound only because of a child, which is a container. */
  lemma {:induction false} UnsoundChild(j: Json) returns (i: nat)
    requires (j.Array? || j.Object?) && !Sound(j) && Encode(j).Some? && SizeFits(Encode(j).value)
    requires j.Object? ==> forall i :: 0 <= i < |j.members| ==> |j.members[i].key| <= 255
    ensures i < |Children(j)| && !Sound(Children(j)[i])
    ensures Children(j)[i].Array? || Children(j)[i].Object?
  {
    if j.Array? {
      i :| 0 <= i < |j.elements| && !Sound(j.elements[i]);
    } else {
      i :| 0 <= i < |j.members| && !Sound(j.members[i].value);
    }
    assert Children(j)[i].Array? || Children(j)[i].Object? by {
      LeafIsSound(Children(j)[i]);
    }
  }

  lemma {:induction false} EncodedIsNotEmpty(j: Json)
    requires Encode(j).Some?
    ensures Encode(j).value.bytes != []
    ensures j.Array? || j.Object? ==> !IsLiteral(Encode(j).value)
  {
  }

  ghost predicate Encodings(j: Json, vs: seq<Encoded>) {
    |vs| == |Children(j)| && forall i :: 0 <= i < |vs| ==> Encode(Children(j)[i]) == Some(vs[i])
  }

  lemma {:induction false} ContainerEncoding(j: Json) returns (vs: seq<Encoded>)
    requires (j.Array? || j.Object?) && Encode(j).Some?
    ensures All(EncodeChildren(j)) == Some(vs) && Encodings(j, vs) && Encode(j) == EncodeSmallest(j, vs)
  {
    vs := All(EncodeChildren(j)).value;
    forall i | 0 <= i < |vs| ensures Encode(Children(j)[i]) == Some(vs[i]) {
      assert EncodeChildren(j)[i] == Encode(Children(j)[i]);
    }
  }

  lemma {:induction false} NoArray(bytes: Octets, large: bool, j: Json)
    requires forall x :: Agrees(x, bytes) ==> DecodeArray(x, large) != Some(j)
    ensures NeverReads(Encoded(ArrayType(large), bytes), j)
  {
  }

  lemma {:induction false} NoObject(bytes: Octets, large: bool, j: Json)
    requires forall x :: Agrees(x, bytes) ==> DecodeObject(x, large) != Some(j)
    ensures NeverReads(Encoded(ObjectType(large), bytes), j)
  {
  }

  /** The container's sizes and keys are right, but not those of the i-th child. */
  lemma {:induction false} FitContainerUnread(j: Json, vs: seq<Encoded>, i: nat)
    requires (j.Array? || j.Object?) && |vs| == |Children(j)| && i < |vs| && EncodeSmallest(j, vs).Some?
    requires SizeFits(EncodeSmallest(j, vs).value)
    requires !IsLiteral(vs[i]) && vs[i].bytes != [] && NeverReads(vs[i], Children(j)[i])
    ensures NeverReads(EncodeSmallest(j, vs).value, j)
  {
    var bytes := EncodeSmallest(j, vs).value.bytes;
    if j.Array? {
      var large := EncodeArray(vs, false).None?;
      forall x | Agrees(x, bytes) ensures DecodeArray(x, large) != Some(j) {
        FitArrayUnread(x, vs, large, j.elements, i);
      }
      NoArray(bytes, large, j);
    } else {
      var ks := Keys(j.members);
      var large := EncodeObject(ks, vs, false).None?;
      forall x | Agrees(x, bytes) ensures DecodeObject(x, large) != Some(j) {
        FitObjectUnread(x, ks, vs, large, j.members, Children(j), i);
      }
      NoObject(bytes, large, j);
    }
  }

  lemma {:induction false} LongKeyContainerUnread(j: Json, vs: seq<Encoded>, i: nat)
    requires j.Object? && |vs| == |Children(j)| && i < |j.members| && |j.members[i].key| > 255
    requires EncodeSmallest(j, vs).Some?
    ensures NeverReads(EncodeSmallest(j, vs).value, j)
  {
    var bytes, ks := EncodeSmallest(j, vs).value.bytes, Keys(j.members);
    var large := EncodeObject(ks, vs, false).None?;
    forall x | Agrees(x, bytes) ensures DecodeObject(x, large) != Some(j) {
      LongKeyUnread(x, ks, vs, large, j.members, i);
    }
    NoObject(bytes, large, j);
  }

  lemma {:induction false} LongContainerUnread(j: Json, vs: seq<Encoded>)
    requires (j.Array? || j.Object?) && |vs| == |Children(j)| && EncodeSmallest(j, vs).Some?
    requires !SizeFits(EncodeSmallest(j, vs).value) && |EncodeSmallest(j, vs).value.bytes| < Limit(true)
    requires j.Object? ==> forall i :: 0 <= i < |j.members| ==> |j.members[i].key| <= 255
    requires forall i :: 0 <= i < |vs| && |Payload(vs[i])| > MAX_OFFSET ==> CutNeverReads(vs[i], Children(j)[i])
    ensures NeverReads(EncodeSmallest(j, vs).value, j)
  {
    var bytes := EncodeSmallest(j, vs).value.bytes;
    if j.Array? {
      forall x | Agrees(x, bytes) ensures DecodeArray(x, false) != Some(j) {
        LongArrayUnread(x, vs, j.elements);
      }
      NoArray(bytes, false, j);
    } else {
      forall x | Agrees(x, bytes) ensures DecodeObject(x, false) != Some(j) {
        LongObjectUnread(x, Keys(j.members), vs, j.members, Children(j));
      }
      NoObject(bytes, false, j);
    }
  }

  lemma {:induction false} CutTextUnread(text: Octets, x: Octets)
    requires EncodeText(text).Some? && x <= EncodeText(text).value.bytes
    requires |x| <= MAX_OFFSET < |EncodeText(text).value.bytes|
    ensures DecodeText(x).None?
  {
    assert x == EncodeText(text).value.bytes[..|x|];
    ShortOfItsText(text, |x|);
  }

  lemma {:induction false} CutLargeUnread(x: Octets, e: Octets, n: nat)
    requires x <= e && |x| < |e| < Limit(true) && 8 <= |e|
    requires Has(e, 0, ToField(n, true)) && Has(e, 4, ToField(|e|, true))
    ensures DecodeArray(x, true).None? && DecodeObject(x, true).None?
  {
    if 8 <= |x| {
      HeaderRead(x, e, n, true);
    }
  }

  lemma {:induction false} NoCutContainer(e: Encoded, n: nat, j: Json)
    requires e.typ == LARGE_ARRAY || e.typ == LARGE_OBJECT
    requires MAX_OFFSET < |e.bytes| < Limit(true)
    requires Has(e.bytes, 0, ToField(n, true)) && Has(e.bytes, 4, ToField(|e.bytes|, true))
    ensures CutNeverReads(e, j)
  {
    forall x | x <= e.bytes && |x| <= MAX_OFFSET ensures Decode(e.typ, x) != Some(j) {
      CutLargeUnread(x, e.bytes, n);
    }
  }

  /** A large container that is cut lacks bytes that its size counts. */
  lemma {:induction false} LargeNeverReadsCut(j: Json)
    requires Encode(j).Some? && MAX_OFFSET < |Encode(j).value.bytes| < Limit(true)
    requires Encode(j).value.typ == LARGE_ARRAY || Encode(j).value.typ == LARGE_OBJECT
    ensures CutNeverReads(Encode(j).value, j)
  {
    var vs := ContainerEncoding(j);
    if j.Array? {
      ArrayShape(vs, true);
    } else {
      ObjectHoldsHeader(Keys(j.members), vs, true);
    }
    NoCutContainer(Encode(j).value, |vs|, j);
  }

  /** Nothing that begins like the encoding of an unsound document reads as it. */
  lemma {:induction false} UnsoundNeverReads(j: Json)
    requires Encode(j).Some? && |Encode(j).value.bytes| < Limit(true) && !Sound(j)
    ensures NeverReads(Encode(j).value, j)
    decreases j, 0
  {
    LeafIsSound(j);
    var vs := ContainerEncoding(j);
    if j.Object? && exists i :: 0 <= i < |j.members| && |j.members[i].key| > 255 {
      var i :| 0 <= i < |j.members| && |j.members[i].key| > 255;
      LongKeyContainerUnread(j, vs, i);
    } else if SizeFits(Encode(j).value) {
      var i := UnsoundChild(j);
      EncodedIsNotEmpty(Children(j)[i]);
      ChildSmaller(j, vs, i);
      UnsoundNeverReads(Children(j)[i]);
      FitContainerUnread(j, vs, i);
    } else {
      forall i | 0 <= i < |vs| && |Payload(vs[i])| > MAX_OFFSET ensures CutNeverReads(vs[i], Children(j)[i]) {
        ChildSmaller(j, vs, i);
        LongNeverReadsCut(Children(j)[i]);
      }
      LongContainerUnread(j, vs);
    }
  }

  /** No part that a small container can hold of a longer encoding reads as its document. */
  lemma {:induction false} LongNeverReadsCut(j: Json)
    requires Encode(j).Some? && MAX_OFFSET < |Encode(j).value.bytes| < Limit(true)
    ensures CutNeverReads(Encode(j).value, j)
    decreases j, 1
  {
    var e := Encode(j).value;
    if e.typ == SMALL_ARRAY || e.typ == SMALL_OBJECT {
      UnsoundNeverReads(j);
    } else if j.Text? {
      forall x | x <= e.bytes && |x| <= MAX_OFFSET ensures Decode(e.typ, x) != Some(j) {
        CutTextUnread(j.text, x);
      }
    } else {
      LargeNeverReadsCut(j);
    }
  }

  /** What a document encodes to reads as it exactly when its keys are short and its sizes fit. */
  lemma {:induction false} ComesBackExactly(j: Json)
    requires EncodeDocument(j).Some? && |EncodeDocument(j).value| <= Limit(true)
    ensures DecodeDocument(EncodeDocument(j).value) == Some(j) <==> ShortKeys(j) && SizesFit(j)
  {
    var e := Encode(j).value;
    assert ([e.typ] + e.bytes)[1..] == e.bytes;
    if Sound(j) {
      DocumentRoundTrip(j);
    } else {
      UnsoundNeverReads(j);
      assert Agrees(e.bytes, e.bytes);
    }
  }

  // ----- The same, said of the encoded children -----

  ghost predicate ShortMemberKeys(j: Json) {
    j.Object? ==> forall i :: 0 <= i < |j.members| ==> |j.members[i].key| <= 255
  }

  /**
   What a container asks of its encoded children: keys of at most 255 bytes and, if it takes the small
   form, no value of more than 65,535 bytes and no array of 21,844 or more literals.
   */
  ghost predicate ModestChildren(j: Json, vs: seq<Encoded>)
    requires |vs| == |Children(j)|
  {
    && ShortMemberKeys(j)
    && (j.Array? && EncodeArray(vs, false).Some? ==> ShortValues(vs) && (AllLiterals(vs) ==> |vs| < 21_844))
    && (j.Object? && EncodeObject(Keys(j.members), vs, false).Some? ==> ShortValues(vs))
  }

  /** And so do all containers in it. */
  ghost predicate Modest(j: Json) {
    && (All(EncodeChildren(j)).Some? ==> ModestChildren(j, All(EncodeChildren(j)).value))
    && match j
       case Array(elements) => forall i :: 0 <= i < |elements| ==> Modest(elements[i])
       case Object(members) => forall i :: 0 <= i < |members| ==> Modest(members[i].value)
       case _ => true
  }

  lemma {:induction false} ModestContainer(j: Json, vs: seq<Encoded>)
    requires (j.Array? || j.Object?) && |vs| == |Children(j)|
    requires EncodeSmallest(j, vs).Some? && |EncodeSmallest(j, vs).value.bytes| < Limit(true)
    ensures ModestChildren(j, vs) <==> ShortMemberKeys(j) && SizeFits(EncodeSmallest(j, vs).value)
  {
    if j.Array? {
      if EncodeArray(vs, false).Some? {
        SmallArraySize(vs);
      }
    } else if ShortMemberKeys(j) {
      var ks := Keys(j.members);
      if EncodeObject(ks, vs, false).Some? {
        SmallObjectSize(ks, vs);
      }
    }
  }

  lemma {:induction false} EncodedLiteral(j: Json)
    requires Encode(j).Some?
    ensures IsLiteral(Encode(j).value) ==> |Encode(j).value.bytes| == 1
  {
  }

  lemma {:induction false} ChildBelow(j: Json, vs: seq<Encoded>, i: nat)
    requires (j.Array? || j.Object?) && Encodings(j, vs) && i < |vs| && EncodeSmallest(j, vs).Some?
    requires |EncodeSmallest(j, vs).value.bytes| < Limit(true)
    ensures Encode(Children(j)[i]).Some? && |Encode(Children(j)[i]).value.bytes| < Limit(true)
  {
    EncodedLiteral(Children(j)[i]);
    ChildSmaller(j, vs, i);
  }

  lemma {:induction false} ModestFromChildren(j: Json, vs: seq<Encoded>)
    requires (j.Array? || j.Object?) && All(EncodeChildren(j)) == Some(vs)
    ensures Modest(j) <==> ModestChildren(j, vs) && forall i :: 0 <= i < |vs| ==> Modest(Children(j)[i])
  {
    if j.Object? {
      assert forall i :: 0 <= i < |vs| ==> Children(j)[i] == j.members[i].value;
    }
  }

  lemma {:induction false} SoundFromChildren(j: Json, vs: seq<Encoded>)
    requires (j.Array? || j.Object?) && |vs| == |Children(j)| && Encode(j) == EncodeSmallest(j, vs)
    requires Encode(j).Some?
    ensures Sound(j) <==>
            ShortMemberKeys(j) && SizeFits(EncodeSmallest(j, vs).value)
            && forall i :: 0 <= i < |vs| ==> Sound(Children(j)[i])
  {
    if j.Object? {
      assert forall i :: 0 <= i < |vs| ==> Children(j)[i] == j.members[i].value;
    }
  }

  lemma {:induction false} ModestIsSound(j: Json)
    requires Encode(j).Some? && |Encode(j).value.bytes| < Limit(true)
    ensures Modest(j) <==> Sound(j)
    decreases j
  {
    if j.Array? || j.Object? {
      var vs := ContainerEncoding(j);
      ModestContainer(j, vs);
      forall i | 0 <= i < |vs| ensures Modest(Children(j)[i]) <==> Sound(Children(j)[i]) {
        ChildBelow(j, vs, i);
        ModestIsSound(Children(j)[i]);
      }
      ModestFromChildren(j, vs);
      SoundFromChildren(j, vs);
    }
  }

  /** A document of less than four gigabytes comes back exactly when it is modest. */
  lemma {:induction false} ModestComesBack(j: Json)
    requires EncodeDocument(j).Some? && |EncodeDocument(j).value| <= Limit(true)
    ensures DecodeDocument(EncodeDocument(j).value) == Some(j) <==> Modest(j)
  {
    ModestIsSound(j);
    ComesBackExactly(j);
  }
}
