/** When the size of a container fits its field, which is what reading a document back depends on. */
module JsonSizes {
  import opened Bytes
  import opened Json
  import opened JsonRoundTrip

  predicate AllLiterals(vs: seq<Encoded>) {
    forall i :: 0 <= i < |vs| ==> IsLiteral(vs[i])
  }

  /** No value that is not kept in its entry takes more than 65,535 bytes. */
  predicate ShortValues(vs: seq<Encoded>) {
    forall i :: 0 <= i < |vs| ==> |Payload(vs[i])| <= MAX_OFFSET
  }

  lemma {:induction false} LiteralsTakeNoRoom(vs: seq<Encoded>)
    requires AllLiterals(vs)
    ensures Payloads(vs) == []
  {
    if vs != [] {
      LiteralsTakeNoRoom(vs[1..]);
    }
  }

  /** The checks made value by value bound the end of the last one, as long as no value is too long. */
  lemma {:induction false} ChecksBoundTheEnd(vs: seq<Encoded>, offset: nat)
    requires ValuesFit(vs, offset) && ShortValues(vs) && !AllLiterals(vs)
    requires offset + |Payloads(vs)| < Limit(true)
    ensures offset + |Payloads(vs)| <= MAX_OFFSET
  {
    var rest := vs[1..];
    assert ShortValues(rest);
    if AllLiterals(rest) {
      LiteralsTakeNoRoom(rest);
      assert forall i :: 0 < i < |vs| ==> vs[i] == rest[i - 1];
      assert |Payload(vs[0])| <= MAX_OFFSET;
    } else {
      ChecksBoundTheEnd(rest, offset + |Payload(vs[0])|);
    }
  }

  lemma {:induction false} ValueIsInside(vs: seq<Encoded>, i: nat)
    requires i < |vs|
    ensures |Payload(vs[i])| <= |Payloads(vs)|
  {
    PayloadPlace(vs, i);
    HasSlice(Payloads(vs), |Payloads(vs[..i])|, Payload(vs[i]));
  }

  /**
   A small array states its size rightly if and only if no element takes more than 65,535 bytes and
   it does not consist of 21,844 or more literals, for which no check is made.
   */
  lemma {:induction false} SmallArraySize(vs: seq<Encoded>)
    requires EncodeArray(vs, false).Some? && |ArrayLayout(vs, false)| < Limit(true)
    ensures SizeFits(EncodeArray(vs, false).value)
            <==> ShortValues(vs) && (AllLiterals(vs) ==> |vs| < 21_844)
  {
    var start := ArrayStart(|vs|, false);
    assert |ArrayLayout(vs, false)| == start + |Payloads(vs)|;
    if ShortValues(vs) && !AllLiterals(vs) {
      ChecksBoundTheEnd(vs, start);
    } else if AllLiterals(vs) {
      LiteralsTakeNoRoom(vs);
      forall i | 0 <= i < |vs| ensures |Payload(vs[i])| <= MAX_OFFSET {
      }
    } else {
      var i :| 0 <= i < |vs| && |Payload(vs[i])| > MAX_OFFSET;
      ValueIsInside(vs, i);
    }
  }

  lemma {:induction false} KeyChecksBoundTheEnd(ks: seq<Octets>, offset: nat)
    requires KeysFit(ks, offset) && ks != [] && forall i :: 0 <= i < |ks| ==> |ks[i]| <= MAX_OFFSET
    requires offset + |Concat(ks)| < Limit(true)
    ensures offset + |Concat(ks)| <= MAX_OFFSET
  {
    var rest := ks[1..];
    if rest == [] {
      assert Concat(rest) == [];
    } else {
      KeyChecksBoundTheEnd(rest, offset + |ks[0]|);
    }
  }

  /** A small object with short keys states its size rightly if and only if no value takes more than 65,535 bytes. */
  lemma {:induction false} SmallObjectSize(ks: seq<Octets>, vs: seq<Encoded>)
    requires |ks| == |vs| && EncodeObject(ks, vs, false).Some? && |ObjectLayout(ks, vs, false)| < Limit(true)
    requires forall i :: 0 <= i < |ks| ==> |ks[i]| <= 255
    ensures SizeFits(EncodeObject(ks, vs, false).value) <==> ShortValues(vs)
  {
    var keyStart := ObjectStart(|ks|, false);
    var start := keyStart + |Concat(ks)|;
    assert |ObjectLayout(ks, vs, false)| == start + |Payloads(vs)|;
    if ks != [] {
      KeyChecksBoundTheEnd(ks, keyStart);
    }
    if AllLiterals(vs) {
      LiteralsTakeNoRoom(vs);
      forall i | 0 <= i < |vs| ensures |Payload(vs[i])| <= MAX_OFFSET {
      }
    } else if ShortValues(vs) {
      ChecksBoundTheEnd(vs, start);
    } else {
      var i :| 0 <= i < |vs| && |Payload(vs[i])| > MAX_OFFSET;
      ValueIsInside(vs, i);
    }
  }

  // ----- A document that does not come back -----

  lemma {:induction false} ShortOfItsText(text: Octets, n: nat)
    requires 0x3FFF < |text| && EncodeText(text).Some? && n < |EncodeText(text).value.bytes|
    ensures DecodeText(EncodeText(text).value.bytes[..n]).None?
  {
    var length := StringLength(|text|).value;
    var data := (length + text)[..n];
    if n >= 3 {
      assert data == length + text[..n - 3];
      LengthInverse(|text|, text[..n - 3]);
    } else if n == 2 {
      assert data[1..] == [length[1]] && data[1..][1..] == [];
      assert DecodeLength(data[1..], 4).None?;
    } else if n == 1 {
      assert data == [length[0]] && data[1..] == [];
      assert DecodeLength(data[1..], 4).None?;
    } else {
      assert data == [];
    }
  }

  /**
   Every text of 65,536 bytes or more that can be encoded makes an array of it unreadable: the room
   check wraps around, so the small form is kept although the size does not fit.
   */
  lemma {:induction false} LongElement(text: Octets)
    requires 65_536 <= |text| <= 0x1F_FFFF
    ensures EncodeDocument(Array([Text(text)])).Some?
    ensures DecodeDocument(EncodeDocument(Array([Text(text)])).value).None?
  {
    var j := Array([Text(text)]);
    var v := EncodeText(text).value;
    var vs := [v];
    assert EncodeChildren(j)[0] == Some(v);
    assert All(EncodeChildren(j)).value == vs;
    LongElementIsSmall(v);
    var d := ArrayLayout(vs, false);
    assert ([SMALL_ARRAY] + d)[1..] == d;
    LongElementUnreadable(text);
  }

  lemma {:induction false} LongElementIsSmall(v: Encoded)
    requires !IsLiteral(v) && 65_536 <= |v.bytes| < 0x20_0010
    ensures EncodeArray([v], false) == Some(Encoded(SMALL_ARRAY, ArrayLayout([v], false)))
  {
    assert [v][1..] == [];
    assert ValuesFit([v], 7);
  }

  lemma {:induction false} EntryUnreadable(cut: Octets, v: Encoded)
    requires 7 <= |cut| && Has(cut, 4, Entry(v, 7, false)) && v.typ == STRING
    requires DecodeText(cut[7..]).None?
    ensures All(DecodeEntries(cut, 4, 7, 1, false)).None?
  {
    EntryInverse(cut, 4, v, 7, false);
    assert DecodeEntries(cut, 4, 7, 1, false)[0] == DecodeEntry(cut, 4, 7, false) == None;
  }

  lemma {:induction false} OneElement(v: Encoded, size: nat)
    requires !IsLiteral(v) && 7 <= size <= 7 + |v.bytes|
    ensures var d := ArrayLayout([v], false);
            && |d| == 7 + |v.bytes|
            && Has(d[..size], 4, Entry(v, 7, false))
            && d[..size][7..] == v.bytes[..size - 7]
  {
    var vs := [v];
    var d := ArrayLayout(vs, false);
    ArrayShape(vs, false);
    assert vs[1..] == [] && vs[..0] == [];
    assert Payloads(vs) == v.bytes;
    EntryPlace(vs, 7, false, 0);
    HasNested(d, 4, Entries(vs, 7, false), 0, Entry(v, 7, false));
    HasSlice(d, 4, Entry(v, 7, false));
    HasSlice(d[..size], 4, Entry(v, 7, false));
    assert d[..size][4..7] == d[4..7];
    HasSlice(d, 7, v.bytes);
  }

  lemma {:induction false} OneElementUnreadable(d: Octets, size: nat)
    requires 4 <= |d| && size <= |d| && Field(d, 0, false) == 1 && Field(d, 2, false) == size
    requires size >= 7 ==> All(DecodeEntries(d[..size], 4, 7, 1, false)).None?
    ensures DecodeArray(d, false).None?
  {
  }

  lemma {:induction false} OneElementHeader(v: Encoded)
    ensures var d := ArrayLayout([v], false);
            7 <= |d| && Field(d, 0, false) == 1 && Field(d, 2, false) == |d| % Limit(false)
  {
    var d := ArrayLayout([v], false);
    ArrayShape([v], false);
    FieldInverse(d, 0, 1, false);
    FieldInverse(d, 2, |d|, false);
  }

  lemma {:induction false} CutUnreadable(text: Octets, d: Octets, size: nat)
    requires 65_536 <= |text| <= 0x1F_FFFF && d == ArrayLayout([EncodeText(text).value], false)
    requires 7 <= size < 65_536
    ensures size <= |d| && All(DecodeEntries(d[..size], 4, 7, 1, false)).None?
  {
    var v := EncodeText(text).value;
    OneElement(v, size);
    ShortOfItsText(text, size - 7);
    EntryUnreadable(d[..size], v);
  }

  lemma {:induction false} LongElementUnreadable(text: Octets)
    requires 65_536 <= |text| <= 0x1F_FFFF
    ensures DecodeArray(ArrayLayout([EncodeText(text).value], false), false).None?
  {
    var v := EncodeText(text).value;
    var d := ArrayLayout([v], false);
    OneElementHeader(v);
    var size := |d| % Limit(false);
    if size >= 7 {
      CutUnreadable(text, d, size);
    }
    OneElementUnreadable(d, size);
  }
}
