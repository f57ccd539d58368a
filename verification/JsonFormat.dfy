/**
 MySQL's binary JSON, byte by byte, as its documentation describes it: which bytes hold a value. Reading
 a document finds a value exactly where the format puts it, so what is written and read back has the
 documented type codes, counts, sizes, offsets and lengths.
 */
module JsonFormat {
  import opened Bytes
  import opened Json
  import opened JsonRoundTrip
  import opened JsonExact

  function At(d: Octets, p: nat): nat
    requires p < |d|
  {
    d[p]
  }

  function Two(d: Octets, p: nat): nat
    requires p + 2 <= |d|
  {
    At(d, p) + 256 * At(d, p + 1)
  }

  function Four(d: Octets, p: nat): nat
    requires p + 4 <= |d|
  {
    At(d, p) + 256 * At(d, p + 1) + 65536 * At(d, p + 2) + 16777216 * At(d, p + 3)
  }

  /** Counts, sizes and offsets have two bytes in a small container and four in a large one. */
  function Number(d: Octets, p: nat, large: bool): nat
    requires p + (if large then 4 else 2) <= |d|
  {
    if large then Four(d, p) else Two(d, p)
  }

  /** Where the i-th value entry of an array begins, a type and an offset behind the count and the size. */
  function ElementEntry(i: nat, large: bool): nat {
    if large then 8 + 5 * i else 4 + 3 * i
  }

  /** Where the i-th key entry of an object begins, an offset and two bytes of length. */
  function NameEntry(i: nat, large: bool): nat {
    if large then 8 + 6 * i else 4 + 4 * i
  }

  /** Where the i-th value entry of an object of `n` members begins, behind the key entries. */
  function MemberEntry(n: nat, i: nat, large: bool): nat {
    if large then 8 + 6 * n + 5 * i else 4 + 4 * n + 3 * i
  }

  /** Seven bits of a length. */
  function Low(d: Octets, i: nat): nat
    requires i < |d|
  {
    d[i] % 128
  }

  /** The length `n` in `k` bytes of seven bits each, the lowest first, all but the last with the top bit. */
  predicate LengthIn(d: Octets, k: nat, n: nat)
    requires k <= |d|
  {
    && 1 <= k <= 5 && d[k - 1] < 128 && (forall i :: 0 <= i < k - 1 ==> d[i] >= 128)
    && n == match k
            case 1 => Low(d, 0)
            case 2 => Low(d, 0) + 128 * Low(d, 1)
            case 3 => Low(d, 0) + 128 * Low(d, 1) + 16384 * Low(d, 2)
            case 4 => Low(d, 0) + 128 * Low(d, 1) + 16384 * Low(d, 2) + 2097152 * Low(d, 3)
            case _ => Low(d, 0) + 128 * Low(d, 1) + 16384 * Low(d, 2) + 2097152 * Low(d, 3) + 268435456 * Low(d, 4)
  }

  predicate LiteralHolds(b: Byte, j: Json) {
    match j
    case Null => b == 0
    case Bool(true) => b == 1
    case Bool(false) => b == 2
    case _ => false
  }

  predicate TextHolds(d: Octets, k: nat, text: Octets) {
    k + |text| <= |d| && LengthIn(d, k, |text|) && d[k..k + |text|] == text
  }

  predicate KeyHolds(d: Octets, p: nat, large: bool, key: Octets)
    requires NameEntry(0, large) <= p && p + (if large then 6 else 4) <= |d|
  {
    var offset := Number(d, p, large);
    && |key| == Two(d, if large then p + 4 else p + 2)
    && offset + |key| <= |d| && d[offset..offset + |key|] == key
  }

  /** A literal is kept in its entry; other values lie at their offset, not before `values`. */
  ghost predicate EntryHolds(d: Octets, p: nat, values: nat, large: bool, j: Json)
    requires p + (if large then 5 else 3) <= |d|
    decreases j, 1
  {
    if d[p] == 4 then LiteralHolds(d[p + 1], j)
    else values <= Number(d, p + 1, large) <= |d| && Holds(d[p], d[Number(d, p + 1, large)..], j)
  }

  /** Data of the type begins with the bytes of `j`. */
  ghost predicate Holds(t: Byte, d: Octets, j: Json)
    decreases j, 0
  {
    match j
    case Null => t == 4 && d != [] && d[0] == 0
    case Bool(b) => t == 4 && d != [] && d[0] == if b then 1 else 2
    case Text(text) => t == 12 && exists k :: TextHolds(d, k, text)
    case Double(bits) => t == 11 && |d| >= 8 && bits == Four(d, 0) + 0x1_0000_0000 * Four(d, 4)
    case Array(elements) =>
      (t == 2 || t == 3) &&
      var large, n := t == 3, |elements|;
      && ElementEntry(0, large) <= |d| && Number(d, 0, large) == n
      && var size := Number(d, if large then 4 else 2, large);
      && ElementEntry(n, large) <= size <= |d|
      && forall i :: 0 <= i < n ==>
           EntryHolds(d[..size], ElementEntry(i, large), ElementEntry(n, large), large, elements[i])
    case Object(members) =>
      (t == 0 || t == 1) &&
      var large, n := t == 1, |members|;
      && NameEntry(0, large) <= |d| && Number(d, 0, large) == n
      && var size := Number(d, if large then 4 else 2, large);
      && MemberEntry(n, n, large) <= size <= |d|
      && forall i :: 0 <= i < n ==>
           && KeyHolds(d[..size], NameEntry(i, large), large, members[i].key)
           && EntryHolds(d[..size], MemberEntry(n, i, large), MemberEntry(n, n, large), large, members[i].value)
  }

  // ----- Reading follows the format -----

  lemma {:induction false} TwoBytes(bs: Octets)
    requires |bs| == 2
    ensures LittleEndian(bs) == Two(bs, 0)
  {
    var a := bs[1..];
    assert a[1..] == [];
    assert LittleEndian(a) == a[0];
  }

  lemma {:induction false} FourBytes(bs: Octets)
    requires |bs| == 4
    ensures LittleEndian(bs) == Four(bs, 0)
  {
    var a := bs[1..];
    assert a[1..] == bs[2..];
    assert LittleEndian(bs) == bs[0] + 256 * LittleEndian(a) && LittleEndian(a) == a[0] + 256 * LittleEndian(bs[2..]);
    TwoBytes(bs[2..]);
  }

  lemma {:induction false} FieldIsNumber(d: Octets, p: nat, large: bool)
    requires p + OffsetSize(large) <= |d|
    ensures Field(d, p, large) == Number(d, p, large)
  {
    if large {
      FourBytes(d[p..p + 4]);
    } else {
      TwoBytes(d[p..p + 2]);
    }
  }

  lemma {:induction false} EightBytes(bs: Octets)
    requires |bs| == 8
    ensures LittleEndian(bs) == Four(bs, 0) + 0x1_0000_0000 * Four(bs, 4)
  {
    var a, b, c := bs[1..], bs[2..], bs[3..];
    assert a[1..] == b && b[1..] == c && c[1..] == bs[4..];
    assert LittleEndian(bs) == bs[0] + 256 * LittleEndian(a) && LittleEndian(a) == a[0] + 256 * LittleEndian(b);
    assert LittleEndian(b) == b[0] + 256 * LittleEndian(c) && LittleEndian(c) == c[0] + 256 * LittleEndian(bs[4..]);
    FourBytes(bs[4..]);
  }

  lemma {:induction false} DoubleMeans(d: Octets, bits: Word)
    ensures DecodeDouble(d) == Some(Double(bits)) <==> |d| >= 8 && bits == Four(d, 0) + 0x1_0000_0000 * Four(d, 4)
  {
    if |d| >= 8 {
      EightBytes(d[..8]);
    }
  }

  /** The lengths of at most `room` bytes, one group after another. */
  lemma {:induction false} LengthTail(d: Octets, room: nat, n: nat, k: nat)
    requires 0 < room <= 5 && d != [] && d[0] >= 128
    ensures DecodeLength(d, room) == Some((n, k)) <==>
            k > 0 && n >= Low(d, 0) && (n - Low(d, 0)) % 128 == 0 &&
            DecodeLength(d[1..], room - 1) == Some(((n - Low(d, 0)) / 128, k - 1))
  {
  }

  lemma {:induction false} LengthInTail(d: Octets, k: nat, n: nat)
    requires 1 < k <= |d| && d[0] >= 128 && n >= Low(d, 0) && (n - Low(d, 0)) % 128 == 0 && k <= 5
    ensures LengthIn(d, k, n) <==> LengthIn(d[1..], k - 1, (n - Low(d, 0)) / 128)
  {
    var rest := d[1..];
    assert forall i :: 0 <= i < |rest| ==> Low(rest, i) == Low(d, i + 1);
    assert forall i :: 0 <= i < |rest| ==> rest[i] == d[i + 1];
  }

  lemma {:induction false} OneByteLength(d: Octets, room: nat, n: nat, k: nat)
    requires room <= 5 && (room == 0 || d == [] || d[0] < 128 || k == 0)
    ensures DecodeLength(d, room) == Some((n, k)) <==> k <= |d| && k <= room && LengthIn(d, k, n)
  {
    assert 1 < k <= |d| && LengthIn(d, k, n) ==> d[0] >= 128;
  }

  /** A length of more bytes has the low seven bits of its first one. */
  lemma {:induction false} LengthLow(d: Octets, k: nat, n: nat)
    requires k <= |d| && LengthIn(d, k, n)
    ensures n >= Low(d, 0) && (n - Low(d, 0)) % 128 == 0
  {
  }

  lemma {:induction false} LongerLength(d: Octets, room: nat, n: nat, k: nat)
    requires 0 < room <= 5 && 0 < k && d != [] && d[0] >= 128 && n >= Low(d, 0) && (n - Low(d, 0)) % 128 == 0
    requires var m := (n - Low(d, 0)) / 128;
             DecodeLength(d[1..], room - 1) == Some((m, k - 1)) <==>
             k - 1 <= |d[1..]| && k - 1 <= room - 1 && LengthIn(d[1..], k - 1, m)
    ensures DecodeLength(d, room) == Some((n, k)) <==> k <= |d| && k <= room && LengthIn(d, k, n)
  {
    LengthTail(d, room, n, k);
    if 1 < k <= |d| && k <= 5 {
      LengthInTail(d, k, n);
    }
  }

  lemma {:induction false} LengthMeans(d: Octets, room: nat, n: nat, k: nat)
    requires room <= 5
    ensures DecodeLength(d, room) == Some((n, k)) <==> k <= |d| && k <= room && LengthIn(d, k, n)
  {
    if room == 0 || d == [] || d[0] < 128 || k == 0 {
      OneByteLength(d, room, n, k);
    } else if n >= Low(d, 0) && (n - Low(d, 0)) % 128 == 0 {
      LengthMeans(d[1..], room - 1, (n - Low(d, 0)) / 128, k - 1);
      LongerLength(d, room, n, k);
    } else {
      LengthTail(d, room, n, k);
      if k <= |d| && LengthIn(d, k, n) {
        LengthLow(d, k, n);
      }
    }
  }

  lemma {:induction false} TextMeans(d: Octets, text: Octets)
    ensures DecodeText(d) == Some(Text(text)) <==> exists k :: TextHolds(d, k, text)
  {
    if exists k :: TextHolds(d, k, text) {
      var k: nat :| TextHolds(d, k, text);
      LengthMeans(d, 5, |text|, k);
    }
    match DecodeLength(d, 5)
    case None =>
    case Some((n, k)) =>
      LengthMeans(d, 5, n, k);
      assert k <= |d|;
      if k + n <= |d| && d[k..k + n] == text {
        assert TextHolds(d, k, text);
      }
  }

  lemma {:induction false} KeyMeans(d: Octets, p: nat, large: bool, key: Octets)
    requires NameEntry(0, large) <= p && p + OffsetSize(large) + 2 <= |d|
    ensures DecodeKey(d, p, large) == Some(key) <==> KeyHolds(d, p, large, key)
  {
    FieldIsNumber(d, p, large);
    FieldIsNumber(d, p + OffsetSize(large), false);
  }

  lemma {:induction false} LiteralMeans(b: Byte, j: Json)
    ensures DecodeLiteral(b) == Some(j) <==> LiteralHolds(b, j)
  {
  }

  lemma {:induction false} EntryMeans(d: Octets, p: nat, values: nat, large: bool, j: Json)
    requires p + 1 + OffsetSize(large) <= |d| && values > 0
    ensures DecodeEntry(d, p, values, large) == Some(j) <==> EntryHolds(d, p, values, large, j)
    decreases j, 5
  {
    FieldIsNumber(d, p + 1, large);
    LiteralMeans(d[p + 1], j);
    if d[p] != 4 && values <= Field(d, p + 1, large) <= |d| {
      DecodeMeans(d[p], d[Field(d, p + 1, large)..], j);
    }
  }

  lemma {:induction false} AllMeans<T>(rs: seq<Option<T>>, vs: seq<T>)
    ensures All(rs) == Some(vs) <==> |vs| == |rs| && forall i :: 0 <= i < |rs| ==> rs[i] == Some(vs[i])
  {
    if |vs| == |rs| && forall i :: 0 <= i < |rs| ==> rs[i] == Some(vs[i]) {
      assert All(rs).value == vs;
    }
  }

  lemma {:induction false} ElementsMean(d: Octets, n: nat, large: bool, elements: seq<Json>, j: Json)
    requires ArrayStart(n, large) <= |d| && j == Array(elements)
    ensures DecodeElements(d, n, large) == Some(j) <==>
            |elements| == n &&
            forall i :: 0 <= i < n ==> EntryHolds(d, ElementEntry(i, large), ElementEntry(n, large), large, elements[i])
    decreases j, 2
  {
    var base, values := 2 * OffsetSize(large), ArrayStart(n, large);
    var rs := DecodeEntries(d, base, values, n, large);
    AllMeans(rs, elements);
    if |elements| == n {
      forall i | 0 <= i < n
        ensures rs[i] == Some(elements[i]) <==>
                EntryHolds(d, ElementEntry(i, large), ElementEntry(n, large), large, elements[i])
      {
        EntryMeans(d, ElementEntry(i, large), values, large, elements[i]);
      }
    }
  }

  lemma {:induction false} ArrayMeans(d: Octets, large: bool, elements: seq<Json>, j: Json)
    requires j == Array(elements)
    ensures DecodeArray(d, large) == Some(j) <==> Holds(if large then 3 else 2, d, j)
    decreases j, 3
  {
    if ElementEntry(0, large) <= |d| {
      FieldIsNumber(d, 0, large);
      FieldIsNumber(d, OffsetSize(large), large);
      var n, size := Field(d, 0, large), Field(d, OffsetSize(large), large);
      if ArrayStart(n, large) <= size <= |d| {
        ElementsMean(d[..size], n, large, elements, j);
      }
    }
  }

  lemma {:induction false} MembersAre(ks: seq<Octets>, js: seq<Json>, members: seq<Member>)
    requires |ks| == |js|
    ensures Members(ks, js) == members <==>
            |members| == |ks| && forall i :: 0 <= i < |ks| ==> ks[i] == members[i].key && js[i] == members[i].value
  {
    if |members| == |ks| && forall i :: 0 <= i < |ks| ==> ks[i] == members[i].key && js[i] == members[i].value {
      assert forall i :: 0 <= i < |ks| ==> Members(ks, js)[i] == members[i];
    }
  }

  lemma {:induction false} AssembledMeans(ks: seq<Option<Octets>>, js: seq<Option<Json>>, members: seq<Member>)
    requires |ks| == |js|
    ensures Assemble(All(ks), All(js)) == Some(Object(members)) <==>
            |members| == |ks| &&
            forall i :: 0 <= i < |ks| ==> ks[i] == Some(members[i].key) && js[i] == Some(members[i].value)
  {
    if All(ks).Some? && All(js).Some? {
      MembersAre(All(ks).value, All(js).value, members);
    }
  }

  lemma {:induction false} MembersRead(d: Octets, n: nat, large: bool, names: nat, base: nat, values: nat)
    requires ObjectStart(n, large) <= |d|
    requires names == NameEntry(0, large) && base == MemberEntry(n, 0, large) && values == MemberEntry(n, n, large)
    ensures DecodeMembers(d, n, large) ==
            Assemble(All(DecodeKeys(d, names, n, large)), All(DecodeEntries(d, base, values, n, large)))
  {
    MemberValuesAre(d, n, large, base, values);
  }

  ghost predicate MemberHolds(d: Octets, n: nat, i: nat, large: bool, m: Member)
    requires i < n && MemberEntry(n, n, large) <= |d|
  {
    && KeyHolds(d, NameEntry(i, large), large, m.key)
    && EntryHolds(d, MemberEntry(n, i, large), MemberEntry(n, n, large), large, m.value)
  }

  lemma {:induction false} NameMeans(d: Octets, n: nat, i: nat, large: bool, key: Octets, names: nat, p: nat)
    requires i < n && MemberEntry(n, n, large) <= |d| && names == NameEntry(0, large) && p == NameEntry(i, large)
    ensures KeyHolds(d, p, large, key) <==> DecodeKeys(d, names, n, large)[i] == Some(key)
  {
    assert p == names + KeyEntryAt(i, large);
    KeyMeans(d, p, large, key);
  }

  lemma {:induction false} ValueMeans(
    d: Octets, n: nat, i: nat, large: bool, j: Json, base: nat, values: nat, p: nat)
    requires i < n && MemberEntry(n, n, large) <= |d|
    requires base == MemberEntry(n, 0, large) && values == MemberEntry(n, n, large) && p == MemberEntry(n, i, large)
    ensures EntryHolds(d, p, values, large, j) <==> DecodeEntries(d, base, values, n, large)[i] == Some(j)
    decreases j, 6
  {
    assert p == base + EntryAt(i, large);
    EntryMeans(d, p, values, large, j);
  }

  lemma {:induction false} MemberMeans(
    d: Octets, n: nat, i: nat, large: bool, m: Member, names: nat, base: nat, values: nat)
    requires i < n && MemberEntry(n, n, large) <= |d|
    requires names == NameEntry(0, large) && base == MemberEntry(n, 0, large) && values == MemberEntry(n, n, large)
    ensures MemberHolds(d, n, i, large, m) <==>
            && DecodeKeys(d, names, n, large)[i] == Some(m.key)
            && DecodeEntries(d, base, values, n, large)[i] == Some(m.value)
    decreases m.value, 7
  {
    NameMeans(d, n, i, large, m.key, names, NameEntry(i, large));
    ValueMeans(d, n, i, large, m.value, base, values, MemberEntry(n, i, large));
  }

  lemma {:induction false} MembersMean(d: Octets, n: nat, large: bool, members: seq<Member>, j: Json)
    requires MemberEntry(n, n, large) <= |d| && j == Object(members)
    ensures DecodeMembers(d, n, large) == Some(j) <==>
            |members| == n && forall i :: 0 <= i < n ==> MemberHolds(d, n, i, large, members[i])
    decreases j, 2
  {
    var names, base, values := NameEntry(0, large), MemberEntry(n, 0, large), MemberEntry(n, n, large);
    MembersRead(d, n, large, names, base, values);
    AssembledMeans(DecodeKeys(d, names, n, large), DecodeEntries(d, base, values, n, large), members);
    if |members| == n {
      forall i | 0 <= i < n
        ensures MemberHolds(d, n, i, large, members[i]) <==>
                && DecodeKeys(d, names, n, large)[i] == Some(members[i].key)
                && DecodeEntries(d, base, values, n, large)[i] == Some(members[i].value)
      {
        MemberMeans(d, n, i, large, members[i], names, base, values);
      }
    }
  }

  lemma {:induction false} ObjectMeans(d: Octets, large: bool, members: seq<Member>, j: Json)
    requires j == Object(members)
    ensures DecodeObject(d, large) == Some(j) <==> Holds(if large then 1 else 0, d, j)
    decreases j, 3
  {
    if NameEntry(0, large) <= |d| {
      FieldIsNumber(d, 0, large);
      FieldIsNumber(d, OffsetSize(large), large);
      var n, size := Field(d, 0, large), Field(d, OffsetSize(large), large);
      if ObjectStart(n, large) <= size <= |d| {
        MembersMean(d[..size], n, large, members, j);
      }
    }
  }

  lemma {:induction false} ElementsAreArray(d: Octets, n: nat, large: bool)
    requires ArrayStart(n, large) <= |d|
    ensures DecodeElements(d, n, large).Some? ==> DecodeElements(d, n, large).value.Array?
  {
  }

  lemma {:induction false} MembersAreObject(d: Octets, n: nat, large: bool)
    requires ObjectStart(n, large) <= |d|
    ensures DecodeMembers(d, n, large).Some? ==> DecodeMembers(d, n, large).value.Object?
  {
  }

  lemma {:induction false} ReadKinds(d: Octets, large: bool, j: Json)
    ensures DecodeArray(d, large) == Some(j) ==> j.Array?
    ensures DecodeObject(d, large) == Some(j) ==> j.Object?
  {
    if 2 * OffsetSize(large) <= |d| {
      var n, size := Field(d, 0, large), Field(d, OffsetSize(large), large);
      if ArrayStart(n, large) <= size <= |d| {
        ElementsAreArray(d[..size], n, large);
      }
      if ObjectStart(n, large) <= size <= |d| {
        MembersAreObject(d[..size], n, large);
      }
    }
  }

  /** A document is read as `j` if and only if its bytes hold `j`. */
  lemma {:induction false} DecodeMeans(t: Byte, d: Octets, j: Json)
    ensures Decode(t, d) == Some(j) <==> Holds(t, d, j)
    decreases j, 4
  {
    ReadKinds(d, t == 3, j);
    ReadKinds(d, t == 1, j);
    match j
    case Null =>
    case Bool(_) =>
    case Text(text) => TextMeans(d, text);
    case Double(bits) => DoubleMeans(d, bits);
    case Array(elements) => ArrayMeans(d, t == 3, elements, j);
    case Object(members) => ObjectMeans(d, t == 1, members, j);
  }

  // ----- Writing follows the format -----

  /** What is written of a document is in the format exactly when its keys are short and its sizes fit. */
  lemma {:induction false} WrittenInFormat(j: Json)
    requires EncodeDocument(j).Some? && |EncodeDocument(j).value| <= 0x1_0000_0000
    ensures var d := EncodeDocument(j).value;
            Holds(d[0], d[1..], j) <==> ShortKeys(j) && SizesFit(j)
  {
    ComesBackExactly(j);
    var d := EncodeDocument(j).value;
    DecodeMeans(d[0], d[1..], j);
  }

  /** The type codes. */
  predicate CodeOf(t: Byte, j: Json) {
    match j
    case Null => t == 4
    case Bool(_) => t == 4
    case Text(_) => t == 12
    case Double(_) => t == 11
    case Array(_) => t == 2 || t == 3
    case Object(_) => t == 0 || t == 1
  }

  lemma {:induction false} EncodedCode(j: Json)
    requires Encode(j).Some?
    ensures CodeOf(Encode(j).value.typ, j)
  {
  }

  /** Every document that can be written, with whatever keys and sizes, begins with its type code. */
  lemma {:induction false} FirstByteIsCode(j: Json)
    requires EncodeDocument(j).Some?
    ensures EncodeDocument(j).value != [] && CodeOf(EncodeDocument(j).value[0], j)
  {
    EncodedCode(j);
  }

  lemma {:induction false} EntryBeginsWithType(d: Octets, base: nat, vs: seq<Encoded>, start: nat, large: bool, i: nat)
    requires i < |vs| && Has(d, base, Entries(vs, start, large))
    ensures base + EntryAt(i, large) < |d| && d[base + EntryAt(i, large)] == vs[i].typ
  {
    var e := Entry(vs[i], start + |Payloads(vs[..i])|, large);
    EntryPlace(vs, start, large, i);
    HasNested(d, base, Entries(vs, start, large), EntryAt(i, large), e);
    HasAt(d, base + EntryAt(i, large), e, 0);
  }

  lemma {:induction false} ElementType(vs: seq<Encoded>, large: bool, i: nat, p: nat)
    requires i < |vs| && p == ElementEntry(i, large)
    ensures p < |ArrayLayout(vs, large)| && ArrayLayout(vs, large)[p] == vs[i].typ
  {
    ArrayShape(vs, large);
    EntryBeginsWithType(ArrayLayout(vs, large), ElementEntry(0, large), vs, ArrayStart(|vs|, large), large, i);
  }

  lemma {:induction false} MemberType(ks: seq<Octets>, vs: seq<Encoded>, large: bool, i: nat, p: nat)
    requires i < |vs| == |ks| && p == MemberEntry(|vs|, i, large)
    ensures p < |ObjectLayout(ks, vs, large)| && ObjectLayout(ks, vs, large)[p] == vs[i].typ
  {
    ObjectIsObject(ks, vs, large);
    EntryBeginsWithType(ObjectLayout(ks, vs, large), MemberEntry(|ks|, 0, large), vs,
                        ObjectStart(|ks|, large) + |Concat(ks)|, large, i);
  }

  lemma {:induction false} SmallestLayout(j: Json, vs: seq<Encoded>, large: bool)
    requires (j.Array? || j.Object?) && |vs| == |Children(j)| && EncodeSmallest(j, vs).Some?
    requires large <==> EncodeSmallest(j, vs).value.typ == 1 || EncodeSmallest(j, vs).value.typ == 3
    ensures EncodeSmallest(j, vs).value.bytes
            == if j.Array? then ArrayLayout(vs, large) else ObjectLayout(Keys(j.members), vs, large)
  {
  }

  /** And so does every value entry in it. */
  lemma {:induction false} EntryByteIsCode(j: Json, i: nat)
    requires Encode(j).Some? && (j.Array? || j.Object?) && i < |Children(j)|
    ensures var d, large := Encode(j).value.bytes, Encode(j).value.typ == 1 || Encode(j).value.typ == 3;
            var p := if j.Array? then ElementEntry(i, large) else MemberEntry(|j.members|, i, large);
            p < |d| && CodeOf(d[p], Children(j)[i])
  {
    var vs := ContainerEncoding(j);
    var large := Encode(j).value.typ == 1 || Encode(j).value.typ == 3;
    SmallestLayout(j, vs, large);
    EncodedCode(Children(j)[i]);
    if j.Array? {
      ElementType(vs, large, i, ElementEntry(i, large));
    } else {
      MemberType(Keys(j.members), vs, large, i, MemberEntry(|j.members|, i, large));
    }
  }

  /** A length takes as few bytes as it can. */
  function LengthBytes(n: nat): nat {
    if n < 128 then 1 else if n < 16384 then 2 else 3
  }

  /** Nothing else is written: two bytes for a literal, nine for a number, and of a text its length and its bytes. */
  lemma {:induction false} LeafBytes(j: Json)
    requires EncodeDocument(j).Some?
    ensures j.Null? || j.Bool? ==> |EncodeDocument(j).value| == 2
    ensures j.Double? ==> |EncodeDocument(j).value| == 9
    ensures j.Text? ==> |EncodeDocument(j).value| == 1 + LengthBytes(|j.text|) + |j.text|
  {
  }

  lemma {:induction false} SizeIsSaid(d: Octets, large: bool)
    requires Has(d, OffsetSize(large), ToField(|d|, large)) && |d| < Limit(large)
    ensures ElementEntry(0, large) <= |d| && Number(d, if large then 4 else 2, large) == |d|
  {
    FieldInverse(d, OffsetSize(large), |d|, large);
    FieldIsNumber(d, OffsetSize(large), large);
  }

  lemma {:induction false} LayoutSaysSize(ks: seq<Octets>, vs: seq<Encoded>, large: bool)
    ensures |ArrayLayout(vs, large)| < Limit(large) ==>
              var d := ArrayLayout(vs, large);
              ElementEntry(0, large) <= |d| && Number(d, if large then 4 else 2, large) == |d|
    ensures |ks| == |vs| && |ObjectLayout(ks, vs, large)| < Limit(large) ==>
              var d := ObjectLayout(ks, vs, large);
              ElementEntry(0, large) <= |d| && Number(d, if large then 4 else 2, large) == |d|
  {
    ArrayShape(vs, large);
    if |ArrayLayout(vs, large)| < Limit(large) {
      SizeIsSaid(ArrayLayout(vs, large), large);
    }
    if |ks| == |vs| && |ObjectLayout(ks, vs, large)| < Limit(large) {
      ObjectIsObject(ks, vs, large);
      SizeIsSaid(ObjectLayout(ks, vs, large), large);
    }
  }

  /** And of a container what its size says. */
  lemma {:induction false} ContainerBytes(j: Json)
    requires Encode(j).Some? && (j.Array? || j.Object?) && SizeFits(Encode(j).value)
    ensures var e := Encode(j).value;
            var large := e.typ == 1 || e.typ == 3;
            ElementEntry(0, large) <= |e.bytes| && Number(e.bytes, if large then 4 else 2, large) == |e.bytes|
  {
    var vs := ContainerEncoding(j);
    var large := Encode(j).value.typ == 1 || Encode(j).value.typ == 3;
    SmallestLayout(j, vs, large);
    EncodedCode(j);
    LayoutSaysSize(if j.Object? then Keys(j.members) else [], vs, large);
  }

  lemma {:induction false} ValuesFitInRoom(vs: seq<Encoded>, offset: nat)
    requires offset + |Payloads(vs)| <= 65535
    ensures ValuesFit(vs, offset)
  {
    if vs != [] {
      ValuesFitInRoom(vs[1..], offset + |Payload(vs[0])|);
    }
  }

  lemma {:induction false} KeysFitInRoom(ks: seq<Octets>, offset: nat)
    requires offset + |Concat(ks)| <= 65535
    ensures KeysFit(ks, offset)
  {
    if ks != [] {
      KeysFitInRoom(ks[1..], offset + |ks[0]|);
    }
  }

  lemma {:induction false} SmallestIsTaken(j: Json, vs: seq<Encoded>)
    requires (j.Array? || j.Object?) && All(EncodeChildren(j)) == Some(vs)
    ensures Encode(j) == EncodeSmallest(j, vs)
  {
  }

  lemma {:induction false} SmallObjectFits(ks: seq<Octets>, vs: seq<Encoded>)
    requires |ks| == |vs| && MemberEntry(|vs|, |vs|, false) + |Concat(ks)| + |Payloads(vs)| <= 65535
    ensures EncodeObject(ks, vs, false).Some? && EncodeObject(ks, vs, false).value.typ == 0
  {
    KeysFitInRoom(ks, ObjectStart(|ks|, false));
    ValuesFitInRoom(vs, ObjectStart(|ks|, false) + |Concat(ks)|);
  }

  /** A container is small if that takes no more than 65,535 bytes. */
  lemma {:induction false} SmallArrayIfThereIsRoom(j: Json, vs: seq<Encoded>)
    requires j.Array? && All(EncodeChildren(j)) == Some(vs) && ElementEntry(|vs|, false) + |Payloads(vs)| <= 65535
    ensures Encode(j).Some? && Encode(j).value.typ == 2
  {
    SmallestIsTaken(j, vs);
    ValuesFitInRoom(vs, ArrayStart(|vs|, false));
  }

  lemma {:induction false} SmallObjectIfThereIsRoom(j: Json, vs: seq<Encoded>)
    requires j.Object? && All(EncodeChildren(j)) == Some(vs)
    requires MemberEntry(|vs|, |vs|, false) + |Concat(Keys(j.members))| + |Payloads(vs)| <= 65535
    ensures Encode(j).Some? && Encode(j).value.typ == 0
  {
    SmallestIsTaken(j, vs);
    SmallObjectFits(Keys(j.members), vs);
  }
}
