/**
 MySQL's binary JSON (`binlogreplication/binlog_json_serialization.go`).

 `Encode` is what the encoder must produce; `Decode` reads a document back the way MySQL does, by
 the stored counts, sizes and offsets.
 */
module Json {
  import opened Bytes

  /** A float64 is opaque. */
  type Word = x: nat | x < 0x1_0000_0000_0000_0000

  /** An object is given as its members in the order of its keys. */
  datatype Json =
    | Null
    | Bool(b: bool)
    | Text(text: Octets)
    | Double(bits: Word)
    | Array(elements: seq<Json>)
    | Object(members: seq<Member>)

  datatype Member = Member(key: Octets, value: Json)

  const SMALL_OBJECT: Byte := 0x00
  const LARGE_OBJECT: Byte := 0x01
  const SMALL_ARRAY: Byte := 0x02
  const LARGE_ARRAY: Byte := 0x03
  const LITERAL: Byte := 0x04
  const DOUBLE: Byte := 0x0b
  const STRING: Byte := 0x0c

  const MAX_OFFSET := 65_535

  /** An encoded value: its type, and its bytes without the type. */
  datatype Encoded = Encoded(typ: Byte, bytes: Octets)

  predicate IsLiteral(e: Encoded) {
    e.typ == LITERAL
  }

  // ----- Containers -----

  function OffsetSize(large: bool): nat {
    if large then 4 else 2
  }

  function ToField(v: nat, large: bool): (bs: Octets)
    ensures |bs| == OffsetSize(large)
  {
    ToLittleEndian(v, OffsetSize(large))
  }

  /** Where the n-th value entry begins, counted from the first; an entry is a type and an offset. */
  function EntryAt(n: nat, large: bool): nat {
    if large then 5 * n else 3 * n
  }

  /** Where the n-th key entry begins; an entry is an offset and two bytes of length. */
  function KeyEntryAt(n: nat, large: bool): nat {
    if large then 6 * n else 4 * n
  }

  function ArrayStart(n: nat, large: bool): nat {
    2 * OffsetSize(large) + EntryAt(n, large)
  }

  function ObjectStart(n: nat, large: bool): nat {
    2 * OffsetSize(large) + KeyEntryAt(n, large) + EntryAt(n, large)
  }

  /** Literals are kept in their entry. */
  function Payload(e: Encoded): Octets {
    if IsLiteral(e) then [] else e.bytes
  }

  function Payloads(vs: seq<Encoded>): Octets {
    if vs == [] then [] else Payload(vs[0]) + Payloads(vs[1..])
  }

  function EntryValue(e: Encoded, offset: nat): nat {
    if IsLiteral(e) && e.bytes != [] then e.bytes[0] else offset
  }

  function Entry(e: Encoded, offset: nat, large: bool): (bs: Octets)
    ensures |bs| == 1 + OffsetSize(large)
  {
    [e.typ] + ToField(EntryValue(e, offset), large)
  }

  /** The entries of values whose payloads follow one another from `offset` on. */
  function Entries(vs: seq<Encoded>, offset: nat, large: bool): (bs: Octets)
    ensures |bs| == EntryAt(|vs|, large)
  {
    if vs == [] then []
    else Entry(vs[0], offset, large) + Entries(vs[1..], offset + |Payload(vs[0])|, large)
  }

  /** The length of a key keeps its low byte only: the other byte is the length shifted out of it. */
  function KeyEntry(key: Octets, offset: nat, large: bool): (bs: Octets)
    ensures |bs| == OffsetSize(large) + 2
  {
    ToField(offset, large) + [|key| % 256, 0]
  }

  function KeyEntries(ks: seq<Octets>, offset: nat, large: bool): (bs: Octets)
    ensures |bs| == KeyEntryAt(|ks|, large)
  {
    if ks == [] then []
    else KeyEntry(ks[0], offset, large) + KeyEntries(ks[1..], offset + |ks[0]|, large)
  }

  /** The check for room in a small container, in the 32-bit arithmetic it is made in. */
  predicate NoRoom(offset: nat, length: nat) {
    offset % 0x1_0000_0000 > (MAX_OFFSET - length) % 0x1_0000_0000
  }

  predicate ValuesFit(vs: seq<Encoded>, offset: nat) {
    vs == [] ||
    ((IsLiteral(vs[0]) || !NoRoom(offset, |vs[0].bytes|)) && ValuesFit(vs[1..], offset + |Payload(vs[0])|))
  }

  predicate KeysFit(ks: seq<Octets>, offset: nat) {
    ks == [] || (!NoRoom(offset, |ks[0]|) && KeysFit(ks[1..], offset + |ks[0]|))
  }

  function ArrayLayout(vs: seq<Encoded>, large: bool): Octets {
    var start := ArrayStart(|vs|, large);
    ToField(|vs|, large) + ToField(start + |Payloads(vs)|, large) + Entries(vs, start, large) + Payloads(vs)
  }

  function ArrayType(large: bool): Byte {
    if large then LARGE_ARRAY else SMALL_ARRAY
  }

  function ObjectType(large: bool): Byte {
    if large then LARGE_OBJECT else SMALL_OBJECT
  }

  function EncodeArray(vs: seq<Encoded>, large: bool): Option<Encoded> {
    if large || (|vs| <= MAX_OFFSET && ValuesFit(vs, ArrayStart(|vs|, false))) then
      Some(Encoded(ArrayType(large), ArrayLayout(vs, large)))
    else None
  }

  function ObjectLayout(ks: seq<Octets>, vs: seq<Encoded>, large: bool): Octets
    requires |ks| == |vs|
  {
    var keyStart := ObjectStart(|ks|, large);
    var start := keyStart + |Concat(ks)|;
    ToField(|ks|, large) + ToField(start + |Payloads(vs)|, large)
    + KeyEntries(ks, keyStart, large) + Entries(vs, start, large) + Concat(ks) + Payloads(vs)
  }

  function EncodeObject(ks: seq<Octets>, vs: seq<Encoded>, large: bool): Option<Encoded>
    requires |ks| == |vs|
  {
    var keyStart := ObjectStart(|ks|, false);
    if large || (KeysFit(ks, keyStart) && ValuesFit(vs, keyStart + |Concat(ks)|)) then
      Some(Encoded(ObjectType(large), ObjectLayout(ks, vs, large)))
    else None
  }

  // ----- Values -----

  /** Seven bits to a byte; lengths of more than three bytes are not supported. */
  function StringLength(n: nat): Option<Octets> {
    if n > 0x1F_FFFF then None
    else if n > 0x3FFF then Some([n % 128 + 128, n / 128 % 128 + 128, n / 16384])
    else if n > 0x7F then Some([n % 128 + 128, n / 128])
    else Some([n])
  }

  function EncodeText(text: Octets): Option<Encoded> {
    match StringLength(|text|)
    case None => None
    case Some(length) => Some(Encoded(STRING, length + text))
  }

  /** All of them, if there are all. */
  function All<T>(rs: seq<Option<T>>): (r: Option<seq<T>>)
    ensures r.Some? <==> forall i :: 0 <= i < |rs| ==> rs[i].Some?
    ensures r.Some? ==> |r.value| == |rs| && forall i :: 0 <= i < |rs| ==> r.value[i] == rs[i].value
  {
    if forall i :: 0 <= i < |rs| ==> rs[i].Some? then
      Some(seq(|rs|, i requires 0 <= i < |rs| && rs[i].Some? => rs[i].value))
    else None
  }

  function Keys(ms: seq<Member>): (ks: seq<Octets>)
    ensures |ks| == |ms|
  {
    seq(|ms|, i requires 0 <= i < |ms| => ms[i].key)
  }

  function Children(j: Json): seq<Json> {
    match j
    case Array(elements) => elements
    case Object(members) => seq(|members|, i requires 0 <= i < |members| => members[i].value)
    case _ => []
  }

  function EncodeChildren(j: Json): (rs: seq<Option<Encoded>>)
    ensures |rs| == |Children(j)|
    ensures forall i :: 0 <= i < |rs| ==> rs[i] == Encode(Children(j)[i])
    decreases j, 0
  {
    match j
    case Array(elements) => seq(|elements|, i requires 0 <= i < |elements| => Encode(elements[i]))
    case Object(members) => seq(|members|, i requires 0 <= i < |members| => Encode(members[i].value))
    case _ => []
  }

  /** The small form is tried first. */
  function EncodeSmallest(j: Json, vs: seq<Encoded>): Option<Encoded>
    requires |vs| == |Children(j)|
  {
    match j
    case Array(_) => if EncodeArray(vs, false).Some? then EncodeArray(vs, false) else EncodeArray(vs, true)
    case Object(ms) =>
      if EncodeObject(Keys(ms), vs, false).Some? then EncodeObject(Keys(ms), vs, false)
      else EncodeObject(Keys(ms), vs, true)
    case _ => None
  }

  function Encode(j: Json): Option<Encoded>
    decreases j, 1
  {
    match j
    case Null => Some(Encoded(LITERAL, [0x00]))
    case Bool(b) => Some(Encoded(LITERAL, [if b then 0x01 else 0x02]))
    case Text(text) => EncodeText(text)
    case Double(bits) => Some(Encoded(DOUBLE, ToLittleEndian(bits, 8)))
    case _ =>
      match All(EncodeChildren(j))
      case None => None
      case Some(vs) => EncodeSmallest(j, vs)
  }

  // ----- Reading a document back -----

  function DecodeLiteral(b: Byte): Option<Json> {
    match b
    case 0 => Some(Null)
    case 1 => Some(Bool(true))
    case 2 => Some(Bool(false))
    case _ => None
  }

  /** A length, and how many bytes hold it. */
  function DecodeLength(data: Octets, room: nat): Option<(nat, nat)> {
    if room == 0 || data == [] then None
    else if data[0] < 128 then Some((data[0], 1))
    else
      match DecodeLength(data[1..], room - 1)
      case None => None
      case Some(rest) => Some((data[0] - 128 + 128 * rest.0, rest.1 + 1))
  }

  function DecodeText(data: Octets): Option<Json> {
    match DecodeLength(data, 5)
    case None => None
    case Some((n, k)) => if k + n <= |data| && k <= |data| then Some(Text(data[k..k + n])) else None
  }

  function DecodeDouble(data: Octets): Option<Json> {
    if |data| < 8 then None
    else
      LittleEndianBound(data[..8]);
      assert Pow(256, 8) == 0x1_0000_0000_0000_0000;
      Some(Double(LittleEndian(data[..8])))
  }

  /** The number stored in the two or four bytes at `pos`. */
  function Field(d: Octets, pos: nat, large: bool): nat
    requires pos + OffsetSize(large) <= |d|
  {
    LittleEndian(d[pos..pos + OffsetSize(large)])
  }

  /** The value of the entry at `pos`, kept in it or at its offset; values lie behind `header`. */
  function DecodeEntry(d: Octets, pos: nat, header: nat, large: bool): Option<Json>
    requires pos + 1 + OffsetSize(large) <= |d| && header > 0
    decreases |d|, 0, 0
  {
    var offset := Field(d, pos + 1, large);
    if d[pos] == LITERAL then DecodeLiteral(d[pos + 1])
    else if offset < header || offset > |d| then None
    else Decode(d[pos], d[offset..])
  }

  /** The values of the `n` entries at `base`. */
  function DecodeEntries(d: Octets, base: nat, header: nat, n: nat, large: bool): (rs: seq<Option<Json>>)
    requires base + EntryAt(n, large) <= |d| && header > 0
    ensures |rs| == n
    ensures forall i :: 0 <= i < n ==> rs[i] == DecodeEntry(d, base + EntryAt(i, large), header, large)
    decreases |d|, 1, 0
  {
    seq(n, i requires 0 <= i < n => DecodeEntry(d, base + EntryAt(i, large), header, large))
  }

  /** The key of the entry at `pos`. */
  function DecodeKey(d: Octets, pos: nat, large: bool): Option<Octets>
    requires pos + OffsetSize(large) + 2 <= |d|
  {
    var offset, length := Field(d, pos, large), Field(d, pos + OffsetSize(large), false);
    if offset + length > |d| then None else Some(d[offset..offset + length])
  }

  function DecodeKeys(d: Octets, base: nat, n: nat, large: bool): (rs: seq<Option<Octets>>)
    requires base + KeyEntryAt(n, large) <= |d|
    ensures |rs| == n
    ensures forall i :: 0 <= i < n ==> rs[i] == DecodeKey(d, base + KeyEntryAt(i, large), large)
  {
    seq(n, i requires 0 <= i < n => DecodeKey(d, base + KeyEntryAt(i, large), large))
  }

  function Members(ks: seq<Octets>, js: seq<Json>): seq<Member>
    requires |ks| == |js|
  {
    seq(|ks|, i requires 0 <= i < |ks| => Member(ks[i], js[i]))
  }

  /** The `n` elements of an array that fills the data. */
  function DecodeElements(d: Octets, n: nat, large: bool): Option<Json>
    requires ArrayStart(n, large) <= |d|
    decreases |d|, 2, 0
  {
    match All(DecodeEntries(d, 2 * OffsetSize(large), ArrayStart(n, large), n, large))
    case None => None
    case Some(js) => Some(Array(js))
  }

  function DecodeArray(data: Octets, large: bool): Option<Json>
    decreases |data|, 4, 0
  {
    var w := OffsetSize(large);
    if |data| < 2 * w then None
    else
      var n, size := Field(data, 0, large), Field(data, w, large);
      if size > |data| || ArrayStart(n, large) > size then None
      else DecodeElements(data[..size], n, large)
  }

  function Assemble(ks: Option<seq<Octets>>, js: Option<seq<Json>>): Option<Json>
    requires ks.Some? && js.Some? ==> |ks.value| == |js.value|
  {
    if ks.None? || js.None? then None else Some(Object(Members(ks.value, js.value)))
  }

  function DecodeMemberKeys(d: Octets, n: nat, large: bool): (ks: Option<seq<Octets>>)
    requires ObjectStart(n, large) <= |d|
    ensures ks.Some? ==> |ks.value| == n
  {
    All(DecodeKeys(d, 2 * OffsetSize(large), n, large))
  }

  function DecodeMemberValues(d: Octets, n: nat, large: bool): (js: Option<seq<Json>>)
    requires ObjectStart(n, large) <= |d|
    ensures js.Some? ==> |js.value| == n
    decreases |d|, 2, 0
  {
    All(DecodeEntries(d, 2 * OffsetSize(large) + KeyEntryAt(n, large), ObjectStart(n, large), n, large))
  }

  lemma {:induction false} MemberValuesAre(d: Octets, n: nat, large: bool, base: nat, header: nat)
    requires header == ObjectStart(n, large) <= |d| && base == 2 * OffsetSize(large) + KeyEntryAt(n, large)
    ensures DecodeMemberValues(d, n, large) == All(DecodeEntries(d, base, header, n, large))
  {
  }

  /** The `n` members of an object that fills the data. */
  function DecodeMembers(d: Octets, n: nat, large: bool): Option<Json>
    requires ObjectStart(n, large) <= |d|
    decreases |d|, 3, 0
  {
    Assemble(DecodeMemberKeys(d, n, large), DecodeMemberValues(d, n, large))
  }

  function DecodeObject(data: Octets, large: bool): Option<Json>
    decreases |data|, 4, 0
  {
    var w := OffsetSize(large);
    if |data| < 2 * w then None
    else
      var n, size := Field(data, 0, large), Field(data, w, large);
      if size > |data| || ObjectStart(n, large) > size then None
      else DecodeMembers(data[..size], n, large)
  }

  /** Reads a value of the type from the front of the data. */
  function Decode(typ: Byte, data: Octets): Option<Json>
    decreases |data|, 5, 0
  {
    if typ == LITERAL then if data == [] then None else DecodeLiteral(data[0])
    else if typ == STRING then DecodeText(data)
    else if typ == DOUBLE then DecodeDouble(data)
    else if typ == SMALL_ARRAY || typ == LARGE_ARRAY then DecodeArray(data, typ == LARGE_ARRAY)
    else if typ == SMALL_OBJECT || typ == LARGE_OBJECT then DecodeObject(data, typ == LARGE_OBJECT)
    else None
  }

  // ----- Documents -----

  /** A whole document is its type and its bytes. */
  function EncodeDocument(j: Json): Option<Octets> {
    match Encode(j)
    case None => None
    case Some(e) => Some([e.typ] + e.bytes)
  }

  function DecodeDocument(data: Octets): Option<Json> {
    if data == [] then None else Decode(data[0], data[1..])
  }
}
