/**
 The encoder itself (`binlogreplication/binlog_json_serialization.go`): loops that grow the buffers
 of a container while they keep the next offset, proved against `Encode`.

 Offsets are kept whole here. That they have 32 bits shows where they are compared, in `NoRoom`, and
 where they are stored, in `ToField`.
 */
module JsonEncoder {
  import opened Bytes
  import opened Json

  /** What a container encodes to in the small or the large form. */
  function Form(j: Json, large: bool): Option<Encoded>
    requires j.Array? || j.Object?
  {
    match All(EncodeChildren(j))
    case None => None
    case Some(vs) => if j.Array? then EncodeArray(vs, large) else EncodeObject(Keys(j.members), vs, large)
  }

  // ----- One more value -----

  lemma {:induction false} PayloadsSnoc(vs: seq<Encoded>, v: Encoded)
    ensures Payloads(vs + [v]) == Payloads(vs) + Payload(v)
  {
    if vs == [] {
      assert [] + [v] == [v] && [v][1..] == [];
    } else {
      PayloadsSnoc(vs[1..], v);
      assert (vs + [v])[1..] == vs[1..] + [v];
      Regroup(Payload(vs[0]), Payloads(vs[1..]), Payload(v));
    }
  }

  lemma {:induction false} EntriesSnoc(vs: seq<Encoded>, v: Encoded, offset: nat, large: bool)
    ensures Entries(vs + [v], offset, large)
            == Entries(vs, offset, large) + Entry(v, offset + |Payloads(vs)|, large)
  {
    if vs == [] {
      assert [] + [v] == [v] && [v][1..] == [];
    } else {
      var next := offset + |Payload(vs[0])|;
      EntriesSnoc(vs[1..], v, next, large);
      assert (vs + [v])[1..] == vs[1..] + [v];
      assert next + |Payloads(vs[1..])| == offset + |Payloads(vs)|;
      Regroup(Entry(vs[0], offset, large), Entries(vs[1..], next, large), Entry(v, offset + |Payloads(vs)|, large));
    }
  }

  lemma {:induction false} ValuesFitSnoc(vs: seq<Encoded>, v: Encoded, offset: nat)
    ensures ValuesFit(vs + [v], offset)
            <==> ValuesFit(vs, offset) && (IsLiteral(v) || !NoRoom(offset + |Payloads(vs)|, |v.bytes|))
  {
    if vs == [] {
      assert [] + [v] == [v] && [v][1..] == [];
    } else {
      var next := offset + |Payload(vs[0])|;
      ValuesFitSnoc(vs[1..], v, next);
      assert (vs + [v])[1..] == vs[1..] + [v];
      assert next + |Payloads(vs[1..])| == offset + |Payloads(vs)|;
    }
  }

  lemma {:induction false} ValuesFitPrefix(vs: seq<Encoded>, k: nat, offset: nat)
    requires k <= |vs| && ValuesFit(vs, offset)
    ensures ValuesFit(vs[..k], offset)
  {
    if k > 0 {
      ValuesFitPrefix(vs[1..], k - 1, offset + |Payload(vs[0])|);
      assert vs[..k][1..] == vs[1..][..k - 1];
    }
  }

  lemma {:induction false} KeyEntriesSnoc(ks: seq<Octets>, k: Octets, offset: nat, large: bool)
    ensures KeyEntries(ks + [k], offset, large)
            == KeyEntries(ks, offset, large) + KeyEntry(k, offset + |Concat(ks)|, large)
  {
    if ks == [] {
      assert [] + [k] == [k] && [k][1..] == [];
    } else {
      var next := offset + |ks[0]|;
      KeyEntriesSnoc(ks[1..], k, next, large);
      assert (ks + [k])[1..] == ks[1..] + [k];
      assert next + |Concat(ks[1..])| == offset + |Concat(ks)|;
      Regroup(KeyEntry(ks[0], offset, large), KeyEntries(ks[1..], next, large),
              KeyEntry(k, offset + |Concat(ks)|, large));
    }
  }

  lemma {:induction false} KeysFitSnoc(ks: seq<Octets>, k: Octets, offset: nat)
    ensures KeysFit(ks + [k], offset) <==> KeysFit(ks, offset) && !NoRoom(offset + |Concat(ks)|, |k|)
  {
    if ks == [] {
      assert [] + [k] == [k] && [k][1..] == [];
    } else {
      var next := offset + |ks[0]|;
      KeysFitSnoc(ks[1..], k, next);
      assert (ks + [k])[1..] == ks[1..] + [k];
      assert next + |Concat(ks[1..])| == offset + |Concat(ks)|;
    }
  }

  lemma {:induction false} KeysFitPrefix(ks: seq<Octets>, n: nat, offset: nat)
    requires n <= |ks| && KeysFit(ks, offset)
    ensures KeysFit(ks[..n], offset)
  {
    if n > 0 {
      KeysFitPrefix(ks[1..], n - 1, offset + |ks[0]|);
      assert ks[..n][1..] == ks[1..][..n - 1];
    }
  }

  // ----- The values of a container -----

  /** The first children encode to `vs`. */
  ghost predicate Encodings(j: Json, vs: seq<Encoded>) {
    |vs| <= |Children(j)| && forall i :: 0 <= i < |vs| ==> Encode(Children(j)[i]) == Some(vs[i])
  }

  /** Their entries and values are laid out from `start`. */
  ghost predicate LaidOut(vs: seq<Encoded>, start: nat, large: bool, entries: Octets, values: Octets) {
    && entries == Entries(vs, start, large) && values == Payloads(vs)
    && (large || ValuesFit(vs, start))
  }

  lemma {:induction false} LayOutOne(
    vs: seq<Encoded>, v: Encoded, start: nat, next: nat, large: bool, entries: Octets, values: Octets)
    requires LaidOut(vs, start, large, entries, values) && next == start + |values|
    requires large || IsLiteral(v) || !NoRoom(next, |v.bytes|)
    ensures LaidOut(vs + [v], start, large, entries + Entry(v, next, large), values + Payload(v))
  {
    EntriesSnoc(vs, v, start, large);
    PayloadsSnoc(vs, v);
    ValuesFitSnoc(vs, v, start);
  }

  /** A child that does not encode, or finds no room, fails the container. */
  lemma {:induction false} ChildFails(j: Json, i: nat)
    requires i < |Children(j)| && Encode(Children(j)[i]).None?
    ensures All(EncodeChildren(j)).None?
  {
    assert EncodeChildren(j)[i].None?;
  }

  lemma {:induction false} NoRoomForChild(vs: seq<Encoded>, v: Encoded, start: nat, all: seq<Encoded>)
    requires vs + [v] <= all && !IsLiteral(v) && NoRoom(start + |Payloads(vs)|, |v.bytes|)
    ensures !ValuesFit(all, start)
  {
    ValuesFitSnoc(vs, v, start);
    if ValuesFit(all, start) {
      assert all[..|vs| + 1] == vs + [v];
      ValuesFitPrefix(all, |vs| + 1, start);
    }
  }

  lemma {:induction false} EncodingsArePrefix(j: Json, vs: seq<Encoded>)
    requires Encodings(j, vs) && All(EncodeChildren(j)).Some?
    ensures vs <= All(EncodeChildren(j)).value
  {
    var all := All(EncodeChildren(j)).value;
    assert forall i :: 0 <= i < |vs| ==> EncodeChildren(j)[i] == Some(all[i]) && vs[i] == all[i];
  }

  lemma {:induction false} AllEncoded(j: Json, vs: seq<Encoded>)
    requires |vs| == |Children(j)| && Encodings(j, vs)
    ensures All(EncodeChildren(j)) == Some(vs)
  {
    assert forall i :: 0 <= i < |vs| ==> EncodeChildren(j)[i] == Some(vs[i]);
    assert All(EncodeChildren(j)).value == vs;
  }

  /** The entries and the values of a container's children, if they can be laid out from `start`. */
  function Laid(j: Json, start: nat, large: bool): Option<(Octets, Octets)> {
    match All(EncodeChildren(j))
    case None => None
    case Some(vs) =>
      if large || ValuesFit(vs, start) then Some((Entries(vs, start, large), Payloads(vs))) else None
  }

  lemma {:induction false} OneMore(j: Json, vs: seq<Encoded>, v: Encoded)
    requires Encodings(j, vs) && |vs| < |Children(j)| && Encode(Children(j)[|vs|]) == Some(v)
    ensures Encodings(j, vs + [v])
  {
  }

  lemma {:induction false} LaidFails(j: Json, vs: seq<Encoded>, v: Encoded, start: nat)
    requires Encodings(j, vs + [v]) && !IsLiteral(v) && NoRoom(start + |Payloads(vs)|, |v.bytes|)
    ensures Laid(j, start, false).None?
  {
    if All(EncodeChildren(j)).Some? {
      EncodingsArePrefix(j, vs + [v]);
      NoRoomForChild(vs, v, start, All(EncodeChildren(j)).value);
    }
  }

  /** Adds one value to the buffers. */
  method AddValue(v: Encoded, next: nat, large: bool, entries: Octets, values: Octets,
                  ghost vs: seq<Encoded>, ghost start: nat)
    returns (r: Option<(Octets, Octets)>)
    requires LaidOut(vs, start, large, entries, values) && next == start + |values|
    ensures r.None? <==> !IsLiteral(v) && !large && NoRoom(next, |v.bytes|)
    ensures r.Some? ==> LaidOut(vs + [v], start, large, r.value.0, r.value.1)
    ensures r.Some? ==> |r.value.1| == |values| + |Payload(v)|
  {
    if IsLiteral(v) {
      LayOutOne(vs, v, start, next, large, entries, values);
      return Some((entries + Entry(v, next, large), values + []));
    }
    if !large && NoRoom(next, |v.bytes|) {
      return None;
    }
    LayOutOne(vs, v, start, next, large, entries, values);
    return Some((entries + Entry(v, next, large), values + v.bytes));
  }

  /** The loop over the values that arrays and objects share. */
  method LayOutValues(j: Json, start: nat, large: bool) returns (r: Option<(Octets, Octets)>)
    ensures r == Laid(j, start, large)
    decreases j, 0
  {
    var children := Children(j);
    var entries, values: Octets := [], [];
    var next := start;
    ghost var vs := [];
    for i := 0 to |children|
      invariant |vs| == i && Encodings(j, vs)
      invariant LaidOut(vs, start, large, entries, values) && next == start + |values|
    {
      ChildIsSmaller(j, i);
      var v := EncodeValue(children[i]);
      if v.None? {
        ChildFails(j, i);
        return None;
      }
      OneMore(j, vs, v.value);
      var added := AddValue(v.value, next, large, entries, values, vs, start);
      if added.None? {
        LaidFails(j, vs, v.value, start);
        return None;
      }
      entries, values := added.value.0, added.value.1;
      next := next + |Payload(v.value)|;
      vs := vs + [v.value];
    }
    AllEncoded(j, vs);
    return Some((entries, values));
  }

  lemma {:induction false} ChildIsSmaller(j: Json, i: nat)
    requires i < |Children(j)|
    ensures j decreases to Children(j)[i]
  {
  }

  // ----- The encoder -----

  function ArrayBytes(n: nat, start: nat, entries: Octets, values: Octets, large: bool): Octets {
    ToField(n, large) + ToField(start + |values|, large) + entries + values
  }

  lemma {:induction false} ArrayForm(j: Json, large: bool)
    requires j.Array? && (large || |j.elements| <= MAX_OFFSET)
    ensures var n := |j.elements|;
            var start := ArrayStart(n, large);
            Form(j, large)
            == match Laid(j, start, large)
               case None => None
               case Some((entries, values)) =>
                 Some(Encoded(ArrayType(large), ArrayBytes(n, start, entries, values, large)))
  {
  }

  method EncodeJsonArray(j: Json, large: bool) returns (r: Option<Encoded>)
    requires j.Array?
    ensures r == Form(j, large)
    decreases j, 1
  {
    var n := |j.elements|;
    if !large && n > MAX_OFFSET {
      return None;
    }
    var start := ArrayStart(n, large);
    var laid := LayOutValues(j, start, large);
    ArrayForm(j, large);
    if laid.None? {
      return None;
    }
    r := Some(Encoded(ArrayType(large), ArrayBytes(n, start, laid.value.0, laid.value.1, large)));
  }

  function ObjectBytes(
    n: nat, start: nat, keyEntries: Octets, entries: Octets, keys: Octets, values: Octets, large: bool): Octets
  {
    ToField(n, large) + ToField(start + |values|, large) + keyEntries + entries + keys + values
  }

  lemma {:induction false} ObjectForm(j: Json, large: bool)
    requires j.Object?
    ensures var ks := Keys(j.members);
            var keyStart := ObjectStart(|ks|, large);
            var start := keyStart + |Concat(ks)|;
            Form(j, large)
            == if !large && !KeysFit(ks, keyStart) then None
               else
                 match Laid(j, start, large)
                 case None => None
                 case Some((entries, values)) =>
                   Some(Encoded(
                     ObjectType(large),
                     ObjectBytes(|ks|, start, KeyEntries(ks, keyStart, large), entries, Concat(ks), values, large)))
  {
  }

  /** The loop over the keys, which are written before the values. */
  method LayOutKeys(ks: seq<Octets>, start: nat, large: bool) returns (r: Option<(Octets, Octets)>)
    ensures r.Some? <==> large || KeysFit(ks, start)
    ensures r.Some? ==> r.value == (KeyEntries(ks, start, large), Concat(ks))
  {
    var entries, keys: Octets := [], [];
    for i := 0 to |ks|
      invariant entries == KeyEntries(ks[..i], start, large) && keys == Concat(ks[..i])
      invariant large || KeysFit(ks[..i], start)
    {
      assert ks[..i + 1] == ks[..i] + [ks[i]];
      KeysFitSnoc(ks[..i], ks[i], start);
      if !large && NoRoom(start + |keys|, |ks[i]|) {
        if KeysFit(ks, start) {
          KeysFitPrefix(ks, i + 1, start);
        }
        return None;
      }
      KeyEntriesSnoc(ks[..i], ks[i], start, large);
      ConcatSnoc(ks[..i], ks[i]);
      entries := entries + KeyEntry(ks[i], start + |keys|, large);
      keys := keys + ks[i];
    }
    assert ks[..|ks|] == ks;
    return Some((entries, keys));
  }

  method EncodeJsonObject(j: Json, large: bool) returns (r: Option<Encoded>)
    requires j.Object?
    ensures r == Form(j, large)
    decreases j, 1
  {
    var ks := Keys(j.members);
    var keyStart := ObjectStart(|ks|, large);
    var keyed := LayOutKeys(ks, keyStart, large);
    ObjectForm(j, large);
    if keyed.None? {
      return None;
    }
    var (keyEntries, keys) := keyed.value;
    var start := keyStart + |keys|;
    var laid := LayOutValues(j, start, large);
    if laid.None? {
      return None;
    }
    r := Some(Encoded(ObjectType(large),
                      ObjectBytes(|ks|, start, keyEntries, laid.value.0, keys, laid.value.1, large)));
  }

  method EncodeValue(j: Json) returns (r: Option<Encoded>)
    ensures r == Encode(j)
    decreases j, 2
  {
    match j
    case Null => r := Some(Encoded(LITERAL, [0x00]));
    case Bool(b) => r := Some(Encoded(LITERAL, [if b then 0x01 else 0x02]));
    case Text(text) => r := EncodeText(text);
    case Double(bits) => r := Some(Encoded(DOUBLE, ToLittleEndian(bits, 8)));
    case Array(_) =>
      r := EncodeJsonArray(j, false);
      if r.None? {
        r := EncodeJsonArray(j, true);
      }
    case Object(_) =>
      r := EncodeJsonObject(j, false);
      if r.None? {
        r := EncodeJsonObject(j, true);
      }
  }
}
