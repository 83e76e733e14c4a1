/** The property block of a `back` chunk: a type with an 8-bit length, then
    pairs of a key with an 8-bit and a value with a big-endian 16-bit length. */
module Decoders {
  import opened Bytes
  import opened Oids
  import opened Spelling

  type Text = seq<byte>

  datatype Property = Property(key: Text, value: Text)

  datatype Block = Block(kind: Text, props: seq<Property>)

  // ---------------------------------------------------------------------
  // The format

  function Encode8(s: Text): seq<byte>
    requires |s| < 256
  {
    [|s|] + s
  }

  function Encode16(s: Text): seq<byte>
    requires |s| < 65536
  {
    [|s| / 256, |s| % 256] + s
  }

  predicate Fits(p: Property) {
    |p.key| < 256 && |p.value| < 65536
  }

  predicate Encodable(props: seq<Property>) {
    forall i | 0 <= i < |props| :: Fits(props[i])
  }

  function EncodeProps(props: seq<Property>): seq<byte>
    requires Encodable(props)
  {
    if props == [] then []
    else Encode8(props[0].key) + (Encode16(props[0].value) + EncodeProps(props[1..]))
  }

  ghost predicate Encodes(data: seq<byte>, b: Block) {
    |b.kind| < 256 && Encodable(b.props) && data == Encode8(b.kind) + EncodeProps(b.props)
  }

  // ---------------------------------------------------------------------
  // Decoding

  /** A string and what follows it. */
  datatype Taken = Taken(text: Text, rest: seq<byte>)

  function Take(data: seq<byte>, len: nat): Option<Taken> {
    if |data| < len then None else Some(Taken(data[..len], data[len..]))
  }

  function Take8(data: seq<byte>): Option<Taken> {
    if |data| < 1 then None else Take(data[1..], data[0])
  }

  function Take16(data: seq<byte>): Option<Taken> {
    if |data| < 2 then None else Take(data[2..], 256 * data[0] as int + data[1])
  }

  datatype TakenProperty = TakenProperty(prop: Property, rest: seq<byte>)

  function TakeProperty(data: seq<byte>): (r: Option<TakenProperty>)
    ensures r.Some? ==> |r.value.rest| + 3 <= |data|
  {
    var key := Take8(data);
    if key.None? then None
    else
      var value := Take16(key.value.rest);
      if value.None? then None
      else Some(TakenProperty(Property(key.value.text, value.value.text), value.value.rest))
  }

  function DecodeProps(data: seq<byte>): Option<seq<Property>>
    decreases |data|
  {
    if data == [] then Some([])
    else
      var first := TakeProperty(data);
      if first.None? then None
      else
        var more := DecodeProps(first.value.rest);
        if more.None? then None else Some([first.value.prop] + more.value)
  }

  function DecodeBlock(data: seq<byte>): Option<Block> {
    var kind := Take8(data);
    if kind.None? then None
    else
      var props := DecodeProps(kind.value.rest);
      if props.None? then None else Some(Block(kind.value.text, props.value))
  }

  lemma Take8Exact(data: seq<byte>, s: Text, rest: seq<byte>)
    ensures Take8(data) == Some(Taken(s, rest)) <==> |s| < 256 && data == Encode8(s) + rest
  {
    if |s| < 256 && data == Encode8(s) + rest {
      assert data[1..] == s + rest;
    }
    if Take8(data) == Some(Taken(s, rest)) {
      assert data == [data[0]] + (data[1..][..data[0]] + data[1..][data[0]..]);
    }
  }

  lemma Take16Exact(data: seq<byte>, s: Text, rest: seq<byte>)
    ensures Take16(data) == Some(Taken(s, rest)) <==> |s| < 65536 && data == Encode16(s) + rest
  {
    if |s| < 65536 && data == Encode16(s) + rest {
      assert data[2..] == s + rest;
    }
    if Take16(data) == Some(Taken(s, rest)) {
      assert |s| == 256 * data[0] as int + data[1];
      assert data == [data[0], data[1]] + (data[2..][..|s|] + data[2..][|s|..]);
    }
  }

  lemma TakePropertyExact(data: seq<byte>, p: Property, rest: seq<byte>)
    ensures TakeProperty(data) == Some(TakenProperty(p, rest))
            <==> Fits(p) && data == Encode8(p.key) + (Encode16(p.value) + rest)
  {
    hide Take8, Take16;
    if TakeProperty(data) == Some(TakenProperty(p, rest)) {
      var key := Take8(data).value;
      Take8Exact(data, key.text, key.rest);
      Take16Exact(key.rest, p.value, rest);
    }
    if Fits(p) && data == Encode8(p.key) + (Encode16(p.value) + rest) {
      Take8Exact(data, p.key, Encode16(p.value) + rest);
      Take16Exact(Encode16(p.value) + rest, p.value, rest);
    }
  }

  lemma {:induction false} DecodePropsComplete(props: seq<Property>)
    requires Encodable(props)
    ensures DecodeProps(EncodeProps(props)) == Some(props)
  {
    hide TakeProperty, Encode8, Encode16;
    if props != [] {
      var p, after := props[0], EncodeProps(props[1..]);
      TakePropertyExact(EncodeProps(props), p, after);
      DecodePropsComplete(props[1..]);
      assert props == [p] + props[1..];
    }
  }

  lemma {:induction false} DecodePropsSound(data: seq<byte>, props: seq<Property>)
    requires DecodeProps(data) == Some(props)
    ensures Encodable(props) && data == EncodeProps(props)
    decreases |data|
  {
    hide TakeProperty, Encode8, Encode16;
    if data != [] {
      var first := TakeProperty(data).value;
      TakePropertyExact(data, first.prop, first.rest);
      DecodePropsSound(first.rest, props[1..]);
      assert props == [first.prop] + props[1..];
    }
  }

  /** Decoding succeeds on exactly the encodings, with the list encoded. */
  lemma DecodePropsExact(data: seq<byte>, props: seq<Property>)
    ensures DecodeProps(data) == Some(props) <==> Encodable(props) && data == EncodeProps(props)
  {
    hide DecodeProps, EncodeProps;
    if DecodeProps(data) == Some(props) {
      DecodePropsSound(data, props);
    }
    if Encodable(props) {
      DecodePropsComplete(props);
    }
  }

  lemma DecodeBlockExact(data: seq<byte>, b: Block)
    ensures DecodeBlock(data) == Some(b) <==> Encodes(data, b)
  {
    hide DecodeProps, Take8;
    if Encodes(data, b) {
      Take8Exact(data, b.kind, EncodeProps(b.props));
      DecodePropsExact(EncodeProps(b.props), b.props);
    }
    if DecodeBlock(data) == Some(b) {
      var kind := Take8(data).value;
      Take8Exact(data, kind.text, kind.rest);
      DecodePropsExact(kind.rest, b.props);
    }
  }

  /** A byte string encodes at most one block. */
  lemma EncodingInjective(data: seq<byte>, a: Block, b: Block)
    requires Encodes(data, a) && Encodes(data, b)
    ensures a == b
  {
    DecodeBlockExact(data, a);
    DecodeBlockExact(data, b);
  }

  // ---------------------------------------------------------------------
  // Where the strings of a block lie

  /** A property lies at pos: the length of its key in one byte, the key, the
      length of its value in two bytes, the high one first, and the value. */
  ghost predicate PropertyLies(data: seq<byte>, pos: nat, p: Property) {
    var k, v := |p.key|, |p.value|;
    && pos + 3 + k + v <= |data|
    && data[pos] as int == k && data[pos + 1..pos + 1 + k] == p.key
    && Value(data[pos + 1 + k..pos + 3 + k]) == v && data[pos + 3 + k..pos + 3 + k + v] == p.value
  }

  /** The properties lie one after the other from pos to the end. */
  ghost predicate PropertiesLie(data: seq<byte>, pos: nat, props: seq<Property>)
    decreases |props|
  {
    if props == [] then pos == |data|
    else
      && PropertyLies(data, pos, props[0])
      && PropertiesLie(data, pos + 3 + |props[0].key| + |props[0].value|, props[1..])
  }

  lemma ValueOfTwo(s: seq<byte>)
    requires |s| == 2
    ensures Value(s) == 256 * s[0] as int + s[1] as int
  {
    assert s[..1] == [s[0]] && [s[0]][..0] == [];
    assert Value([s[0]]) == s[0] as int;
  }

  lemma PropertyLiesExactly(data: seq<byte>, pos: nat, p: Property, rest: seq<byte>)
    requires pos <= |data|
    ensures Fits(p) && data[pos..] == Encode8(p.key) + (Encode16(p.value) + rest)
            <==> PropertyLies(data, pos, p) && rest == data[pos + 3 + |p.key| + |p.value|..]
  {
    if Fits(p) && data[pos..] == Encode8(p.key) + (Encode16(p.value) + rest) {
      LengthsLie(data, pos, p, rest);
    }
    if PropertyLies(data, pos, p) && rest == data[pos + 3 + |p.key| + |p.value|..] {
      LyingEncodes(data, pos, p);
    }
  }

  lemma LyingEncodes(data: seq<byte>, pos: nat, p: Property)
    requires PropertyLies(data, pos, p)
    ensures Fits(p)
    ensures data[pos..] == Encode8(p.key) + (Encode16(p.value) + data[pos + 3 + |p.key| + |p.value|..])
  {
    var k, v := |p.key|, |p.value|;
    var length := data[pos + 1 + k..pos + 3 + k];
    ValueOfTwo(length);
    hide Value;
    assert length == [v / 256, v % 256];
    var afterKey := data[pos + 1 + k..];
    assert afterKey == length + (p.value + data[pos + 3 + k + v..]);
    assert data[pos..] == [data[pos]] + (p.key + afterKey);
  }

  lemma LengthsLie(data: seq<byte>, pos: nat, p: Property, rest: seq<byte>)
    requires pos <= |data| && Fits(p) && data[pos..] == Encode8(p.key) + (Encode16(p.value) + rest)
    ensures PropertyLies(data, pos, p) && rest == data[pos + 3 + |p.key| + |p.value|..]
  {
    var k, v := |p.key|, |p.value|;
    var s := [k as byte] + p.key + [v / 256, v % 256] + p.value + rest;
    assert data[pos..] == s && |s| == 3 + k + v + |rest|;
    hide Encode8, Encode16;
    assert s[0] == k && s[1..1 + k] == p.key && s[1 + k..3 + k] == [v / 256, v % 256];
    assert s[3 + k..3 + k + v] == p.value && s[3 + k + v..] == rest;
    ValueOfTwo([v / 256, v % 256]);
    PartOf(data, pos, 1, 1 + k);
    PartOf(data, pos, 1 + k, 3 + k);
    PartOf(data, pos, 3 + k, 3 + k + v);
    assert data[pos..][3 + k + v..] == data[pos + 3 + k + v..];
  }

  lemma PartOf(data: seq<byte>, pos: nat, i: nat, j: nat)
    requires i <= j && pos + j <= |data|
    ensures data[pos..][i..j] == data[pos + i..pos + j]
  {
    var a, b := data[pos..][i..j], data[pos + i..pos + j];
    assert |a| == |b| && forall k | 0 <= k < |a| :: a[k] == b[k];
  }

  lemma {:induction false} PropertiesLieExactly(data: seq<byte>, pos: nat, props: seq<Property>)
    requires pos <= |data|
    ensures Encodable(props) && data[pos..] == EncodeProps(props) <==> PropertiesLie(data, pos, props)
    decreases |props|
  {
    hide PropertyLies, Encode8, Encode16, Fits;
    if props != [] {
      var p, tail := props[0], props[1..];
      var next := pos + 3 + |p.key| + |p.value|;
      LiesWithin(data, pos, p);
      assert Encodable(props) <==> Fits(p) && Encodable(tail);
      if Encodable(props) {
        PropertyLiesExactly(data, pos, p, EncodeProps(tail));
      }
      if next <= |data| {
        PropertyLiesExactly(data, pos, p, data[next..]);
        PropertiesLieExactly(data, next, tail);
      }
    }
  }

  lemma LiesWithin(data: seq<byte>, pos: nat, p: Property)
    ensures PropertyLies(data, pos, p) ==> pos + 3 + |p.key| + |p.value| <= |data|
  {
  }

  /** Decoding succeeds on exactly the blocks whose strings lie one after the
      other, each behind its length, up to the end. */
  lemma DecodesWhatLies(data: seq<byte>, b: Block)
    ensures DecodeBlock(data) == Some(b) <==>
              && 1 + |b.kind| <= |data| && data[0] as int == |b.kind| && data[1..1 + |b.kind|] == b.kind
              && PropertiesLie(data, 1 + |b.kind|, b.props)
  {
    hide DecodeBlock, EncodeProps, PropertiesLie;
    DecodeBlockExact(data, b);
    var n := 1 + |b.kind|;
    if n <= |data| {
      PropertiesLieExactly(data, n, b.props);
      assert data == [data[0]] + data[1..n] + data[n..];
      if Encodes(data, b) {
        assert data[1..n] == b.kind && data[n..] == EncodeProps(b.props);
      }
    }
  }

  // ---------------------------------------------------------------------
  // The visitor of a backup node

  const DATE_KEY: Text := [95, 100, 97, 116, 101]  // "_date"
  const HASH_KEY: Text := [104, 97, 115, 104]  // "hash"

  type PropertyMap = map<Text, Text>

  /** What a node holds; the two conversions may throw, which is None. */
  datatype Fields = Fields(date: Option<int>, oid: Oid, props: PropertyMap)

  datatype Converters = Converters(toDate: Text -> Option<int>, toOid: Text -> Option<Oid>)

  const NO_FIELDS := Fields(None, ZERO_OID, map[])

  function Added(f: Fields, p: Property, conv: Converters): Option<Fields> {
    if p.key == DATE_KEY then
      var d := conv.toDate(p.value);
      if d.None? then None else Some(f.(date := d))
    else if p.key == HASH_KEY then
      var o := conv.toOid(p.value);
      if o.None? then None else Some(f.(oid := o.value))
    else Some(f.(props := f.props[p.key := p.value]))
  }

  function AllAdded(props: seq<Property>, conv: Converters): Option<Fields> {
    if props == [] then Some(NO_FIELDS)
    else
      var before := AllAdded(props[..|props| - 1], conv);
      if before.None? then None else Added(before.value, props[|props| - 1], conv)
  }

  ghost predicate LastAt(props: seq<Property>, key: Text, i: nat) {
    i < |props| && props[i].key == key && forall j | i < j < |props| :: props[j].key != key
  }

  /** Each ordinary key keeps its last value, `hash` sets the OID, and neither
      of the two special keys is left among the properties. */
  lemma {:induction false} LastValueWins(props: seq<Property>, conv: Converters, i: nat)
    requires AllAdded(props, conv).Some? && i < |props| && LastAt(props, props[i].key, i)
    ensures var f := AllAdded(props, conv).value;
            && DATE_KEY !in f.props && HASH_KEY !in f.props
            && (props[i].key == DATE_KEY ==> f.date == conv.toDate(props[i].value))
            && (props[i].key == HASH_KEY ==> conv.toOid(props[i].value) == Some(f.oid))
            && (props[i].key != DATE_KEY && props[i].key != HASH_KEY ==>
                  props[i].key in f.props && f.props[props[i].key] == props[i].value)
  {
    var n := |props| - 1;
    var init := props[..n];
    SpecialKeysAbsent(init, conv);
    if i < n {
      LastValueWins(init, conv, i);
    }
  }

  lemma {:induction false} SpecialKeysAbsent(props: seq<Property>, conv: Converters)
    requires AllAdded(props, conv).Some?
    ensures var f := AllAdded(props, conv).value; DATE_KEY !in f.props && HASH_KEY !in f.props
  {
    if props != [] {
      SpecialKeysAbsent(props[..|props| - 1], conv);
    }
  }

  /** The special keys, spelled out, and a node that was told nothing of them. */
  lemma {:induction false} OnlyWhatWasAdded(props: seq<Property>, conv: Converters)
    requires AllAdded(props, conv).Some?
    ensures DATE_KEY == Ascii("_date") && HASH_KEY == Ascii("hash")
    ensures var f := AllAdded(props, conv).value;
            && (forall key :: key in f.props ==> exists i :: 0 <= i < |props| && props[i].key == key)
            && ((forall i | 0 <= i < |props| :: props[i].key != DATE_KEY) ==> f.date.None?)
            && ((forall i | 0 <= i < |props| :: props[i].key != HASH_KEY) ==> f.oid == ZERO_OID)
  {
    assert DATE_KEY == Ascii("_date") && HASH_KEY == Ascii("hash");
    if props != [] {
      var n := |props| - 1;
      OnlyWhatWasAdded(props[..n], conv);
      var before := AllAdded(props[..n], conv).value;
      assert forall i | 0 <= i < n :: props[..n][i] == props[i];
    }
  }

  class BackNode {
    const conv: Converters
    var kind: Text
    var fields: Fields
    ghost var seen: seq<Property>

    ghost predicate Valid()
      reads this
    {
      AllAdded(seen, conv) == Some(fields)
    }

    constructor (conv: Converters)
      ensures Valid() && seen == [] && this.conv == conv
    {
      this.conv, kind, fields, seen := conv, [], NO_FIELDS, [];
    }

    method SetType(text: Text)
      modifies this`kind
      ensures kind == text
    {
      kind := text;
    }

    method AddProperty(key: Text, value: Text) returns (ok: bool)
      requires Valid()
      modifies this`fields, this`seen
      ensures ok <==> AllAdded(old(seen) + [Property(key, value)], conv).Some?
      ensures ok ==> Valid() && seen == old(seen) + [Property(key, value)]
    {
      ghost var now := seen + [Property(key, value)];
      assert now[..|now| - 1] == seen;
      var next := Added(fields, Property(key, value), conv);
      if next.None? {
        return false;
      }
      fields, seen := next.value, now;
      ok := true;
    }
  }

  // ---------------------------------------------------------------------
  // The decoder object

  class Decoder {
    const data: seq<byte>
    var pos: nat

    ghost predicate Valid()
      reads this
    {
      pos <= |data|
    }

    ghost function Rest(): seq<byte>
      requires Valid()
      reads this
    {
      data[pos..]
    }

    constructor (data: seq<byte>)
      ensures Valid() && this.data == data && pos == 0
    {
      this.data, pos := data, 0;
    }

    /** None is the exception for a block that ends too soon. */
    method Get() returns (b: Option<byte>)
      requires Valid()
      modifies this`pos
      ensures Valid()
      ensures old(Rest()) == [] ==> b.None?
      ensures old(Rest()) != [] ==> b == Some(old(Rest())[0]) && Rest() == old(Rest())[1..]
    {
      if pos == |data| {
        return None;
      }
      b := Some(data[pos]);
      pos := pos + 1;
    }

    method GetString(len: nat) returns (s: Option<Text>)
      requires Valid()
      modifies this`pos
      ensures Valid()
      ensures var t := Take(old(Rest()), len);
              (t.None? ==> s.None?) && (t.Some? ==> s == Some(t.value.text) && Rest() == t.value.rest)
    {
      var result: Text := [];
      ghost var start := Rest();
      for i := 0 to len
        invariant Valid() && i <= |start|
        invariant result == start[..i] && Rest() == start[i..]
      {
        var b := Get();
        if b.None? {
          return None;
        }
        result := result + [b.value];
      }
      s := Some(result);
    }

    method Get8() returns (s: Option<Text>)
      requires Valid()
      modifies this`pos
      ensures Valid()
      ensures var t := Take8(old(Rest()));
              (t.None? ==> s.None?) && (t.Some? ==> s == Some(t.value.text) && Rest() == t.value.rest)
    {
      var len := Get();
      if len.None? {
        return None;
      }
      s := GetString(len.value);
    }

    method Get16() returns (s: Option<Text>)
      requires Valid()
      modifies this`pos
      ensures Valid()
      ensures var t := Take16(old(Rest()));
              (t.None? ==> s.None?) && (t.Some? ==> s == Some(t.value.text) && Rest() == t.value.rest)
    {
      var high := Get();
      if high.None? {
        return None;
      }
      var low := Get();
      if low.None? {
        return None;
      }
      s := GetString(256 * high.value as int + low.value);
    }
  }

  /** What the visitor has been told when decoding ends well: the type and
      every property, in order. */
  ghost predicate Told(node: BackNode, b: Block)
    reads node
  {
    node.Valid() && node.kind == b.kind && node.seen == b.props
  }

  method NextProperty(dec: Decoder) returns (p: Option<Property>)
    requires dec.Valid()
    modifies dec`pos
    ensures dec.Valid()
    ensures var t := TakeProperty(old(dec.Rest()));
            (t.None? ==> p.None?) && (t.Some? ==> p == Some(t.value.prop) && dec.Rest() == t.value.rest)
  {
    hide Take8, Take16;
    var key := dec.Get8();
    if key.None? {
      return None;
    }
    var value := dec.Get16();
    if value.None? {
      return None;
    }
    p := Some(Property(key.value, value.value));
  }

  /** The rest of the block decodes exactly when the whole does, and completes
      what the visitor has been told. */
  ghost predicate OnTrack(whole: Option<seq<Property>>, seen: seq<Property>, rest: seq<byte>) {
    && (whole.Some? <==> DecodeProps(rest).Some?)
    && (whole.Some? ==> whole.value == seen + DecodeProps(rest).value)
  }

  lemma TrackStep(whole: Option<seq<Property>>, seen: seq<Property>, rest: seq<byte>)
    requires OnTrack(whole, seen, rest) && rest != []
    ensures whole.Some? ==> TakeProperty(rest).Some?
    ensures TakeProperty(rest).Some? ==>
              var t := TakeProperty(rest).value; OnTrack(whole, seen + [t.prop], t.rest)
  {
  }

  /** One round of the loop of `decode_property`. */
  method TellProperty(dec: Decoder, node: BackNode, ghost whole: Option<seq<Property>>) returns (ok: bool)
    requires dec.Valid() && node.Valid() && dec.Rest() != [] && OnTrack(whole, node.seen, dec.Rest())
    modifies dec`pos, node`fields, node`seen
    ensures dec.Valid()
    ensures ok ==> node.Valid() && OnTrack(whole, node.seen, dec.Rest()) && |dec.Rest()| < |old(dec.Rest())|
    ensures !ok ==> whole.None? || AllAdded(whole.value, node.conv).None?
  {
    hide Take8, TakeProperty, DecodeProps, AllAdded;
    TrackStep(whole, node.seen, dec.Rest());
    var p := NextProperty(dec);
    if p.None? {
      return false;
    }
    ghost var told := node.seen + [p.value];
    ok := node.AddProperty(p.value.key, p.value.value);
    if !ok && whole.Some? {
      AddedPrefix(told, DecodeProps(dec.Rest()).value, node.conv);
    }
  }

  /** `decode_property` with a backup node as its visitor. It succeeds exactly
      on an encoded block whose conversions succeed. */
  method DecodeProperty(data: seq<byte>, node: BackNode) returns (ok: bool)
    requires node.Valid() && node.seen == []
    modifies node
    ensures ok <==> DecodeBlock(data).Some? && AllAdded(DecodeBlock(data).value.props, node.conv).Some?
    ensures ok ==> Told(node, DecodeBlock(data).value)
  {
    hide Take8, TakeProperty, AllAdded;
    var dec := new Decoder(data);
    assert dec.Rest() == data;
    var kind := dec.Get8();
    if kind.None? {
      return false;
    }
    node.SetType(kind.value);
    ghost var whole := DecodeProps(dec.Rest());
    while dec.pos != |dec.data|
      invariant dec.Valid() && node.Valid() && node.kind == kind.value
      invariant OnTrack(whole, node.seen, dec.Rest())
      decreases |dec.Rest()|
    {
      hide DecodeProps, OnTrack;
      ok := TellProperty(dec, node, whole);
      if !ok {
        return false;
      }
    }
    assert dec.Rest() == [] && node.seen + [] == node.seen;
    ok := true;
  }

  /** A conversion that throws makes the whole block throw. */
  lemma {:induction false} AddedPrefix(a: seq<Property>, b: seq<Property>, conv: Converters)
    requires AllAdded(a, conv).None?
    ensures AllAdded(a + b, conv).None?
  {
    if b == [] {
      assert a + b == a;
    } else {
      AddedPrefix(a, b[..|b| - 1], conv);
      assert (a + b)[..|a + b| - 1] == a + b[..|b| - 1];
    }
  }
}
