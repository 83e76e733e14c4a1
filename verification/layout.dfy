/** A data file as a run of whole records: where each record starts, which
    indexes are faithful to it, and the header walk that rebuilds one. */
module Layout {
  import opened Bytes
  import opened Oids
  import opened Chunks
  import opened IndexTables
  import opened FileIndexes

  /** A chunk and the bytes that were written for it. */
  datatype Rec = Rec(stored: Stored, bytes: seq<byte>)

  ghost predicate IsRec(r: Rec) {
    Storable(r.stored)
    && exists pad: seq<byte> :: |pad| == PadLength(|r.stored.payload|) && r.bytes == Encode(r.stored, pad)
  }

  ghost predicate Good(rs: seq<Rec>) {
    forall i | 0 <= i < |rs| :: IsRec(rs[i])
  }

  ghost predicate Spaced(rs: seq<Rec>) {
    forall i | 0 <= i < |rs| :: |rs[i].bytes| >= HEADER_SIZE
  }

  ghost function FileBytes(rs: seq<Rec>): seq<byte> {
    if rs == [] then []
    else FileBytes(rs[..|rs| - 1]) + rs[|rs| - 1].bytes
  }

  ghost function Offset(rs: seq<Rec>, i: nat): nat
    requires i <= |rs|
  {
    |FileBytes(rs[..i])|
  }

  lemma FileBytesAppend(rs: seq<Rec>, r: Rec)
    ensures FileBytes(rs + [r]) == FileBytes(rs) + r.bytes
  {
    assert (rs + [r])[..|rs|] == rs;
  }

  /** The file up to the start of a record is the records before it. */
  lemma {:induction false} BytesCut(rs: seq<Rec>, i: nat)
    requires i <= |rs|
    ensures Offset(rs, i) <= |FileBytes(rs)| && FileBytes(rs)[..Offset(rs, i)] == FileBytes(rs[..i])
  {
    if i == |rs| {
      assert rs[..i] == rs;
    } else {
      var init := rs[..|rs| - 1];
      BytesCut(init, i);
      assert init[..i] == rs[..i];
    }
  }

  lemma RecSize(r: Rec)
    requires IsRec(r)
    ensures |r.bytes| == StoredSize(r.stored) >= HEADER_SIZE
    ensures |r.bytes| % 16 == 0
  {
    var pad: seq<byte> :| |pad| == PadLength(|r.stored.payload|) && r.bytes == Encode(r.stored, pad);
    RecordRoundTrip([], r.stored, pad, []);
  }

  lemma GoodIsSpaced(rs: seq<Rec>)
    requires Good(rs)
    ensures Spaced(rs)
  {
    forall i | 0 <= i < |rs|
      ensures |rs[i].bytes| >= HEADER_SIZE
    {
      RecSize(rs[i]);
    }
  }

  /** Records lie one after the other, each at least a header long. */
  lemma {:induction false} OffsetsIncrease(rs: seq<Rec>, i: nat, j: nat)
    requires i < j <= |rs|
    ensures Offset(rs, i) + |rs[i].bytes| <= Offset(rs, j)
    ensures Offset(rs, j) == Offset(rs, j - 1) + |rs[j - 1].bytes|
    decreases j
  {
    assert rs[..j][..j - 1] == rs[..j - 1];
    if i < j - 1 {
      OffsetsIncrease(rs, i, j - 1);
    }
  }

  ghost predicate Aligned(rs: seq<Rec>) {
    forall i | 0 <= i < |rs| :: |rs[i].bytes| % 16 == 0
  }

  lemma {:induction false} SumsAligned(rs: seq<Rec>)
    requires Aligned(rs)
    ensures |FileBytes(rs)| % 16 == 0
  {
    if rs != [] {
      var n := |rs| - 1;
      SumsAligned(rs[..n]);
      assert |rs[n].bytes| % 16 == 0;
    }
  }

  /** Every record starts on a 16-byte boundary. */
  lemma OffsetsAligned(rs: seq<Rec>, i: nat)
    requires Good(rs) && i <= |rs|
    ensures Offset(rs, i) % 16 == 0
  {
    forall j | 0 <= j < i
      ensures |rs[..i][j].bytes| % 16 == 0
    {
      RecSize(rs[j]);
    }
    SumsAligned(rs[..i]);
  }

  lemma {:induction false} RecordsFit(rs: seq<Rec>)
    requires Spaced(rs)
    ensures HEADER_SIZE * |rs| <= |FileBytes(rs)|
  {
    if rs != [] {
      RecordsFit(rs[..|rs| - 1]);
    }
  }

  lemma {:induction false} Splits(rs: seq<Rec>, i: nat) returns (after: seq<byte>)
    requires i < |rs|
    ensures FileBytes(rs) == FileBytes(rs[..i]) + rs[i].bytes + after
    decreases |rs|
  {
    var n := |rs| - 1;
    if i == n {
      after := [];
    } else {
      after := Splits(rs[..n], i);
      assert rs[..n][..i] == rs[..i];
      after := after + rs[n].bytes;
    }
  }

  /** At the start of record i both readers see record i, and the stored size
      leads to the start of record i + 1. */
  lemma ReadAt(rs: seq<Rec>, i: nat)
    requires Good(rs) && i < |rs|
    ensures Read(FileBytes(rs), Offset(rs, i)) == Some(rs[i].stored)
    ensures var h := ReadHeader(FileBytes(rs), Offset(rs, i));
            h.Some? && h.value.kind == rs[i].stored.kind && h.value.oid == rs[i].stored.oid
            && Offset(rs, i) + h.value.storedSize == Offset(rs, i + 1)
    ensures Offset(rs, i) < |FileBytes(rs)|
  {
    var s := rs[i].stored;
    var pad: seq<byte> :| |pad| == PadLength(|s.payload|) && rs[i].bytes == Encode(s, pad);
    var after := Splits(rs, i);
    RecordRoundTrip(FileBytes(rs[..i]), s, pad, after);
    OffsetsIncrease(rs, i, i + 1);
  }

  // ---------------------------------------------------------------------
  // Faithful indexes

  ghost predicate Holds(rs: seq<Rec>, key: Oid) {
    exists i :: 0 <= i < |rs| && rs[i].stored.oid == key
  }

  ghost predicate PointsAt(node: Node, rs: seq<Rec>, i: nat, key: Oid)
  {
    i < |rs| && rs[i].stored.oid == key && node.offset == Offset(rs, i) && node.kind == rs[i].stored.kind
  }

  ghost predicate PointsInto(node: Node, rs: seq<Rec>, key: Oid)
  {
    exists i: nat :: PointsAt(node, rs, i, key)
  }

  /** The keys are exactly the OIDs in the file, and each entry is the start
      of a record with that OID and kind. */
  ghost predicate Faithful(m: NodeMap, rs: seq<Rec>)
  {
    && (forall key :: key in m ==> PointsInto(m[key], rs, key))
    && (forall i | 0 <= i < |rs| :: rs[i].stored.oid in m)
  }

  lemma PointsStill(node: Node, rs: seq<Rec>, r: Rec, key: Oid)
    requires PointsInto(node, rs, key)
    ensures PointsInto(node, rs + [r], key)
  {
    var i: nat :| PointsAt(node, rs, i, key);
    assert (rs + [r])[..i] == rs[..i];
    assert PointsAt(node, rs + [r], i, key);
  }

  /** Appending a record and entering it, whether the entry is kept or an
      earlier one wins, leaves the index faithful. */
  lemma FaithfulAppend(m: NodeMap, m': NodeMap, rs: seq<Rec>, r: Rec)
    requires |FileBytes(rs)| < SIZE_LIMIT
    requires Faithful(m, rs)
    requires m' == m[r.stored.oid := Node(|FileBytes(rs)|, r.stored.kind)] || (m' == m && r.stored.oid in m)
    ensures Faithful(m', rs + [r])
  {
    var all := rs + [r];
    assert all[..|rs|] == rs;
    assert PointsAt(Node(|FileBytes(rs)|, r.stored.kind), all, |rs|, r.stored.oid);
    forall key | key in m'
      ensures PointsInto(m'[key], all, key)
    {
      if key in m && m'[key] == m[key] {
        PointsStill(m[key], rs, r, key);
      }
    }
  }

  lemma FaithfulKeys(m: NodeMap, rs: seq<Rec>, key: Oid)
    requires Faithful(m, rs)
    ensures key in m <==> Holds(rs, key)
  {
    if key in m {
      var i: nat :| PointsAt(m[key], rs, i, key);
    }
  }

  /** A faithful entry reads as a chunk with the key's OID, and the header at
      its offset carries the OID and kind. */
  lemma FaithfulReads(m: NodeMap, rs: seq<Rec>, key: Oid)
    requires Good(rs) && Faithful(m, rs)
    ensures key in m <==> Holds(rs, key)
    ensures key in m ==>
              var s := Read(FileBytes(rs), m[key].offset);
              var h := ReadHeader(FileBytes(rs), m[key].offset);
              && s.Some? && s.value.oid == key && s.value.kind == m[key].kind && Storable(s.value)
              && h.Some? && h.value.oid == key && h.value.kind == m[key].kind
              && m[key].offset < |FileBytes(rs)|
              && exists i :: 0 <= i < |rs| && s.value == rs[i].stored
  {
    if key in m {
      var i: nat :| PointsAt(m[key], rs, i, key);
      ReadAt(rs, i);
    }
  }

  ghost function RecKinds(rs: seq<Rec>): set<Kind> {
    set i | 0 <= i < |rs| :: rs[i].stored.kind
  }

  lemma FaithfulKinds(m: NodeMap, rs: seq<Rec>)
    requires Faithful(m, rs)
    ensures |KindsOf(m)| <= |RecKinds(rs)|
  {
    forall k | k in KindsOf(m)
      ensures k in RecKinds(rs)
    {
      var key :| key in m && m[key].kind == k;
      var i: nat :| PointsAt(m[key], rs, i, key);
    }
    SubsetSize(KindsOf(m), RecKinds(rs));
  }

  lemma {:induction false} SubsetSize(a: set<Kind>, b: set<Kind>)
    requires a <= b
    ensures |a| <= |b|
  {
    assert b == a + (b - a);
  }

  // ---------------------------------------------------------------------
  // The recovery walk

  /** The index of first occurrences. */
  ghost function FirstIndex(rs: seq<Rec>): NodeMap
    requires |FileBytes(rs)| < SIZE_LIMIT
  {
    if rs == [] then map[]
    else
      var n := |rs| - 1;
      Entered(FirstIndex(rs[..n]), rs[n].stored.oid, Node(|FileBytes(rs[..n])|, rs[n].stored.kind))
  }

  function Entered(m: NodeMap, key: Oid, node: Node): NodeMap {
    if key in m then m else m[key := node]
  }

  lemma FirstIndexStep(rs: seq<Rec>, i: nat)
    requires |FileBytes(rs)| < SIZE_LIMIT && i < |rs|
    ensures Offset(rs, i + 1) < SIZE_LIMIT && Offset(rs, i) < SIZE_LIMIT
    ensures FirstIndex(rs[..i + 1])
            == Entered(FirstIndex(rs[..i]), rs[i].stored.oid, Node(Offset(rs, i), rs[i].stored.kind))
  {
    assert rs[..|rs|] == rs;
    if i + 1 < |rs| {
      OffsetsIncrease(rs, i + 1, |rs|);
    }
    OffsetsIncrease(rs, i, |rs|);
    assert rs[..i + 1][..i] == rs[..i];
  }

  lemma {:induction false} FirstIndexFaithful(rs: seq<Rec>)
    requires |FileBytes(rs)| < SIZE_LIMIT
    ensures Faithful(FirstIndex(rs), rs)
  {
    if rs != [] {
      hide Faithful;
      var n := |rs| - 1;
      var init, r := rs[..n], rs[n];
      var m, m' := FirstIndex(init), FirstIndex(rs);
      FirstIndexFaithful(init);
      assert rs == init + [r];
      FaithfulAppend(m, m', init, r);
    }
  }

  lemma {:induction false} FirstIndexCount(rs: seq<Rec>)
    requires |FileBytes(rs)| < SIZE_LIMIT
    ensures |FirstIndex(rs)| <= |rs|
  {
    if rs != [] {
      FirstIndexCount(rs[..|rs| - 1]);
    }
  }

  ghost predicate FirstAt(rs: seq<Rec>, i: nat, key: Oid) {
    i < |rs| && rs[i].stored.oid == key && forall j | 0 <= j < i :: rs[j].stored.oid != key
  }

  /** Each key of the rebuilt index points at the first record with that OID. */
  lemma {:induction false} FirstIndexIsFirst(rs: seq<Rec>, key: Oid) returns (i: nat)
    requires |FileBytes(rs)| < SIZE_LIMIT && key in FirstIndex(rs)
    ensures FirstAt(rs, i, key) && PointsAt(FirstIndex(rs)[key], rs, i, key)
  {
    var n := |rs| - 1;
    if key in FirstIndex(rs[..n]) {
      i := FirstIndexIsFirst(rs[..n], key);
      assert rs[..n][..i] == rs[..i];
    } else {
      i := n;
      FirstIndexFaithful(rs[..n]);
      forall j | 0 <= j < n
        ensures rs[j].stored.oid != key
      {
        assert rs[..n][j] == rs[j];
      }
    }
  }

  /** What the OIDs name, for records whose content they name. */
  type Naming = Oid -> Content

  ghost predicate Named(rs: seq<Rec>, inflate: Inflate, naming: Naming) {
    forall i | 0 <= i < |rs| :: NamedRec(rs[i].stored, inflate, naming)
  }

  ghost predicate NamedRec(s: Stored, inflate: Inflate, naming: Naming) {
    s.kind == naming(s.oid).kind && PlainData(s, inflate) == Some(naming(s.oid).data)
  }

  /** The rebuilt index and any live index of the file answer the same keys,
      and reading through either gives the same kind, OID and data. */
  lemma RebuiltReadsSame(live: NodeMap, rs: seq<Rec>, key: Oid, inflate: Inflate, naming: Naming)
    requires Good(rs) && |FileBytes(rs)| < SIZE_LIMIT
    requires Faithful(live, rs) && Named(rs, inflate, naming)
    ensures key in live <==> key in FirstIndex(rs)
    ensures key in live ==>
              var a := Read(FileBytes(rs), live[key].offset);
              var b := Read(FileBytes(rs), FirstIndex(rs)[key].offset);
              && a.Some? && b.Some?
              && a.value.oid == b.value.oid == key && a.value.kind == b.value.kind
              && PlainData(a.value, inflate) == PlainData(b.value, inflate) == Some(naming(key).data)
  {

    FirstIndexFaithful(rs);
    FaithfulReads(live, rs, key);
    FaithfulReads(FirstIndex(rs), rs, key);
  }

  ghost predicate Distinct(rs: seq<Rec>) {
    forall i, j | 0 <= i < j < |rs| :: rs[i].stored.oid != rs[j].stored.oid
  }

  /** When no OID repeats there is only one faithful index, so the rebuilt
      index is the live one. */
  lemma FaithfulUnique(m: NodeMap, m': NodeMap, rs: seq<Rec>)
    requires Distinct(rs) && Faithful(m, rs) && Faithful(m', rs)
    ensures m == m'
  {
    forall key
      ensures key in m <==> key in m'
      ensures key in m ==> m[key] == m'[key]
    {
      FaithfulKeys(m, rs, key);
      FaithfulKeys(m', rs, key);
      if key in m {
        var i: nat :| PointsAt(m[key], rs, i, key);
        var j: nat :| PointsAt(m'[key], rs, j, key);
        assert !(i < j) && !(j < i);
      }
    }
  }

  /** The walk has read the first i records: it stands at `pos`, with index m. */
  ghost predicate WalkAt(rs: seq<Rec>, file: seq<byte>, i: nat, pos: nat, m: NodeMap) {
    && Good(rs) && file == FileBytes(rs) && |file| < SIZE_LIMIT
    && i <= |rs| && pos == Offset(rs, i) < SIZE_LIMIT && m == FirstIndex(rs[..i])
  }

  lemma WalkStart(rs: seq<Rec>, file: seq<byte>)
    requires Good(rs) && file == FileBytes(rs) && |file| < SIZE_LIMIT
    ensures WalkAt(rs, file, 0, 0, map[])
  {
    assert rs[..0] == [];
  }

  lemma WalkStep(rs: seq<Rec>, file: seq<byte>, i: nat, pos: nat, m: NodeMap)
    requires WalkAt(rs, file, i, pos, m) && pos < |file|
    ensures i < |rs| && pos < SIZE_LIMIT
    ensures var h := ReadHeader(file, pos);
            && h.Some?
            && WalkAt(rs, file, i + 1, pos + h.value.storedSize,
                      Entered(m, h.value.oid, Node(pos, h.value.kind)))
  {
    assert rs[..|rs|] == rs;
    ReadAt(rs, i);
    FirstIndexStep(rs, i);
  }

  lemma WalkEnd(rs: seq<Rec>, file: seq<byte>, i: nat, pos: nat, m: NodeMap)
    requires WalkAt(rs, file, i, pos, m) && pos >= |file|
    ensures |FileBytes(rs)| < SIZE_LIMIT && m == FirstIndex(rs)
    ensures i == |rs| && pos == |file|
  {
    assert rs[..|rs|] == rs;
    if i < |rs| {
      GoodIsSpaced(rs);
      OffsetsIncrease(rs, i, |rs|);
    }
  }

  /** One round of the loop in `recover_files`: not ok is the exception for a
      header that cannot be read. */
  method EnterHeader(index: FileIndex, file: seq<byte>, pos: u32) returns (ok: bool, next: nat)
    modifies index`ram
    ensures ok <==> ReadHeader(file, pos).Some?
    ensures ok ==>
              var h := ReadHeader(file, pos).value;
              next == pos + h.storedSize && index.ram == Entered(old(index.ram), h.oid, Node(pos, h.kind))
  {
    var hinfo := ReadHeader(file, pos);
    if hinfo.None? {
      return false, pos;
    }
    index.Insert(hinfo.value.oid, Node(pos, hinfo.value.kind));
    return true, pos + hinfo.value.storedSize;
  }

  /** The header walk of `recover_files` over a file of whole records: it never
      throws, stops at the file size, and yields the first occurrences. */
  method WalkHeaders(index: FileIndex, file: seq<byte>, ghost rs: seq<Rec>) returns (ok: bool)
    requires Good(rs) && file == FileBytes(rs) && |file| < SIZE_LIMIT && index.ram == map[]
    modifies index`ram
    ensures ok && index.ram == FirstIndex(rs)
  {
    ok := true;
    var pos: nat := 0;
    ghost var i: nat := 0;
    hide WalkAt, ReadHeader;
    WalkStart(rs, file);
    while ok && pos < |file|
      invariant ok && i <= |rs| && WalkAt(rs, file, i, pos, index.ram)
      decreases |rs| - i
    {
      WalkStep(rs, file, i, pos, index.ram);
      ok, pos := EnterHeader(index, file, pos);
      i := i + 1;
    }
    WalkEnd(rs, file, i, pos, index.ram);
  }
}
