/** The index file as a value: the sorted table with its fan-out and kind
    dictionary, the table a save builds, and the bytes on disk. */
module IndexTables {
  import opened Bytes
  import opened Oids
  import opened Chunks
  import opened Spelling

  datatype Node = Node(offset: u32, kind: Kind)

  type NodeMap = map<Oid, Node>

  datatype Table = Table(tops: seq<u32>, hashes: seq<Oid>, offsets: seq<u32>, kindMap: seq<Kind>, kinds: seq<byte>)

  const EMPTY_TABLE := Table([], [], [], [], [])

  const COUNT_LIMIT: nat := 0x8000_0000

  // ---------------------------------------------------------------------
  // Well-formed tables and their meaning

  ghost predicate Sorted(hashes: seq<Oid>) {
    forall i, j | 0 <= i < j < |hashes| :: Value(hashes[i]) <= Value(hashes[j])
  }

  function CountAtMost(hashes: seq<Oid>, top: int): (n: nat)
    ensures n <= |hashes|
  {
    if hashes == [] then 0
    else
      CountAtMost(hashes[..|hashes| - 1], top) + if hashes[|hashes| - 1][0] <= top then 1 else 0
  }

  /** Entry b of the fan-out counts the hashes whose first byte is at most b. */
  ghost predicate IsFanOut(tops: seq<u32>, hashes: seq<Oid>) {
    |tops| == 256 && forall b | 0 <= b < 256 :: tops[b] == CountAtMost(hashes, b)
  }

  ghost predicate Shaped(t: Table) {
    && |t.offsets| == |t.hashes| == |t.kinds| < COUNT_LIMIT
    && forall i | 0 <= i < |t.kinds| :: t.kinds[i] < |t.kindMap|
  }

  function NodeAt(t: Table, i: nat): Node
    requires Shaped(t) && i < |t.hashes|
  {
    Node(t.offsets[i], t.kindMap[t.kinds[i]])
  }

  /** A table a lookup may search: not loaded yet, or sorted with its fan-out.
      A hash may repeat, with any node. */
  ghost predicate ValidTable(t: Table) {
    t == EMPTY_TABLE || (Shaped(t) && Sorted(t.hashes) && IsFanOut(t.tops, t.hashes))
  }

  /** Slots that repeat a hash also repeat its node. */
  ghost predicate DuplicatesAgree(t: Table)
    requires Shaped(t)
  {
    forall i, j | 0 <= i < j < |t.hashes| :: t.hashes[i] == t.hashes[j] ==> NodeAt(t, i) == NodeAt(t, j)
  }

  /** Some slot holds the key with this node. */
  ghost predicate SlotHolds(t: Table, key: Oid, node: Node)
    requires Shaped(t)
  {
    exists i :: 0 <= i < |t.hashes| && t.hashes[i] == key && NodeAt(t, i) == node
  }

  /** The first position of an element. */
  function Position<T(==)>(s: seq<T>, x: T): (i: nat)
    requires x in s
    ensures i < |s| && s[i] == x
  {
    if s[0] == x then 0 else 1 + Position(s[1..], x)
  }

  /** The slot between two others that halving comes upon. */
  function Halving(hashes: seq<Oid>, key: Oid, low: int, high: int): (r: Option<nat>)
    requires 0 <= low && high < |hashes|
    ensures r.Some? ==> r.value < |hashes| && hashes[r.value] == key
    decreases high - low + 1
  {
    if high < low then None
    else
      var mid := low + (high - low) / 2;
      var cmp := MemCmp(key, hashes[mid]);
      MemCmpIsNumeric(key, hashes[mid]);
      if cmp < 0 then Halving(hashes, key, low, mid - 1)
      else if cmp > 0 then Halving(hashes, key, mid + 1, high)
      else Some(mid)
  }

  lemma HalvingStep(hashes: seq<Oid>, key: Oid, low: int, high: int)
    requires 0 <= low && high < |hashes|
    ensures high < low ==> Halving(hashes, key, low, high).None?
    ensures low <= high ==>
              var mid := low + (high - low) / 2;
              && low <= mid <= high
              && Halving(hashes, key, low, high)
                 == (if MemCmp(key, hashes[mid]) < 0 then Halving(hashes, key, low, mid - 1)
                     else if MemCmp(key, hashes[mid]) > 0 then Halving(hashes, key, mid + 1, high)
                     else Some(mid))
  {
  }

  /** Halving a range of a sorted vector comes upon a key exactly when it is
      there. */
  lemma {:induction false} HalvingFinds(hashes: seq<Oid>, key: Oid, low: int, high: int)
    requires 0 <= low && high < |hashes| && Sorted(hashes)
    requires forall i: nat | i < |hashes| && hashes[i] == key :: low <= i <= high
    ensures Halving(hashes, key, low, high).Some? <==> key in hashes
    decreases high - low + 1
  {
    hide Value;
    if low <= high {
      var mid := low + (high - low) / 2;
      MemCmpIsNumeric(key, hashes[mid]);
      if MemCmp(key, hashes[mid]) < 0 {
        HalvingFinds(hashes, key, low, mid - 1);
      } else if MemCmp(key, hashes[mid]) > 0 {
        HalvingFinds(hashes, key, mid + 1, high);
      }
    }
  }

  function BucketLow(tops: seq<u32>, key: Oid): int
    requires |tops| == 256
  {
    if key[0] > 0 then tops[key[0] - 1] else 0
  }

  function BucketHigh(tops: seq<u32>, key: Oid): int
    requires |tops| == 256
  {
    tops[key[0]] as int - 1
  }

  /** The slot of a hash that a search of the table finds: in a table that is
      not searchable, the first. */
  function SlotOf(t: Table, key: Oid): (i: nat)
    requires key in t.hashes
    ensures i < |t.hashes| && t.hashes[i] == key
  {
    var found :=
      if |t.tops| == 256 && BucketHigh(t.tops, key) < |t.hashes| then
        Halving(t.hashes, key, BucketLow(t.tops, key), BucketHigh(t.tops, key))
      else None;
    if found.Some? then found.value else Position(t.hashes, key)
  }

  /** What a table means: for each of its hashes, the node that a search for it
      returns. */
  function TableMap(t: Table): (m: NodeMap)
    requires Shaped(t)
    ensures forall h :: h in m <==> h in t.hashes
  {
    map h | h in t.hashes :: NodeAt(t, SlotOf(t, h))
  }

  /** What an index means: RAM entries shadow the loaded table. */
  function Meaning(ram: NodeMap, t: Table): NodeMap
    requires Shaped(t)
  {
    TableMap(t) + ram
  }

  /** The meaning of a hash is the node of a slot that holds it, and where
      duplicates agree, of every such slot. */
  lemma SlotIsMeaning(t: Table, key: Oid)
    requires Shaped(t) && key in t.hashes
    ensures SlotHolds(t, key, TableMap(t)[key])
    ensures DuplicatesAgree(t) ==> forall node :: SlotHolds(t, key, node) ==> node == TableMap(t)[key]
  {
    hide SlotOf;
    var j := SlotOf(t, key);
    assert TableMap(t)[key] == NodeAt(t, j);
    if DuplicatesAgree(t) {
      forall node | SlotHolds(t, key, node)
        ensures node == NodeAt(t, j)
      {
        var i :| 0 <= i < |t.hashes| && t.hashes[i] == key && NodeAt(t, i) == node;
        assert i < j || i == j || j < i;
      }
    }
  }

  /** In a sorted table, the slots whose first byte is at most b are exactly
      those before the fan-out count. */
  lemma {:induction false} FanOutSplits(hashes: seq<Oid>, b: int, i: nat)
    requires Sorted(hashes) && i < |hashes|
    ensures i < CountAtMost(hashes, b) <==> hashes[i][0] <= b
  {
    var n := |hashes| - 1;
    var init := hashes[..n];
    if hashes[n][0] <= b {
      AllAtMost(hashes, b);
      FirstByteMonotone(hashes[i], hashes[n]);
    } else if i < n {
      FanOutSplits(init, b, i);
    }
  }

  lemma {:induction false} AllAtMost(hashes: seq<Oid>, b: int)
    requires Sorted(hashes) && hashes != [] && hashes[|hashes| - 1][0] <= b
    ensures CountAtMost(hashes, b) == |hashes|
  {
    var n := |hashes| - 1;
    if n > 0 {
      FirstByteMonotone(hashes[n - 1], hashes[n]);
      AllAtMost(hashes[..n], b);
    }
  }

  // ---------------------------------------------------------------------
  // The kinds in use, in the order of the source's std::set

  ghost predicate StrictlySorted(ks: seq<Kind>) {
    forall i, j | 0 <= i < j < |ks| :: Value(ks[i]) < Value(ks[j])
  }

  lemma PrependSorted(k: Kind, ks: seq<Kind>)
    requires StrictlySorted(ks) && forall x :: x in ks ==> Value(k) < Value(x)
    ensures StrictlySorted([k] + ks)
  {
    hide Value;
    var all := [k] + ks;
    forall i, j | 0 <= i < j < |all|
      ensures Value(all[i]) < Value(all[j])
    {
      assert all[j] == ks[j - 1] && ks[j - 1] in ks;
      assert i > 0 ==> all[i] == ks[i - 1];
    }
  }

  lemma TailAbove(ks: seq<Kind>, k: Kind)
    requires StrictlySorted(ks) && ks != [] && Value(k) <= Value(ks[0])
    ensures forall x :: x in ks[1..] ==> Value(k) < Value(x)
    ensures StrictlySorted(ks[1..])
  {
  }

  function AddKind(ks: seq<Kind>, k: Kind): (r: seq<Kind>)
    requires StrictlySorted(ks)
    ensures StrictlySorted(r)
    ensures forall x :: x in r <==> x in ks || x == k
    ensures |r| <= |ks| + 1
  {
    if ks == [] then [k]
    else if ks[0] == k then ks
    else
      MemCmpIsNumeric(k, ks[0]);
      if MemCmp(k, ks[0]) < 0 then
        TailAbove(ks, k);
        PrependSorted(k, ks);
        [k] + ks
      else
        TailAbove(ks, ks[0]);
        var rest := AddKind(ks[1..], k);
        PrependSorted(ks[0], rest);
        [ks[0]] + rest
  }

  function KindNames(keys: seq<Oid>, m: NodeMap): (ks: seq<Kind>)
    requires forall k :: k in keys ==> k in m
    ensures StrictlySorted(ks) && |ks| <= |keys|
    ensures forall x :: x in ks <==> exists k :: k in keys && m[k].kind == x
  {
    if keys == [] then []
    else
      var n := |keys| - 1;
      assert forall k :: k in keys <==> k in keys[..n] || k == keys[n];
      AddKind(KindNames(keys[..n], m), m[keys[n]].kind)
  }

  ghost function KindsOf(m: NodeMap): set<Kind> {
    set k | k in m :: m[k].kind
  }

  lemma PositionUnique(ks: seq<Kind>, r: nat)
    requires StrictlySorted(ks) && r < |ks|
    ensures Position(ks, ks[r]) == r
  {
    var s := Position(ks, ks[r]);
    assert !(s < r) && !(r < s);
  }

  lemma {:induction false} DistinctCount(ks: seq<Kind>)
    requires StrictlySorted(ks)
    ensures |set x | x in ks| == |ks|
  {
    if ks != [] {
      var n := |ks| - 1;
      DistinctCount(ks[..n]);
      assert (set x | x in ks) == (set x | x in ks[..n]) + {ks[n]};
      assert ks[n] !in ks[..n];
    } else {
      assert (set x | x in ks) == {};
    }
  }

  lemma KindNamesCount(keys: seq<Oid>, m: NodeMap)
    requires Enumerates(keys, m)
    ensures |KindNames(keys, m)| == |KindsOf(m)|
  {
    var ks := KindNames(keys, m);
    DistinctCount(ks);
    assert forall k :: k in keys <==> k in (set x | x in keys);
    assert (set x | x in ks) == KindsOf(m);
  }

  // ---------------------------------------------------------------------
  // The table a save writes

  function FanOut(keys: seq<Oid>): (tops: seq<u32>)
    requires |keys| < COUNT_LIMIT
  {
    seq(256, b requires 0 <= b < 256 => CountAtMost(keys, b))
  }

  function Offsets(keys: seq<Oid>, m: NodeMap): seq<u32>
    requires forall k :: k in keys ==> k in m
  {
    seq(|keys|, i requires 0 <= i < |keys| => m[keys[i]].offset)
  }

  function KindBytes(keys: seq<Oid>, m: NodeMap): seq<byte>
    requires forall k :: k in keys ==> k in m
  {
    var names := KindNames(keys, m);
    seq(|keys|, i requires 0 <= i < |keys| => Position(names, m[keys[i]].kind) % 256)
  }

  /** `keys` are the sorted keys, a key in both layers listed twice; the kind
      bytes are truncated to 8 bits as in the source. */
  function SavedTable(keys: seq<Oid>, m: NodeMap): (t: Table)
    requires |keys| < COUNT_LIMIT
    requires forall k :: k in keys ==> k in m
  {
    Table(FanOut(keys), keys, Offsets(keys, m), KindNames(keys, m), KindBytes(keys, m))
  }

  lemma SavedTableValid(keys: seq<Oid>, m: NodeMap)
    requires |keys| < COUNT_LIMIT && Sorted(keys)
    requires forall k :: k in keys ==> k in m.Keys
    ensures Shaped(SavedTable(keys, m)) && ValidTable(SavedTable(keys, m))
  {
    var t := SavedTable(keys, m);
    forall i | 0 <= i < |t.kinds|
      ensures t.kinds[i] < |t.kindMap|
    {
      assert Position(t.kindMap, m[keys[i]].kind) < |t.kindMap|;
    }
  }

  ghost predicate Enumerates(keys: seq<Oid>, m: NodeMap) {
    (set k | k in keys) == m.Keys
  }

  lemma SavedTableAt(keys: seq<Oid>, m: NodeMap, h: Oid)
    requires |keys| < COUNT_LIMIT && Sorted(keys) && Enumerates(keys, m)
    requires h in m
    ensures h in keys && m[h].kind in KindNames(keys, m)
    ensures var t := SavedTable(keys, m);
            && Shaped(t)
            && TableMap(t)[h] == Node(m[h].offset, t.kindMap[Position(t.kindMap, m[h].kind) % 256])
            && (TableMap(t)[h] == m[h] <==> Position(t.kindMap, m[h].kind) < 256)
            && (|t.kindMap| <= 256 ==> TableMap(t)[h] == m[h])
  {
    hide KindNames, Sorted, IsFanOut, StrictlySorted, CountAtMost, SlotOf;
    assert h in m.Keys;
    SavedTableValid(keys, m);
    var rank := Position(KindNames(keys, m), m[h].kind);
    assert rank < 256 ==> rank % 256 == rank;
    if rank >= 256 {
      PositionUnique(KindNames(keys, m), rank % 256);
    }
  }

  lemma MapsAgree(a: NodeMap, b: NodeMap)
    requires a.Keys == b.Keys && forall h | h in b.Keys :: a[h] == b[h]
    ensures a == b
  {
  }

  /** With at most 256 kinds the saved table means what the index meant. */
  lemma SavedTableMeaning(keys: seq<Oid>, m: NodeMap)
    requires |keys| < COUNT_LIMIT && Sorted(keys) && Enumerates(keys, m)
    requires |KindsOf(m)| <= 256
    ensures Shaped(SavedTable(keys, m)) && TableMap(SavedTable(keys, m)) == m
  {
    SavedTableValid(keys, m);
    KindNamesCount(keys, m);
    var loaded := TableMap(SavedTable(keys, m));
    forall h | h in m.Keys
      ensures h in loaded.Keys && loaded[h] == m[h]
    {
      SavedTableAt(keys, m, h);
    }
    assert loaded.Keys == set k | k in keys;
    MapsAgree(loaded, m);
  }

  /** With more, some key comes back with another kind: the key of the kind of
      rank 256 is stored under byte 0. */
  lemma SavedTableTruncates(keys: seq<Oid>, m: NodeMap)
    requires |keys| < COUNT_LIMIT && Sorted(keys) && Enumerates(keys, m)
    requires |KindsOf(m)| > 256
    ensures Shaped(SavedTable(keys, m)) && TableMap(SavedTable(keys, m)) != m
  {
    SavedTableValid(keys, m);
    KindNamesCount(keys, m);
    var names := KindNames(keys, m);
    assert names[256] in names;
    var h :| h in keys && m[h].kind == names[256];
    PositionUnique(names, 256);
    SavedTableAt(keys, m, h);
    assert Value(names[0]) < Value(names[256]);
  }

  function NumberOid(i: nat): Oid
    requires i < 0x1_0000
  {
    [0, 0, 0, 0, 0, 0, 0, 0, 0, 0, 0, 0, 0, 0, 0, 0, 0, 0, i / 256, i % 256]
  }

  function NumberKind(i: nat): Kind
    requires i < 0x1_0000
  {
    [0, 0, i / 256, i % 256]
  }

  lemma NumberOidValue(i: nat)
    requires i < 0x1_0000
    ensures Value(NumberOid(i)) == i
  {
    var s := NumberOid(i);
    assert s[..19][..18] == ZERO_OID[..18];
    Extremes(ZERO_OID[..18]);
    hide Value;
    ValueLast(s);
    ValueLast(s[..19]);
  }

  lemma ValueLast(s: seq<byte>)
    requires s != []
    ensures Value(s) == 256 * Value(s[..|s| - 1]) + s[|s| - 1]
  {
  }

  /** The kinds of the first n numbers are n kinds. */
  lemma {:induction false} NumberKindsCount(n: nat)
    requires n < 0x1_0000
    ensures |set i | 0 <= i < n :: NumberKind(i)| == n
  {
    hide NumberKind;
    var all := set i | 0 <= i < n :: NumberKind(i);
    if n == 0 {
      assert all == {};
    } else {
      NumberKindsCount(n - 1);
      var before := set i | 0 <= i < n - 1 :: NumberKind(i);
      assert all == before + {NumberKind(n - 1)};
      forall i: nat | i < n - 1
        ensures NumberKind(i) != NumberKind(n - 1)
      {
        OtherNumber(i, n - 1);
      }
    }
  }

  lemma OtherNumber(i: nat, j: nat)
    requires i < j < 0x1_0000
    ensures NumberKind(i) != NumberKind(j)
  {
    assert i / 256 != j / 256 || i % 256 != j % 256;
    assert NumberKind(i)[2] != NumberKind(j)[2] || NumberKind(i)[3] != NumberKind(j)[3];
  }

  /** An index that a save changes: 257 keys, each of a kind of its own. */
  lemma TooManyKinds() returns (keys: seq<Oid>, m: NodeMap)
    ensures |keys| == |KindsOf(m)| == 257 && Sorted(keys) && Enumerates(keys, m)
    ensures Shaped(SavedTable(keys, m)) && TableMap(SavedTable(keys, m)) != m
  {
    hide Value, TableMap, SavedTable, Shaped, KindNames, StrictlySorted;
    keys := seq(257, i requires 0 <= i < 257 => NumberOid(i));
    m := map k | k in keys :: Node(0, [0, 0, k[18], k[19]]);
    forall i, j | 0 <= i < j < |keys|
      ensures Value(keys[i]) <= Value(keys[j])
    {
      NumberOidValue(i);
      NumberOidValue(j);
    }
    NumberKindsCount(257);
    NumberKindsUsed(keys, m);
    SavedTableTruncates(keys, m);
  }

  lemma NumberKindsUsed(keys: seq<Oid>, m: NodeMap)
    requires |keys| == 257 && forall i | 0 <= i < 257 :: keys[i] == NumberOid(i)
    requires m.Keys == set k | k in keys
    requires forall k | k in m :: m[k].kind == [0, 0, k[18], k[19]]
    ensures KindsOf(m) == set i | 0 <= i < 257 :: NumberKind(i)
  {
    forall i | 0 <= i < 257
      ensures NumberKind(i) in KindsOf(m)
    {
      assert keys[i] in m.Keys && m[keys[i]].kind == NumberKind(i);
    }
    forall kind | kind in KindsOf(m)
      ensures exists i :: 0 <= i < 257 && kind == NumberKind(i)
    {
      var k :| k in m && m[k].kind == kind;
      assert k in m.Keys;
      var i :| 0 <= i < 257 && keys[i] == k;
      assert kind == NumberKind(i);
    }
  }

  // ---------------------------------------------------------------------
  // Bytes on disk

  // "ldumpidx"
  const INDEX_MAGIC: seq<byte> := [108, 100, 117, 109, 112, 105, 100, 120]
  const INDEX_VERSION: u32 := 4

  /** `index_error` covers the first four failures. ShortRead is the stream's
      own exception, which the source does not turn into an `index_error`. */
  datatype LoadResult = Loaded(table: Table) | Missing | BadMagic | BadVersion | WrongSize | ShortRead {
    predicate IsIndexError() {
      Missing? || BadMagic? || BadVersion? || WrongSize?
    }
  }

  function Flat(blocks: seq<seq<byte>>): seq<byte> {
    if blocks == [] then [] else blocks[0] + Flat(blocks[1..])
  }

  function Blocks(bytes: seq<byte>, count: nat, width: nat): (bs: seq<seq<byte>>)
    requires count * width <= |bytes|
    ensures |bs| == count && forall i | 0 <= i < count :: |bs[i]| == width
    decreases |bytes|, count
  {
    if count == 0 then []
    else
      assert count * width == width + (count - 1) * width;
      [bytes[..width]] + Blocks(bytes[width..], count - 1, width)
  }

  lemma BlocksCons(first: seq<byte>, bytes: seq<byte>, count: nat, width: nat)
    requires |first| == width && count * width <= |bytes|
    ensures (count + 1) * width <= |first + bytes|
    ensures Blocks(first + bytes, count + 1, width) == [first] + Blocks(bytes, count, width)
  {
    assert (count + 1) * width == width + count * width;
    assert (first + bytes)[..width] == first && (first + bytes)[width..] == bytes;
  }

  lemma {:induction false} FlatBlocks(blocks: seq<seq<byte>>, width: nat, rest: seq<byte>)
    requires forall i | 0 <= i < |blocks| :: |blocks[i]| == width
    ensures |Flat(blocks)| == |blocks| * width
    ensures Blocks(Flat(blocks) + rest, |blocks|, width) == blocks
  {
    hide Blocks;
    if blocks == [] {
      assert Blocks(Flat(blocks) + rest, 0, width) == [];
    } else {
      var tail := blocks[1..];
      FlatBlocks(tail, width, rest);
      BlocksCons(blocks[0], Flat(tail) + rest, |tail|, width);
      assert Flat(blocks) + rest == blocks[0] + (Flat(tail) + rest);
      assert blocks == [blocks[0]] + tail;
    }
  }

  function Words(ws: seq<u32>): seq<seq<byte>> {
    seq(|ws|, i requires 0 <= i < |ws| => Le32(ws[i]))
  }

  function FromWords(blocks: seq<seq<byte>>): (ws: seq<u32>)
    requires forall i | 0 <= i < |blocks| :: |blocks[i]| == 4
    ensures |ws| == |blocks|
  {
    seq(|blocks|, i requires 0 <= i < |blocks| => FromLe32(blocks[i]))
  }

  lemma WordsRoundTrip(ws: seq<u32>, rest: seq<byte>)
    ensures |Flat(Words(ws))| == 4 * |ws|
    ensures FromWords(Blocks(Flat(Words(ws)) + rest, |ws|, 4)) == ws
  {
    FlatBlocks(Words(ws), 4, rest);
    forall i | 0 <= i < |ws|
      ensures FromLe32(Words(ws)[i]) == ws[i]
    {
      Le32RoundTrip(ws[i]);
    }
  }

  function IndexHeader(size: u32): (h: seq<byte>)
    ensures |h| == 16
  {
    INDEX_MAGIC + Le32(INDEX_VERSION) + Le32(size)
  }

  function EmitKinds(t: Table): seq<byte>
    requires |t.kindMap| < 0x1_0000_0000
  {
    Le32(|t.kindMap|) + (Flat(t.kindMap) + t.kinds)
  }

  function EmitBody(t: Table): seq<byte>
    requires |t.kindMap| < 0x1_0000_0000
  {
    Flat(Words(t.tops)) + (Flat(t.hashes) + (Flat(Words(t.offsets)) + EmitKinds(t)))
  }

  /** The whole index file, stamped with the size of its data file. */
  function Emit(t: Table, size: u32): seq<byte>
    requires |t.kindMap| < 0x1_0000_0000
  {
    IndexHeader(size) + EmitBody(t)
  }

  function CheckHeader(file: seq<byte>, size: u32): (r: Option<LoadResult>)
    ensures r.Some? ==> r.value.ShortRead? || r.value.IsIndexError()
    ensures r.None? ==> |file| >= 16
  {
    if |file| < 16 then Some(ShortRead)
    else if file[..8] != INDEX_MAGIC then Some(BadMagic)
    else if FromLe32(file[8..12]) != INDEX_VERSION then Some(BadVersion)
    else if FromLe32(file[12..16]) != size then Some(WrongSize)
    else None
  }

  function LoadKinds(tops: seq<u32>, hashes: seq<Oid>, offsets: seq<u32>, rest: seq<byte>): LoadResult {
    if |rest| < 4 then ShortRead
    else
      var kindCount := FromLe32(rest[..4]);
      var names := rest[4..];
      if |names| < 4 * kindCount + |hashes| then ShortRead
      else Loaded(Table(tops, hashes, offsets, Blocks(names, kindCount, 4), names[4 * kindCount..][..|hashes|]))
  }

  function LoadBody(rest: seq<byte>): LoadResult {
    if |rest| < 1024 then ShortRead
    else
      var tops := FromWords(Blocks(rest, 256, 4));
      var count: nat := tops[255];
      var afterTops := rest[1024..];
      if |afterTops| < 24 * count then ShortRead
      else
        var afterHashes := afterTops[20 * count..];
        LoadKinds(tops, Blocks(afterTops, count, 20), FromWords(Blocks(afterHashes, count, 4)),
                  afterHashes[4 * count..])
  }

  function Load(file: Option<seq<byte>>, size: u32): LoadResult {
    if file.None? then Missing
    else
      var bad := CheckHeader(file.value, size);
      if bad.Some? then bad.value else LoadBody(file.value[16..])
  }

  lemma HeaderRoundTrip(stamp: u32, size: u32, body: seq<byte>)
    ensures CheckHeader(IndexHeader(stamp) + body, size) == if stamp == size then None else Some(WrongSize)
  {
    var file := IndexHeader(stamp) + body;
    assert file[..8] == INDEX_MAGIC;
    assert file[8..12] == Le32(INDEX_VERSION);
    assert file[12..16] == Le32(stamp);
    Le32RoundTrip(INDEX_VERSION);
    Le32RoundTrip(stamp);
  }

  ghost predicate Emittable(t: Table) {
    Shaped(t) && IsFanOut(t.tops, t.hashes) && |t.kindMap| < 0x1_0000_0000
  }

  /** The vectors have the lengths that a load gives them. */
  ghost predicate Loadable(t: Table) {
    && |t.tops| == 256 && t.tops[255] as int == |t.hashes| == |t.offsets| == |t.kinds|
    && |t.kindMap| < 0x1_0000_0000
  }

  lemma EmittableLoads(t: Table)
    requires Emittable(t)
    ensures Loadable(t)
  {
    CountAll(t.hashes);
  }

  lemma KindsRoundTrip(t: Table)
    requires Loadable(t)
    ensures LoadKinds(t.tops, t.hashes, t.offsets, EmitKinds(t)) == Loaded(t)
  {
    var rest := EmitKinds(t);
    assert rest[..4] == Le32(|t.kindMap|);
    Le32RoundTrip(|t.kindMap|);
    FlatBlocks(t.kindMap, 4, t.kinds);
    assert rest[4..] == Flat(t.kindMap) + t.kinds;
    assert rest[4..][4 * |t.kindMap|..][..|t.hashes|] == t.kinds;
  }

  lemma {:induction false} CountAll(hashes: seq<Oid>)
    ensures CountAtMost(hashes, 255) == |hashes|
  {
    if hashes != [] {
      CountAll(hashes[..|hashes| - 1]);
    }
  }

  lemma BodyRoundTrip(t: Table)
    requires Loadable(t)
    ensures LoadBody(EmitBody(t)) == Loaded(t)
  {
    hide Blocks, Flat, Words, FromWords, LoadKinds, EmitKinds;
    var n := |t.hashes|;
    var e3 := EmitKinds(t);
    var e2 := Flat(Words(t.offsets)) + e3;
    var e1 := Flat(t.hashes) + e2;
    WordsRoundTrip(t.tops, e1);
    FlatBlocks(t.hashes, 20, e2);
    WordsRoundTrip(t.offsets, e3);
    KindsRoundTrip(t);
    var rest := EmitBody(t);
    assert rest[1024..] == e1;
    assert e1[20 * n..] == e2;
    assert e2[4 * n..] == e3;
  }

  /** A saved index loads back as it was exactly under its own stamp. */
  lemma EmitLoad(t: Table, stamp: u32, size: u32)
    requires Emittable(t)
    ensures Load(Some(Emit(t, stamp)), size) == if stamp == size then Loaded(t) else WrongSize
  {
    EmittableLoads(t);
    LoadableRoundTrip(t, stamp, size);
  }

  lemma LoadableRoundTrip(t: Table, stamp: u32, size: u32)
    requires Loadable(t)
    ensures Load(Some(Emit(t, stamp)), size) == if stamp == size then Loaded(t) else WrongSize
  {
    hide LoadBody, EmitBody, IndexHeader, CheckHeader;
    HeaderRoundTrip(stamp, size, EmitBody(t));
    BodyRoundTrip(t);
    assert Emit(t, stamp)[16..] == EmitBody(t);
  }

  // ---------------------------------------------------------------------
  // Which files load, in terms of their bytes

  /** The file begins with the header of an index of this size. */
  ghost predicate HeaderOf(f: seq<byte>, size: u32) {
    |f| >= 16 && f[..8] == Ascii("ldumpidx") && Word(f, 8) == 4 && Word(f, 12) == size
  }

  /** The words from pos on, least significant byte first. */
  ghost predicate WordsAt(f: seq<byte>, pos: nat, ws: seq<u32>) {
    pos + 4 * |ws| <= |f| && forall i | 0 <= i < |ws| :: WordIs(f, pos + 4 * i, ws[i])
  }

  ghost predicate WordIs(f: seq<byte>, pos: nat, w: u32) {
    pos + 4 <= |f| && Word(f, pos) == w
  }

  /** The blocks of this width from pos on. */
  ghost predicate BlocksAt(f: seq<byte>, pos: nat, width: nat, bs: seq<seq<byte>>) {
    pos + |bs| * width <= |f| && forall i | 0 <= i < |bs| :: BlockIs(f, pos + i * width, width, bs[i])
  }

  ghost predicate BlockIs(f: seq<byte>, pos: nat, width: nat, b: seq<byte>) {
    pos + width <= |f| && f[pos..pos + width] == b
  }

  /** Where the vectors of a table lie in its file, which may be longer: 256
      fan-out words at 16, then 20 bytes a hash, a word an offset, the number
      of kinds, 4 bytes a kind, and one byte a hash for the kinds. */
  ghost predicate Laid(f: seq<byte>, t: Table) {
    var n, k := |t.hashes|, |t.kindMap|;
    && Loadable(t)
    && WordsAt(f, 16, t.tops)
    && BlocksAt(f, 1040, 20, t.hashes)
    && WordsAt(f, 1040 + 20 * n, t.offsets)
    && WordIs(f, 1040 + 24 * n, k)
    && BlocksAt(f, 1044 + 24 * n, 4, t.kindMap)
    && BlockIs(f, 1044 + 24 * n + 4 * k, n, t.kinds)
  }

  lemma BlocksUnfold(bytes: seq<byte>, count: nat, width: nat)
    requires count > 0 && count * width <= |bytes|
    ensures width <= |bytes| && (count - 1) * width <= |bytes| - width
    ensures Blocks(bytes, count, width) == [bytes[..width]] + Blocks(bytes[width..], count - 1, width)
  {
    assert count * width == width + (count - 1) * width;
  }

  lemma {:induction false} BlocksLie(bytes: seq<byte>, count: nat, width: nat, i: nat)
    requires count * width <= |bytes| && i < count
    ensures i * width + width <= |bytes|
    ensures Blocks(bytes, count, width)[i] == bytes[i * width..i * width + width]
  {
    hide Blocks;
    assert count * width == width + (count - 1) * width;
    BlocksUnfold(bytes, count, width);
    if i > 0 {
      BlocksLie(bytes[width..], count - 1, width, i - 1);
      assert i * width == width + (i - 1) * width;
      SliceAfter(bytes, width, (i - 1) * width, width);
    }
  }

  lemma SliceAfter(bytes: seq<byte>, pos: nat, from: nat, len: nat)
    requires pos + from + len <= |bytes|
    ensures bytes[pos..][from..from + len] == bytes[pos + from..pos + from + len]
  {
    var a, b := bytes[pos..][from..from + len], bytes[pos + from..pos + from + len];
    assert |a| == |b| && forall k | 0 <= k < len :: a[k] == b[k];
  }

  lemma BlocksLieAt(f: seq<byte>, pos: nat, count: nat, width: nat)
    requires pos + count * width <= |f|
    ensures BlocksAt(f, pos, width, Blocks(f[pos..], count, width))
  {
    hide Blocks, BlockIs;
    forall i | 0 <= i < count
      ensures BlockIs(f, pos + i * width, width, Blocks(f[pos..], count, width)[i])
    {
      BlockLiesAt(f, pos, count, width, i);
    }
  }

  lemma BlockLiesAt(f: seq<byte>, pos: nat, count: nat, width: nat, i: nat)
    requires pos + count * width <= |f| && i < count
    ensures BlockIs(f, pos + i * width, width, Blocks(f[pos..], count, width)[i])
  {
    hide Blocks;
    BlocksLie(f[pos..], count, width, i);
    SliceAfter(f, pos, i * width, width);
  }

  lemma WordsLieAt(f: seq<byte>, pos: nat, count: nat)
    requires pos + count * 4 <= |f|
    ensures WordsAt(f, pos, FromWords(Blocks(f[pos..], count, 4)))
  {
    hide Blocks, Word, FromLe32;
    BlocksLieAt(f, pos, count, 4);
    var bs := Blocks(f[pos..], count, 4);
    forall i | 0 <= i < count
      ensures WordIs(f, pos + 4 * i, FromWords(bs)[i])
    {
      assert BlockIs(f, pos + i * 4, 4, bs[i]);
      WordWithin(f, pos + 4 * i);
    }
  }

  /** What a load returns lies in the file. */
  lemma LoadedIsLaid(f: seq<byte>)
    requires |f| >= 16 && LoadBody(f[16..]).Loaded?
    ensures Laid(f, LoadBody(f[16..]).table)
  {
    hide Blocks, FromWords, Word, FromLe32, WordsAt, BlocksAt, WordIs, BlockIs;
    var t := LoadBody(f[16..]).table;
    var n, k := |t.hashes|, |t.kindMap|;
    Tails(f, n);
    WordsLieAt(f, 16, 256);
    BlocksLieAt(f, 1040, n, 20);
    WordsLieAt(f, 1040 + 20 * n, n);
    KindsLie(f, 1040 + 24 * n, t);
  }

  lemma Tails(f: seq<byte>, n: nat)
    requires |f| >= 1040 + 24 * n
    ensures f[16..][1024..] == f[1040..] && f[1040..][20 * n..] == f[1040 + 20 * n..]
    ensures f[1040 + 20 * n..][4 * n..] == f[1040 + 24 * n..]
  {
  }

  lemma KindsLie(f: seq<byte>, pos: nat, t: Table)
    requires pos <= |f| && LoadKinds(t.tops, t.hashes, t.offsets, f[pos..]) == Loaded(t)
    ensures |t.kinds| == |t.hashes| && |t.kindMap| < 0x1_0000_0000
    ensures WordIs(f, pos, |t.kindMap|) && BlocksAt(f, pos + 4, 4, t.kindMap)
    ensures BlockIs(f, pos + 4 + 4 * |t.kindMap|, |t.kinds|, t.kinds)
  {
    hide Blocks, Word, FromLe32;
    var k := |t.kindMap|;
    assert f[pos..][..4] == f[pos..pos + 4] && f[pos..][4..] == f[pos + 4..];
    WordWithin(f, pos);
    BlocksLieAt(f, pos + 4, k, 4);
    SliceAfter(f, pos + 4, 4 * k, |t.kinds|);
    assert f[pos + 4..][4 * k..][..|t.kinds|] == f[pos + 4..][4 * k..4 * k + |t.kinds|];
  }

  /** A file in which a table lies is long enough to load. */
  lemma LaidLoads(f: seq<byte>, t: Table)
    requires Laid(f, t)
    ensures LoadBody(f[16..]).Loaded?
  {
    hide Blocks, FromWords, Word, FromLe32;
    var n, k := |t.hashes|, |t.kindMap|;
    WordsLieAt(f, 16, 256);
    var tops := FromWords(Blocks(f[16..], 256, 4));
    SameWord(f, 16 + 4 * 255, tops[255], t.tops[255]);
    Tails(f, n);
    var rest := f[1040 + 24 * n..];
    assert rest[..4] == f[1040 + 24 * n..1044 + 24 * n];
    WordWithin(f, 1040 + 24 * n);
    assert |rest[4..]| == |f| - (1044 + 24 * n);
  }

  lemma SameWord(f: seq<byte>, pos: nat, a: u32, b: u32)
    requires WordIs(f, pos, a) && WordIs(f, pos, b)
    ensures a == b
  {
  }

  /** At most one table lies in a file. */
  lemma LaidUnique(f: seq<byte>, a: Table, b: Table)
    requires Laid(f, a) && Laid(f, b)
    ensures a == b
  {
    hide Word;
    SameWords(f, 16, a.tops, b.tops);
    SameBlocks(f, 1040, 20, a.hashes, b.hashes);
    SameWords(f, 1040 + 20 * |a.hashes|, a.offsets, b.offsets);
    SameBlocks(f, 1044 + 24 * |a.hashes|, 4, a.kindMap, b.kindMap);
  }

  lemma SameWords(f: seq<byte>, pos: nat, a: seq<u32>, b: seq<u32>)
    requires WordsAt(f, pos, a) && WordsAt(f, pos, b) && |a| == |b|
    ensures a == b
  {
    hide Word;
    forall i | 0 <= i < |a|
      ensures a[i] == b[i]
    {
      assert WordIs(f, pos + 4 * i, a[i]) && WordIs(f, pos + 4 * i, b[i]);
    }
  }

  lemma SameBlocks(f: seq<byte>, pos: nat, width: nat, a: seq<seq<byte>>, b: seq<seq<byte>>)
    requires BlocksAt(f, pos, width, a) && BlocksAt(f, pos, width, b) && |a| == |b|
    ensures a == b
  {
    forall i | 0 <= i < |a|
      ensures a[i] == b[i]
    {
      assert BlockIs(f, pos + i * width, width, a[i]) && BlockIs(f, pos + i * width, width, b[i]);
    }
  }

  /** A file loads as a table exactly when it has the header of an index of the
      size asked for and the vectors of the table lie in it. */
  lemma LoadsExactly(f: seq<byte>, size: u32, t: Table)
    ensures Load(Some(f), size) == Loaded(t) <==> HeaderOf(f, size) && Laid(f, t)
  {
    HeaderChecks(f, size);
    hide Laid, LoadBody, HeaderOf, CheckHeader;
    if CheckHeader(f, size).None? {
      if LoadBody(f[16..]).Loaded? {
        LoadedIsLaid(f);
        if Laid(f, t) {
          LaidUnique(f, t, LoadBody(f[16..]).table);
        }
      } else if Laid(f, t) {
        LaidLoads(f, t);
      }
    }
  }

  /** Which failure the header gives, by the bytes. */
  lemma HeaderChecks(f: seq<byte>, size: u32)
    ensures CheckHeader(f, size).None? <==> HeaderOf(f, size)
    ensures CheckHeader(f, size) == Some(ShortRead) <==> |f| < 16
    ensures CheckHeader(f, size) == Some(BadMagic) <==> |f| >= 16 && f[..8] != Ascii("ldumpidx")
    ensures CheckHeader(f, size) == Some(BadVersion)
            <==> |f| >= 16 && f[..8] == Ascii("ldumpidx") && Word(f, 8) != 4
    ensures CheckHeader(f, size) == Some(WrongSize)
            <==> |f| >= 16 && f[..8] == Ascii("ldumpidx") && Word(f, 8) == 4 && Word(f, 12) != size
  {
    hide Word, FromLe32;
    if |f| >= 16 {
      WordWithin(f, 8);
      WordWithin(f, 12);
    }
  }

  /** Which failure a file gives, by its bytes. */
  lemma FailsExactly(f: seq<byte>, size: u32)
    ensures Load(None, size) == Missing && Load(Some(f), size) != Missing
    ensures Load(Some(f), size) == BadMagic <==> |f| >= 16 && f[..8] != Ascii("ldumpidx")
    ensures Load(Some(f), size) == BadVersion
            <==> |f| >= 16 && f[..8] == Ascii("ldumpidx") && Word(f, 8) != 4
    ensures Load(Some(f), size) == WrongSize
            <==> |f| >= 16 && f[..8] == Ascii("ldumpidx") && Word(f, 8) == 4 && Word(f, 12) != size
    ensures Load(Some(f), size) == ShortRead
            <==> |f| < 16 || (HeaderOf(f, size) && forall t :: !Laid(f, t))
  {
    HeaderChecks(f, size);
    if HeaderOf(f, size) {
      BodyFailsShort(f[16..]);
      hide Laid, LoadBody, HeaderOf, CheckHeader;
      forall t
        ensures Load(Some(f), size) == Loaded(t) <==> Laid(f, t)
      {
        LoadsExactly(f, size, t);
      }
      if Load(Some(f), size).Loaded? {
        assert Laid(f, Load(Some(f), size).table);
      }
    }
  }

  lemma BodyFailsShort(rest: seq<byte>)
    ensures LoadBody(rest).Loaded? || LoadBody(rest).ShortRead?
  {
  }

  /** The bytes a save writes: the header under the stamp, the vectors where
      they belong, and nothing more. */
  lemma EmitLayout(t: Table, size: u32)
    requires Loadable(t)
    ensures HeaderOf(Emit(t, size), size) && Laid(Emit(t, size), t)
    ensures |Emit(t, size)| == 1044 + 25 * |t.hashes| + 4 * |t.kindMap|
  {
    LoadableRoundTrip(t, size, size);
    LoadsExactly(Emit(t, size), size, t);
    FlatBlocks(Words(t.tops), 4, []);
    FlatBlocks(t.hashes, 20, []);
    FlatBlocks(Words(t.offsets), 4, []);
    FlatBlocks(t.kindMap, 4, []);
    hide Flat, Laid, HeaderOf;
  }

  /** Save then load preserves the meaning of the index exactly when it uses at
      most 256 kinds; the loaded table is searchable either way. */
  lemma SaveLoadPreservesMeaning(ram: NodeMap, t: Table, keys: seq<Oid>, size: u32)
    requires ValidTable(t) && |keys| < COUNT_LIMIT && Sorted(keys) && Enumerates(keys, Meaning(ram, t))
    ensures var m := Meaning(ram, t);
            var saved := SavedTable(keys, m);
            && Load(Some(Emit(saved, size)), size) == Loaded(saved)
            && ValidTable(saved) && Shaped(saved)
            && (TableMap(saved) == m <==> |KindsOf(m)| <= 256)
  {
    var m := Meaning(ram, t);
    SavedTableValid(keys, m);
    EmitLoad(SavedTable(keys, m), size, size);
    if |KindsOf(m)| <= 256 {
      SavedTableMeaning(keys, m);
    } else {
      SavedTableTruncates(keys, m);
    }
  }
}
