/** The in-memory index of one data file: a RAM map over a loaded table, the
    search of that table, and the code that saves and loads it. */
module FileIndexes {
  import opened Bytes
  import opened Oids
  import opened Chunks
  import opened IndexTables

  function Lookup(m: NodeMap, key: Oid): Option<Node> {
    if key in m then Some(m[key]) else None
  }

  class FileData {
    var tops: seq<u32>
    var hashes: seq<Oid>
    var offsets: seq<u32>
    var kindMap: seq<Kind>
    var kinds: seq<byte>

    function View(): Table
      reads this
    {
      Table(tops, hashes, offsets, kindMap, kinds)
    }

    constructor ()
      ensures View() == EMPTY_TABLE
    {
      tops, hashes, offsets, kindMap, kinds := [], [], [], [], [];
    }

    /** An index error leaves the vectors alone; only a short file, which is
        another exception, can leave them half filled. */
    method Load(file: Option<seq<byte>>, size: u32) returns (r: LoadResult)
      modifies this
      ensures r == IndexTables.Load(file, size)
      ensures r.Loaded? ==> View() == r.table
      ensures r.IsIndexError() ==> View() == old(View())
    {
      if file.None? {
        return Missing;
      }
      var bad := CheckHeader(file.value, size);
      if bad.Some? {
        return bad.value;
      }
      var rest := file.value[16..];
      if |rest| < 1024 {
        return ShortRead;
      }
      tops := FromWords(Blocks(rest, 256, 4));
      var count: nat := tops[255];
      rest := rest[1024..];
      if |rest| < 24 * count {
        return ShortRead;
      }
      hashes := Blocks(rest, count, 20);
      rest := rest[20 * count..];
      offsets := FromWords(Blocks(rest, count, 4));
      r := LoadKindTable(rest[4 * count..]);
    }

    method LoadKindTable(rest: seq<byte>) returns (r: LoadResult)
      modifies this`kindMap, this`kinds
      ensures r == LoadKinds(tops, hashes, offsets, rest)
      ensures r.Loaded? ==> View() == r.table
      ensures !r.IsIndexError()
    {
      if |rest| < 4 {
        return ShortRead;
      }
      var kindCount: nat := FromLe32(rest[..4]);
      var names := rest[4..];
      if |names| < 4 * kindCount + |hashes| {
        return ShortRead;
      }
      kindMap := Blocks(names, kindCount, 4);
      kinds := names[4 * kindCount..][..|hashes|];
      r := Loaded(View());
    }

    lemma BucketHolds(key: Oid, i: nat)
      requires ValidTable(View()) && tops != [] && i < |hashes| && hashes[i] == key
      ensures |tops| == 256 && BucketLow(tops, key) <= i <= BucketHigh(tops, key) < |hashes|
    {
      FanOutSplits(hashes, key[0], i);
      FanOutSplits(hashes, key[0] as int - 1, i);
    }

    /** A search of a table that was loaded stays inside it and succeeds exactly
        for its hashes. */
    lemma Searches(key: Oid)
      requires ValidTable(View())
      ensures Shaped(View())
      ensures |tops| != 256 ==> hashes == []
      ensures |tops| == 256 ==>
                && BucketHigh(tops, key) < |hashes|
                && (Halving(hashes, key, BucketLow(tops, key), BucketHigh(tops, key)).Some? <==> key in hashes)
    {
      hide Halving;
      if |tops| == 256 {
        forall i: nat | i < |hashes| && hashes[i] == key
          ensures BucketLow(tops, key) <= i <= BucketHigh(tops, key)
        {
          BucketHolds(key, i);
        }
        HalvingFinds(hashes, key, BucketLow(tops, key), BucketHigh(tops, key));
      }
    }

    /** The slot found holds what the table means. */
    lemma FoundMeans(key: Oid, i: nat)
      requires Shaped(View()) && |tops| == 256 && BucketHigh(tops, key) < |hashes|
      requires Halving(hashes, key, BucketLow(tops, key), BucketHigh(tops, key)) == Some(i)
      ensures i < |hashes| && key in hashes && SlotHolds(View(), key, NodeAt(View(), i))
      ensures DuplicatesAgree(View()) ==>
                forall node :: SlotHolds(View(), key, node) ==> node == NodeAt(View(), i)
      ensures Lookup(TableMap(View()), key) == Some(NodeAt(View(), i))
    {
      assert hashes[i] == key;
      SlotIsMeaning(View(), key);
      hide Halving, DuplicatesAgree, SlotHolds;
      assert SlotOf(View(), key) == i;
    }

    /** Fan-out and binary search find a key exactly when a linear search
        would, with the offset and kind of a slot that holds it; where
        duplicates agree, of every slot that does. */
    method Find(key: Oid) returns (r: Option<Node>)
      requires ValidTable(View())
      ensures r.Some? <==> key in hashes
      ensures r.Some? ==> SlotHolds(View(), key, r.value)
      ensures r.Some? && DuplicatesAgree(View()) ==> forall node :: SlotHolds(View(), key, node) ==> node == r.value
      ensures r == Lookup(TableMap(View()), key)
    {
      hide ValidTable, DuplicatesAgree, SlotHolds, TableMap, MemCmp, Value, NodeAt, Halving, Shaped;
      Searches(key);
      if |tops| != 256 {
        return None;
      }
      var first := key[0];
      var low: int := if first > 0 then tops[first - 1] else 0;
      var high: int := tops[first] as int - 1;
      ghost var found := Halving(hashes, key, low, high);
      while high >= low
        invariant 0 <= low && -1 <= high < |hashes|
        invariant Halving(hashes, key, low, high) == found
        decreases high - low + 1
      {
        HalvingStep(hashes, key, low, high);
        var mid := low + (high - low) / 2;
        var cmp := MemCmp(key, hashes[mid]);
        if cmp < 0 {
          high := mid - 1;
        } else if cmp > 0 {
          low := mid + 1;
        } else {
          FoundMeans(key, mid);
          return Some(NodeAt(View(), mid));
        }
      }
      HalvingStep(hashes, key, low, high);
      r := None;
    }
  }

  // ---------------------------------------------------------------------

  /** The library sort. */
  function InsertSorted(keys: seq<Oid>, key: Oid): seq<Oid> {
    if keys == [] then [key]
    else if Value(key) <= Value(keys[0]) then [key] + keys
    else [keys[0]] + InsertSorted(keys[1..], key)
  }

  lemma {:induction false} InsertSortedHolds(keys: seq<Oid>, key: Oid)
    ensures multiset(InsertSorted(keys, key)) == multiset(keys) + multiset{key}
  {
    if keys != [] {
      InsertSortedHolds(keys[1..], key);
      assert keys == [keys[0]] + keys[1..];
    }
  }

  lemma {:induction false} InsertSortedSorts(keys: seq<Oid>, key: Oid)
    requires Sorted(keys)
    ensures Sorted(InsertSorted(keys, key))
    ensures InsertSorted(keys, key)[0] == key || (keys != [] && InsertSorted(keys, key)[0] == keys[0])
  {
    if keys != [] && Value(key) > Value(keys[0]) {
      InsertSortedSorts(keys[1..], key);
    }
  }

  function StdSort(keys: seq<Oid>): seq<Oid> {
    if keys == [] then [] else InsertSorted(StdSort(keys[1..]), keys[0])
  }

  lemma {:induction false} StdSortSorts(keys: seq<Oid>)
    ensures Sorted(StdSort(keys))
    ensures multiset(StdSort(keys)) == multiset(keys)
  {
    if keys != [] {
      StdSortSorts(keys[1..]);
      InsertSortedSorts(StdSort(keys[1..]), keys[0]);
      InsertSortedHolds(StdSort(keys[1..]), keys[0]);
      assert keys == [keys[0]] + keys[1..];
    }
  }

  /** The key vector of a save: the keys of both layers, sorted, so that a key
      in both stands there twice. */
  ghost predicate IsKeyVector(keys: seq<Oid>, ram: NodeMap, t: Table) {
    Sorted(keys) && multiset(keys) == multiset(ram.Keys) + multiset(t.hashes)
  }

  lemma KeyVectorMembers(keys: seq<Oid>, ram: NodeMap, hashes: seq<Oid>)
    requires multiset(keys) == multiset(ram.Keys) + multiset(hashes)
    ensures forall k :: k in keys <==> k in ram || k in hashes
    ensures |keys| == |ram| + |hashes|
  {
    forall k
      ensures k in keys <==> k in ram || k in hashes
    {
      assert k in keys <==> k in multiset(keys);
      assert k in hashes <==> k in multiset(hashes);
    }
    assert |multiset(keys)| == |keys|;
    assert |multiset(ram.Keys)| == |ram.Keys| == |ram|;
  }

  lemma KeyVectorEnumerates(keys: seq<Oid>, ram: NodeMap, t: Table)
    requires ValidTable(t) && IsKeyVector(keys, ram, t)
    ensures Enumerates(keys, Meaning(ram, t))
    ensures |keys| == |ram| + |t.hashes|
  {
    hide Sorted, IsFanOut;
    KeyVectorMembers(keys, ram, t.hashes);
    hide IsKeyVector;
    assert forall k :: k in (set x | x in keys) <==> k in Meaning(ram, t).Keys;
  }

  lemma EnumeratesMembers(keys: seq<Oid>, m: NodeMap)
    requires Enumerates(keys, m)
    ensures forall k :: k in keys <==> k in m
  {
    assert forall k :: k in keys <==> k in (set x | x in keys);
  }

  /** Every key of the vector is in the index, and the counts fit. */
  ghost predicate Saveable(keys: seq<Oid>, m: NodeMap) {
    && Sorted(keys) && |keys| < COUNT_LIMIT
    && Enumerates(keys, m)
    && forall k :: k in keys ==> k in m
  }

  lemma KeyVectorSaveable(keys: seq<Oid>, ram: NodeMap, t: Table)
    requires ValidTable(t) && IsKeyVector(keys, ram, t)
    requires |ram| + |t.hashes| < COUNT_LIMIT
    ensures Saveable(keys, Meaning(ram, t))
  {
    KeyVectorEnumerates(keys, ram, t);
    EnumeratesMembers(keys, Meaning(ram, t));
  }

  function At(keys: seq<Oid>, m: NodeMap, i: nat): Node
    requires i < |keys| && forall k :: k in keys ==> k in m
  {
    assert keys[i] in keys;
    m[keys[i]]
  }

  lemma ColumnsStep(keys: seq<Oid>, m: NodeMap, i: nat)
    requires i < |keys| && forall k :: k in keys ==> k in m
    ensures forall k :: k in keys[..i] || k in keys[..i + 1] ==> k in m
    ensures Offsets(keys[..i + 1], m) == Offsets(keys[..i], m) + [At(keys, m, i).offset]
    ensures KindNames(keys[..i + 1], m) == AddKind(KindNames(keys[..i], m), At(keys, m, i).kind)
  {
    assert keys[..i + 1][..i] == keys[..i];
  }

  lemma KindByteAt(keys: seq<Oid>, m: NodeMap, i: nat)
    requires i < |keys| && forall k :: k in keys ==> k in m
    ensures |KindBytes(keys, m)| == |keys|
    ensures At(keys, m, i).kind in KindNames(keys, m)
    ensures var next: byte := Position(KindNames(keys, m), At(keys, m, i).kind) % 256;
            KindBytes(keys, m)[..i + 1] == KindBytes(keys, m)[..i] + [next]
  {
    hide KindNames, StrictlySorted, Position;
    assert keys[i] in keys;
    var all := KindBytes(keys, m);
    assert all[..i + 1] == all[..i] + [all[i]];
  }

  /** The kind map numbers the kinds in their order. */
  ghost predicate Numbered(kinds: seq<Kind>, kindMap: map<Kind, u32>) {
    forall j | 0 <= j < |kinds| :: kinds[j] in kindMap && kindMap[kinds[j]] == j
  }

  lemma NumberedRank(kinds: seq<Kind>, kindMap: map<Kind, u32>, k: Kind)
    requires Numbered(kinds, kindMap) && k in kinds
    ensures k in kindMap && kindMap[k] == Position(kinds, k)
  {
    var r := Position(kinds, k);
    assert kinds[r] == k;
  }

  class FileIndex {
    var ram: NodeMap
    var findResult: (Oid, Node)
    const fdata: FileData

    ghost predicate Valid()
      reads this, fdata
    {
      ValidTable(fdata.View())
    }

    ghost function Contents(): NodeMap
      requires Valid()
      reads this, fdata
    {
      Meaning(ram, fdata.View())
    }

    constructor ()
      ensures fresh(fdata) && Valid()
      ensures ram == map[] && fdata.View() == EMPTY_TABLE
    {
      ram := map[];
      findResult := (ZERO_OID, Node(0, [105, 110, 118, 97]));
      fdata := new FileData();
    }

    /** The first RAM entry of a key wins. */
    method Insert(key: Oid, node: Node)
      modifies this`ram
      ensures ram == if key in old(ram) then old(ram) else old(ram)[key := node]
    {
      if key !in ram {
        ram := ram[key := node];
      }
    }

    /** The RAM entry of a key wins over the table. */
    method Find(key: Oid) returns (r: Option<Node>)
      requires Valid()
      modifies this`findResult
      ensures r == Lookup(Contents(), key)
      ensures r.Some? ==> if key in ram then r.value == ram[key] else SlotHolds(fdata.View(), key, r.value)
      ensures findResult == if r.Some? then (key, r.value) else old(findResult)
    {
      if key in ram {
        findResult := (key, ram[key]);
        return Some(findResult.1);
      }
      r := fdata.Find(key);
      if r.Some? {
        findResult := (key, r.value);
      }
    }

    /** The constructor of the source's SortedIterator; the order in which the
        RAM map hands out its keys is arbitrary. */
    method SortedKeys() returns (keys: seq<Oid>)
      ensures IsKeyVector(keys, ram, fdata.View())
    {
      keys := [];
      var left := ram.Keys;
      while left != {}
        invariant left <= ram.Keys
        invariant multiset(keys) == multiset(ram.Keys - left)
        decreases left
      {
        var k :| k in left;
        assert ram.Keys - (left - {k}) == (ram.Keys - left) + {k};
        keys := keys + [k];
        left := left - {k};
      }
      assert ram.Keys - {} == ram.Keys;
      StdSortSorts(keys + fdata.hashes);
      keys := StdSort(keys + fdata.hashes);
    }

    /** Builds the file image; `keys` tells which key vector was used. */
    method Image(size: u32) returns (image: seq<byte>, ghost keys: seq<Oid>)
      requires Valid()
      requires |ram| + |fdata.hashes| < COUNT_LIMIT
      modifies this`findResult
      ensures IsKeyVector(keys, old(ram), old(fdata.View())) && Saveable(keys, old(Contents()))
      ensures image == Emit(SavedTable(keys, old(Contents())), size)
    {
      var ks := SortedKeys();
      keys := ks;
      KeyVectorSaveable(ks, ram, fdata.View());
      var saver := new Saver(this, ks);
      saver.ComputeTops();
      var out := new OutStream();
      saver.Save(out, size);
      image := out.bytes;
    }

    /** Obliterates what was loaded, and the RAM entries with it. */
    method Load(file: Option<seq<byte>>, size: u32) returns (r: LoadResult)
      modifies this`ram, fdata
      ensures r == IndexTables.Load(file, size)
      ensures ram == map[]
      ensures r.Loaded? ==> fdata.View() == r.table
      ensures r.IsIndexError() ==> fdata.View() == old(fdata.View())
    {
      ram := map[];
      r := fdata.Load(file, size);
    }
  }

  class Saver {
    const index: FileIndex
    const keys: seq<Oid>
    ghost const m: NodeMap  // what the index means
    var tops: seq<u32>
    var offsets: seq<u32>
    var kinds: seq<Kind>
    var kindMap: map<Kind, u32>

    ghost predicate Valid()
      reads index, index.fdata
    {
      && index.Valid() && index.Contents() == m
      && Saveable(keys, m)
    }

    constructor (index: FileIndex, keys: seq<Oid>)
      requires index.Valid() && Saveable(keys, index.Contents())
      ensures Valid() && this.index == index && this.keys == keys && this.m == index.Contents()
    {
      this.index, this.keys, this.m := index, keys, index.Contents();
      tops, offsets, kinds, kindMap := [], [], [], map[];
    }

    lemma CountFound(top: int, num: nat)
      requires Sorted(keys) && num <= |keys|
      requires forall i | 0 <= i < num :: keys[i][0] <= top
      requires num < |keys| ==> keys[num][0] > top
      ensures num == CountAtMost(keys, top)
    {
      if num > 0 {
        FanOutSplits(keys, top, num - 1);
      }
      if num < |keys| {
        FanOutSplits(keys, top, num);
      }
    }

    method ComputeTops()
      requires Valid()
      modifies this`tops
      ensures tops == FanOut(keys)
    {
      tops := [];
      var num := 0;
      for top := 0 to 256
        invariant num <= |keys| && |tops| == top
        invariant forall i | 0 <= i < num :: keys[i][0] <= top
        invariant forall b | 0 <= b < top :: tops[b] == CountAtMost(keys, b)
      {
        while num < |keys| && keys[num][0] <= top
          invariant num <= |keys|
          invariant forall i | 0 <= i < num :: keys[i][0] <= top
        {
          num := num + 1;
        }
        CountFound(top, num);
        tops := tops + [num];
      }
    }

    /** Dereferences the source's iterator at position i. */
    method Element(i: nat) returns (node: Node)
      requires Valid() && i < |keys|
      modifies index`findResult
      ensures Valid()
      ensures node == At(keys, m, i)
    {
      var elt := index.Find(keys[i]);
      assert keys[i] in keys;
      node := elt.value;
    }

    method CollectOffsets()
      requires Valid()
      modifies this`offsets, this`kinds, index`findResult
      ensures Valid()
      ensures offsets == Offsets(keys, m)
      ensures kinds == KindNames(keys, m)
    {
      offsets, kinds := [], [];
      for i := 0 to |keys|
        invariant Valid()
        invariant offsets == Offsets(keys[..i], m)
        invariant kinds == KindNames(keys[..i], m)
      {
        var node := Element(i);
        ColumnsStep(keys, m, i);
        offsets := offsets + [node.offset];
        kinds := AddKind(kinds, node.kind);
      }
      assert keys[..|keys|] == keys;
    }

    method FirstPass()
      requires Valid()
      modifies this`offsets, this`kinds, this`kindMap, index`findResult
      ensures Valid()
      ensures offsets == Offsets(keys, m)
      ensures kinds == KindNames(keys, m)
      ensures Numbered(kinds, kindMap)
    {
      CollectOffsets();
      NumberKinds();
    }

    method NumberKinds()
      requires StrictlySorted(kinds) && |kinds| < COUNT_LIMIT
      modifies this`kindMap
      ensures Numbered(kinds, kindMap)
    {
      kindMap := map[];
      for k := 0 to |kinds|
        invariant forall j | 0 <= j < k :: kinds[j] in kindMap && kindMap[kinds[j]] == j
      {
        kindMap := kindMap[kinds[k] := k];
      }
    }

    /** All kinds are stored as single bytes: the position is truncated. */
    method WriteKindBytes() returns (kbytes: seq<byte>)
      requires Valid()
      requires kinds == KindNames(keys, m) && Numbered(kinds, kindMap)
      modifies index`findResult
      ensures Valid()
      ensures kbytes == KindBytes(keys, m)
    {
      hide Numbered, ValidTable, Meaning, KindNames, Enumerates, Sorted;
      kbytes := [];
      ghost var all := KindBytes(keys, m);
      assert |all| == |keys|;
      hide KindBytes;
      for i := 0 to |keys|
        invariant Valid()
        invariant kbytes == all[..i]
      {
        var node := Element(i);
        KindByteAt(keys, m, i);
        NumberedRank(kinds, kindMap, node.kind);
        var next: byte := kindMap[node.kind] % 256;
        kbytes := kbytes + [next];
      }
      assert all[..|keys|] == all;
    }

    method WriteKinds(out: OutStream)
      requires Valid()
      requires kinds == KindNames(keys, m) && Numbered(kinds, kindMap)
      modifies out, index`findResult
      ensures out.bytes == old(out.bytes) + EmitKinds(SavedTable(keys, m))
    {
      out.Write(Le32(|kinds|));
      out.Write(Flat(kinds));
      var kbytes := WriteKindBytes();
      out.Write(kbytes);
      KindsOrder(old(out.bytes), out.bytes, SavedTable(keys, m));
    }

    lemma KindsOrder(before: seq<byte>, after: seq<byte>, t: Table)
      requires |t.kindMap| < COUNT_LIMIT
      requires after == before + Le32(|t.kindMap|) + Flat(t.kindMap) + t.kinds
      ensures after == before + EmitKinds(t)
    {
    }

    method Save(out: OutStream, size: u32)
      requires Valid() && tops == FanOut(keys)
      modifies out, this`offsets, this`kinds, this`kindMap, index`findResult
      ensures out.bytes == old(out.bytes) + Emit(SavedTable(keys, m), size)
    {
      out.Write(INDEX_MAGIC + Le32(INDEX_VERSION) + Le32(size));
      out.Write(Flat(Words(tops)));
      out.Write(Flat(keys));
      FirstPass();
      out.Write(Flat(Words(offsets)));
      WriteKinds(out);
      SaveOrder(old(out.bytes), out.bytes, SavedTable(keys, m), size);
    }

    lemma SaveOrder(before: seq<byte>, after: seq<byte>, t: Table, size: u32)
      requires |t.kindMap| < COUNT_LIMIT
      requires after == before + (INDEX_MAGIC + Le32(INDEX_VERSION) + Le32(size)) + Flat(Words(t.tops))
                        + Flat(t.hashes) + Flat(Words(t.offsets)) + EmitKinds(t)
      ensures after == before + Emit(t, size)
    {
    }
  }
}
