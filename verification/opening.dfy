/** Opening a pool on a directory left in any reachable state, and recovering
    the index files of one that does not open. */
module Opening {
  import opened Bytes
  import opened Chunks
  import opened IndexTables
  import opened FileIndexes
  import opened Layout
  import opened Worlds
  import opened Runs
  import opened Pools

  ghost predicate Ascending(ns: seq<nat>) {
    forall i, j | 0 <= i < j < |ns| :: ns[i] < ns[j]
  }

  lemma {:induction false} Least(s: set<nat>) returns (least: nat)
    requires s != {}
    ensures least in s && forall m | m in s :: least <= m
  {
    least :| least in s;
    var rest := s - {least};
    assert s == rest + {least};
    if rest != {} {
      var other := Least(rest);
      if other < least {
        least := other;
      }
    }
  }

  lemma AscendingSnoc(ns: seq<nat>, n: nat)
    requires Ascending(ns) && forall i | 0 <= i < |ns| :: ns[i] < n
    ensures Ascending(ns + [n])
    ensures forall m :: m in ns + [n] <==> m in ns || m == n
  {
  }

  /** The numbers of the data files, sorted. */
  method FindPoolFiles(dir: Directory) returns (known: seq<nat>)
    ensures Ascending(known)
    ensures forall n: nat :: n in known <==> n in dir.disk.data
  {
    known := [];
    var left := dir.disk.data.Keys;
    ghost var low := 0;
    while left != {}
      invariant Ascending(known)
      invariant forall n: nat :: n in dir.disk.data <==> n in known || n in left
      invariant forall i | 0 <= i < |known| :: known[i] < low
      invariant forall m | m in left :: low <= m
      decreases left
    {
      hide Ascending;
      ghost var least := Least(left);
      var n :| n in left && forall m | m in left :: n <= m;
      AscendingSnoc(known, n);
      known := known + [n];
      left := left - {n};
      low := n + 1;
    }
  }

  lemma DataIsBounded(dir: Directory, n: nat)
    requires dir.Valid() && n in dir.disk.data
    ensures n in dir.Recs() && |dir.disk.data[n]| < SIZE_LIMIT
    ensures LoadAccepted(dir.disk, dir.Recs(), n)
    ensures |FileBytes(dir.Recs()[n])| < SIZE_LIMIT && Good(dir.Recs()[n])
    ensures dir.disk.data[n] == FileBytes(dir.Recs()[n])
  {
    dir.Reached();
    hide ValidRun, Good, FileBytes, Stamped, RecKinds, LoadAccepted, Inv;
    assert n in dir.Recs().Keys;
    assert DataInv(dir.disk, dir.Recs(), n);
    LoadIsFaithful(dir.disk, dir.Recs(), n);
  }

  // ---------------------------------------------------------------------
  // Recovery

  ghost predicate Indexed(disk: Disk, n: nat) {
    n in disk.data && |disk.data[n]| < SIZE_LIMIT && Load(IdxOf(disk, n), |disk.data[n]|).Loaded?
  }

  /** Rebuilds one index, empty after its failed load, from the record headers
      and saves it. */
  method RebuildIndex(dir: Directory, n: nat, index: FileIndex) returns (ok: bool)
    requires dir.Valid() && Rebuildable(Last(dir.run), n)
    requires index.Valid() && index.ram == map[] && index.fdata.View() == EMPTY_TABLE
    modifies dir, index
    ensures dir.Valid() && ok && Begins(old(dir.run), dir.run)
    ensures Last(dir.run) == Last(old(dir.run)).(disk := dir.disk)
    ensures dir.disk.data == old(dir.disk.data) && dir.disk.idx.Keys == old(dir.disk.idx.Keys) + {n}
    ensures forall m | m != n && m in dir.disk.idx :: m in old(dir.disk.idx) && dir.disk.idx[m] == old(dir.disk.idx[m])
    ensures Indexed(dir.disk, n)
  {
    hide ValidRun, Load, Good, FileBytes, FirstIndex, IsSave, Begins, Inv, ValidTable;
    DataIsBounded(dir, n);
    ghost var rs := dir.Recs()[n];
    var size := |dir.disk.data[n]|;
    ok := WalkHeaders(index, dir.disk.data[n], rs);
    WalkedCount(rs);
    RamOnly(FirstIndex(rs));
    var image, keys := dir.SaveIndex(index, n, size);
    dir.RecordRebuild(n, image, keys);
  }

  lemma WalkedCount(rs: seq<Rec>)
    requires Good(rs) && |FileBytes(rs)| < SIZE_LIMIT
    ensures |FirstIndex(rs)| < COUNT_LIMIT
  {
    hide Good, FirstIndex, FileBytes;
    FirstIndexCount(rs);
    GoodIsSpaced(rs);
    RecordsFit(rs);
  }

  /** One file of `recover_files`: load its index, and rebuild it on an index
      error. Not ok is the exception a short index file would raise. */
  method RecoverFile(dir: Directory, n: nat, ghost done: seq<nat>) returns (ok: bool)
    requires dir.Valid() && Last(dir.run).session.Down? && n in dir.disk.data
    requires forall j | 0 <= j < |done| :: Indexed(dir.disk, done[j])
    modifies dir
    ensures dir.Valid() && ok && Begins(old(dir.run), dir.run)
    ensures Last(dir.run) == Last(old(dir.run)).(disk := dir.disk)
    ensures dir.disk.data == old(dir.disk.data)
    ensures Indexed(dir.disk, n) && forall j | 0 <= j < |done| :: Indexed(dir.disk, done[j])
  {
    hide ValidRun, Load, Good, FileBytes, Begins, Inv, ValidTable, Faithful;
    DataIsBounded(dir, n);
    BeginsSelf(dir.run);
    var index := new FileIndex();
    var size := |dir.disk.data[n]|;
    var r := index.Load(IdxOf(dir.disk, n), size);
    ok := !r.ShortRead?;
    if r.IsIndexError() {
      ghost var before := dir.disk;
      ok := RebuildIndex(dir, n, index);
      StillIndexed(before, dir.disk, n, done);
    }
  }

  lemma StillIndexed(before: Disk, after: Disk, n: nat, done: seq<nat>)
    requires after.data == before.data && Indexed(after, n)
    requires forall m | m != n && m in after.idx :: m in before.idx && after.idx[m] == before.idx[m]
    requires after.idx.Keys == before.idx.Keys + {n}
    requires forall j | 0 <= j < |done| :: Indexed(before, done[j])
    ensures forall j | 0 <= j < |done| :: Indexed(after, done[j])
  {
    hide Load;
    forall j | 0 <= j < |done|
      ensures Indexed(after, done[j])
    {
      var m := done[j];
      if m != n {
        assert m in after.idx.Keys <==> m in before.idx.Keys;
        assert IdxOf(after, m) == IdxOf(before, m);
      }
    }
  }

  lemma AllIndexed(disk: Disk, known: seq<nat>)
    requires forall n: nat :: n in known <==> n in disk.data
    requires forall j | 0 <= j < |known| :: Indexed(disk, known[j])
    ensures AllLoad(disk)
  {
    hide Load;
    forall n | n in disk.data
      ensures |disk.data[n]| < SIZE_LIMIT && Load(IdxOf(disk, n), |disk.data[n]|).Loaded?
    {
      var j :| 0 <= j < |known| && known[j] == n;
      assert Indexed(disk, known[j]);
    }
  }

  /** `recover_files`: afterwards every data file has an index that loads, so
      the pool opens. None of its exceptions can occur. */
  method RecoverFiles(dir: Directory) returns (ok: bool)
    requires dir.Valid()
    modifies dir
    ensures dir.Valid() && ok && AllLoad(dir.disk)
    ensures Begins(old(dir.run), dir.run) && Last(dir.run).session.Down?
    ensures dir.disk.data == old(dir.disk.data) && dir.Recs() == old(dir.Recs())
  {
    hide ValidRun, Begins, Inv, Indexed, AllLoad;
    ghost var start, data, recs := dir.run, dir.disk.data, dir.Recs();
    dir.RecordStop();
    ok := true;
    var known := FindPoolFiles(dir);
    for i := 0 to |known|
      invariant dir.Valid() && ok && Begins(start, dir.run) && Last(dir.run).session.Down?
      invariant dir.disk.data == data && dir.Recs() == recs
      invariant forall j | 0 <= j < i :: Indexed(dir.disk, known[j])
    {
      ghost var before := dir.run;
      assert known[i] in known;
      var done := RecoverFile(dir, known[i], known[..i]);
      ok := ok && done;
      BeginsTransitive(start, before, dir.run);
    }
    AllIndexed(dir.disk, known);
  }

  // ---------------------------------------------------------------------
  // Opening

  ghost function Numbers(known: seq<nat>): set<nat> {
    set n | n in known
  }

  /** One more number, above those before it. */
  lemma NumbersStep(known: seq<nat>, i: nat)
    requires Ascending(known) && i < |known|
    ensures Numbers(known[..i + 1]) == Numbers(known[..i]) + {known[i]}
    ensures forall n | n in Numbers(known[..i]) :: n < known[i]
  {
    assert known[..i + 1] == known[..i] + [known[i]];
  }

  lemma ScannedAllLoad(vs: seq<OpenFile>, disk: Disk)
    requires Scanned(vs, disk) && forall n | n in disk.data :: |disk.data[n]| < SIZE_LIMIT
    ensures AllLoad(disk)
  {
    hide Load;
    forall n | n in disk.data
      ensures Load(IdxOf(disk, n), |disk.data[n]|).Loaded?
    {
      assert n in disk.data.Keys && Lists(vs, n);
      var i :| 0 <= i < |vs| && vs[i].pos == n;
      assert Clean(vs[i], disk);
    }
  }

  lemma NotAllLoad(disk: Disk, n: nat)
    requires n in disk.data && !Indexed(disk, n)
    ensures !AllLoad(disk)
  {
    hide Load;
  }

  lemma AllBounded(dir: Directory)
    requires dir.Valid()
    ensures forall n | n in dir.disk.data :: |dir.disk.data[n]| < SIZE_LIMIT
  {
    hide ValidRun, Load, Good, FileBytes, LoadAccepted;
    forall n | n in dir.disk.data
      ensures |dir.disk.data[n]| < SIZE_LIMIT
    {
      DataIsBounded(dir, n);
    }
  }

  /** The file constructor without `create`: not ok when the index does not
      load. */
  method OpenFileAt(dir: Directory, n: nat) returns (file: File, ok: bool)
    requires n in dir.disk.data && |dir.disk.data[n]| < SIZE_LIMIT
    ensures fresh(file) && fresh(file.index) && fresh(file.index.fdata)
    ensures file.pos == n && file.size == |dir.disk.data[n]|
    ensures ok <==> Indexed(dir.disk, n)
    ensures ok ==> Clean(file.View(), dir.disk)
  {
    hide Load;
    file := new File(n, |dir.disk.data[n]|);
    var r := file.index.Load(IdxOf(dir.disk, n), file.size);
    ok := r.Loaded?;
  }

  /** `scan_files`: opens every data file, or gives up at the first index that
      does not load. */
  method ScanFiles(dir: Directory) returns (files: seq<File>, ghost vs: seq<OpenFile>, ok: bool)
    requires forall n | n in dir.disk.data :: |dir.disk.data[n]| < SIZE_LIMIT
    ensures ok <==> AllLoad(dir.disk)
    ensures ok ==> Scanned(vs, dir.disk) && Shows(vs, files) && Separate(files)
  {
    hide OpenedFrom, AllLoad, Clean, Indexed, Ascending;
    var known := FindPoolFiles(dir);
    files, vs := [], [];
    OpenedNone(dir.disk);
    assert Numbers(known[..0]) == {};
    for i := 0 to |known|
      invariant Shows(vs, files) && Separate(files)
      invariant OpenedFrom(vs, dir.disk, Numbers(known[..i]))
    {
      assert known[i] in known;
      var file;
      file, ok := OpenFileAt(dir, known[i]);
      if !ok {
        NotAllLoad(dir.disk, known[i]);
        return;
      }
      NumbersStep(known, i);
      OpenedCons(file.View(), vs, dir.disk, Numbers(known[..i]));
      assert forall j | 0 <= j < |files| :: Apart(file, files[j]);
      ShowsCons(file, files, vs);
      SeparateCons(file, files);
      vs, files := [file.View()] + vs, [file] + files;
    }
    assert known[..|known|] == known;
    assert Numbers(known) == dir.disk.data.Keys;
    ScannedAllLoad(vs, dir.disk);
    ok := true;
  }

  /** The constructor of the pool: None is the exception for an index that does
      not load. It opens exactly the directories where every data file has an
      index with its own stamp. */
  method OpenPool(dir: Directory, writable: bool, limit: nat, newfile: bool) returns (pool: Option<Pool>)
    requires dir.Valid()
    modifies dir`run
    ensures dir.Valid() && Begins(old(dir.run), dir.run) && dir.Recs() == old(dir.Recs())
    ensures pool.Some? <==> AllLoad(dir.disk)
    ensures pool.Some? ==>
              && fresh(pool.value) && pool.value.Valid() && pool.value.dir == dir
              && !pool.value.dirty && pool.value.firstNewfile == newfile
              && pool.value.writable == writable && pool.value.limit == limit
  {
    hide ValidRun, Begins, Inv, AllLoad, Scanned;
    ghost var start := dir.run;
    dir.RecordStop();
    AllBounded(dir);
    var files, vs, ok := ScanFiles(dir);
    if !ok {
      return None;
    }
    ghost var middle := dir.run;
    dir.RecordOpen(vs, newfile);
    BeginsTransitive(start, middle, dir.run);
    var p := new Pool(dir, writable, limit, files, newfile);
    pool := Some(p);
  }
}
