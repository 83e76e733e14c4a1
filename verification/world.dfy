/** The pool and its directory as a state machine. A step is one write to the
    directory or one change of the open pool, so the states between steps are
    exactly the states a crash can leave behind. */
module Worlds {
  import opened Bytes
  import opened Oids
  import opened Chunks
  import opened IndexTables
  import opened FileIndexes
  import opened Layout

  /** The directory: data files, index files and temporary index files. */
  datatype Disk = Disk(data: map<nat, seq<byte>>, idx: map<nat, seq<byte>>, tmp: map<nat, seq<byte>>)

  datatype OpenFile = OpenFile(pos: nat, size: u32, ram: NodeMap, table: Table)

  /** Files are listed newest first. */
  datatype Session = Down | Up(files: seq<OpenFile>, dirty: bool, firstNew: bool)

  /** `recs` remembers, per data file, which appended chunks it still holds. */
  datatype World = World(disk: Disk, session: Session, recs: map<nat, seq<Rec>>)

  datatype Action =
    | Open(newfile: bool)
    | NewFile
    | Reuse
    | Append(rec: Rec)
    | WriteTmp(n: nat, bytes: seq<byte>)
    | Publish(keys: seq<Oid>)
    | Reload
    | Stop(kept: nat)
    | Rebuild(file: nat, sorted: seq<Oid>)

  const KIND_LIMIT: nat := 256

  function IdxOf(disk: Disk, n: nat): Option<seq<byte>> {
    if n in disk.idx then Some(disk.idx[n]) else None
  }

  // ---------------------------------------------------------------------
  // Steps

  ghost predicate Descending(files: seq<OpenFile>) {
    forall i, j | 0 <= i < j < |files| :: files[i].pos > files[j].pos
  }

  ghost predicate Lists(files: seq<OpenFile>, n: nat) {
    exists i :: 0 <= i < |files| && files[i].pos == n
  }

  ghost predicate Clean(f: OpenFile, disk: Disk) {
    f.ram == map[] && Load(IdxOf(disk, f.pos), f.size) == Loaded(f.table)
  }

  /** The files opened from the disk are those of these numbers, each as long as
      its data and with its index. */
  ghost predicate OpenedFrom(files: seq<OpenFile>, disk: Disk, ns: set<nat>) {
    && Descending(files)
    && (forall n: nat :: n in ns <==> Lists(files, n))
    && (forall i | 0 <= i < |files| ::
          files[i].pos in disk.data && files[i].size == |disk.data[files[i].pos]| && Clean(files[i], disk))
  }

  ghost predicate Scanned(files: seq<OpenFile>, disk: Disk) {
    OpenedFrom(files, disk, disk.data.Keys)
  }

  /** `scan_files`, when every index loads; otherwise it throws. */
  ghost predicate DoOpen(w: World, newfile: bool, w': World) {
    && w.session.Down? && w'.session.Up?
    && w' == w.(session := Up(w'.session.files, false, newfile))
    && Scanned(w'.session.files, w.disk)
  }

  function NextNumber(files: seq<OpenFile>): nat {
    if files == [] then 0 else files[0].pos + 1
  }

  function OrEmpty<T>(m: map<nat, seq<T>>, n: nat): seq<T> {
    if n in m then m[n] else []
  }

  /** `prepare_write` opening a file in append mode, which creates it unless
      it exists. */
  ghost predicate DoNewFile(w: World, w': World) {
    && w.session.Up? && !w.session.dirty
    && var n := NextNumber(w.session.files);
    && |OrEmpty(w.disk.data, n)| < SIZE_LIMIT
    && w' == World(
                w.disk.(data := w.disk.data[n := OrEmpty(w.disk.data, n)]),
                Up([OpenFile(n, |OrEmpty(w.disk.data, n)|, map[], EMPTY_TABLE)] + w.session.files, true, false),
                w.recs[n := OrEmpty(w.recs, n)])
  }

  /** `prepare_write` making the newest file writable. */
  ghost predicate DoReuse(w: World, w': World) {
    && w.session.Up? && !w.session.dirty && w.session.files != []
    && w' == w.(session := Up(w.session.files, true, false))
  }

  ghost predicate Writing(w: World) {
    w.session.Up? && w.session.dirty && w.session.files != [] && w.session.files[0].pos in w.disk.data
    && w.session.files[0].pos in w.recs
  }

  ghost predicate Fits(size: nat, rs: seq<Rec>, rec: Rec) {
    IsRec(rec) && size + |rec.bytes| < SIZE_LIMIT && |RecKinds(rs + [rec])| <= KIND_LIMIT
  }

  /** `insert`: append the record, enter it in the RAM index, grow the size. */
  ghost predicate DoAppend(w: World, rec: Rec, w': World) {
    && Writing(w)
    && var f := w.session.files[0];
    && Fits(f.size, w.recs[f.pos], rec)
    && w' == World(
                w.disk.(data := w.disk.data[f.pos := w.disk.data[f.pos] + rec.bytes]),
                w.session.(files := w.session.files[0 := Grown(f, rec)]),
                w.recs[f.pos := w.recs[f.pos] + [rec]])
  }

  ghost function Grown(f: OpenFile, rec: Rec): OpenFile
    requires f.size + |rec.bytes| < SIZE_LIMIT
  {
    OpenFile(f.pos, f.size + |rec.bytes|,
             Entered(f.ram, rec.stored.oid, Node(f.size, rec.stored.kind)), f.table)
  }

  /** Any bytes may stand in a temporary file while an index is being saved. */
  ghost predicate DoWriteTmp(w: World, n: nat, bytes: seq<byte>, w': World) {
    w' == w.(disk := w.disk.(tmp := w.disk.tmp[n := bytes]))
  }

  /** The temporary file holds what a save of this index writes. */
  ghost predicate SavedTmp(disk: Disk, n: nat, ram: NodeMap, t: Table, size: u32, keys: seq<Oid>)
    ensures SavedTmp(disk, n, ram, t, size, keys) ==> n in disk.tmp && ValidTable(t)
  {
    && n in disk.tmp && ValidTable(t) && IsKeyVector(keys, ram, t) && Saveable(keys, Meaning(ram, t))
    && disk.tmp[n] == Emit(SavedTable(keys, Meaning(ram, t)), size)
  }

  function Renamed(disk: Disk, n: nat): Disk
    requires n in disk.tmp
  {
    disk.(idx := disk.idx[n := disk.tmp[n]], tmp := disk.tmp - {n})
  }

  /** `flush` renaming the complete temporary file over the index. */
  ghost predicate DoPublish(w: World, keys: seq<Oid>, w': World) {
    && Writing(w)
    && var f := w.session.files[0];
    && SavedTmp(w.disk, f.pos, f.ram, f.table, f.size, keys)
    && w' == w.(disk := Renamed(w.disk, f.pos))
  }

  /** `flush` loading the index back. */
  ghost predicate DoReload(w: World, w': World) {
    && Writing(w)
    && var f := w.session.files[0];
    && var r := Load(IdxOf(w.disk, f.pos), f.size);
    && r.Loaded?
    && w' == w.(session := Up(w.session.files[0 := f.(ram := map[], table := r.table)], false, w.session.firstNew))
  }

  /** The size an index file is stamped with, which no file and no header
      lack. */
  function Stamp(image: Option<seq<byte>>): nat {
    if image.None? || |image.value| < 16 then 0 else FromLe32(image.value[12..16])
  }

  /** The first records of the file are those its stream has let go of for
      certain: they reach as far as its saved index says. */
  ghost predicate Survives(w: World, n: nat, kept: nat)
    requires n in w.recs
  {
    kept <= |w.recs[n]| && Stamp(IdxOf(w.disk, n)) <= Offset(w.recs[n], kept)
  }

  ghost function Cut(w: World, n: nat, kept: nat): World
    requires n in w.recs && n in w.disk.data
    requires kept <= |w.recs[n]| && Offset(w.recs[n], kept) <= |w.disk.data[n]|
  {
    World(w.disk.(data := w.disk.data[n := w.disk.data[n][..Offset(w.recs[n], kept)]]),
          Down, w.recs[n := w.recs[n][..kept]])
  }

  /** A crash, or the end of the process. Of what was appended since the last
      save any number of records may still be in the stream, and be lost. */
  ghost predicate DoStop(w: World, kept: nat, w': World) {
    if w.session.Up? && w.session.dirty then
      && Writing(w)
      && var n := w.session.files[0].pos;
      && Survives(w, n, kept) && Offset(w.recs[n], kept) <= |w.disk.data[n]|
      && w' == Cut(w, n, kept)
    else w' == w.(session := Down)
  }

  /** `recover_files` replacing one rejected index by that of the header walk. */
  ghost predicate DoRebuild(w: World, n: nat, keys: seq<Oid>, w': World) {
    && w.session.Down? && n in w.disk.data && n in w.recs
    && |FileBytes(w.recs[n])| < SIZE_LIMIT && |w.disk.data[n]| < SIZE_LIMIT
    && Load(IdxOf(w.disk, n), |w.disk.data[n]|).IsIndexError()
    && SavedTmp(w.disk, n, FirstIndex(w.recs[n]), EMPTY_TABLE, |w.disk.data[n]|, keys)
    && w' == w.(disk := Renamed(w.disk, n))
  }

  ghost predicate Next(w: World, a: Action, w': World) {
    match a
    case Open(newfile) => DoOpen(w, newfile, w')
    case NewFile => DoNewFile(w, w')
    case Reuse => DoReuse(w, w')
    case Append(rec) => DoAppend(w, rec, w')
    case WriteTmp(n, bytes) => DoWriteTmp(w, n, bytes, w')
    case Publish(keys) => DoPublish(w, keys, w')
    case Reload => DoReload(w, w')
    case Stop(kept) => DoStop(w, kept, w')
    case Rebuild(n, keys) => DoRebuild(w, n, keys, w')
  }

  // ---------------------------------------------------------------------
  // The invariant

  ghost predicate DataInv(disk: Disk, recs: map<nat, seq<Rec>>, n: nat) {
    && n in disk.data && n in recs
    && Good(recs[n]) && disk.data[n] == FileBytes(recs[n])
    && |disk.data[n]| < SIZE_LIMIT && |RecKinds(recs[n])| <= KIND_LIMIT
  }

  /** The image is a faithful index of the first k records, and is stamped
      with the size the file had when it ended there. */
  ghost predicate StampedAt(image: seq<byte>, rs: seq<Rec>, k: nat, t: Table) {
    && k <= |rs| && ValidTable(t) && Emittable(t) && |t.hashes| <= k
    && |FileBytes(rs[..k])| < SIZE_LIMIT
    && image == Emit(t, |FileBytes(rs[..k])|)
    && Faithful(TableMap(t), rs[..k])
  }

  ghost predicate Stamped(image: seq<byte>, rs: seq<Rec>) {
    exists k: nat, t :: StampedAt(image, rs, k, t)
  }

  ghost predicate DiskInv(disk: Disk, recs: map<nat, seq<Rec>>) {
    && disk.data.Keys == recs.Keys
    && (forall n | n in recs :: DataInv(disk, recs, n))
    && (forall n | n in disk.idx :: n in recs && Stamped(disk.idx[n], recs[n]))
  }

  ghost predicate MemInv(f: OpenFile, rs: seq<Rec>) {
    && f.size == |FileBytes(rs)|
    && ValidTable(f.table)
    && |f.ram| + |f.table.hashes| <= |rs|
    && Faithful(Meaning(f.ram, f.table), rs)
  }

  ghost predicate OpenInv(f: OpenFile, recs: map<nat, seq<Rec>>) {
    f.pos in recs && MemInv(f, recs[f.pos])
  }

  /** Files descend, are those on disk, and mean what was appended to them;
      only the front file, and only while dirty, differs from its index. */
  ghost predicate FilesInv(files: seq<OpenFile>, dirty: bool, disk: Disk, recs: map<nat, seq<Rec>>) {
    && Descending(files)
    && (forall n: nat :: n in recs <==> Lists(files, n))
    && (forall i | 0 <= i < |files| :: OpenInv(files[i], recs))
    && (forall i | 0 <= i < |files| :: i > 0 || !dirty ==> Clean(files[i], disk))
    && (dirty ==> files != [])
  }

  /** Also, `newfile` no longer applies once something is being written. */
  ghost predicate Inv(w: World) {
    DiskInv(w.disk, w.recs)
    && (w.session.Up? ==>
          && FilesInv(w.session.files, w.session.dirty, w.disk, w.recs)
          && !(w.session.dirty && w.session.firstNew))
  }

  // ---------------------------------------------------------------------
  // What a load accepts

  lemma StampTells(rs: seq<Rec>, k: nat)
    requires Good(rs) && k <= |rs|
    ensures |FileBytes(rs[..k])| == |FileBytes(rs)| <==> k == |rs|
  {
    assert rs[..|rs|] == rs;
    if k < |rs| {
      GoodIsSpaced(rs);
      OffsetsIncrease(rs, k, |rs|);
    }
  }

  ghost predicate Accepts(r: LoadResult, rs: seq<Rec>) {
    && (r.Missing? || r.WrongSize? || r.Loaded?)
    && (r.Loaded? ==> ValidTable(r.table) && |r.table.hashes| <= |rs| && Faithful(TableMap(r.table), rs))
  }

  lemma LoadStamped(image: seq<byte>, rs: seq<Rec>, k: nat, t: Table)
    requires StampedAt(image, rs, k, t) && Good(rs) && |FileBytes(rs)| < SIZE_LIMIT
    ensures Accepts(Load(Some(image), |FileBytes(rs)|), rs)
    ensures Load(Some(image), |FileBytes(rs)|).Loaded? <==> k == |rs|
  {
    hide Load, Emit, Emittable, Sorted, IsFanOut, Faithful, FileBytes, Good;
    EmitLoad(t, |FileBytes(rs[..k])|, |FileBytes(rs)|);
    StampTells(rs, k);
    assert rs[..|rs|] == rs;
  }

  lemma MissingLoads(size: u32)
    ensures Load(None, size) == Missing
  {
  }

  ghost predicate LoadAccepted(disk: Disk, recs: map<nat, seq<Rec>>, n: nat) {
    n in recs && n in disk.data && |disk.data[n]| < SIZE_LIMIT
    && Accepts(Load(IdxOf(disk, n), |disk.data[n]|), recs[n])
  }

  /** An index on disk is accepted exactly when its stamp is the size of the
      file, and then it covers the whole file; any other is turned away with
      an index error, never with a short read. */
  lemma LoadIsFaithful(disk: Disk, recs: map<nat, seq<Rec>>, n: nat)
    requires DiskInv(disk, recs) && n in recs
    ensures LoadAccepted(disk, recs, n)
  {
    hide Load, StampedAt, FileBytes, Good, Faithful, ValidTable;
    assert DataInv(disk, recs, n);
    MissingLoads(|disk.data[n]|);
    if n in disk.idx {
      assert Stamped(disk.idx[n], recs[n]);
      var k: nat, t :| StampedAt(disk.idx[n], recs[n], k, t);
      LoadStamped(disk.idx[n], recs[n], k, t);
    }
  }

  // ---------------------------------------------------------------------
  // Every step keeps the invariant

  lemma EmptyRam(t: Table)
    requires ValidTable(t)
    ensures Meaning(map[], t) == TableMap(t)
  {
  }

  lemma OpenKeeps(w: World, newfile: bool, w': World)
    requires Inv(w) && DoOpen(w, newfile, w')
    ensures Inv(w')
  {
    hide Load, ValidTable, Faithful, Good, Stamped, TableMap;
    var files := w'.session.files;
    forall i | 0 <= i < |files|
      ensures OpenInv(files[i], w.recs)
    {
      var n := files[i].pos;
      assert n in w.disk.data.Keys;
      assert DataInv(w.disk, w.recs, n);
      LoadIsFaithful(w.disk, w.recs, n);
      EmptyRam(files[i].table);
    }
    assert forall n: nat :: n in w.recs <==> n in w.disk.data;
  }

  lemma FrontIsLast(files: seq<OpenFile>, n: nat)
    requires Descending(files) && Lists(files, n)
    ensures n < NextNumber(files)
  {
    var i :| 0 <= i < |files| && files[i].pos == n;
  }

  /** A new file takes a number that no existing file has. */
  lemma NumberIsNew(w: World)
    requires Inv(w) && w.session.Up?
    ensures NextNumber(w.session.files) !in w.recs
    ensures NextNumber(w.session.files) !in w.disk.data && NextNumber(w.session.files) !in w.disk.idx
  {
    hide DataInv, OpenInv, Clean, Stamped, Lists;
    var n := NextNumber(w.session.files);
    if Lists(w.session.files, n) {
      FrontIsLast(w.session.files, n);
      assert false;
    }
    assert n !in w.recs.Keys;
  }

  lemma EmptyFile(n: nat)
    ensures MemInv(OpenFile(n, 0, map[], EMPTY_TABLE), [])
    ensures RecKinds([]) == {} && Good([]) && FileBytes([]) == []
  {
  }

  lemma NewFileDisk(w: World, w': World)
    requires Inv(w) && DoNewFile(w, w')
    ensures DiskInv(w'.disk, w'.recs)
  {
    hide Stamped, Clean, OpenInv, Load, IsRec, Good, FileBytes, RecKinds, MemInv;
    NumberIsNew(w);
    var n := NextNumber(w.session.files);
    EmptyFile(n);
    forall m | m in w'.recs
      ensures DataInv(w'.disk, w'.recs, m)
    {
      assert m != n ==> DataInv(w.disk, w.recs, m);
    }
    assert w'.disk.data.Keys == w'.recs.Keys;
  }

  lemma ConsFiles(files: seq<OpenFile>, f: OpenFile, disk: Disk, disk': Disk,
                  recs: map<nat, seq<Rec>>, recs': map<nat, seq<Rec>>)
    requires FilesInv(files, false, disk, recs)
    requires f.pos == NextNumber(files) && f.pos !in recs && OpenInv(f, recs')
    requires disk'.idx == disk.idx && recs' == recs[f.pos := recs'[f.pos]]
    ensures FilesInv([f] + files, true, disk', recs')
  {
    hide MemInv, Load, Lists;
    var all := [f] + files;
    forall i | 0 <= i < |all|
      ensures OpenInv(all[i], recs')
      ensures i > 0 ==> Clean(all[i], disk')
    {
      if i > 0 {
        assert all[i] == files[i - 1] && OpenInv(files[i - 1], recs) && Clean(files[i - 1], disk);
      }
    }
    ListsCons(files, f);
  }

  lemma NewFileKeeps(w: World, w': World)
    requires Inv(w) && DoNewFile(w, w')
    ensures Inv(w')
  {
    hide FilesInv, DiskInv, MemInv;
    NewFileDisk(w, w');
    NumberIsNew(w);
    EmptyFile(NextNumber(w.session.files));
    assert w'.disk.data[NextNumber(w.session.files)] == [];
    ConsFiles(w.session.files, w'.session.files[0], w.disk, w'.disk, w.recs, w'.recs);
  }

  lemma ListsCons(files: seq<OpenFile>, f: OpenFile)
    ensures forall n: nat :: Lists([f] + files, n) <==> n == f.pos || Lists(files, n)
  {
    var all := [f] + files;
    forall n: nat
      ensures Lists(all, n) <==> n == f.pos || Lists(files, n)
    {
      assert all[0] == f;
      if Lists(files, n) {
        var i :| 0 <= i < |files| && files[i].pos == n;
        assert all[i + 1].pos == n;
      }
      if Lists(all, n) {
        var i :| 0 <= i < |all| && all[i].pos == n;
        assert i > 0 ==> files[i - 1].pos == n;
      }
    }
  }

  lemma FrontChanges(files: seq<OpenFile>, f: OpenFile)
    requires files != [] && f.pos == files[0].pos
    ensures var files' := files[0 := f];
            && (Descending(files) ==> Descending(files'))
            && forall n: nat :: Lists(files', n) <==> Lists(files, n)
  {
    var files' := files[0 := f];
    assert forall i | 0 <= i < |files| :: files'[i].pos == files[i].pos;
    forall n: nat
      ensures Lists(files', n) <==> Lists(files, n)
    {
      if Lists(files, n) {
        var i :| 0 <= i < |files| && files[i].pos == n;
        assert files'[i].pos == n;
      }
      if Lists(files', n) {
        var i :| 0 <= i < |files| && files'[i].pos == n;
        assert files[i].pos == n;
      }
    }
  }

  lemma StampedStill(image: seq<byte>, rs: seq<Rec>, rec: Rec)
    requires Stamped(image, rs)
    ensures Stamped(image, rs + [rec])
  {
    hide Load, Emit, ValidTable, Faithful, Emittable, Good, FileBytes;
    var k: nat, t :| StampedAt(image, rs, k, t);
    assert (rs + [rec])[..k] == rs[..k];
    assert StampedAt(image, rs + [rec], k, t);
  }

  lemma MeaningEntered(ram: NodeMap, t: Table, key: Oid, node: Node)
    requires Shaped(t)
    ensures var m, m' := Meaning(ram, t), Meaning(Entered(ram, key, node), t);
            m' == m[key := node] || (m' == m && key in m)
  {
  }

  lemma GrownInv(f: OpenFile, rs: seq<Rec>, rec: Rec)
    requires MemInv(f, rs) && Fits(f.size, rs, rec)
    ensures MemInv(Grown(f, rec), rs + [rec])
  {
    hide IsRec, RecKinds, Sorted, IsFanOut, Faithful, TableMap, Meaning, FileBytes;
    var key, node := rec.stored.oid, Node(f.size, rec.stored.kind);
    FileBytesAppend(rs, rec);
    MeaningEntered(f.ram, f.table, key, node);
    FaithfulAppend(Meaning(f.ram, f.table), Meaning(Entered(f.ram, key, node), f.table), rs, rec);
  }

  lemma AppendData(disk: Disk, recs: map<nat, seq<Rec>>, n: nat, rec: Rec)
    requires DataInv(disk, recs, n) && Fits(|disk.data[n]|, recs[n], rec)
    ensures DataInv(disk.(data := disk.data[n := disk.data[n] + rec.bytes]), recs[n := recs[n] + [rec]], n)
  {
    FileBytesAppend(recs[n], rec);
    hide IsRec, FileBytes, RecKinds;
  }

  lemma AppendDisk(w: World, rec: Rec, w': World)
    requires Inv(w) && DoAppend(w, rec, w')
    ensures DiskInv(w'.disk, w'.recs)
  {
    hide Stamped, Clean, Load, ValidTable, IsRec, Good, FileBytes, RecKinds, Fits, Faithful, Meaning, Lists, Grown;
    var f := w.session.files[0];
    assert OpenInv(f, w.recs) && DataInv(w.disk, w.recs, f.pos);
    AppendData(w.disk, w.recs, f.pos, rec);
    forall n | n in w'.recs
      ensures DataInv(w'.disk, w'.recs, n)
    {
      assert DataInv(w.disk, w.recs, n);
    }
    forall n | n in w'.disk.idx
      ensures n in w'.recs && Stamped(w'.disk.idx[n], w'.recs[n])
    {
      if n == f.pos {
        StampedStill(w.disk.idx[n], w.recs[n], rec);
      }
    }
  }

  lemma AppendKeeps(w: World, rec: Rec, w': World)
    requires Inv(w) && DoAppend(w, rec, w')
    ensures Inv(w')
  {
    hide Stamped, DataInv, MemInv, Load, Lists, Entered, IsRec, RecKinds;
    AppendDisk(w, rec, w');
    var files, files' := w.session.files, w'.session.files;
    var f := files[0];
    GrownInv(f, w.recs[f.pos], rec);
    FrontChanges(files, Grown(f, rec));
    forall i | 0 <= i < |files'|
      ensures OpenInv(files'[i], w'.recs)
      ensures i > 0 ==> Clean(files'[i], w'.disk)
    {
      assert OpenInv(files[i], w.recs);
      assert i > 0 ==> files[i].pos != f.pos && files'[i] == files[i] && Clean(files[i], w.disk);
    }
  }

  lemma WriteTmpKeeps(w: World, n: nat, bytes: seq<byte>, w': World)
    requires Inv(w) && DoWriteTmp(w, n, bytes, w')
    ensures Inv(w')
  {
    hide Stamped, Load, OpenInv, Lists, Good;
    assert forall m | m in w.recs :: DataInv(w.disk, w.recs, m) ==> DataInv(w'.disk, w'.recs, m);
    assert forall f :: Clean(f, w.disk) ==> Clean(f, w'.disk);
  }

  /** A complete save of a faithful index is a faithful image of the file. */
  lemma SavedIsStamped(disk: Disk, n: nat, ram: NodeMap, t: Table, rs: seq<Rec>, keys: seq<Oid>)
    requires |FileBytes(rs)| < SIZE_LIMIT
    requires SavedTmp(disk, n, ram, t, |FileBytes(rs)|, keys)
    requires Faithful(Meaning(ram, t), rs) && |ram| + |t.hashes| <= |rs| && |RecKinds(rs)| <= KIND_LIMIT
    ensures Stamped(disk.tmp[n], rs)
  {
    hide Faithful, FileBytes, RecKinds, Emit, Emittable, SavedTable, TableMap, Meaning,
      Sorted, IsFanOut, Enumerates, IsKeyVector, KindsOf, Load;
    var m := Meaning(ram, t);
    var saved := SavedTable(keys, m);
    SavedEmittable(keys, ram, t);
    FaithfulKinds(m, rs);
    SavedTableMeaning(keys, m);
    assert rs[..|rs|] == rs;
    assert StampedAt(disk.tmp[n], rs, |rs|, saved);
  }

  lemma SavedEmittable(keys: seq<Oid>, ram: NodeMap, t: Table)
    requires ValidTable(t) && IsKeyVector(keys, ram, t) && Saveable(keys, Meaning(ram, t))
    ensures var saved := SavedTable(keys, Meaning(ram, t));
            ValidTable(saved) && Emittable(saved) && |saved.hashes| == |ram| + |t.hashes|
  {
    SavedTableValid(keys, Meaning(ram, t));
    KeyVectorEnumerates(keys, ram, t);
  }

  lemma RenameKeeps(w: World, n: nat)
    requires DiskInv(w.disk, w.recs) && n in w.disk.tmp && n in w.recs
    requires Stamped(w.disk.tmp[n], w.recs[n])
    ensures DiskInv(Renamed(w.disk, n), w.recs)
  {
    hide Stamped, Good, FileBytes;
    var disk := Renamed(w.disk, n);
    forall m | m in w.recs
      ensures DataInv(disk, w.recs, m)
    {
      assert DataInv(w.disk, w.recs, m);
    }
  }

  lemma PublishKeeps(w: World, keys: seq<Oid>, w': World)
    requires Inv(w) && DoPublish(w, keys, w')
    ensures Inv(w')
  {
    hide Stamped, SavedTmp, Load, Lists, Faithful, Good, FileBytes, RecKinds, TableMap, Meaning, ValidTable;
    var files := w.session.files;
    var f := files[0];
    assert OpenInv(f, w.recs) && DataInv(w.disk, w.recs, f.pos);
    SavedIsStamped(w.disk, f.pos, f.ram, f.table, w.recs[f.pos], keys);
    RenameKeeps(w, f.pos);
    forall i | 0 < i < |files|
      ensures Clean(files[i], w'.disk)
    {
      assert files[i].pos != f.pos && Clean(files[i], w.disk);
    }
  }

  lemma ReloadKeeps(w: World, w': World)
    requires Inv(w) && DoReload(w, w')
    ensures Inv(w')
  {
    hide Stamped, Load, Lists, Faithful, TableMap, Good, FileBytes, RecKinds;
    var files, files' := w.session.files, w'.session.files;
    var f, f' := files[0], files'[0];
    assert OpenInv(f, w.recs) && DataInv(w.disk, w.recs, f.pos);
    LoadIsFaithful(w.disk, w.recs, f.pos);
    EmptyRam(f'.table);
    FrontChanges(files, f');
    forall i | 0 <= i < |files'|
      ensures OpenInv(files'[i], w.recs) && Clean(files'[i], w.disk)
    {
      assert OpenInv(files[i], w.recs);
      assert i > 0 ==> files'[i] == files[i] && Clean(files[i], w.disk);
    }
  }

  lemma RamOnly(ram: NodeMap)
    ensures Meaning(ram, EMPTY_TABLE) == ram
  {
  }

  lemma RebuildKeeps(w: World, n: nat, keys: seq<Oid>, w': World)
    requires Inv(w) && DoRebuild(w, n, keys, w')
    ensures Inv(w')
  {
    assert n in w.disk.tmp;
    hide Stamped, SavedTmp, Load, Faithful, FirstIndex, Good, FileBytes, RecKinds, TableMap, Meaning;
    assert DataInv(w.disk, w.recs, n);
    FirstIndexFaithful(w.recs[n]);
    FirstIndexCount(w.recs[n]);
    RamOnly(FirstIndex(w.recs[n]));
    SavedIsStamped(w.disk, n, FirstIndex(w.recs[n]), EMPTY_TABLE, w.recs[n], keys);
    RenameKeeps(w, n);
  }

  lemma ReuseKeeps(w: World, w': World)
    requires Inv(w) && DoReuse(w, w')
    ensures Inv(w')
  {
    hide OpenInv, Clean, Lists, DiskInv;
  }

  lemma EmitStamp(t: Table, size: u32)
    requires |t.kindMap| < 0x1_0000_0000
    ensures Stamp(Some(Emit(t, size))) == size
  {
    hide Le32, FromLe32, EmitBody;
    Le32RoundTrip(size);
    assert Emit(t, size)[12..16] == Le32(size);
  }

  lemma StampOf(image: seq<byte>, rs: seq<Rec>, k: nat, t: Table)
    requires StampedAt(image, rs, k, t)
    ensures Stamp(Some(image)) == Offset(rs, k)
  {
    hide Emit, ValidTable, Faithful, TableMap, FileBytes, Stamp, IsFanOut;
    EmitStamp(t, |FileBytes(rs[..k])|);
  }

  /** A cut that spares what an index covers leaves it an index of a beginning
      of the file. */
  lemma StampedCut(image: seq<byte>, rs: seq<Rec>, kept: nat)
    requires Stamped(image, rs) && Good(rs)
    requires kept <= |rs| && Stamp(Some(image)) <= Offset(rs, kept)
    ensures Stamped(image, rs[..kept])
  {
    hide Emit, Emittable, ValidTable, Faithful, TableMap, FileBytes, Stamp;
    var k: nat, t :| StampedAt(image, rs, k, t);
    StampOf(image, rs, k, t);
    if kept < k {
      GoodIsSpaced(rs);
      OffsetsIncrease(rs, kept, k);
    }
    assert rs[..kept][..k] == rs[..k];
    assert StampedAt(image, rs[..kept], k, t);
  }

  lemma DataCut(rs: seq<Rec>, kept: nat)
    requires Good(rs) && |FileBytes(rs)| < SIZE_LIMIT && |RecKinds(rs)| <= KIND_LIMIT && kept <= |rs|
    ensures Offset(rs, kept) <= |FileBytes(rs)| && FileBytes(rs)[..Offset(rs, kept)] == FileBytes(rs[..kept])
    ensures Good(rs[..kept]) && |FileBytes(rs[..kept])| < SIZE_LIMIT && |RecKinds(rs[..kept])| <= KIND_LIMIT
  {
    hide FileBytes, IsRec, RecKinds;
    BytesCut(rs, kept);
    KindsCut(rs, kept);
  }

  lemma KindsCut(rs: seq<Rec>, kept: nat)
    requires kept <= |rs|
    ensures |RecKinds(rs[..kept])| <= |RecKinds(rs)|
  {
    forall k | k in RecKinds(rs[..kept])
      ensures k in RecKinds(rs)
    {
      var i :| 0 <= i < kept && rs[..kept][i].stored.kind == k;
      assert rs[i].stored.kind == k;
    }
    hide RecKinds;
    SubsetSize(RecKinds(rs[..kept]), RecKinds(rs));
  }

  lemma CutKeeps(w: World, n: nat, kept: nat)
    requires DiskInv(w.disk, w.recs) && n in w.recs && Survives(w, n, kept)
    ensures n in w.disk.data && Offset(w.recs[n], kept) <= |w.disk.data[n]|
    ensures DiskInv(Cut(w, n, kept).disk, Cut(w, n, kept).recs)
  {
    hide Stamped, Good, FileBytes, RecKinds, Stamp, Offset;
    assert DataInv(w.disk, w.recs, n);
    DataCut(w.recs[n], kept);
    var w' := Cut(w, n, kept);
    forall m | m in w'.recs
      ensures DataInv(w'.disk, w'.recs, m)
    {
      assert DataInv(w.disk, w.recs, m);
    }
    forall m | m in w'.disk.idx
      ensures m in w'.recs && Stamped(w'.disk.idx[m], w'.recs[m])
    {
      if m == n {
        StampedCut(w.disk.idx[n], w.recs[n], kept);
      }
    }
  }

  lemma StopKeeps(w: World, kept: nat, w': World)
    requires Inv(w) && DoStop(w, kept, w')
    ensures Inv(w')
  {
    hide DiskInv, FilesInv, Cut, Stamp, Offset;
    if w.session.Up? && w.session.dirty {
      CutKeeps(w, w.session.files[0].pos, kept);
      CutIsDown(w, w.session.files[0].pos, kept);
    }
  }

  lemma CutIsDown(w: World, n: nat, kept: nat)
    requires n in w.recs && n in w.disk.data
    requires kept <= |w.recs[n]| && Offset(w.recs[n], kept) <= |w.disk.data[n]|
    ensures Cut(w, n, kept).session.Down?
  {
  }

  /** A stop need not lose anything. */
  lemma StopWhole(w: World) returns (kept: nat)
    requires Inv(w)
    ensures Next(w, Stop(kept), w.(session := Down))
  {
    hide Stamped, Good, RecKinds, Lists, MemInv, Clean;
    kept := 0;
    if w.session.Up? && w.session.dirty {
      var n := w.session.files[0].pos;
      assert OpenInv(w.session.files[0], w.recs) && DataInv(w.disk, w.recs, n);
      kept := |w.recs[n]|;
      assert w.recs[n][..kept] == w.recs[n];
      StampWithin(w.disk, w.recs, n);
      assert w.disk.data[n][..|w.disk.data[n]|] == w.disk.data[n];
      assert w.disk.data[n := w.disk.data[n]] == w.disk.data && w.recs[n := w.recs[n]] == w.recs;
    }
  }

  /** No index claims to cover more than the file holds. */
  lemma StampWithin(disk: Disk, recs: map<nat, seq<Rec>>, n: nat)
    requires DiskInv(disk, recs) && n in recs
    ensures Stamp(IdxOf(disk, n)) <= |FileBytes(recs[n])|
  {
    hide Emit, Emittable, ValidTable, Faithful, TableMap, FileBytes, Stamp, Good, RecKinds;
    assert DataInv(disk, recs, n);
    NoStamp();
    if n in disk.idx {
      assert Stamped(disk.idx[n], recs[n]);
      var k: nat, t :| StampedAt(disk.idx[n], recs[n], k, t);
      StampOf(disk.idx[n], recs[n], k, t);
      BytesCut(recs[n], k);
    }
  }

  lemma NoStamp()
    ensures Stamp(None) == 0
  {
  }

  lemma StepKeeps(w: World, a: Action, w': World)
    requires Inv(w) && Next(w, a, w')
    ensures Inv(w')
  {
    hide Inv, DoOpen, DoNewFile, DoReuse, DoAppend, DoWriteTmp, DoPublish, DoReload, DoStop, DoRebuild;
    match a
    case Open(newfile) => OpenKeeps(w, newfile, w');
    case NewFile => NewFileKeeps(w, w');
    case Reuse => ReuseKeeps(w, w');
    case Append(rec) => AppendKeeps(w, rec, w');
    case WriteTmp(n, bytes) => WriteTmpKeeps(w, n, bytes, w');
    case Publish(keys) => PublishKeeps(w, keys, w');
    case Reload => ReloadKeeps(w, w');
    case Stop(kept) => StopKeeps(w, kept, w');
    case Rebuild(n, keys) => RebuildKeeps(w, n, keys, w');
  }
}
