/** The pool object over its directory. Every write it makes is recorded as a
    step of the state machine, so what holds of all runs holds at every point
    inside every operation. */
module Pools {
  import opened Bytes
  import opened Oids
  import opened Chunks
  import opened IndexTables
  import opened FileIndexes
  import opened Layout
  import opened Worlds
  import opened Runs

  /** The directory outlives the pools opened on it. */
  class Directory {
    var disk: Disk
    ghost var run: Run

    ghost predicate Valid()
      reads this
    {
      ValidRun(run) && Last(run).disk == disk
    }

    constructor ()
      ensures Valid() && run == Start
    {
      disk, run := EMPTY_WORLD.disk, Start;
    }

    ghost function Recs(): map<nat, seq<Rec>>
      reads this
    {
      Last(run).recs
    }

    /** What holds in every reachable state holds here. */
    lemma Reached()
      requires Valid()
      ensures Inv(Last(run)) && DiskInv(disk, Recs())
    {
      RunKeeps(run);
    }

    ghost method Step(a: Action, w: World)
      requires ValidRun(run) && Next(Last(run), a, w)
      modifies this`run
      ensures ValidRun(run) && Last(run) == w && run == Then(old(run), a, w)
    {
      run := Then(run, a, w);
    }

    /** `FileIndex::save`: write the temporary file, then rename it. */
    method SaveIndex(index: FileIndex, n: nat, size: u32) returns (image: seq<byte>, ghost keys: seq<Oid>)
      requires index.Valid()
      requires |index.ram| + |index.fdata.hashes| < COUNT_LIMIT
      modifies this`disk, index`findResult
      ensures IsSave(image, keys, old(index.ram), old(index.fdata.View()), size)
      ensures disk == Renamed(TmpWritten(old(disk), n, image), n)
    {
      image, keys := index.Image(size);
      disk := TmpWritten(disk, n, image);
      disk := Renamed(disk, n);
    }

    ghost method RecordNewFile()
      requires ValidRun(run) && Last(run).session.Up? && !Last(run).session.dirty
      requires var n := NextNumber(Last(run).session.files);
               && n !in Last(run).disk.data && n !in Last(run).recs
               && disk == Last(run).disk.(data := Last(run).disk.data[n := []])
      modifies this`run
      ensures Valid() && run.Then? && run.prev == old(run)
      ensures var n, s := NextNumber(Last(old(run)).session.files), Last(old(run)).session;
              && Last(run).session == Up([OpenFile(n, 0, map[], EMPTY_TABLE)] + s.files, true, false)
              && Recs() == Last(old(run)).recs[n := []]
    {
      var w := Last(run);
      var n := NextNumber(w.session.files);
      var w' := World(disk, Up([OpenFile(n, 0, map[], EMPTY_TABLE)] + w.session.files, true, false), w.recs[n := []]);
      assert DoNewFile(w, w');
      Step(NewFile, w');
    }

    ghost method RecordAppend(rec: Rec)
      requires ValidRun(run) && Writing(Last(run))
      requires var f := Last(run).session.files[0];
               && Fits(f.size, Last(run).recs[f.pos], rec)
               && disk == Appended(Last(run).disk, f.pos, rec.bytes)
      modifies this`run
      ensures Valid() && run.Then? && run.prev == old(run)
      ensures var w, f := Last(old(run)), Last(old(run)).session.files[0];
              && Last(run).session == w.session.(files := w.session.files[0 := Grown(f, rec)])
              && Recs() == w.recs[f.pos := w.recs[f.pos] + [rec]]
    {
      hide IsRec, RecKinds, ValidRun, DoOpen, DoNewFile, DoReuse, DoPublish, DoReload, DoStop, DoRebuild;
      var w, f := Last(run), Last(run).session.files[0];
      var w' := World(disk, w.session.(files := w.session.files[0 := Grown(f, rec)]),
                      w.recs[f.pos := w.recs[f.pos] + [rec]]);
      assert DoAppend(w, rec, w');
      Step(Append(rec), w');
    }

    /** Whatever was open on the directory is closed. */
    ghost method RecordStop()
      requires Valid()
      modifies this`run
      ensures Valid() && Last(run).session.Down? && Begins(old(run), run)
      ensures Last(run) == Last(old(run)).(session := Down)
    {
      hide Inv, Next, ValidRun;
      RunKeeps(run);
      var kept := StopWhole(Last(run));
      var before := run;
      Step(Stop(kept), Last(run).(session := Down));
      BeginsStep(before, before, run);
    }

    /** The process is killed while file n is being written: so many records of
        it, and no fewer than its saved index covers, have reached the disk. */
    method Crash(n: nat, size: nat, ghost kept: nat)
      requires Valid() && InFlight(Last(run), n) && n in Recs() && Survives(Last(run), n, kept)
      requires size == Offset(Recs()[n], kept)
      modifies this
      ensures Valid() && Last(run).session.Down? && Begins(old(run), run)
      ensures Recs() == old(Recs())[n := old(Recs())[n][..kept]]
    {
      hide Inv, ValidRun, Stamp, Offset;
      Reached();
      CutKeeps(Last(run), n, kept);
      hide DiskInv;
      ghost var w, before := Cut(Last(run), n, kept), run;
      WritingFront(Last(run));
      disk := disk.(data := disk.data[n := disk.data[n][..size]]);
      Step(Stop(kept), w);
      BeginsStep(before, before, run);
    }

    ghost method RecordOpen(vs: seq<OpenFile>, newfile: bool)
      requires Valid() && Last(run).session.Down? && Scanned(vs, disk)
      modifies this`run
      ensures Valid() && Begins(old(run), run)
      ensures Last(run) == Last(old(run)).(session := Up(vs, false, newfile))
    {
      hide Scanned, DoNewFile, DoReuse, DoAppend, DoPublish, DoReload, DoRebuild;
      var w := Last(run).(session := Up(vs, false, newfile));
      assert DoOpen(Last(run), newfile, w);
      Step(Open(newfile), w);
    }

    /** Records the two steps of a rebuild. */
    ghost method RecordRebuild(n: nat, image: seq<byte>, keys: seq<Oid>)
      requires ValidRun(run) && Rebuildable(Last(run), n)
      requires IsSave(image, keys, FirstIndex(Recs()[n]), EMPTY_TABLE, |Last(run).disk.data[n]|)
      requires disk == Renamed(TmpWritten(Last(run).disk, n, image), n)
      modifies this`run
      ensures Valid() && Begins(old(run), run)
      ensures Last(run) == Last(old(run)).(disk := disk)
      ensures n in disk.data && |disk.data[n]| < SIZE_LIMIT && Load(IdxOf(disk, n), |disk.data[n]|).Loaded?
    {
      hide Next, IsSave, Load, ValidRun, FirstIndex, Good;
      var w, before := Last(run), run;
      var w1, w2 := RebuildSteps(w, n, image, keys);
      Step(WriteTmp(n, image), w1);
      Step(Rebuild(n, keys), w2);
      assert Begins(before, run.prev.prev);
    }

    ghost method RecordReload(table: Table)
      requires Valid() && Writing(Last(run))
      requires var f := Last(run).session.files[0]; Load(IdxOf(disk, f.pos), f.size) == Loaded(table)
      modifies this`run
      ensures Valid() && run.Then? && run.prev == old(run)
      ensures var w := Last(old(run));
              Last(run) == w.(session := Up(w.session.files[0 := w.session.files[0].(ram := map[], table := table)],
                                            false, w.session.firstNew))
    {
      hide Load, ValidRun, DoOpen, DoNewFile, DoReuse, DoAppend, DoPublish, DoStop, DoRebuild;
      var w := Last(run);
      var f := w.session.files[0].(ram := map[], table := table);
      var w' := w.(session := Up(w.session.files[0 := f], false, w.session.firstNew));
      assert DoReload(w, w');
      Step(Reload, w');
    }

    /** Records the two steps of a save of the front file. */
    ghost method RecordSave(image: seq<byte>, keys: seq<Oid>)
      requires ValidRun(run) && Writing(Last(run))
      requires var f := Last(run).session.files[0];
               && IsSave(image, keys, f.ram, f.table, f.size)
               && disk == Renamed(TmpWritten(Last(run).disk, f.pos, image), f.pos)
      modifies this`run
      ensures Valid() && Begins(old(run), run)
      ensures Last(run) == Last(old(run)).(disk := disk)
      ensures var f := Last(run).session.files[0]; Load(IdxOf(disk, f.pos), f.size).Loaded?
    {
      hide Next, IsSave, Load, ValidRun;
      var w, before := Last(run), run;
      var w1, w2 := SaveSteps(w, image, keys);
      Step(WriteTmp(w.session.files[0].pos, image), w1);
      Step(Publish(keys), w2);
      assert Begins(before, run.prev.prev);
    }
  }

  lemma WritingFront(w: World)
    requires Inv(w) && w.session.Up? && w.session.dirty
    ensures Writing(w)
  {
    hide MemInv, DataInv, Stamped, Clean;
    assert OpenInv(w.session.files[0], w.recs);
    assert DataInv(w.disk, w.recs, w.session.files[0].pos);
  }

  /** The image of a save of this index, with the key vector it used. */
  ghost predicate IsSave(image: seq<byte>, keys: seq<Oid>, ram: NodeMap, t: Table, size: u32) {
    && ValidTable(t) && IsKeyVector(keys, ram, t) && Saveable(keys, Meaning(ram, t))
    && image == Emit(SavedTable(keys, Meaning(ram, t)), size)
  }

  function Appended(disk: Disk, n: nat, bytes: seq<byte>): Disk
    requires n in disk.data
  {
    disk.(data := disk.data[n := disk.data[n] + bytes])
  }

  function TmpWritten(disk: Disk, n: nat, image: seq<byte>): (d: Disk)
    ensures n in d.tmp
  {
    disk.(tmp := disk.tmp[n := image])
  }

  /** A data file whose index is rejected while no pool is open. */
  ghost predicate Rebuildable(w: World, n: nat) {
    && w.session.Down? && n in w.disk.data && n in w.recs
    && |FileBytes(w.recs[n])| < SIZE_LIMIT && |w.disk.data[n]| < SIZE_LIMIT
    && Load(IdxOf(w.disk, n), |w.disk.data[n]|).IsIndexError()
  }

  lemma RebuildSteps(w: World, n: nat, image: seq<byte>, keys: seq<Oid>) returns (w1: World, w2: World)
    requires Rebuildable(w, n)
    requires IsSave(image, keys, FirstIndex(w.recs[n]), EMPTY_TABLE, |w.disk.data[n]|)
    ensures && w1 == w.(disk := TmpWritten(w.disk, n, image)) && Next(w, WriteTmp(n, image), w1)
            && w2 == w1.(disk := Renamed(w1.disk, n)) && Next(w1, Rebuild(n, keys), w2)
            && Load(IdxOf(w2.disk, n), |w.disk.data[n]|).Loaded?
  {
    hide Emit, SavedTable, Sorted, IsFanOut, Enumerates, IsKeyVector, Load, Emittable, Meaning, FirstIndex,
      FileBytes, DoOpen, DoNewFile, DoReuse, DoAppend, DoReload, DoStop, DoPublish;
    var ram, size := FirstIndex(w.recs[n]), |w.disk.data[n]|;
    SavedEmittable(keys, ram, EMPTY_TABLE);
    EmitLoad(SavedTable(keys, Meaning(ram, EMPTY_TABLE)), size, size);
    w1 := w.(disk := TmpWritten(w.disk, n, image));
    w2 := w1.(disk := Renamed(w1.disk, n));
    assert SavedTmp(w1.disk, n, ram, EMPTY_TABLE, size, keys);
  }

  /** The two steps of a save, once its image is known. */
  lemma SaveSteps(w: World, image: seq<byte>, keys: seq<Oid>) returns (w1: World, w2: World)
    requires Writing(w)
    requires var f := w.session.files[0];
             IsSave(image, keys, f.ram, f.table, f.size)
    ensures var f := w.session.files[0];
            && w1 == w.(disk := TmpWritten(w.disk, f.pos, image)) && Next(w, WriteTmp(f.pos, image), w1)
            && w2 == w1.(disk := Renamed(w1.disk, f.pos)) && Next(w1, Publish(keys), w2)
            && Load(IdxOf(w2.disk, f.pos), f.size).Loaded?
  {
    hide Emit, SavedTable, Sorted, IsFanOut, Enumerates, IsKeyVector, Load, Emittable, Meaning,
      DoOpen, DoNewFile, DoReuse, DoAppend, DoReload, DoStop, DoRebuild;
    var f := w.session.files[0];
    SavedEmittable(keys, f.ram, f.table);
    EmitLoad(SavedTable(keys, Meaning(f.ram, f.table)), f.size, f.size);
    w1 := w.(disk := TmpWritten(w.disk, f.pos, image));
    w2 := w1.(disk := Renamed(w1.disk, f.pos));
    assert SavedTmp(w1.disk, f.pos, f.ram, f.table, f.size, keys);
  }

  class File {
    const pos: nat
    const index: FileIndex
    var size: u32

    constructor (pos: nat, size: u32)
      ensures this.pos == pos && this.size == size
      ensures fresh(index) && fresh(index.fdata)
      ensures View() == OpenFile(pos, size, map[], EMPTY_TABLE)
    {
      this.pos, this.size := pos, size;
      index := new FileIndex();
    }

    ghost function Parts(): set<object> {
      {this, index, index.fdata}
    }

    ghost function View(): OpenFile
      reads Parts()
    {
      OpenFile(pos, size, index.ram, index.fdata.View())
    }

    method Save(dir: Directory)
      requires dir.Valid() && Writing(Last(dir.run)) && Last(dir.run).session.files[0] == View()
      requires index.Valid() && |index.ram| + |index.fdata.hashes| < COUNT_LIMIT
      modifies dir, index`findResult
      ensures dir.Valid() && Begins(old(dir.run), dir.run)
      ensures Last(dir.run) == Last(old(dir.run)).(disk := dir.disk)
      ensures dir.disk.data == old(dir.disk.data)
      ensures Load(IdxOf(dir.disk, pos), size).Loaded?
    {
      hide ValidRun, Next, Load, IsSave, ValidTable, Begins;
      var image, keys := dir.SaveIndex(index, pos, size);
      dir.RecordSave(image, keys);
    }
  }

  ghost function AllParts(fs: seq<File>): set<object> {
    set f, o | f in fs && o in f.Parts() :: o
  }

  lemma PartsIn(fs: seq<File>, i: nat)
    requires i < |fs|
    ensures fs[i].Parts() <= AllParts(fs)
  {
    forall o | o in fs[i].Parts()
      ensures o in AllParts(fs)
    {
      assert fs[i] in fs;
    }
  }

  lemma PartsApart(fs: seq<File>, chunk: Chunk)
    ensures chunk.Obj() !in AllParts(fs) && chunk.Lib() as object !in AllParts(fs)
  {
  }

  ghost predicate Apart(a: File, b: File) {
    a != b && a.index != b.index && a.index.fdata != b.index.fdata
  }

  ghost predicate Separate(fs: seq<File>) {
    forall i, j | 0 <= i < j < |fs| :: Apart(fs[i], fs[j])
  }

  /** The file objects are in the states the session lists. */
  ghost predicate Shows(vs: seq<OpenFile>, fs: seq<File>)
    reads AllParts(fs)
  {
    |vs| == |fs| && forall i | 0 <= i < |fs| :: fs[i].View() == vs[i]
  }

  lemma SeparateCons(f: File, fs: seq<File>)
    requires Separate(fs) && forall i | 0 <= i < |fs| :: Apart(f, fs[i])
    ensures Separate([f] + fs)
  {
  }

  lemma ShowsCons(f: File, fs: seq<File>, vs: seq<OpenFile>)
    requires Shows(vs, fs)
    ensures Shows([f.View()] + vs, [f] + fs)
  {
  }

  /** Which file the next write goes to. */
  datatype Choice = Stay | ReuseFront | StartNew

  /** The decision of `prepare_write`. While dirty it tests the size against
      `write_pos`, which is never assigned and so is 0. */
  function Choose(firstNew: bool, dirty: bool, files: seq<OpenFile>, size: nat, limit: nat): Choice {
    if dirty then
      if 0 + size <= limit then Stay else StartNew
    else if firstNew || files == [] || files[0].size + size > limit then StartNew
    else ReuseFront
  }

  /** The file of this number is the one `prepare_write` chooses. */
  ghost predicate Chosen(firstNew: bool, dirty: bool, files: seq<OpenFile>, size: nat, limit: nat, pos: nat) {
    if Choose(firstNew, dirty, files, size, limit).StartNew? then pos == NextNumber(files)
    else files != [] && pos == files[0].pos
  }

  lemma IsChosen(firstNew: bool, dirty: bool, files: seq<OpenFile>, size: nat, limit: nat, pos: nat)
    requires if Choose(firstNew, dirty, files, size, limit).StartNew? then pos == NextNumber(files)
             else files != [] && pos == files[0].pos
    ensures Chosen(firstNew, dirty, files, size, limit, pos)
  {
  }

  /** A record of this kind and size keeps a file within the bounds on size and
      kinds that the 32-bit offsets and the kind bytes need. */
  ghost predicate RoomIn(recs: map<nat, seq<Rec>>, pos: nat, used: nat, kind: Kind, size: nat)
    ensures RoomIn(recs, pos, used, kind, size) ==> pos in recs
  {
    pos in recs && used + size < SIZE_LIMIT && |RecKinds(recs[pos]) + {kind}| <= KIND_LIMIT
  }

  lemma NewFileHasRoom(recs: map<nat, seq<Rec>>, pos: nat, kind: Kind, size: nat)
    requires size < SIZE_LIMIT && pos in recs && recs[pos] == []
    ensures RoomIn(recs, pos, 0, kind, size)
  {
    assert RecKinds([]) == {};
  }

  /** The data file with the highest number. */
  ghost predicate Newest(data: map<nat, seq<byte>>, n: nat) {
    n in data && forall m | m in data :: m <= n
  }

  /** One more than the highest number of a data file, or 0. */
  ghost predicate NextFree(data: map<nat, seq<byte>>, n: nat) {
    (forall m | m in data :: m < n) && (n > 0 ==> n - 1 in data)
  }

  /** Which data file a record of this size is put in, in terms of the directory
      alone. A file is added exactly when the record exceeds the limit while
      something is being written, and otherwise when `newfile` still applies,
      there is no file, or the newest has no room; it takes the next number.
      Any other record is put in the newest file. */
  ghost predicate Places(data: map<nat, seq<byte>>, firstNew: bool, dirty: bool, size: nat, limit: nat, pos: nat) {
    && (pos !in data <==>
          if dirty then size > limit
          else firstNew || data == map[] || exists n: nat :: Newest(data, n) && |data[n]| + size > limit)
    && (pos in data ==> Newest(data, pos))
    && (pos !in data ==> NextFree(data, pos))
  }

  /** The front file is the newest, as long as its data, and the next number is
      free. */
  lemma FrontPlace(w: World)
    requires Inv(w) && w.session.Up?
    ensures var files, data := w.session.files, w.disk.data;
            && (files == [] <==> data == map[])
            && (files != [] ==> Newest(data, files[0].pos) && files[0].size as int == |data[files[0].pos]|)
            && NextFree(data, NextNumber(files))
  {
    hide MemInv, Stamped, Clean, Good, FileBytes, RecKinds;
    var files, data := w.session.files, w.disk.data;
    assert forall n: nat :: n in data.Keys <==> Lists(files, n);
    if files != [] {
      FrontData(w);
      assert Lists(files, files[0].pos) && files[0].pos in data.Keys;
      forall m | m in data
        ensures m <= files[0].pos
      {
        assert m in data.Keys;
        FrontIsLast(files, m);
      }
    } else {
      assert data.Keys == {};
    }
  }

  lemma FrontData(w: World)
    requires Inv(w) && w.session.Up? && w.session.files != []
    ensures var f := w.session.files[0]; f.pos in w.disk.data && f.size as int == |w.disk.data[f.pos]|
  {
    hide Stamped, Clean, Good, FileBytes, RecKinds, ValidTable, Faithful;
    assert OpenInv(w.session.files[0], w.recs);
    assert DataInv(w.disk, w.recs, w.session.files[0].pos);
  }

  lemma OneNewest(data: map<nat, seq<byte>>, n: nat)
    requires Newest(data, n)
    ensures forall m: nat :: Newest(data, m) ==> m == n
  {
  }

  /** The decision of `prepare_write` places the record so. */
  lemma ChosenPlaces(w: World, size: nat, limit: nat, pos: nat)
    requires Inv(w) && w.session.Up?
    requires Chosen(w.session.firstNew, w.session.dirty, w.session.files, size, limit, pos)
    ensures Places(w.disk.data, w.session.firstNew, w.session.dirty, size, limit, pos)
  {
    hide Places, Chosen, Inv;
    FrontPlace(w);
    if w.session.dirty {
      NotWritingNothing(w);
    }
    ChoicePlaces(w.disk.data, w.session, size, limit, pos);
  }

  lemma ChoicePlaces(data: map<nat, seq<byte>>, s: Session, size: nat, limit: nat, pos: nat)
    requires s.Up? && Chosen(s.firstNew, s.dirty, s.files, size, limit, pos)
    requires (s.files == [] <==> data == map[]) && NextFree(data, NextNumber(s.files))
    requires s.files != [] ==>
               Newest(data, s.files[0].pos) && s.files[0].size as int == |data[s.files[0].pos]|
    requires s.dirty ==> s.files != []
    ensures Places(data, s.firstNew, s.dirty, size, limit, pos)
  {
    if s.files != [] {
      OneNewest(data, s.files[0].pos);
    }
    hide Newest;
    NextFreeIsNew(data, NextNumber(s.files));
    hide NextFree;
    assert s.files != [] ==> s.files[0].pos in data by {
      if s.files != [] {
        NewestIsThere(data, s.files[0].pos);
      }
    }
  }

  lemma NextFreeIsNew(data: map<nat, seq<byte>>, n: nat)
    requires NextFree(data, n)
    ensures n !in data
  {
  }

  lemma NewestIsThere(data: map<nat, seq<byte>>, n: nat)
    requires Newest(data, n)
    ensures n in data
  {
  }

  lemma Placed(r: Run, size: nat, limit: nat, choice: Choice, pos: nat)
    requires ValidRun(r) && Last(r).session.Up?
    requires var s := Last(r).session;
             && choice == Choose(s.firstNew, s.dirty, s.files, size, limit)
             && (if choice.StartNew? then pos == NextNumber(s.files) else s.files != [] && pos == s.files[0].pos)
    ensures var s, data := Last(r).session, Last(r).disk.data;
            && Places(data, s.firstNew, s.dirty, size, limit, pos)
            && (choice.StartNew? <==> pos !in data)
            && (!choice.StartNew? ==> s.files[0].size as int == |data[pos]|)
  {
    hide ValidRun, Inv, Places, Choose;
    RunKeeps(r);
    var s := Last(r).session;
    IsChosen(s.firstNew, s.dirty, s.files, size, limit, pos);
    ChosenPlaces(Last(r), size, limit, pos);
    NumberIsNew(Last(r));
    if !choice.StartNew? {
      FrontData(Last(r));
    }
  }

  lemma NotWritingNothing(w: World)
    requires Inv(w) && w.session.Up? && w.session.dirty
    ensures w.session.files != [] && !w.session.firstNew
  {
    hide DiskInv, OpenInv, Clean, Lists;
  }

  lemma SameNumbers(w: World)
    requires Inv(w)
    ensures w.disk.data.Keys == w.recs.Keys
  {
    hide FilesInv, DataInv, Stamped;
  }

  function SizeAfter(choice: Choice, files: seq<OpenFile>, size: nat): nat
    requires choice.StartNew? || files != []
  {
    if choice.StartNew? then size else files[0].size + size
  }

  /** A write respects the limit on the file size exactly when the record alone
      does and no dirty file is overfilled: the guard of the branch that stays
      in the file does not look at what the file already holds. */
  lemma LimitKeptExactlyWhen(firstNew: bool, dirty: bool, files: seq<OpenFile>, size: nat, limit: nat)
    requires dirty ==> files != []
    ensures SizeAfter(Choose(firstNew, dirty, files, size, limit), files, size) <= limit
            <==> size <= limit && (dirty ==> files[0].size + size <= limit)
  {
  }

  const LIMIT_LOWER_BOUND: nat := 0x10_0000
  const LIMIT_UPPER_BOUND: nat := 0x3FFF_FFFF

  // "blob"
  const BLOB: Kind := [98, 108, 111, 98]

  function PlainRec(oid: Oid, payload: seq<byte>): Rec
    requires |payload| < SIZE_LIMIT - 64 && |payload| % 16 == 0
  {
    var s := Stored(BLOB, oid, payload, None);
    Rec(s, Header(s) + payload)
  }

  lemma NoPad(payload: u32)
    requires payload % 16 == 0
    ensures PadLength(payload) == 0
  {
    hide PadLength;
    var pad := PadLength(payload);
    assert (payload + pad) % 16 == 0 && pad < 16;
  }

  lemma PlainRecIs(oid: Oid, payload: seq<byte>)
    requires |payload| < SIZE_LIMIT - 64 && |payload| % 16 == 0
    ensures IsRec(PlainRec(oid, payload)) && |PlainRec(oid, payload).bytes| == HEADER_SIZE + |payload|
  {
    hide PadLength, Padded, Header;
    var r := PlainRec(oid, payload);
    var pad: seq<byte> := [];
    NoPad(|payload|);
    assert r.bytes == Encode(r.stored, pad);
  }

  lemma AppendStep(w: World, rec: Rec) returns (w': World)
    requires Writing(w) && Fits(w.session.files[0].size, w.recs[w.session.files[0].pos], rec)
    ensures Next(w, Append(rec), w') && w'.session.Up? && w'.session.files != []
    ensures w'.session.dirty && |w'.session.files| == |w.session.files|
    ensures w'.session.files[0].pos == w.session.files[0].pos
    ensures w'.recs == w.recs[w.session.files[0].pos := w.recs[w.session.files[0].pos] + [rec]]
    ensures w'.session.files[0].size == w.session.files[0].size + |rec.bytes|
  {
    hide IsRec, RecKinds;
    var f := w.session.files[0];
    w' := World(w.disk.(data := w.disk.data[f.pos := w.disk.data[f.pos] + rec.bytes]),
                w.session.(files := w.session.files[0 := Grown(f, rec)]),
                w.recs[f.pos := w.recs[f.pos] + [rec]]);
    assert DoAppend(w, rec, w');
  }

  /** The steps of a first insert into an empty pool. */
  lemma FirstInsert(rec: Rec) returns (r: Run)
    requires IsRec(rec) && |rec.bytes| < SIZE_LIMIT
    ensures ValidRun(r) && Last(r).recs == map[0 := [rec]]
    ensures Last(r).session.Up? && Last(r).session.dirty && |Last(r).session.files| == 1
    ensures Last(r).session.files[0].size == |rec.bytes| && Last(r).session.files[0].pos == 0
  {
    hide IsRec, Load, RecKinds, DoAppend;
    var w1 := EMPTY_WORLD.(session := Up([], false, false));
    var f := OpenFile(0, 0, map[], EMPTY_TABLE);
    var w2 := World(w1.disk.(data := map[][0 := []]), Up([f] + w1.session.files, true, false), map[][0 := []]);
    assert DoOpen(EMPTY_WORLD, false, w1);
    assert DoNewFile(w1, w2);
    assert [] + [rec] == [rec];
    OneKind(rec);
    var w3 := AppendStep(w2, rec);
    assert w3.recs == map[0 := [rec]];
    var r1 := Then(Start, Open(false), w1);
    var r2 := Then(r1, NewFile, w2);
    r := Then(r2, Append(rec), w3);
    assert ValidRun(r1);
    assert ValidRun(r2);
  }

  lemma OneKind(rec: Rec)
    ensures |RecKinds([rec])| <= KIND_LIMIT
  {
    assert RecKinds([rec]) == {rec.stored.kind} by {
      assert [rec][0] == rec;
    }
  }

  /** The OIDs of two records name their contents. */
  lemma TwoNamed(w: World, a: Rec, b: Rec, inflate: Inflate)
    requires w.recs == map[0 := [a] + [b]] && a.stored.oid != b.stored.oid
    requires a.stored.original.None? && b.stored.original.None?
    ensures exists naming: Naming :: AllNamed(w, inflate, naming)
  {
    var x, y := Content(a.stored.kind, a.stored.payload), Content(b.stored.kind, b.stored.payload);
    var naming: Naming := (oid: Oid) => if oid == a.stored.oid then x else y;
    assert NamedRec(a.stored, inflate, naming) && NamedRec(b.stored, inflate, naming);
    hide NamedRec;
    assert Named(w.recs[0], inflate, naming);
    assert AllNamed(w, inflate, naming);
  }

  /** The limit is not kept, whatever limit a pool may have: a first chunk fills
      the file up to it, all but less than 16 bytes, an empty second one stays
      in it, and the file ends beyond the limit. The chunks have OIDs of their
      own, and the first any data of the right length that does not compress. */
  lemma LimitNotKept(limit: nat, a: Oid, b: Oid, payload: seq<byte>, inflate: Inflate)
    returns (r: Run, second: Rec, w': World)
    requires LIMIT_LOWER_BOUND <= limit < LIMIT_UPPER_BOUND && a != b
    requires |payload| == limit - limit % 16 - HEADER_SIZE
    ensures ValidRun(r) && Last(r).session.Up? && Last(r).session.dirty && |Last(r).session.files| == 1
    ensures Last(r).recs == map[0 := [PlainRec(a, payload)]] && second == PlainRec(b, [])
    ensures Last(r).session.files[0].size == HEADER_SIZE + |payload| <= limit && |second.bytes| == HEADER_SIZE
    ensures Choose(false, false, [], HEADER_SIZE + |payload|, limit).StartNew?
    ensures Choose(false, true, Last(r).session.files, HEADER_SIZE, limit).Stay?
    ensures Next(Last(r), Append(second), w') && w'.session.Up?
    ensures w'.session.files != [] && w'.session.files[0].size > limit
    ensures exists naming: Naming :: AllNamed(w', inflate, naming)
  {
    hide IsRec, ValidRun, Header, AllNamed, Next;
    WholeBlocks(limit);
    var first := PlainRec(a, payload);
    PlainRecIs(a, payload);
    second := PlainRec(b, []);
    PlainRecIs(b, []);
    r := FirstInsert(first);
    w' := SecondInsert(r, first, second);
    TwoNamed(w', first, second, inflate);
  }

  lemma WholeBlocks(limit: nat)
    requires limit >= HEADER_SIZE
    ensures (limit - limit % 16 - HEADER_SIZE) % 16 == 0
  {
  }

  lemma SameKind(a: Rec, b: Rec)
    requires a.stored.kind == b.stored.kind
    ensures |RecKinds([a] + [b])| <= KIND_LIMIT
  {
    var both := [a] + [b];
    assert RecKinds(both) == {b.stored.kind} by {
      assert both[1] == b;
    }
  }

  lemma SecondInsert(r: Run, first: Rec, second: Rec) returns (w': World)
    requires ValidRun(r) && Last(r).recs == map[0 := [first]] && IsRec(second)
    requires first.stored.kind == second.stored.kind
    requires Last(r).session.Up? && Last(r).session.dirty && |Last(r).session.files| == 1
    requires Last(r).session.files[0].pos == 0
    requires Last(r).session.files[0].size + |second.bytes| < SIZE_LIMIT
    ensures Next(Last(r), Append(second), w') && w'.session.Up? && w'.session.files != []
    ensures w'.session.files[0].size == Last(r).session.files[0].size + |second.bytes|
    ensures w'.recs == map[0 := [first] + [second]]
  {
    hide Inv, ValidRun, IsRec, RecKinds, Writing, Next;
    RunKeeps(r);
    WritingFront(Last(r));
    SameKind(first, second);
    w' := AppendStep(Last(r), second);
  }

  class Pool {
    const dir: Directory
    const writable: bool
    const limit: nat
    var files: seq<File>
    var dirty: bool
    var firstNewfile: bool

    ghost function Session(): Worlds.Session
      reads dir
    {
      Last(dir.run).session
    }

    ghost predicate Valid()
      reads this, dir, AllParts(files)
    {
      && dir.Valid() && Separate(files)
      && Session().Up? && Session().dirty == dirty && Session().firstNew == firstNewfile
      && Shows(Session().files, files)
    }

    constructor (dir: Directory, writable: bool, limit: nat, files: seq<File>, newfile: bool)
      requires dir.Valid() && Separate(files)
      requires var s := Last(dir.run).session;
               s.Up? && !s.dirty && s.firstNew == newfile && Shows(s.files, files)
      ensures Valid() && this.dir == dir && this.files == files
      ensures !dirty && firstNewfile == newfile && this.writable == writable && this.limit == limit
    {
      this.dir, this.writable, this.limit := dir, writable, limit;
      this.files, this.dirty, this.firstNewfile := files, false, newfile;
    }

    lemma FrontFacts()
      requires Valid() && dirty
      ensures files != [] && Session().files[0] == files[0].View()
      ensures Writing(Last(dir.run)) && files[0].pos in dir.Recs()
      ensures MemInv(files[0].View(), dir.Recs()[files[0].pos]) && DataInv(dir.disk, dir.Recs(), files[0].pos)
    {
      dir.Reached();
      hide ValidRun, Stamped, Clean, Lists, MemInv, Good, FileBytes, RecKinds, ValidTable, Faithful;
      var f := files[0].View();
      assert OpenInv(Session().files[0], dir.Recs());
      assert DataInv(dir.disk, dir.Recs(), f.pos);
    }

    /** The first half of `flush`: save the index of the front file. */
    method SaveFront()
      requires Valid() && dirty && files != []
      modifies dir, files[0].index`findResult
      ensures Valid()
      ensures Begins(old(dir.run), dir.run) && dir.Recs() == old(dir.Recs())
      ensures dir.disk.data == old(dir.disk.data)
      ensures Session() == old(Session())
      ensures Load(IdxOf(dir.disk, files[0].pos), files[0].size).Loaded?
    {
      hide ValidRun, Next, Load, MemInv, DataInv, Inv, ValidTable, Begins;
      FrontFacts();
      MemFacts(files[0].View(), dir.disk, dir.Recs());
      files[0].Save(dir);
    }

    /** The second half of `flush`: load the index back. */
    method ReloadFront() returns (ok: bool)
      requires Valid() && dirty && files != []
      requires Load(IdxOf(dir.disk, files[0].pos), files[0].size).Loaded?
      modifies this`dirty, dir`run, files[0].index`ram, files[0].index.fdata
      ensures Valid() && ok && !dirty
      ensures dir.run.Then? && dir.run.prev == old(dir.run) && dir.Recs() == old(dir.Recs())
      ensures NextNumber(Session().files) == NextNumber(old(Session().files))
    {
      hide ValidRun, Next, Load, MemInv, DataInv, Inv, ValidTable, Clean, Writing;
      FrontFacts();
      var file := files[0];
      var r := file.index.Load(IdxOf(dir.disk, file.pos), file.size);
      ok := r.Loaded?;
      dirty := false;
      dir.RecordReload(r.table);
    }

    /** Saves and reloads the index of the file being written. The reload, which
        throws when the index is not accepted, never does. */
    method Flush() returns (ok: bool)
      requires Valid()
      modifies this`dirty, dir, AllParts(files)
      ensures Valid() && ok && !dirty
      ensures Begins(old(dir.run), dir.run) && dir.Recs() == old(dir.Recs())
      ensures dir.disk.data == old(dir.disk.data)
      ensures NextNumber(Session().files) == NextNumber(old(Session().files))
      ensures files == old(files) && AnswersKept(Last(old(dir.run)), Last(dir.run))
    {
      hide ValidRun, Next, Load, MemInv, DataInv, Inv, ValidTable, Begins, Clean, Writing, AnswersKept;
      ok := true;
      ghost var start := dir.run;
      BeginsSelf(start);
      if dirty {
        FrontFacts();
        PartsIn(files, 0);
        SaveFront();
        ghost var saved := dir.run;
        ok := ReloadFront();
        BeginsStep(start, saved, dir.run);
      }
      SameRecsAnswer(start, dir.run);
    }

    lemma FreshNumber()
      requires Valid()
      ensures NextNumber(Session().files) !in dir.Recs() && NextNumber(Session().files) !in dir.disk.data
      ensures OrEmpty(dir.disk.data, NextNumber(Session().files)) == []
    {
      dir.Reached();
      NumberIsNew(Last(dir.run));
    }

    /** The constructor of the file, which creates the next data file. */
    method CreateFile() returns (file: File)
      requires Valid() && !dirty
      modifies dir
      ensures dir.Valid() && dir.run.Then? && dir.run.prev == old(dir.run)
      ensures fresh(file.Parts()) && file.View() == OpenFile(NextNumber(old(Session().files)), 0, map[], EMPTY_TABLE)
      ensures file.pos !in old(dir.Recs()) && dir.Recs() == old(dir.Recs())[file.pos := []]
      ensures Session() == Up([file.View()] + old(Session().files), true, false)
    {
      hide ValidRun, Next, OrEmpty, Separate, Apart;
      FreshNumber();
      ListedAsShown();
      hide Shows;
      var pos := if files == [] then 0 else files[0].pos + 1;
      var contents := OrEmpty(dir.disk.data, pos);
      dir.disk := dir.disk.(data := dir.disk.data[pos := contents]);
      file := new File(pos, |contents|);
      dir.RecordNewFile();
    }

    /** `files.emplace_front`: create the next data file. */
    method StartFile()
      requires Valid() && !dirty
      modifies this, dir
      ensures Valid() && dirty && !firstNewfile
      ensures files != [] && files == [files[0]] + old(files) && fresh(files[0].Parts())
      ensures files[0].pos == NextNumber(old(Session().files)) && files[0].size == 0
      ensures files[0].pos !in old(dir.Recs()) && dir.Recs() == old(dir.Recs())[files[0].pos := []]
      ensures dir.run.Then? && dir.run.prev == old(dir.run)
    {
      hide ValidRun, Next;
      ghost var views := Session().files;
      var file := CreateFile();
      assert forall i | 0 <= i < |files| :: Apart(file, files[i]);
      SeparateCons(file, files);
      ShowsCons(file, files, views);
      hide Separate, Shows, Apart;
      files := [file] + files;
      dirty, firstNewfile := true, false;
    }

    /** `make_writable` on the newest file. */
    method ReuseFile()
      requires Valid() && !dirty && files != []
      modifies this`dirty, this`firstNewfile, dir`run
      ensures Valid() && dirty && !firstNewfile
      ensures dir.Recs() == old(dir.Recs()) && dir.disk == old(dir.disk)
      ensures dir.run.Then? && dir.run.prev == old(dir.run)
    {
      hide ValidRun;
      ghost var w := Last(dir.run);
      ghost var w' := w.(session := Up(w.session.files, true, false));
      assert DoReuse(w, w');
      dirty, firstNewfile := true, false;
      dir.Step(Reuse, w');
    }

    /** The first half of `prepare_write`: whether to stay in the file being
        written, flushing it if not. */
    method Decide(size: nat) returns (ok: bool, choice: Choice)
      requires Valid()
      modifies this`dirty, dir, AllParts(files)
      ensures Valid() && ok && Begins(old(dir.run), dir.run)
      ensures choice == Choose(old(firstNewfile), old(dirty), old(Session().files), size, limit)
      ensures files == old(files) && (dirty <==> choice.Stay?)
      ensures choice.Stay? || choice.ReuseFront? ==>
                files != [] && !(choice.Stay? && firstNewfile) && files[0].size == old(files[0].size)
      ensures dir.Recs() == old(dir.Recs())
      ensures NextNumber(Session().files) == NextNumber(old(Session().files))
    {
      hide ValidRun, Next, Begins, MemInv, DataInv, Separate, DiskInv, FilesInv;
      ok := true;
      BeginsSelf(dir.run);
      ListedAsShown();
      choice := if firstNewfile then StartNew else ReuseFront;
      if dirty {
        dir.Reached();
        FrontFacts();
        if 0 + size <= limit {
          return ok, Stay;
        }
        ok := Flush();
        choice := StartNew;
      } else if files == [] {
        choice := StartNew;
      } else if files[0].size + size > limit {
        choice := StartNew;
      }
    }

    /** Picks the file the next write goes to: flushing, creating or reopening
        as `Choose` says. */
    method PrepareWrite(size: nat) returns (ok: bool, choice: Choice)
      requires Valid()
      modifies this, dir, AllParts(files)
      ensures Valid() && ok && dirty && !firstNewfile
      ensures Begins(old(dir.run), dir.run)
      ensures choice == Choose(old(firstNewfile), old(dirty), old(Session().files), size, limit)
      ensures files != [] && Places(old(dir.disk.data), old(firstNewfile), old(dirty), size, limit, files[0].pos)
      ensures choice.StartNew? <==> files[0].pos !in old(dir.disk.data)
      ensures !choice.StartNew? ==> files[0].size as int == |old(dir.disk.data)[files[0].pos]|
      ensures choice.StartNew? ==>
                && files != [] && files == [files[0]] + old(files) && fresh(files[0].Parts())
                && files[0].pos == NextNumber(old(Session().files)) && files[0].size == 0
                && files[0].pos !in old(dir.Recs()) && dir.Recs() == old(dir.Recs())[files[0].pos := []]
      ensures !choice.StartNew? ==>
                && files == old(files) && files != [] && files[0].size == old(files[0].size)
                && dir.Recs() == old(dir.Recs())
    {
      hide ValidRun, Next, Begins, Inv, MemInv, DataInv, Separate, Shows, Choose;
      hide Places, Chosen;
      ghost var start, was := dir.run, files;
      ListedAsShown();
      ok, choice := Decide(size);
      ghost var middle := dir.run;
      assert files == was;
      match choice {
        case Stay =>
        case ReuseFront =>
          ReuseFile();
          assert files == was;
          BeginsStep(start, middle, dir.run);
        case StartNew =>
          StartFile();
          BeginsStep(start, middle, dir.run);
      }
      Placed(start, size, limit, choice, files[0].pos);
    }

    /** Appends a record to the front file, enters it in the index and grows
        the size; the check of the size against the end of the file, which
        throws on a mismatch, always passes. */
    method AppendFront(kind: Kind, oid: Oid, bytes: seq<byte>, grown: nat, ghost rec: Rec) returns (ok: bool)
      requires rec.stored.kind == kind && rec.stored.oid == oid && rec.bytes == bytes
      requires Valid() && dirty && files != [] && files[0].pos in dir.Recs()
      requires Fits(files[0].size, dir.Recs()[files[0].pos], rec) && grown == |rec.bytes|
      modifies dir, files[0], files[0].index`ram
      ensures Valid() && ok
      ensures dir.run.Then? && dir.run.prev == old(dir.run)
      ensures dir.Recs() == old(dir.Recs())[files[0].pos := old(dir.Recs())[files[0].pos] + [rec]]
    {
      hide ValidRun, MemInv, DataInv, Inv, IsRec, RecKinds, Load;
      FrontFacts();
      MemFacts(files[0].View(), dir.disk, dir.Recs());
      var file := files[0];
      dir.disk := Appended(dir.disk, file.pos, bytes);
      file.index.Insert(oid, Node(file.size, kind));
      file.size := file.size + grown;
      ok := file.size == |dir.disk.data[file.pos]|;
      dir.RecordAppend(rec);
    }

    /** The file that the record will be put in has room for it, if it is there
        already. */
    ghost predicate HasRoom(chunk: Chunk)
      requires Valid() && chunk.Valid() && chunk.Determined()
      reads this, dir, AllParts(files), chunk.Obj(), chunk.Lib()
    {
      RoomForSize(chunk.Kind(), StoredSize(chunk.WillStore()))
    }

    ghost predicate RoomForSize(kind: Kind, size: nat)
      reads this, dir
    {
      var data := dir.disk.data;
      forall n: nat | n in data && Places(data, firstNewfile, dirty, size, limit, n) ::
        RoomIn(dir.Recs(), n, |data[n]|, kind, size)
    }

    /** Writes the chunk to the file that `PrepareWrite` has readied. */
    method WriteFront(chunk: Chunk, padding: seq<byte>) returns (ok: bool, ghost rec: Rec)
      requires Valid() && dirty && chunk.Valid() && chunk.Decided() && |padding| == 15
      requires files != [] && RoomIn(dir.Recs(), files[0].pos, files[0].size, chunk.Kind(), StoredSize(chunk.Image()))
      modifies dir, files[0], files[0].index`ram, chunk.Obj(), chunk.Lib()
      ensures Valid() && ok
      ensures dir.run.Then? && dir.run.prev == old(dir.run)
      ensures chunk.Valid() && chunk.Decided() && IsRec(rec) && rec.stored == chunk.Image() == old(chunk.Image())
      ensures dir.Recs() == old(dir.Recs())[files[0].pos := old(dir.Recs())[files[0].pos] + [rec]]
    {
      hide ValidRun, Next, Inv, Separate, Shows, IsRec, RecKinds, Fits;
      PartsApart(files, chunk);
      var bytes := WriteOut(chunk, padding);
      rec := Rec(chunk.Image(), bytes);
      RecSize(rec);
      var grown := chunk.WriteSize();
      FitsMore(files[0].size, dir.Recs()[files[0].pos], rec);
      ok := AppendFront(chunk.Kind(), chunk.Oid(), bytes, grown, rec);
    }

    /** Sizes the chunk and readies a file for it. */
    method PrepareFor(chunk: Chunk)
      requires Valid() && chunk.Valid() && chunk.Determined() && HasRoom(chunk)
      modifies this, dir, AllParts(files), chunk.Obj(), chunk.Lib()
      ensures Valid() && dirty && files != []
      ensures forall o :: o in files[0].Parts() ==> o in old(AllParts(files)) || fresh(o)
      ensures chunk.Valid() && chunk.Decided()
      ensures RoomIn(dir.Recs(), files[0].pos, files[0].size, chunk.Kind(), StoredSize(chunk.Image()))
      ensures Begins(old(dir.run), dir.run)
      ensures chunk.Image() == old(chunk.WillStore()) && !firstNewfile
      ensures Places(old(dir.disk.data), old(firstNewfile), old(dirty), StoredSize(chunk.Image()), limit, files[0].pos)
      ensures dir.Recs() == old(dir.Recs())[files[0].pos := OrEmpty(old(dir.Recs()), files[0].pos)]
    {
      hide ValidRun, Next, Begins, Inv, Separate, Shows, RecKinds, Choose, StoredSize, Places, RoomIn;
      ListedAsShown();
      PartsApart(files, chunk);
      if files != [] {
        PartsIn(files, 0);
      }
      var size := chunk.WriteSize();
      assert RoomForSize(chunk.Kind(), size);
      hide HasRoom;
      var ok, choice := PrepareWrite(size);
      PartsApart(files, chunk);
      if choice.StartNew? {
        NewFileHasRoom(dir.Recs(), files[0].pos, chunk.Kind(), size);
      } else {
        Unchanged(dir.Recs(), files[0].pos);
      }
    }

    /** Afterwards exactly one record was added, to the front file, and it is
        the chunk in the form it decided on. Not ok is the source's exception
        for a pool opened read-only. */
    method Insert(chunk: Chunk, padding: seq<byte>) returns (ok: bool, ghost rec: Rec)
      requires Valid() && |padding| == 15
      requires chunk.Valid() && chunk.Determined() && HasRoom(chunk)
      modifies this, dir, AllParts(files), chunk.Obj(), chunk.Lib()
      ensures Valid() && ok == writable
      ensures !writable ==> dir.run == old(dir.run) && files == old(files) && dirty == old(dirty)
      ensures writable ==>
                && chunk.Valid() && chunk.Decided() && IsRec(rec) && rec.stored == chunk.Image()
                && Begins(old(dir.run), dir.run) && files != []
                && rec.stored == old(chunk.WillStore()) && dirty && !firstNewfile
                && Places(old(dir.disk.data), old(firstNewfile), old(dirty), StoredSize(rec.stored), limit, files[0].pos)
                && dir.disk.data.Keys == old(dir.disk.data.Keys) + {files[0].pos}
                && dir.Recs() == old(dir.Recs())[files[0].pos := OrEmpty(old(dir.Recs()), files[0].pos) + [rec]]
                && (NamedWith(Last(old(dir.run)), rec.stored, chunk.Lib().inflate) ==>
                      AnswersAdd(Last(old(dir.run)), rec.stored, Last(dir.run), chunk.Lib().inflate))
    {
      hide ValidRun, Next, Begins, Inv, Separate, Shows, IsRec, RecKinds, Places, StoredSize, NamedWith, AnswersAdd, HasRoom, RoomIn;
      ok, rec := false, Rec(Stored(chunk.Kind(), chunk.Oid(), [], None), []);
      if writable {
        ghost var start := dir.run;
        RunKeeps(start);
        PrepareFor(chunk);
        ghost var middle := dir.run;
        ok, rec := WriteFront(chunk, padding);
        BeginsStep(start, middle, dir.run);
        RunKeeps(dir.run);
        SameNumbers(Last(start));
        SameNumbers(Last(dir.run));
        if NamedWith(Last(start), rec.stored, chunk.Lib().inflate) {
          AppendedIsFound(start, dir.run, files[0].pos, rec, chunk.Lib().inflate);
        }
      }
    }

    /** What the search needs to know of file i. */
    lemma FileFacts(i: nat, key: Oid)
      requires Valid() && i < |files|
      ensures |Session().files| == |files| && Session().files[i] == files[i].View()
      ensures ValidTable(files[i].index.fdata.View()) && Searchable(Session().files, dir.disk)
      ensures FoundReads(files[i].View(), dir.disk, key)
    {
      hide ValidRun, Searchable, ValidTable, FoundReads;
      dir.Reached();
      CoversAll(Last(dir.run));
      hide Inv, OpenInv, DataInv, DiskInv;
      FoundIsReadable(files[i].View(), Last(dir.run), key);
    }

    /** The chunk object stands for the stored record. */
    ghost predicate StandsFor(c: Chunk, s: Stored, zlib: Zlib)
      reads c.Obj()
    {
      && c.Valid() && c.Lib() == zlib && c.Kind() == s.kind && c.Oid() == s.oid
      && c.DataOf() == PlainData(s, zlib.inflate)
    }

    /** The kind and data of the chunk returned, when it inflates. */
    ghost function ContentOf(c: Option<Chunk>): Option<Content>
      requires c.Some? ==> c.value.Valid()
      reads if c.Some? then {c.value.Obj()} else {}
    {
      if c.None? || c.value.DataOf().None? then None else Some(Content(c.value.Kind(), c.value.DataOf().value))
    }

    lemma AnswerIsContent(c: Option<Chunk>, key: Oid, zlib: Zlib)
      requires Session().Up? && Searchable(Session().files, dir.disk)
      requires dir.disk == Last(dir.run).disk
      requires var found := FindIn(Session().files, dir.disk, key);
               (c.Some? <==> found.Some?) && (c.Some? ==> StandsFor(c.value, found.value, zlib))
      ensures c.Some? ==> c.value.Valid()
      ensures Answer(Last(dir.run), key, zlib.inflate) == ContentOf(c)
    {
      hide Searchable, FindIn, PlainData;
    }

    method FindAt(i: nat, key: Oid, zlib: Zlib) returns (c: Option<Chunk>)
      requires Valid() && zlib.Valid() && i < |files|
      modifies files[i].index`findResult
      ensures Valid()
      ensures FoundReads(files[i].View(), dir.disk, key)
      ensures var f := files[i].View();
              var m := Meaning(f.ram, f.table);
              && (c.Some? <==> key in m)
              && (c.Some? ==> fresh(c.value.Obj())
                              && StandsFor(c.value, Read(dir.disk.data[f.pos], m[key].offset).value, zlib))
    {
      hide ValidRun, Inv, Separate, Searchable, Read, Sorted, IsFanOut, Storable, PlainData;
      FileFacts(i, key);
      var f := files[i];
      c := None;
      var node := f.index.Find(key);
      if node.Some? {
        c := ReadChunk(dir.disk.data[f.pos], node.value.offset, zlib);
      }
    }

    /** `Pool::find`: searches the files newest first and reads the record. The
        chunk stands for the record the state machine finds. */
    method Find(key: Oid, zlib: Zlib) returns (c: Option<Chunk>)
      requires Valid() && zlib.Valid()
      modifies (set f | f in files :: f.index)`findResult
      ensures Valid() && Session() == old(Session())
      ensures Searchable(Session().files, dir.disk)
      ensures var found := FindIn(Session().files, dir.disk, key);
              && (c.Some? <==> found.Some?)
              && (c.Some? ==> fresh(c.value.Obj()) && StandsFor(c.value, found.value, zlib))
      ensures Answer(Last(dir.run), key, zlib.inflate) == ContentOf(c)
    {
      hide ValidRun, Inv, Separate, Searchable, Read, Storable, PlainData, StandsFor, Meaning;
      c := None;
      SearchableSession();
      ghost var vs, disk := Session().files, dir.disk;
      SearchFrom(vs, 0, disk);
      for i := 0 to |files|
        invariant Valid() && Session() == old(Session()) && dir.disk == disk && c.None?
        invariant Searchable(vs, disk) && Searchable(vs[i..], disk)
        invariant FindIn(vs, disk, key) == FindIn(vs[i..], disk, key)
      {
        assert files[i].View() == vs[i];
        SearchFrom(vs, i + 1, disk);
        c := FindAt(i, key, zlib);
        if c.Some? {
          AnswerIsContent(c, key, zlib);
          return;
        }
      }
      AnswerIsContent(c, key, zlib);
    }

    lemma SearchableSession()
      requires Valid()
      ensures Searchable(Session().files, dir.disk)
    {
      hide ValidRun, Inv, Searchable;
      dir.Reached();
      CoversAll(Last(dir.run));
    }

    lemma Unchanged(recs: map<nat, seq<Rec>>, n: nat)
      requires n in recs
      ensures recs[n := OrEmpty(recs, n)] == recs
    {
    }

    lemma ListedAsShown()
      requires Valid()
      ensures |Session().files| == |files|
      ensures files != [] ==> Session().files[0] == files[0].View()
    {
    }
  }

  /** The bytes of a chunk's record, as `Chunk::write` puts them on a stream. */
  method WriteOut(chunk: Chunk, padding: seq<byte>) returns (bytes: seq<byte>)
    requires chunk.Valid() && chunk.Decided() && |padding| == 15
    modifies chunk.Obj(), chunk.Lib()
    ensures chunk.Valid() && chunk.Decided() && chunk.Image() == old(chunk.Image())
    ensures IsRec(Rec(chunk.Image(), bytes))
  {
    var out := new OutStream();
    chunk.Write(out, padding);
    bytes := out.bytes;
  }

  lemma FitsMore(size: nat, rs: seq<Rec>, rec: Rec)
    requires IsRec(rec) && size + |rec.bytes| < SIZE_LIMIT
    requires |RecKinds(rs) + {rec.stored.kind}| <= KIND_LIMIT
    ensures Fits(size, rs, rec)
  {
    var all := rs + [rec];
    assert forall i | 0 <= i < |rs| :: all[i] == rs[i];
    assert all[|rs|] == rec;
    assert RecKinds(all) == RecKinds(rs) + {rec.stored.kind};
  }

  lemma SearchFrom(vs: seq<OpenFile>, i: nat, disk: Disk)
    requires Searchable(vs, disk) && i <= |vs|
    ensures Searchable(vs[i..], disk)
    ensures i > 0 ==> vs[i - 1..][1..] == vs[i..]
    ensures i == 0 ==> vs[i..] == vs
  {
  }

  ghost predicate FoundReads(f: OpenFile, disk: Disk, key: Oid) {
    && f.pos in disk.data && Shaped(f.table)
    && var m := Meaning(f.ram, f.table);
    && (key in m ==> Read(disk.data[f.pos], m[key].offset).Some?
                     && Storable(Read(disk.data[f.pos], m[key].offset).value))
  }

  lemma FoundIsReadable(f: OpenFile, w: World, key: Oid)
    requires OpenInv(f, w.recs) && DataInv(w.disk, w.recs, f.pos)
    ensures ValidTable(f.table) && FoundReads(f, w.disk, key)
  {
    hide Read, ReadHeader, FileBytes, Faithful, Good, Sorted, IsFanOut, Holds, RecKinds, Storable;
    FaithfulReads(Meaning(f.ram, f.table), w.recs[f.pos], key);
  }

  lemma BeginsStep(a: Run, b: Run, c: Run)
    requires Begins(a, b) && c.Then? && c.prev == b
    ensures Begins(a, c)
  {
  }


  lemma MemFacts(f: OpenFile, disk: Disk, recs: map<nat, seq<Rec>>)
    requires f.pos in recs && MemInv(f, recs[f.pos]) && DataInv(disk, recs, f.pos)
    ensures f.size == |disk.data[f.pos]| && ValidTable(f.table)
    ensures |f.ram| + |f.table.hashes| < COUNT_LIMIT
  {
    hide Sorted, IsFanOut, Faithful, Meaning, RecKinds;
    GoodIsSpaced(recs[f.pos]);
    hide Good, FileBytes;
    RecordsFit(recs[f.pos]);
  }
}
