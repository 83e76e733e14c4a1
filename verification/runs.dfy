/** Whole runs of the pool: any interleaving of inserts, flushes, crashes,
    recoveries and reopenings, starting from an empty directory. */
module Runs {
  import opened Bytes
  import opened Oids
  import opened Chunks
  import opened IndexTables
  import opened FileIndexes
  import opened Layout
  import opened Worlds

  datatype Run = Start | Then(prev: Run, action: Action, world: World)

  const EMPTY_WORLD := World(Disk(map[], map[], map[]), Down, map[])

  function Last(r: Run): World {
    if r.Start? then EMPTY_WORLD else r.world
  }

  ghost predicate ValidRun(r: Run) {
    r.Then? ==> ValidRun(r.prev) && Next(Last(r.prev), r.action, r.world)
  }

  /** r is a beginning of r'. */
  ghost predicate Begins(r: Run, r': Run) {
    r == r' || (r'.Then? && Begins(r, r'.prev))
  }

  lemma BeginsSelf(r: Run)
    ensures Begins(r, r)
  {
  }

  lemma {:induction false} BeginsTransitive(a: Run, b: Run, c: Run)
    requires Begins(a, b) && Begins(b, c)
    ensures Begins(a, c)
    decreases c
  {
    if b != c {
      BeginsTransitive(a, b, c.prev);
    }
  }

  lemma {:induction false} RunKeeps(r: Run)
    requires ValidRun(r)
    ensures Inv(Last(r))
  {
    if r.Then? {
      hide Inv, Next;
      RunKeeps(r.prev);
      StepKeeps(Last(r.prev), r.action, r.world);
    }
  }

  // ---------------------------------------------------------------------
  // Crash safety

  /** The data file is the run of the records appended to it, whole and
      aligned. */
  ghost predicate WholeRecords(w: World, n: nat) {
    && n in w.recs && n in w.disk.data && Good(w.recs[n])
    && w.disk.data[n] == FileBytes(w.recs[n]) && |w.disk.data[n]| < SIZE_LIMIT
    && forall i | 0 <= i <= |w.recs[n]| :: Offset(w.recs[n], i) % 16 == 0
  }

  /** What a load makes of the index file: it accepts a searchable index of the
      whole data file, or throws the index error that recovery acts on. */
  ghost predicate IndexSafe(w: World, n: nat)
    requires n in w.recs && n in w.disk.data && |w.disk.data[n]| < SIZE_LIMIT
  {
    var result := Load(IdxOf(w.disk, n), |w.disk.data[n]|);
    && (result.Loaded? || result.IsIndexError())
    && (result.Loaded? ==>
          && ValidTable(result.table) && Shaped(result.table)
          && Faithful(TableMap(result.table), w.recs[n]) && IndexesFile(TableMap(result.table), w, n))
  }

  /** In every reachable state, so at every point where the process can stop,
      each data file is a run of whole, aligned records, and an index that a
      load accepts has exactly the OIDs in the file as its keys, each leading to
      the start of a record with that OID and kind, whose header says so. */
  lemma CrashSafety(r: Run, n: nat)
    requires ValidRun(r) && n in Last(r).disk.data
    ensures WholeRecords(Last(r), n) && IndexSafe(Last(r), n)
  {
    RunKeeps(r);
    RecordsSafe(Last(r), n);
    IndexIsSafe(Last(r), n);
  }

  /** What this means for the bytes: reading a header at an entry's offset shows
      its OID and kind. */
  ghost predicate IndexesFile(m: NodeMap, w: World, n: nat)
    requires n in w.recs && n in w.disk.data
  {
    forall key: Oid ::
      && (key in m <==> Holds(w.recs[n], key))
      && (key in m ==>
            var h := ReadHeader(w.disk.data[n], m[key].offset);
            h.Some? && h.value.oid == key && h.value.kind == m[key].kind)
  }

  lemma FaithfulIndexes(m: NodeMap, w: World, n: nat)
    requires n in w.recs && n in w.disk.data && w.disk.data[n] == FileBytes(w.recs[n])
    requires Good(w.recs[n]) && Faithful(m, w.recs[n])
    ensures IndexesFile(m, w, n)
  {
    hide ReadHeader, Faithful, Good, Holds, FileBytes, Read, Storable;
    forall key: Oid
      ensures key in m <==> Holds(w.recs[n], key)
      ensures key in m ==>
                var h := ReadHeader(w.disk.data[n], m[key].offset);
                h.Some? && h.value.oid == key && h.value.kind == m[key].kind
    {
      FaithfulReads(m, w.recs[n], key);
    }
  }

  lemma RecordsSafe(w: World, n: nat)
    requires Inv(w) && n in w.disk.data
    ensures WholeRecords(w, n)
  {
    hide Good, FileBytes, FilesInv, Stamped, RecKinds;
    assert n in w.recs.Keys;
    assert DataInv(w.disk, w.recs, n);
    forall i | 0 <= i <= |w.recs[n]|
      ensures Offset(w.recs[n], i) % 16 == 0
    {
      OffsetsAligned(w.recs[n], i);
    }
  }

  lemma IndexIsSafe(w: World, n: nat)
    requires Inv(w) && WholeRecords(w, n)
    ensures IndexSafe(w, n)
  {
    hide Good, FileBytes, FilesInv, Stamped, RecKinds, Load, IndexesFile, Sorted, IsFanOut, TableMap, Faithful;
    LoadIsFaithful(w.disk, w.recs, n);
    var result := Load(IdxOf(w.disk, n), |w.disk.data[n]|);
    if result.Loaded? {
      FaithfulIndexes(TableMap(result.table), w, n);
    }
  }

  // ---------------------------------------------------------------------
  // The pool refines a map

  ghost predicate Searchable(files: seq<OpenFile>, disk: Disk) {
    forall i | 0 <= i < |files| :: files[i].pos in disk.data && Shaped(files[i].table)
  }

  /** `Pool::find`: the newest file whose index has the key answers. */
  ghost function FindIn(files: seq<OpenFile>, disk: Disk, key: Oid): Option<Stored>
    requires Searchable(files, disk)
  {
    if files == [] then None
    else
      var m := Meaning(files[0].ram, files[0].table);
      if key in m then Read(disk.data[files[0].pos], m[key].offset)
      else FindIn(files[1..], disk, key)
  }

  /** File i is the first in the list, so the newest, whose index has the key. */
  ghost predicate FirstWith(files: seq<OpenFile>, key: Oid, i: nat)
    requires forall j | 0 <= j < |files| :: Shaped(files[j].table)
  {
    && i < |files| && key in Meaning(files[i].ram, files[i].table)
    && forall j | 0 <= j < i :: key !in Meaning(files[j].ram, files[j].table)
  }

  /** The answer is the record that the newest file with the key leads to; with
      no such file there is none. */
  lemma {:induction false} FindsInNewest(files: seq<OpenFile>, disk: Disk, key: Oid, i: nat)
    requires Searchable(files, disk)
    ensures FirstWith(files, key, i) ==>
              FindIn(files, disk, key)
              == Read(disk.data[files[i].pos], Meaning(files[i].ram, files[i].table)[key].offset)
    ensures (forall j: nat :: !FirstWith(files, key, j)) ==> FindIn(files, disk, key).None?
  {
    hide Read, Meaning, Shaped;
    if files != [] {
      var rest := files[1..];
      if key in Meaning(files[0].ram, files[0].table) {
        assert FirstWith(files, key, 0);
        assert FirstWith(files, key, i) ==> i == 0;
      } else {
        FindsInNewest(rest, disk, key, if i > 0 then i - 1 else 0);
        assert FirstWith(files, key, i) ==> i > 0 && files[i] == rest[i - 1];
        forall j: nat
          ensures FirstWith(rest, key, j) <==> FirstWith(files, key, j + 1)
        {
          FirstWithCons(files, key, j);
        }
      }
    }
  }

  lemma FirstWithCons(files: seq<OpenFile>, key: Oid, j: nat)
    requires files != [] && forall k | 0 <= k < |files| :: Shaped(files[k].table)
    requires key !in Meaning(files[0].ram, files[0].table)
    ensures FirstWith(files[1..], key, j) <==> FirstWith(files, key, j + 1)
  {
    hide Meaning, Shaped;
    var rest := files[1..];
    assert forall k | 0 <= k < |rest| :: rest[k] == files[k + 1];
    assert forall k | 0 < k < |files| :: files[k] == rest[k - 1];
  }

  ghost predicate Stores(w: World, key: Oid) {
    exists n :: n in w.recs && Holds(w.recs[n], key)
  }

  ghost predicate AllNamed(w: World, inflate: Inflate, naming: Naming) {
    forall n | n in w.recs :: Named(w.recs[n], inflate, naming)
  }

  ghost predicate Covers(files: seq<OpenFile>, w: World) {
    forall i | 0 <= i < |files| ::
      OpenInv(files[i], w.recs) && DataInv(w.disk, w.recs, files[i].pos)
  }

  lemma CoversAll(w: World)
    requires Inv(w) && w.session.Up?
    ensures Covers(w.session.files, w) && Searchable(w.session.files, w.disk)
  {
    hide MemInv, Stamped, Clean, Lists, Good, FileBytes, RecKinds;
    var files := w.session.files;
    forall i | 0 <= i < |files|
      ensures OpenInv(files[i], w.recs) && DataInv(w.disk, w.recs, files[i].pos)
    {
      assert OpenInv(files[i], w.recs);
    }
    CoversSearchable(files, w);
  }

  lemma CoversSearchable(files: seq<OpenFile>, w: World)
    requires Covers(files, w)
    ensures Searchable(files, w.disk)
  {
    hide Good, FileBytes, RecKinds, Faithful, Sorted, IsFanOut;
    forall i | 0 <= i < |files|
      ensures files[i].pos in w.disk.data && Shaped(files[i].table)
    {
      assert OpenInv(files[i], w.recs) && DataInv(w.disk, w.recs, files[i].pos);
    }
  }

  lemma FileAnswers(f: OpenFile, w: World, key: Oid, inflate: Inflate, naming: Naming)
    requires OpenInv(f, w.recs) && DataInv(w.disk, w.recs, f.pos)
    requires AllNamed(w, inflate, naming)
    ensures Shaped(f.table) && f.pos in w.recs
    ensures var m := Meaning(f.ram, f.table);
            && (key in m <==> Holds(w.recs[f.pos], key))
            && (key in m ==>
                  var s := Read(w.disk.data[f.pos], m[key].offset);
                  s.Some? && s.value.oid == key && Storable(s.value) && NamedRec(s.value, inflate, naming))
  {
    hide Read, ReadHeader, FileBytes, Faithful, Good, Sorted, IsFanOut, NamedRec, Holds, RecKinds;
    assert Named(w.recs[f.pos], inflate, naming);
    FaithfulReads(Meaning(f.ram, f.table), w.recs[f.pos], key);
  }

  ghost predicate HeldBySome(files: seq<OpenFile>, w: World, key: Oid) {
    exists i :: 0 <= i < |files| && files[i].pos in w.recs && Holds(w.recs[files[i].pos], key)
  }

  lemma {:induction false} FindInCorrect(files: seq<OpenFile>, w: World, key: Oid, inflate: Inflate, naming: Naming)
    requires Covers(files, w) && Searchable(files, w.disk) && AllNamed(w, inflate, naming)
    ensures var s := FindIn(files, w.disk, key);
            && (s.Some? <==> HeldBySome(files, w, key))
            && (s.Some? ==> s.value.oid == key && Storable(s.value) && NamedRec(s.value, inflate, naming))
  {
    hide Read, OpenInv, DataInv, NamedRec, Holds, Meaning, Shaped, AllNamed, Storable;
    if files != [] {
      FileAnswers(files[0], w, key, inflate, naming);
      FindInCorrect(files[1..], w, key, inflate, naming);
      if HeldBySome(files[1..], w, key) {
        var i :| 0 <= i < |files[1..]| && files[1..][i].pos in w.recs && Holds(w.recs[files[1..][i].pos], key);
        assert files[i + 1] == files[1..][i];
      }
      if HeldBySome(files, w, key) && !Holds(w.recs[files[0].pos], key) {
        var i :| 0 <= i < |files| && files[i].pos in w.recs && Holds(w.recs[files[i].pos], key);
        assert files[i] == files[1..][i - 1];
      }
    }
  }

  lemma HeldIsStored(w: World, key: Oid)
    requires Inv(w) && w.session.Up?
    ensures HeldBySome(w.session.files, w, key) <==> Stores(w, key)
  {
    hide DiskInv, OpenInv, Clean, Holds;
    var files := w.session.files;
    if Stores(w, key) {
      var n :| n in w.recs && Holds(w.recs[n], key);
      assert Lists(files, n);
      var i :| 0 <= i < |files| && files[i].pos == n;
      assert files[i].pos in w.recs;
    }
  }

  /** In every reachable open state, across crashes and recoveries, `find`
      answers exactly the keys of the chunks inserted and not cut off by a
      crash, and with a chunk of the kind and data the key names. */
  lemma PoolRefinesMap(r: Run, key: Oid, inflate: Inflate, naming: Naming)
    requires ValidRun(r) && Last(r).session.Up? && AllNamed(Last(r), inflate, naming)
    ensures Searchable(Last(r).session.files, Last(r).disk)
    ensures var s := FindIn(Last(r).session.files, Last(r).disk, key);
            && (s.Some? <==> Stores(Last(r), key))
            && (s.Some? ==>
                  && s.value.oid == key && s.value.kind == naming(key).kind
                  && PlainData(s.value, inflate) == Some(naming(key).data))
  {
    RunKeeps(r);
    var w := Last(r);
    CoversAll(w);
    HeldIsStored(w, key);
    hide Inv, Covers, Searchable, HeldBySome, Stores, AllNamed, Storable, ValidRun;
    FindInCorrect(w.session.files, w, key, inflate, naming);
  }

  /** What a search answers: the kind and data stored under the key. */
  ghost function Answer(w: World, key: Oid, inflate: Inflate): Option<Content>
    requires w.session.Up? && Searchable(w.session.files, w.disk)
  {
    var s := FindIn(w.session.files, w.disk, key);
    if s.None? then None
    else
      var data := PlainData(s.value, inflate);
      if data.None? then None else Some(Content(s.value.kind, data.value))
  }

  /** In every reachable open state searching answers as a plain map would. */
  lemma AnswersAsMap(r: Run, key: Oid, inflate: Inflate, naming: Naming)
    requires ValidRun(r) && Last(r).session.Up? && AllNamed(Last(r), inflate, naming)
    ensures Searchable(Last(r).session.files, Last(r).disk)
    ensures Answer(Last(r), key, inflate) == if Stores(Last(r), key) then Some(naming(key)) else None
  {
    hide ValidRun, AllNamed, Searchable, FindIn, Stores, PlainData;
    PoolRefinesMap(r, key, inflate, naming);
  }

  /** The OIDs of what is stored, and of s, name their content. */
  ghost predicate NamedWith(w: World, s: Stored, inflate: Inflate) {
    exists naming: Naming :: AllNamed(w, inflate, naming) && NamedRec(s, inflate, naming)
  }

  /** Searching answers as before, except that s is now found by its OID. */
  ghost predicate AnswersAdd(w: World, s: Stored, w': World, inflate: Inflate) {
    && w.session.Up? && Searchable(w.session.files, w.disk)
    && w'.session.Up? && Searchable(w'.session.files, w'.disk)
    && PlainData(s, inflate).Some?
    && forall key: Oid ::
         Answer(w', key, inflate)
         == if key == s.oid then Some(Content(s.kind, PlainData(s, inflate).value)) else Answer(w, key, inflate)
  }

  /** Appending a record to some file changes the answer for its own OID only. */
  lemma AppendedIsFound(r: Run, r': Run, n: nat, rec: Rec, inflate: Inflate)
    requires ValidRun(r) && ValidRun(r') && Last(r).session.Up? && Last(r').session.Up?
    requires Last(r').recs == Last(r).recs[n := OrEmpty(Last(r).recs, n) + [rec]]
    requires NamedWith(Last(r), rec.stored, inflate)
    ensures AnswersAdd(Last(r), rec.stored, Last(r'), inflate)
  {
    var w, w' := Last(r), Last(r');
    var naming: Naming :| AllNamed(w, inflate, naming) && NamedRec(rec.stored, inflate, naming);
    hide ValidRun, AllNamed, PlainData, Searchable, FindIn, Stores, Answer;
    AppendedNamed(w, w', n, rec, inflate, naming);
    AnswersAsMap(r, rec.stored.oid, inflate, naming);
    AnswersAsMap(r', rec.stored.oid, inflate, naming);
    forall key: Oid
      ensures Answer(w', key, inflate)
              == if key == rec.stored.oid then Some(Content(rec.stored.kind, PlainData(rec.stored, inflate).value))
                 else Answer(w, key, inflate)
    {
      AnswersAsMap(r, key, inflate, naming);
      AnswersAsMap(r', key, inflate, naming);
      AppendedStores(w, w', n, rec, key);
    }
  }

  lemma AppendedNamed(w: World, w': World, n: nat, rec: Rec, inflate: Inflate, naming: Naming)
    requires w'.recs == w.recs[n := OrEmpty(w.recs, n) + [rec]]
    requires AllNamed(w, inflate, naming) && NamedRec(rec.stored, inflate, naming)
    ensures AllNamed(w', inflate, naming)
  {
    hide NamedRec;
    forall m | m in w'.recs
      ensures Named(w'.recs[m], inflate, naming)
    {
      assert m in w.recs ==> Named(w.recs[m], inflate, naming);
    }
  }

  lemma AppendedStores(w: World, w': World, n: nat, rec: Rec, key: Oid)
    requires w'.recs == w.recs[n := OrEmpty(w.recs, n) + [rec]]
    ensures Stores(w', key) <==> Stores(w, key) || key == rec.stored.oid
  {
    var was := OrEmpty(w.recs, n);
    var now := was + [rec];
    assert Holds(now, key) <==> Holds(was, key) || key == rec.stored.oid by {
      assert now[|was|] == rec;
      if i :| 0 <= i < |was| && was[i].stored.oid == key {
        assert now[i] == was[i];
      }
    }
    if m :| m in w.recs && Holds(w.recs[m], key) {
      assert m in w'.recs && Holds(w'.recs[m], key);
    }
    if key == rec.stored.oid {
      assert n in w'.recs && Holds(w'.recs[n], key);
    }
  }

  /** Where OIDs name content, searching answers the same in both states. */
  ghost predicate SameAnswers(w: World, w': World, inflate: Inflate) {
    && w.session.Up? && Searchable(w.session.files, w.disk)
    && w'.session.Up? && Searchable(w'.session.files, w'.disk)
    && ((exists naming: Naming :: AllNamed(w, inflate, naming)) ==>
          forall key: Oid :: Answer(w', key, inflate) == Answer(w, key, inflate))
  }

  ghost predicate AnswersKept(w: World, w': World) {
    forall inflate: Inflate :: SameAnswers(w, w', inflate)
  }

  /** The records alone determine what searching answers: saving, reloading,
      reopening and recovering change no answer. */
  lemma SameRecsAnswer(r: Run, r': Run)
    requires ValidRun(r) && ValidRun(r') && Last(r).session.Up? && Last(r').session.Up?
    requires Last(r').recs == Last(r).recs
    ensures AnswersKept(Last(r), Last(r'))
  {
    hide ValidRun, SameAnswers;
    forall inflate: Inflate
      ensures SameAnswers(Last(r), Last(r'), inflate)
    {
      SameAnswersFor(r, r', inflate);
    }
  }

  lemma SameAnswersFor(r: Run, r': Run, inflate: Inflate)
    requires ValidRun(r) && ValidRun(r') && Last(r).session.Up? && Last(r').session.Up?
    requires Last(r').recs == Last(r).recs
    ensures SameAnswers(Last(r), Last(r'), inflate)
  {
    var w, w' := Last(r), Last(r');
    OpenIsSearchable(r);
    OpenIsSearchable(r');
    hide ValidRun, Searchable, Answer, NamedRec;
    if naming: Naming :| AllNamed(w, inflate, naming) {
      assert AllNamed(w', inflate, naming);
      hide AllNamed, Stores;
      SameStores(w, w');
      forall key: Oid
        ensures Answer(w', key, inflate) == Answer(w, key, inflate)
      {
        AnswersAsMap(r, key, inflate, naming);
        AnswersAsMap(r', key, inflate, naming);
      }
    }
  }

  lemma SameStores(w: World, w': World)
    requires w'.recs == w.recs
    ensures forall key :: Stores(w', key) <==> Stores(w, key)
  {
    hide Holds;
  }

  lemma OpenIsSearchable(r: Run)
    requires ValidRun(r) && Last(r).session.Up?
    ensures Searchable(Last(r).session.files, Last(r).disk)
  {
    hide ValidRun, Inv, Covers, Searchable;
    RunKeeps(r);
    CoversAll(Last(r));
  }

  // ---------------------------------------------------------------------
  // What was inserted

  /** At some step of the run the record was appended to file n. */
  ghost predicate Appends(r: Run, n: nat, rec: Rec) {
    r.Then? && (AppendsNow(r, n, rec) || Appends(r.prev, n, rec))
  }

  ghost predicate AppendsNow(r: Run, n: nat, rec: Rec)
    requires r.Then?
  {
    r.action == Append(rec) && Last(r.prev).session.Up? && Last(r.prev).session.files != []
    && Last(r.prev).session.files[0].pos == n
  }

  /** A step leaves only records that were there or that it appends. */
  lemma StepAppends(r: Run, n: nat, i: nat)
    requires r.Then? && Inv(Last(r.prev)) && Next(Last(r.prev), r.action, r.world)
    requires n in r.world.recs && i < |r.world.recs[n]|
    ensures || AppendsNow(r, n, r.world.recs[n][i])
            || (n in Last(r.prev).recs && i < |Last(r.prev).recs[n]| && Last(r.prev).recs[n][i] == r.world.recs[n][i])
  {
    hide Inv, Fits, SavedTmp, Scanned, FirstIndex, Load, Stamp, Offset;
    if r.action.NewFile? {
      NumberIsNew(Last(r.prev));
    }
  }

  /** Whatever a file holds was appended to it. */
  lemma {:induction false} HeldWasAppended(r: Run, n: nat, i: nat)
    requires ValidRun(r) && n in Last(r).recs && i < |Last(r).recs[n]|
    ensures Appends(r, n, Last(r).recs[n][i])
  {
    if r.Then? {
      hide Inv, Next, AppendsNow;
      RunKeeps(r.prev);
      StepAppends(r, n, i);
      if !AppendsNow(r, n, r.world.recs[n][i]) {
        HeldWasAppended(r.prev, n, i);
      }
    }
  }

  /** Between the two no stop lost a record. */
  ghost predicate Lossless(r: Run, r': Run) {
    r == r' || (r'.Then? && Lossless(r, r'.prev) && (r'.action.Stop? ==> r'.world.recs == Last(r'.prev).recs))
  }

  ghost predicate Grows(w: World, w': World) {
    forall n | n in w.recs :: n in w'.recs && w.recs[n] <= w'.recs[n]
  }

  lemma StepGrows(w: World, a: Action, w': World)
    requires Next(w, a, w') && (a.Stop? ==> w'.recs == w.recs)
    ensures Grows(w, w')
  {
    hide Fits, SavedTmp, Scanned, FirstIndex, Load, Stamp, Offset, Cut;
  }

  /** Without a loss, every record stays where it is. */
  lemma {:induction false} LosslessGrows(r: Run, r': Run)
    requires ValidRun(r') && Lossless(r, r')
    ensures Begins(r, r') && Grows(Last(r), Last(r'))
    decreases r'
  {
    hide Next;
    if r != r' {
      LosslessGrows(r, r'.prev);
      StepGrows(Last(r'.prev), r'.action, r'.world);
    }
  }

  /** Some chunk with this OID was inserted. */
  ghost predicate Inserted(r: Run, key: Oid) {
    exists n: nat, rec: Rec :: Appends(r, n, rec) && rec.stored.oid == key
  }

  lemma {:induction false} AppendedIsHeld(r: Run, n: nat, rec: Rec)
    requires ValidRun(r) && Lossless(Start, r) && Appends(r, n, rec)
    ensures n in Last(r).recs && rec in Last(r).recs[n]
  {
    hide Inv, Next, AppendsNow;
    var w, w' := Last(r.prev), r.world;
    if AppendsNow(r, n, rec) {
      AppendsLast(r, n, rec);
    } else {
      AppendedIsHeld(r.prev, n, rec);
      StepGrows(w, r.action, w');
      var i :| 0 <= i < |w.recs[n]| && w.recs[n][i] == rec;
      assert w'.recs[n][i] == rec;
    }
  }

  lemma AppendsLast(r: Run, n: nat, rec: Rec)
    requires r.Then? && AppendsNow(r, n, rec) && Next(Last(r.prev), r.action, r.world)
    ensures n in r.world.recs && rec in r.world.recs[n]
  {
    hide Fits, Grown;
  }

  /** What is stored was inserted, and where no crash lost anything, what was
      inserted is stored. */
  lemma StoresWhatWasInserted(r: Run, key: Oid)
    requires ValidRun(r)
    ensures Stores(Last(r), key) ==> Inserted(r, key)
    ensures Lossless(Start, r) ==> (Stores(Last(r), key) <==> Inserted(r, key))
  {
    hide ValidRun, Lossless, Appends;
    if Stores(Last(r), key) {
      var n :| n in Last(r).recs && Holds(Last(r).recs[n], key);
      var i :| 0 <= i < |Last(r).recs[n]| && Last(r).recs[n][i].stored.oid == key;
      HeldWasAppended(r, n, i);
    }
    if Inserted(r, key) && Lossless(Start, r) {
      var n: nat, rec: Rec :| Appends(r, n, rec) && rec.stored.oid == key;
      AppendedIsHeld(r, n, rec);
      assert Holds(Last(r).recs[n], key);
    }
  }

  // ---------------------------------------------------------------------
  // What a crash can lose

  /** The file is being written: part of it may still be in its stream. */
  ghost predicate InFlight(w: World, n: nat) {
    w.session.Up? && w.session.dirty && w.session.files != [] && w.session.files[0].pos == n
  }

  /** Record i of file n is there, and reached the disk: its file is closed, or
      its saved index covers it. */
  ghost predicate Durable(w: World, n: nat, i: nat) {
    && n in w.recs && i < |w.recs[n]|
    && (InFlight(w, n) ==> Offset(w.recs[n], i + 1) <= Stamp(IdxOf(w.disk, n)))
  }

  /** No durable record is lost or altered. */
  ghost predicate Keeps(w: World, w': World) {
    forall n: nat, i: nat :: Durable(w, n, i) ==> Durable(w', n, i) && w'.recs[n][i] == w.recs[n][i]
  }

  lemma OffsetWithin(rs: seq<Rec>, i: nat)
    requires i <= |rs|
    ensures Offset(rs, i) <= |FileBytes(rs)|
  {
    BytesCut(rs, i);
  }

  lemma AppendDurable(w: World, rec: Rec, w': World)
    requires DoAppend(w, rec, w')
    ensures Keeps(w, w')
  {
    hide Fits, Entered, FileBytes, Stamp;
    var f := w.session.files[0];
    forall n: nat, i: nat | Durable(w, n, i)
      ensures Durable(w', n, i) && w'.recs[n][i] == w.recs[n][i]
    {
      if n == f.pos {
        assert w'.recs[n][..i + 1] == w.recs[n][..i + 1];
      }
    }
  }

  lemma LoadedStamp(image: Option<seq<byte>>, size: u32)
    requires Load(image, size).Loaded?
    ensures Stamp(image) == size
  {
    hide LoadBody;
  }

  lemma ReuseDurable(w: World, w': World)
    requires Inv(w) && DoReuse(w, w')
    ensures Keeps(w, w')
  {
    hide DiskInv, Load, FileBytes, Stamp, ValidTable, Faithful, Meaning, Offset;
    var f := w.session.files[0];
    assert Clean(f, w.disk) && OpenInv(f, w.recs);
    LoadedStamp(IdxOf(w.disk, f.pos), f.size);
    forall n: nat, i: nat | Durable(w, n, i)
      ensures Durable(w', n, i)
    {
      OffsetWithin(w.recs[n], i + 1);
    }
  }

  /** A save stamps the index with the size of the file. */
  lemma PublishStamp(w: World, keys: seq<Oid>, w': World)
    requires Inv(w) && DoPublish(w, keys, w')
    ensures var f := w.session.files[0];
            f.pos in w.recs && Stamp(IdxOf(w'.disk, f.pos)) == |FileBytes(w.recs[f.pos])|
  {
    hide DiskInv, Load, FileBytes, Stamp, Faithful, Meaning, Enumerates, IsKeyVector, SavedTable, Clean, Lists, Emit,
      Sorted, IsFanOut;
    var f := w.session.files[0];
    assert OpenInv(f, w.recs);
    SavedEmittable(keys, f.ram, f.table);
    EmitStamp(SavedTable(keys, Meaning(f.ram, f.table)), f.size);
  }

  lemma PublishDurable(w: World, keys: seq<Oid>, w': World)
    requires Inv(w) && DoPublish(w, keys, w')
    ensures Keeps(w, w')
  {
    hide Inv, FileBytes, Stamp, SavedTmp, Offset;
    PublishStamp(w, keys, w');
    forall n: nat, i: nat | Durable(w, n, i)
      ensures Durable(w', n, i)
    {
      OffsetWithin(w.recs[n], i + 1);
    }
  }

  /** A cut spares a record exactly when it leaves room for it. */
  lemma CutSpares(rs: seq<Rec>, i: nat, kept: nat)
    requires Good(rs) && i < |rs| && kept <= |rs|
    ensures i < kept <==> Offset(rs, i + 1) <= Offset(rs, kept)
  {
    hide FileBytes, Offset, Good;
    GoodIsSpaced(rs);
    if kept <= i {
      OffsetsIncrease(rs, kept, i + 1);
    } else if i + 1 < kept {
      OffsetsIncrease(rs, i + 1, kept);
    }
  }

  lemma StopDurable(w: World, kept: nat, w': World)
    requires Inv(w) && DoStop(w, kept, w')
    ensures Keeps(w, w')
  {
    hide FileBytes, Stamp, Offset, Stamped, FilesInv, Good, RecKinds;
    forall n: nat, i: nat | Durable(w, n, i)
      ensures Durable(w', n, i) && w'.recs[n][i] == w.recs[n][i]
    {
      if InFlight(w, n) {
        assert DataInv(w.disk, w.recs, n);
        CutSpares(w.recs[n], i, kept);
      }
    }
  }

  lemma NewFileDurable(w: World, w': World)
    requires Inv(w) && DoNewFile(w, w')
    ensures Keeps(w, w')
  {
    hide Inv, Offset, Stamp;
    NumberIsNew(w);
  }

  lemma StepKeepsDurable(w: World, a: Action, w': World)
    requires Inv(w) && Next(w, a, w')
    ensures Keeps(w, w')
  {
    hide Inv, Stamp, Offset, FileBytes, Load, SavedTmp, Scanned, FirstIndex;
    match a
    case NewFile => NewFileDurable(w, w');
    case Reuse => ReuseDurable(w, w');
    case Append(rec) => AppendDurable(w, rec, w');
    case Publish(keys) => PublishDurable(w, keys, w');
    case Stop(kept) => StopDurable(w, kept, w');
    case _ =>
  }

  lemma {:induction false} DurableStays(r: Run, r': Run)
    requires ValidRun(r') && Begins(r, r')
    ensures Keeps(Last(r), Last(r'))
    decreases r'
  {
    hide Next, Inv, Durable;
    if r != r' {
      DurableStays(r, r'.prev);
      RunKeeps(r'.prev);
      StepKeepsDurable(Last(r'.prev), r'.action, r'.world);
    }
  }

  lemma {:induction false} BeginningValid(r: Run, r': Run)
    requires ValidRun(r') && Begins(r, r')
    ensures ValidRun(r)
    decreases r'
  {
    hide Next;
    if r != r' {
      BeginningValid(r, r'.prev);
    }
  }

  /** Record i of file n is still as it was. */
  ghost predicate StillThere(w: World, w': World, n: nat, i: nat) {
    n in w.recs && i < |w.recs[n]| && n in w'.recs && i < |w'.recs[n]| && w'.recs[n][i] == w.recs[n][i]
  }

  /** The records that every continuation of a run keeps are exactly those
      that a closed file or a saved index covers: any other can be lost. */
  lemma KeptExactlyWhenDurable(r: Run, n: nat, i: nat)
    requires ValidRun(r) && n in Last(r).recs && i < |Last(r).recs[n]|
    ensures (forall r': Run :: ValidRun(r') && Begins(r, r') ==> StillThere(Last(r), Last(r'), n, i))
            <==> Durable(Last(r), n, i)
  {
    RunKeeps(r);
    hide Inv, Durable, Next, DoStop;
    if Durable(Last(r), n, i) {
      forall r': Run | ValidRun(r') && Begins(r, r')
        ensures StillThere(Last(r), Last(r'), n, i)
      {
        DurableStays(r, r');
        StillDurable(Last(r), Last(r'), n, i);
      }
    } else {
      var w' := LosingStop(Last(r), n, i);
      var r' := Then(r, Stop(i), w');
      BeginsSelf(r);
      assert ValidRun(r') && Begins(r, r');
    }
  }

  lemma StillDurable(w: World, w': World, n: nat, i: nat)
    requires Keeps(w, w') && Durable(w, n, i)
    ensures StillThere(w, w', n, i)
  {
  }

  /** A stop that loses a record which is not durable. */
  lemma LosingStop(w: World, n: nat, i: nat) returns (w': World)
    requires Inv(w) && n in w.recs && i < |w.recs[n]| && !Durable(w, n, i)
    ensures Next(w, Stop(i), w') && !StillThere(w, w', n, i)
  {
    hide FileBytes, Stamp, Offset, Stamped, Good, RecKinds, Clean, Lists, MemInv;
    assert DataInv(w.disk, w.recs, n) && OpenInv(w.session.files[0], w.recs);
    StampBefore(w.disk, w.recs, n, i);
    OffsetWithin(w.recs[n], i);
    w' := Cut(w, n, i);
  }

  /** A stamp that does not reach the end of a record does not pass its start. */
  lemma StampBefore(disk: Disk, recs: map<nat, seq<Rec>>, n: nat, i: nat)
    requires DiskInv(disk, recs) && n in recs && i < |recs[n]|
    requires Stamp(IdxOf(disk, n)) < Offset(recs[n], i + 1)
    ensures Stamp(IdxOf(disk, n)) <= Offset(recs[n], i)
  {
    hide Emit, Emittable, ValidTable, Faithful, TableMap, FileBytes, Stamp, Good, RecKinds;
    var rs := recs[n];
    assert DataInv(disk, recs, n);
    NoStamp();
    if n in disk.idx {
      assert Stamped(disk.idx[n], rs);
      var k: nat, t :| StampedAt(disk.idx[n], rs, k, t);
      StampOf(disk.idx[n], rs, k, t);
      CutSpares(rs, i, k);
      if k < i {
        GoodIsSpaced(rs);
        OffsetsIncrease(rs, k, i);
      }
    }
  }

  /** A chunk with this OID was stored for good. */
  ghost predicate StoresDurably(w: World, key: Oid) {
    exists n: nat, i: nat :: Durable(w, n, i) && w.recs[n][i].stored.oid == key
  }

  /** While nothing is being written, all that is stored is stored for good. */
  lemma CleanIsDurable(w: World, key: Oid)
    requires w.session.Up? ==> !w.session.dirty
    ensures StoresDurably(w, key) <==> Stores(w, key)
  {
    hide Offset, Stamp;
    if Stores(w, key) {
      var n :| n in w.recs && Holds(w.recs[n], key);
      var i :| 0 <= i < |w.recs[n]| && w.recs[n][i].stored.oid == key;
      assert Durable(w, n, i);
    }
    if StoresDurably(w, key) {
      DurableIsStored(w, key);
    }
  }

  lemma DurableIsStored(w: World, key: Oid)
    requires StoresDurably(w, key)
    ensures Stores(w, key)
  {
    hide Offset, Stamp;
    var n: nat, i: nat :| Durable(w, n, i) && w.recs[n][i].stored.oid == key;
    assert Holds(w.recs[n], key);
  }

  lemma KeepsStores(w: World, w': World, key: Oid)
    requires Keeps(w, w') && StoresDurably(w, key)
    ensures StoresDurably(w', key)
  {
    hide Offset, Stamp;
    var n: nat, i: nat :| Durable(w, n, i) && w.recs[n][i].stored.oid == key;
    assert Durable(w', n, i);
  }

  lemma GrowsStores(w: World, w': World, key: Oid)
    requires Grows(w, w') && Stores(w, key)
    ensures Stores(w', key)
  {
    var n :| n in w.recs && Holds(w.recs[n], key);
    var i :| 0 <= i < |w.recs[n]| && w.recs[n][i].stored.oid == key;
    assert w'.recs[n][i] == w.recs[n][i];
    assert Holds(w'.recs[n], key);
  }

  /** A chunk found once is found with the same kind and data in every later
      open state, whatever was inserted, flushed or recovered since, unless a
      crash lost records and it was not yet stored for good; after a flush,
      every chunk found is. */
  lemma FindIsStable(r: Run, r': Run, key: Oid, inflate: Inflate, naming: Naming)
    requires ValidRun(r') && Begins(r, r')
    requires AllNamed(Last(r), inflate, naming) && AllNamed(Last(r'), inflate, naming)
    requires Last(r).session.Up? && Last(r').session.Up?
    ensures Searchable(Last(r).session.files, Last(r).disk)
    ensures Searchable(Last(r').session.files, Last(r').disk)
    ensures var s := FindIn(Last(r).session.files, Last(r).disk, key);
            var s' := FindIn(Last(r').session.files, Last(r').disk, key);
            && (!Last(r).session.dirty && s.Some? ==> StoresDurably(Last(r), key))
            && (StoresDurably(Last(r), key) ==> s.Some?)
            && (s.Some? && (StoresDurably(Last(r), key) || Lossless(r, r')) ==>
                  && s'.Some?
                  && s'.value.oid == s.value.oid && s'.value.kind == s.value.kind
                  && PlainData(s'.value, inflate) == PlainData(s.value, inflate))
  {
    hide AllNamed, Searchable, Stores, Keeps, StoresDurably, Next, PlainData, Lossless, Grows;
    BeginningValid(r, r');
    DurableStays(r, r');
    if Lossless(r, r') {
      LosslessGrows(r, r');
    }
    hide ValidRun;
    PoolRefinesMap(r, key, inflate, naming);
    PoolRefinesMap(r', key, inflate, naming);
    if !Last(r).session.dirty {
      CleanIsDurable(Last(r), key);
    }
    if StoresDurably(Last(r), key) {
      DurableIsStored(Last(r), key);
      KeepsStores(Last(r), Last(r'), key);
      DurableIsStored(Last(r'), key);
    } else if Lossless(r, r') && Stores(Last(r), key) {
      GrowsStores(Last(r), Last(r'), key);
    }
  }

  // ---------------------------------------------------------------------
  // Recovery

  /** Recovery rebuilds what a live session knows: same keys, equal chunks,
      and the same index when no OID repeats in the file. */
  lemma RecoveryRebuildsLive(r: Run, i: nat, key: Oid, inflate: Inflate, naming: Naming)
    requires ValidRun(r) && Last(r).session.Up? && i < |Last(r).session.files|
    requires AllNamed(Last(r), inflate, naming)
    ensures var w := Last(r);
            var f := w.session.files[i];
            && f.pos in w.recs && f.pos in w.disk.data && Shaped(f.table)
            && |FileBytes(w.recs[f.pos])| < SIZE_LIMIT
            && var live, rebuilt := Meaning(f.ram, f.table), FirstIndex(w.recs[f.pos]);
            && (key in live <==> key in rebuilt)
            && (key in live ==> SameChunk(w.disk.data[f.pos], live[key], rebuilt[key], key, inflate))
            && (Distinct(w.recs[f.pos]) ==> live == rebuilt)
  {
    RunKeeps(r);
    var w := Last(r);
    var f := w.session.files[i];
    CoversAll(w);
    assert OpenInv(f, w.recs) && DataInv(w.disk, w.recs, f.pos) && Named(w.recs[f.pos], inflate, naming);
    hide Inv, ValidRun, Covers, Searchable, AllNamed, Sorted, IsFanOut;
    LiveAgainstRebuilt(f, w.recs[f.pos], key, inflate, naming);
  }

  ghost predicate SameChunk(file: seq<byte>, a: Node, b: Node, key: Oid, inflate: Inflate) {
    var x, y := Read(file, a.offset), Read(file, b.offset);
    && x.Some? && y.Some? && x.value.oid == y.value.oid == key && x.value.kind == y.value.kind
    && PlainData(x.value, inflate).Some? && PlainData(x.value, inflate) == PlainData(y.value, inflate)
  }

  lemma LiveAgainstRebuilt(f: OpenFile, rs: seq<Rec>, key: Oid, inflate: Inflate, naming: Naming)
    requires MemInv(f, rs) && Good(rs) && |FileBytes(rs)| < SIZE_LIMIT && Named(rs, inflate, naming)
    ensures var live, rebuilt := Meaning(f.ram, f.table), FirstIndex(rs);
            && (key in live <==> key in rebuilt)
            && (key in live ==> SameChunk(FileBytes(rs), live[key], rebuilt[key], key, inflate))
            && (Distinct(rs) ==> live == rebuilt)
  {
    hide Good, FileBytes, Faithful, Sorted, IsFanOut, Named, Read, Meaning, FirstIndex, PlainData;
    var live := Meaning(f.ram, f.table);
    RebuiltReadsSame(live, rs, key, inflate, naming);
    FirstIndexFaithful(rs);
    if Distinct(rs) {
      FaithfulUnique(live, FirstIndex(rs), rs);
    }
  }

  ghost predicate AllLoad(disk: Disk) {
    forall n | n in disk.data :: |disk.data[n]| < SIZE_LIMIT && Load(IdxOf(disk, n), |disk.data[n]|).Loaded?
  }

  ghost function ScanList(disk: Disk, bound: nat): seq<OpenFile>
    requires AllLoad(disk)
  {
    if bound == 0 then []
    else
      var rest := ScanList(disk, bound - 1);
      var n := bound - 1;
      if n in disk.data then
        [OpenFile(n, |disk.data[n]|, map[], Load(IdxOf(disk, n), |disk.data[n]|).table)] + rest
      else rest
  }

  lemma OpenedCons(f: OpenFile, rest: seq<OpenFile>, disk: Disk, ns: set<nat>)
    requires OpenedFrom(rest, disk, ns) && forall n | n in ns :: n < f.pos
    requires f.pos in disk.data && f.size == |disk.data[f.pos]| && Clean(f, disk)
    ensures OpenedFrom([f] + rest, disk, ns + {f.pos})
  {
    hide Clean;
    ListsCons(rest, f);
    var all := [f] + rest;
    forall i, j | 0 <= i < j < |all|
      ensures all[i].pos > all[j].pos
    {
      assert all[j] == rest[j - 1];
      assert Lists(rest, rest[j - 1].pos);
      assert i > 0 ==> all[i] == rest[i - 1];
    }
  }

  lemma OpenedNone(disk: Disk)
    ensures OpenedFrom([], disk, {})
  {
  }

  ghost function DataBelow(disk: Disk, bound: nat): set<nat> {
    set n | n in disk.data && n < bound
  }

  lemma {:induction false} ScanListScans(disk: Disk, bound: nat)
    requires AllLoad(disk)
    ensures OpenedFrom(ScanList(disk, bound), disk, DataBelow(disk, bound))
  {
    hide Load, IdxOf, OpenedFrom;
    OpenedNone(disk);
    if bound > 0 {
      var n := bound - 1;
      ScanListScans(disk, n);
      if n in disk.data {
        var f := OpenFile(n, |disk.data[n]|, map[], Load(IdxOf(disk, n), |disk.data[n]|).table);
        assert Clean(f, disk);
        OpenedCons(f, ScanList(disk, n), disk, DataBelow(disk, n));
        assert DataBelow(disk, bound) == DataBelow(disk, n) + {n};
      } else {
        assert DataBelow(disk, bound) == DataBelow(disk, n);
      }
    } else {
      assert DataBelow(disk, 0) == {};
    }
  }

  lemma {:induction false} Bounded(s: set<nat>) returns (bound: nat)
    ensures forall n | n in s :: n < bound
  {
    if s == {} {
      bound := 0;
    } else {
      var n :| n in s;
      var rest := Bounded(s - {n});
      bound := if n < rest then rest else n + 1;
      assert forall m | m in s :: m == n || m in s - {n};
    }
  }

  lemma ScanSucceeds(w: World, newfile: bool) returns (w': World)
    requires AllLoad(w.disk) && w.session.Down?
    ensures Next(w, Open(newfile), w')
  {
    var bound := Bounded(w.disk.data.Keys);
    ScanListScans(w.disk, bound);
    hide Clean, Load, AllLoad;
    var files := ScanList(w.disk, bound);
    assert DataBelow(w.disk, bound) == w.disk.data.Keys;
    w' := w.(session := Up(files, false, newfile));
    assert Scanned(files, w.disk);
    assert DoOpen(w, newfile, w');
  }

  /** A reachable directory can be opened exactly when every data file has an
      index with its own stamp; this is what rebuilding the others restores. */
  lemma OpensExactlyWhenIndexed(r: Run, newfile: bool)
    requires ValidRun(r) && Last(r).session.Down?
    ensures (exists w' :: Next(Last(r), Open(newfile), w')) <==> AllLoad(Last(r).disk)
  {
    RunKeeps(r);
    var w := Last(r);
    hide Inv, ValidRun, AllLoad, Scanned;
    if AllLoad(w.disk) {
      var w' := ScanSucceeds(w, newfile);
    }
    if w' :| Next(w, Open(newfile), w') {
      OpenedAllLoad(w, w'.session.files);
    }
  }

  lemma OpenedAllLoad(w: World, files: seq<OpenFile>)
    requires Inv(w) && Scanned(files, w.disk)
    ensures AllLoad(w.disk)
  {
    hide Inv, Scanned, Load;
    forall n | n in w.disk.data
      ensures |w.disk.data[n]| < SIZE_LIMIT && Load(IdxOf(w.disk, n), |w.disk.data[n]|).Loaded?
    {
      OpenedLoads(w, files, n);
    }
  }

  lemma OpenedLoads(w: World, files: seq<OpenFile>, n: nat)
    requires Inv(w) && Scanned(files, w.disk) && n in w.disk.data
    ensures |w.disk.data[n]| < SIZE_LIMIT && Load(IdxOf(w.disk, n), |w.disk.data[n]|).Loaded?
  {
    hide Load, Stamped, Good, FileBytes, RecKinds, FilesInv;
    assert n in w.recs.Keys;
    assert DataInv(w.disk, w.recs, n);
    assert Lists(files, n);
    var i :| 0 <= i < |files| && files[i].pos == n;
    assert Clean(files[i], w.disk);
  }
}
