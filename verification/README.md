# Verified model of the cdump storage pool

cdump keeps backup chunks in an append-only, content-addressed pool: numbered
data files holding compressed or plain records, each with an index file that
maps a chunk's OID to the offset and kind of its record. This project models the
pool, from the bytes of a record up to whole runs of inserts, flushes, crashes,
recoveries and reopenings, together with the decoder and walk of backup nodes
and the matchers and test selection of the vendored gtest 1.7.0.

`dafny verify dfyconfig.toml` checks everything.

| file | models |
|---|---|
| `bytes.dfy`, `oid.dfy`, `spelling.dfy` | little-endian words, 16-byte rounding; OID order and arithmetic; what the bytes of a file spell |
| `chunk.dfy` | the record format; plain and compressed chunk objects, and the cached compression decision |
| `index_table.dfy` | an index file as a value: fan-out, kind dictionary, the table a save builds, its bytes |
| `index.dfy` | the in-memory index: RAM map over a loaded table, lookup, save, load |
| `layout.dfy` | a data file as a run of records, faithful indexes, the recovery walk |
| `world.dfy` | directory and open pool as a state machine, and the invariant every step keeps |
| `runs.dfy` | theorems about whole runs: crash safety, refinement of a map, what a crash can lose, recovery |
| `pool.dfy`, `opening.dfy` | the pool object: prepare, insert, flush, find, open, recover |
| `decoder.dfy`, `backup_walk.dfy` | property blocks, the backup node, the walk down a chain of `back` chunks |
| `regex.dfy`, `glob.dfy`, `test_order.dfy`, `sharding.dfy` | gtest's simple regular expressions, filters, shuffling, sharding |

How the layers meet: every write the pool object makes is recorded, in the ghost
field `Directory.run`, as one step of the state machine of `world.dfy`. A crash
leaves a state between two steps, less what the stream of the file being written
still held (the step `Stop`), so the theorems of `runs.dfy` hold at every point
inside every operation of `pool.dfy` and `opening.dfy`.

Assumptions, each visible as a precondition or a parameter:

- Equal OIDs mean equal kind and data (`AllNamed`, with a function from OIDs to
  content in the place of SHA-1). Only statements about data need it.
- A data file stays below 2^31 bytes and uses at most 256 kinds (`Fits`). An
  insert needs room for this only in the file the record will go to
  (`Pool.HasRoom`). The second bound is exact: see `SaveLoadPreservesMeaning`.
- A plain chunk read from a stream is not written again: the source never
  assigns its compression state, so what a write would do is undefined
  (`Chunk.Determined`).
- The chain of backup nodes below the root of a walk ends (`EndsWithin`).
- A crash leaves whole records. Of those appended to the file being written
  since its index was last saved, any number may still be in the stream and be
  lost, always the last ones (`Worlds.DoStop`). Saving an index comes after the
  stream is closed, so a saved index covers only what reached the file.
- A rename is atomic, and there is one writer.
- A call of the compressor may answer anything that inflates back to its source
  and is no longer than it, or give up, and need not repeat itself
  (`Zlib.outcome`).
- The pad of a record is arbitrary bytes: up to 15 are written from a one-byte
  array.

Where the code and its documentation differ, the model follows the code:

- The per-file limit is documented as the largest size a file can reach. While a
  session is writing, the size is tested against `write_pos`, which is never
  assigned, so the limit is kept exactly when `LimitKeptExactlyWhen` says.
- Kind positions are stored in one byte, so an index with more than 256 kinds
  changes its meaning when saved and loaded.
- A full regular-expression match takes an escaped `$` at the end of the pattern
  for the end anchor, and then accepts strings with more behind the match.
- The const accessor `GetTestCase(int)` looks up the shuffled index and then
  uses the unshuffled one.

For each of these the exact condition is proved, with an input at which it
fails: `LimitNotKept`, `TooManyKinds`, `EscapedDollarOvermatches`,
`AccessorsDisagree`.

## Model

| member | source | states |
|---|---|---|
| `Runs.CrashSafety` | src/pool.cc:197-237 | At every point of every run at which the process can stop, and whatever of the file being written is lost then, each data file is a run of whole 16-aligned records, and an index that a load accepts has exactly the OIDs in that file as its keys, each leading to the start of a record with that OID and kind, whose header says so; anything else is an index error, never a short read |
| `Runs.PoolRefinesMap` | src/pool.cc:148-158 | In every reachable open state, through rollovers, crashes and recoveries, `find` answers a key exactly when some file holds a chunk with that OID, with the kind, OID and data the key names |
| `Runs.FindsInNewest` | src/pool.cc:148-158 | The answer is the record that the newest file holding the key leads to, and there is none when no file holds it |
| `Runs.StoresWhatWasInserted` | src/pool.cc:197-225 | Every chunk held was inserted at some step of the run, and if no crash of the run lost a record, every chunk inserted is held |
| `Runs.SameRecsAnswer` | src/pool.cc:148-315 | The records alone determine every answer: between open states with the same records, whatever was saved, reloaded, reopened or rebuilt between them, no search changes its answer |
| `Runs.FindIsStable` | src/pool.cc:148-237 | What `find` answered once it answers with the same kind and data in every later open state, unless a crash between the two lost records and the chunk was covered neither by a saved index nor by a closed file; after a flush every chunk found is covered |
| `Runs.LosslessGrows` | src/pool.cc:197-225 | While no stop loses a record, every record stays in its place |
| `Runs.RecoveryRebuildsLive` | src/pool.cc:285-315 | In every reachable open state the index that recovery would rebuild for a file has the keys of the live one, both read equal chunks, and they are identical when no OID repeats in the file |
| `Runs.OpensExactlyWhenIndexed` | src/pool.cc:274-283 | A reachable directory opens if and only if every data file has an index that loads under the file's current size |
| `Runs.RunKeeps` | src/pool.cc:160-237 | The invariant holds after every run from an empty directory |
| `Runs.DurableStays` | src/pool.cc:197-237 | No continuation of a run, with crashes that lose what the stream holds, loses or alters a record that a saved index or a closed file covers |
| `Runs.KeptExactlyWhenDurable` | src/pool.cc:203-231 | A record survives every continuation of a run if and only if its file is not being written or its saved index covers it |
| `Runs.AppendedIsFound` | src/pool.cc:148-225 | After a record is appended, searching gives its kind and data for its OID and the same answer as before for every other key |
| `Worlds.StepKeeps` | src/pool.cc:160-315 | Each step of opening, writing, flushing, stopping and rebuilding keeps the invariant: files strictly descending and equal to those on disk, sizes equal to the file ends, indexes faithful to the records, RAM entries only in the front file and only while dirty, every clean file equal to its index on disk |
| `Worlds.LoadIsFaithful` | src/index.cc:213-227 | An index on disk is accepted exactly when its size stamp is the file's size, and then covers every record; a stale one is turned away with an index error |
| `Worlds.SavedIsStamped` | src/index.cc:154-162 | A complete save of a faithful index is, on disk, a faithful index of the whole file |
| `Worlds.NumberIsNew` | src/pool.cc:184-188 | The number given to a new file belongs to no data file and no index |
| `Pools.Pool.Insert` | src/pool.cc:197-225 | Adds exactly one record, the chunk in the form it will store, through steps of the machine only. A data file is added if and only if the record exceeds the limit while something is being written, or otherwise `newfile` still applies, there is no file, or the newest has no room; it takes the number after the highest, and any other record goes to the newest file. Afterwards a search for the chunk's OID gives its kind and data, and every other search what it gave before; the end-of-file check never fails; a read-only pool is left as it was |
| `Pools.Pool.PrepareWrite` | src/pool.cc:160-195 | Leaves the pool dirty, with `newfile` done with, on a file chosen as for an insert: the newest one, or a new empty one with the number after the highest in front of the others, after a flush if something was being written |
| `Pools.ChosenPlaces` | src/pool.cc:160-188 | The decision, stated on the directory alone: exactly when a data file is added, and which number it takes |
| `Pools.Pool.Flush` | src/pool.cc:227-237 | Ends clean, changes no data, no record and no answer of a search, and the load after the save never throws |
| `Pools.Pool.AppendFront` | src/pool.cc:203-224 | The record, the index entry and the size move together as one step, and the size equals the end of the file |
| `Pools.Pool.Find` | src/pool.cc:148-158 | Returns a chunk object standing for the record that the newest file holding the key points at, or nothing, with the kind and data that are the pool's answer for the key, and changes nothing |
| `Pools.LimitKeptExactlyWhen` | src/pool.cc:160-180 | A write keeps the file within the limit if and only if the record alone fits and a file being written has room for it |
| `Pools.LimitNotKept` | src/pool.cc:164-167 | For every limit a pool may have, any two OIDs and any data of the right length that does not compress, a run in which OIDs name their content: the first chunk fills a new file up to the limit but for less than 16 bytes, the second, of 48 bytes, is put behind it and the file exceeds the limit |
| `Pools.Directory.Crash` | src/pool.cc:203-237 | A kill of the process leaves of the file being written a beginning that its saved index does not exceed, and is a step of the machine |
| `Pools.SaveSteps` | src/index.cc:154-162 | Writing the temporary index and renaming it are two allowed steps, and the result loads |
| `Opening.OpenPool` | src/pool.cc:121-134 | From whatever state the directory was left in, succeeds if and only if every index loads, and then the pool is clean and in a reachable state |
| `Opening.RecoverFiles` | src/pool.cc:285-315 | From whatever state, ends with every index loading, no data changed, and none of its exceptions raised |
| `Opening.RebuildIndex` | src/pool.cc:300-312 | Replaces one rejected index by one that loads and touches no other |
| `Opening.FindPoolFiles` | src/pool.cc:256-271 | The numbers of exactly the data files, in ascending order |
| `Layout.WalkHeaders` | src/pool.cc:300-310 | Over a file of whole records the header walk never throws and yields the index of first occurrences |
| `Layout.WalkEnd` | src/pool.cc:300-301 | The walk stops exactly at the file size, having read every record |
| `Layout.FirstIndexIsFirst` | src/pool.cc:307-308 | The rebuilt index maps each OID to the first record that has it |
| `Layout.FirstIndexFaithful` | src/pool.cc:300-310 | The rebuilt index has exactly the OIDs in the file as keys, each at a record start |
| `Layout.RebuiltReadsSame` | src/pool.cc:300-312 | Any live index and the rebuilt one answer the same keys and read equal chunks |
| `Layout.FaithfulUnique` | src/pool.cc:300-312 | When no OID repeats, two faithful indexes of a file are equal |
| `Layout.FaithfulAppend` | src/pool.cc:214-217 | Appending a record and inserting its entry, whether it is kept or an earlier one wins, keeps an index faithful |
| `Layout.FaithfulReads` | src/pool.cc:148-154 | Both readers, sent to an indexed offset, see a record with the indexed OID and kind |
| `Layout.ReadAt` | src/chunk.cc:122-138 | At the start of any record of a file both readers see that record, and its stored size leads to the next |
| `Layout.OffsetsAligned` | src/chunk.cc:81-84 | Every record starts on a 16-byte boundary |
| `IndexTables.SaveLoadPreservesMeaning` | src/index.cc:75-150 | For every RAM-over-loaded index, also a loaded one whose repeated hashes carry different nodes, with keys in both layers stored twice: after save and load a search finds the same keys, each with the offset and kind it found before, if and only if the index uses at most 256 kinds |
| `IndexTables.HalvingFinds` | src/index.cc:187-208 | Halving a range of a sorted vector comes upon a key exactly when the vector has it |
| `IndexTables.SlotIsMeaning` | src/index.cc:199-204 | What a table means for a hash is the node of a slot holding it, and of every such slot where duplicates agree |
| `IndexTables.SavedTableMeaning` | src/index.cc:109-150 | With at most 256 kinds the table written maps every key to its own offset and kind |
| `IndexTables.SavedTableTruncates` | src/index.cc:143-149 | With more, some key is stored under another kind |
| `IndexTables.SavedTableAt` | src/index.cc:143-149 | A key comes back with its kind if and only if fewer than 256 kinds in use sort before that kind |
| `IndexTables.TooManyKinds` | src/index.cc:143-149 | An index of 257 keys, each of its own kind, that a save changes |
| `IndexTables.EmitLoad` | src/index.cc:213-252 | The bytes of a saved index load back to the very same table under their own size stamp, and are rejected as of wrong size under any other |
| `IndexTables.LoadsExactly` | src/index.cc:213-252 | A file loads as a table if and only if its bytes are the magic, version 4, the size asked for, 256 fan-out words, 20 bytes a hash, a word an offset, the number of kinds, 4 bytes a kind and a byte a hash, all words little-endian, whatever follows |
| `IndexTables.FailsExactly` | src/index.cc:213-252 | By the bytes of a file, exactly when each of the five failures is given |
| `IndexTables.EmitLayout` | src/index.cc:75-90 | The bytes a save writes lie so, under its stamp, with nothing behind them |
| `IndexTables.FanOutSplits` | src/index.cc:92-107 | In a sorted table the slots with first byte at most b are exactly those before fan-out entry b |
| `FileIndexes.FileData.Find` | src/index.cc:179-208 | In every sorted table with its fan-out, duplicates with differing nodes allowed, finds a key exactly when it occurs, with the offset and kind of a slot holding it, which is that of every such slot where duplicates agree; no index leaves its vector, also for an empty bucket |
| `FileIndexes.FileData.Load` | src/index.cc:213-252 | Gives what the bytes of the file say, and an index error leaves the loaded table as it was |
| `FileIndexes.FileIndex.Find` | src/index.cc:164-176 | The RAM entry of a key wins over the slot that the search of the table finds; the result is kept |
| `FileIndexes.FileIndex.Insert` | src/index.hh:85-87 | The first RAM entry of a key wins |
| `FileIndexes.FileIndex.Load` | src/index.hh:104-107 | Replaces both layers by the loaded table |
| `FileIndexes.FileIndex.SortedKeys` | src/index.cc:18-31 | A sorted vector with the keys of both layers, a key in both twice |
| `FileIndexes.KeyVectorEnumerates` | src/index.cc:18-31 | That vector has exactly the keys of the index, and its length is the two layers' sizes added |
| `FileIndexes.Saver.ComputeTops` | src/index.cc:92-107 | One pass over the sorted keys counts, for each byte, the hashes that start with at most that byte |
| `FileIndexes.Saver.FirstPass` | src/index.cc:109-129 | The offset of every key as `find` gives it, the kinds in use in ascending order, each numbered by its position |
| `FileIndexes.Saver.WriteKindBytes` | src/index.cc:143-149 | Per key, the position of its kind truncated to a byte |
| `FileIndexes.Saver.Save` | src/index.cc:75-90 | Emits exactly the file image of the merged index, whose bytes `EmitLayout` gives |
| `FileIndexes.FileIndex.Image` | src/index.cc:154-157 | For any order the RAM map hands out its keys, the image is that of the merged index over a sorted key vector |
| `Chunks.RecordRoundTrip` | src/chunk.cc:87-153 | Wherever a written record lies in a file, with any pad, `read` gives back kind, OID, payload and size, `read_header` agrees, and bytes emitted, `write_size` and `stored_size` are one number, a multiple of 16 |
| `Chunks.RecordReadsBack` | src/chunk.cc:140-153 | `read` at a written record returns it whole, wherever it lies and whatever its pad |
| `Chunks.RecordLayout` | src/chunk.cc:63-111 | The bytes of a record: magic, stored size and original size (or all ones) as little-endian words, kind, OID, payload, and fewer than 16 bytes up to the next multiple of 16 |
| `Chunks.ReadsExactly` | src/chunk.cc:140-153 | `read` succeeds on exactly the bytes with the magic and the payload they announce, and takes each field from its place |
| `Chunks.HeaderReadsExactly` | src/chunk.cc:122-138 | The same for `read_header`, with the size of the whole record |
| `Chunks.PlainChunk.HasZData` | src/chunk.cc:182-212 | Untried, it asks the compressor once about 16 bytes or more, and says yes exactly when that succeeds, with its output; afterwards the decision and the compressed data never change, whatever the compressor would answer next |
| `Chunks.Chunk.WriteSize` | src/chunk.cc:114-120 | The size of the record in the form the chunk will store: settled, or compressed exactly if the compressor succeeds |
| `Chunks.Chunk.Write` | src/chunk.cc:87-111 | Appends one record of the chunk in the form it will store, whose bytes `RecordLayout` gives |
| `Chunks.ReadChunk` | src/chunk.cc:140-170 | The object built has the record's kind and OID and stands for its uncompressed data; exactly the plain ones have an undetermined compression state and cannot be written, and the others would be written as they were read |
| `Chunks.CompressedChunk.Data` | src/chunk.cc:239-251 | The inflated payload, cached without changing what the chunk is |
| `Chunks.Zlib.TryCompress` | src/chunk.cc:24-43 | Gives up on less than 16 bytes; otherwise answers with the compressor's next outcome, which inflates back and is no longer than the source |
| `Bytes.MasksAreRemainders` | src/chunk.cc:81-84 | On every 32-bit word, masking with 15 takes the remainder by 16 and masking with its complement takes it off |
| `Bytes.PaddedIsHeaderPayloadPad` | src/chunk.cc:81-111 | The rounding that `write_size` does with one mask equals header, payload and the pad that `write` adds with the other |
| `Oids.MemCmpIsNumeric` | src/oid.hh:56-71 | `memcmp` order is the order of the big-endian numbers, for any length |
| `Oids.TweakedValue` | src/oid.cc:58-72 | Carrying increment and decrement are plus and minus one on the number, wrapping at 256 to the length |
| `Oids.TweaksCancel` | src/oid.hh:52-54 | Increment and decrement undo each other |
| `Oids.TweakedOrder` | src/oid.hh:52-65 | An OID's successor is greater unless all its bytes are 255, and its predecessor smaller unless all are 0 |
| `Oids.Extremes` | src/oid.cc:58-72 | The numbers at which increment and decrement wrap are those with all bytes 255 and all bytes 0 |
| `Oids.MutableOid.Tweak` | src/oid.cc:58-72 | The in-place loop computes the carrying increment or decrement |
| `Oids.MutableOid.Increment` | src/oid.hh:54 | Adds one modulo 256 to the length |
| `Oids.MutableOid.Decrement` | src/oid.hh:53 | Subtracts one modulo 256 to the length |
| `Decoders.DecodeBlockExact` | src/decoder.cc:55-66 | Decoding succeeds on exactly the byte strings that encode a type and a list of properties, and yields them in order |
| `Decoders.DecodesWhatLies` | src/decoder.cc:35-66 | The same by bytes: each string lies behind its length, in one byte for the type and the keys and in two, the high one first, for the values |
| `Decoders.EncodingInjective` | src/decoder.cc:55-66 | A byte string encodes at most one block |
| `Decoders.DecodePropsExact` | src/decoder.cc:61-65 | The same for the property list alone |
| `Decoders.DecodeProperty` | src/decoder.cc:55-66 | Succeeds exactly on an encoded block whose conversions succeed, and then has told the visitor its type and every property in order |
| `Decoders.Decoder.GetString` | src/decoder.cc:35-41 | Takes exactly the next bytes, or fails when the block ends before them |
| `Decoders.LastValueWins` | src/decoder.cc:125-132 | Each ordinary key keeps its last value, `hash` and `_date` set their fields and never become properties |
| `Decoders.OnlyWhatWasAdded` | src/decoder.cc:125-132 | Every key of the node was told, and without `_date` or `hash` the date and the OID are unset |
| `Decoders.BackNode.AddProperty` | src/decoder.cc:125-132 | Keeps the node equal to the fold of all properties it was told |
| `BackupWalks.Walk` | src/decoder.cc:86-106 | For every chain that ends, whatever else is stored: the whole effect on the stack and the callbacks, for normal and exceptional ends |
| `BackupWalks.WalkBack` | src/decoder.cc:136-143 | The same for one node, with Prune as a way to end |
| `BackupWalks.WalkDiscipline` | src/decoder.cc:86-143 | A walk returns normally if and only if some node of the chain prunes, and the OID stack is then unchanged; otherwise it says why the end node stopped it, and the chain is left on the stack. The callbacks made are those of the visited nodes in order, each with its own node on top and what that node holds |
| `BackupWalks.ChainLinks` | src/decoder.cc:136-143 | The chain starts at the root, each node names the next, and the end node names none |
| `BackupWalks.VisitedIs` | src/decoder.cc:86-106 | The visited nodes are the chain down to its first node that prunes |
| `Regexes.ValidExactlyPatterns` | gtest-1.7.0/src/gtest-port.cc:257-311 | Validation accepts exactly the texts of patterns: optional start anchor, atoms with optional repetition, optional end anchor |
| `Regexes.ValidateRegex` | gtest-1.7.0/src/gtest-port.cc:257-311 | The loop, going on after an error, decides that validity |
| `Regexes.MatchRegexAnywhere` | gtest-1.7.0/src/gtest-port.cc:383-396 | For every valid pattern and string, true if and only if some substring, placed as the anchors say, is in the pattern's language |
| `Regexes.DigitsExactly` | gtest-1.7.0/src/gtest-port.cc:210-232 | `\d` matches exactly the ten digits, `\D` all other characters |
| `Regexes.BlanksExactly` | gtest-1.7.0/src/gtest-port.cc:215-237 | `\s` matches exactly the six blanks, `\S` all other characters |
| `Regexes.WordCharsExactly` | gtest-1.7.0/src/gtest-port.cc:216-241 | `\w` matches exactly digits, letters and the underscore, `\W` all other characters |
| `Regexes.PunctuationExactly` | gtest-1.7.0/src/gtest-port.cc:211-213 | Of the visible ASCII characters exactly the underscore and those that are no word characters are matched by their own escapes |
| `Regexes.EscapesExactly` | gtest-1.7.0/src/gtest-port.cc:229-243 | Any other escape matches its own character, if that is punctuation, and else nothing |
| `Regexes.RepetitionsDenote` | gtest-1.7.0/src/gtest-port.cc:320-342 | An atom followed by `?`, `*`, `+` or nothing denotes the runs of at most one, any number, at least one, or exactly one of its characters |
| `Regexes.ShortPatterns` | gtest-1.7.0/src/gtest-port.cc:257-311 | Which single characters and which single escapes are patterns |
| `Regexes.MatchRegexAtHead` | gtest-1.7.0/src/gtest-port.cc:347-373 | True if and only if a prefix is in the language of the rest of the pattern, and terminates |
| `Regexes.MatchRepetitionAndRegexAtHead` | gtest-1.7.0/src/gtest-port.cc:320-342 | Stopping at the first possible count loses no match |
| `Regexes.FullTextSpells` | gtest-1.7.0/src/gtest-port.cc:417-448 | The text built for a full match is the pattern anchored at both ends, or only at the start if it ends in an escaped `$` |
| `Regexes.FullMatchExactlyWhen` | gtest-1.7.0/src/gtest-port.cc:406-448 | A full match means that the whole string is in the language, on all strings, if and only if the pattern does not end in an escaped `$` |
| `Regexes.EscapedDollarOvermatches` | gtest-1.7.0/src/gtest-port.cc:436-448 | The pattern `\$` fully matches the string `$x`, which its language does not contain |
| `Regexes.RE.FullMatch` | gtest-1.7.0/src/gtest-port.cc:406-408 | Decides that meaning |
| `Regexes.RE.PartialMatch` | gtest-1.7.0/src/gtest-port.cc:412-414 | Decides whether some substring matches |
| `Globs.MatchesExactly` | gtest-1.7.0/src/gtest.cc:440-455 | The recursive matcher is true if and only if the string can be cut into one fitting part for each pattern character |
| `Globs.MatchesFilter` | gtest-1.7.0/src/gtest.cc:457-476 | True if and only if some colon-separated piece matches the whole name |
| `Globs.PiecesJoin` | gtest-1.7.0/src/gtest.cc:457-476 | The pieces hold no colon and with colons between them make up the filter |
| `Globs.FilterMatchesTest` | gtest-1.7.0/src/gtest.cc:480-506 | True if and only if a positive piece and no negative piece matches the full name |
| `Globs.EmptyParts` | gtest-1.7.0/src/gtest.cc:490-500 | A missing negative part excludes nothing, and a missing positive part before a dash admits everything |
| `TestOrders.ShuffleRange` | gtest-1.7.0/src/gtest-internal-inl.h:310-328 | Rearranges the range in place, touches nothing outside it, and the state of the generator determines the order |
| `TestOrders.DealtOnce` | gtest-1.7.0/src/gtest-internal-inl.h:310-328 | Different draws of the random numbers give different orders |
| `TestOrders.DealtAll` | gtest-1.7.0/src/gtest-internal-inl.h:310-328 | Every rearrangement of the range is given by some draws, so each by exactly one sequence of them |
| `TestOrders.ShuffledDeals` | gtest-1.7.0/src/gtest-internal-inl.h:310-328 | The order a shuffle gives is the one dealt by the generator's draws |
| `TestOrders.DeathFirstVisits` | gtest-1.7.0/src/gtest.cc:4601-4607 | Shuffled within the two groups, every case number occurs exactly once and death tests keep the first places |
| `TestOrders.UnitTest.GetTestCase` | gtest-1.7.0/src/gtest.cc:4173-4206 | Finds a registered name, or inserts the case after the death tests or at the end, keeping all death tests in front |
| `TestOrders.UnitTest.ShuffleTests` | gtest-1.7.0/src/gtest.cc:4601-4613 | Shuffles the cases, death tests first, and then the tests in each case, all from one stream: the generator's state determines every order and the state it ends in, and each order stays a permutation |
| `TestOrders.TestsSwapped` | gtest-1.7.0/src/gtest.cc:4601-4613 | One case with two tests, shuffled with seed 1, runs them in the other order |
| `TestOrders.DeathMeans` | gtest-1.7.0/src/gtest.cc:155-158 | Death tests are the names that end in `DeathTest` or contain `DeathTest/` |
| `TestOrders.UnitTest.UnshuffleTests` | gtest-1.7.0/src/gtest.cc:4616-4623 | Restores the registration order of cases and of the tests in each |
| `TestOrders.UnitTest.RunAll` | gtest-1.7.0/src/gtest.cc:4313-4316 | Runs the cases in their current order, every one exactly once, all death tests before all others |
| `TestOrders.UnitTest.GetMutableTestCase` | gtest-1.7.0/src/gtest-internal-inl.h:593-596 | The i-th case to run exists for exactly the positions of cases, and is a death test exactly in the first group |
| `TestOrders.AccessorsAgreeExactlyUnshuffled` | gtest-1.7.0/src/gtest-internal-inl.h:586-596 | The const accessor and the mutable one agree on all positions if and only if no shuffle is in effect |
| `TestOrders.AccessorsDisagree` | gtest-1.7.0/src/gtest-internal-inl.h:586-596 | Two cases shuffled with seed 1 change places, and then each accessor gives the other's case |
| `Sharding.ShardsPartition` | gtest-1.7.0/src/gtest.cc:4444-4446 | Each runnable test is selected by exactly one shard, that of its rank among the runnable tests modulo their number, any other test by none, and without shards every runnable test |
| `Sharding.DisabledMeans` | gtest-1.7.0/src/gtest.cc:4478-4483 | Disabled are the tests with `DISABLED_` at the start, or after a slash, of the case's or their own name |
| `Sharding.ShardCountsAddUp` | gtest-1.7.0/src/gtest.cc:4489-4505 | The counts returned by all shards add up to the number of runnable tests |
| `Sharding.TestPlan.FilterTests` | gtest-1.7.0/src/gtest.cc:4455-4506 | Records for every test whether it is disabled and whether the filter selects it, marks exactly the runnable tests whose rank falls on the shard, a case exactly when one of its tests is marked, and returns their number |

## Left out

- Torn records: a crash in the middle of an append is not modelled; the header walk stops once it has stepped past the end of a file, so it could index a half-written last record.
- Layout.WalkHeaders: covers files made of whole records; on other bytes a stored size can wrap to 0 and the source's loop would not end.
- Chunks.ReadChunk: a stream that ends inside a record gives no chunk here; the source goes on with what it has read.
- Runs.CrashSafety: directories damaged by anything but a crash of the pool are outside the runs.
- zlib and SHA-1: an abstract inverse pair and a naming function stand for them; the errors of the compressor other than lack of room are not modelled.
- File names, `metadata`, properties parsing, UUIDs, the lock file, `get_backups`, and the switching of a stream between read and append mode.
- File numbers above 9999, which the name pattern does not recognise.
- Closing a pool: the destructor is a flush followed by the end of the process, both modelled separately.
- Big-endian hosts, where the index loader's byte swap works on a copy.
- Hexadecimal OIDs and the two conversions of property values, which are parameters of the decoder.
- BackupWalks.Walk: a chain that comes back to one of its own nodes, which would need an OID that names its own content, is left out; a callback may prune but throws nothing else.
- Sharding.TestPlan.FilterTests: test records are values in the plan, so sharing of one record between two cases is not modelled; parsing of the sharding environment variables is left out.
- Regexes.MatchRegexAnywhere: the failure messages of validation and the POSIX variant of the class are left out.
- Death-test processes, printers, XML output, flags and the samples of gtest, and the terminal output of cdump.
