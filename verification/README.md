# sisdb: models and proofs of its core

sisdb is a time-series store written in C. This project models the cores its services stand on and proves what
they are for, in Dafny. `dafny verify dfyconfig.toml` checks it all.

- **Hash table** (`src/core/sis_dict.c`). `DictState` is the state of the incrementally rehashed table and what
  each operation does to it; `Dictionary` is the same as a class that works in place, each method proved to make
  exactly that change. `DictRefinement` shows that every two-table state stands for one finite map and that the
  operations act on it as on the map; `DictSizes` says when it grows and to what; `DictRuns` is about whole runs and
  bounds the load; `DictScan` is about the stateless scan with its reversed cursor; `DictIteration` about safe
  iterators. The hash is any function of the key.
- **Block store** (`src/core/sis_memory.c`, `src/core/disk/sis_disk_files.c`). `Memory` is the growing buffer and
  its variable-length sizes, `DiskFormat` the frames, `BlockStore` the chunked streaming reader, `FileVolumes`
  how blocks are spread over files and what is still held in the end, `FileSet` writing with rollover, reading
  everything back, and reading one block from its place. A read gives any number of bytes
  the system chooses, but at least one before the end of the file. Compression is any partial function whose
  inverse exists (`Lawful`). The callback is taken to leave the output buffer empty, since payloads that were not
  compressed are appended to it.
- **Shared queues** (`src/core/sis_list.lock.c`, `src/core/sis_obj.c`). `FastQueue` and `LockList` are transition
  systems whose steps are single reads and writes of the threads where these can interleave; reference counts are
  a multiset of the references held. `LockListExact` is about the runs that crash, `LockListSize` about what the
  watcher gives up, `LockListReaders` about what a reader is handed. `WaitQueue` is a class over
  linked nodes, since each of its operations runs under the lock.
- **Record schemas** (`src/core/sis_dynamic.c`, `src/core/sis_dynamic.h`). `SchemaFormat` lays out fields, matches
  them by name and says what a record becomes in another schema, `Schema` what comes back and when the whole-block
  copy is right, `SchemaValues` what becomes of numbers, times and characters, `SchemaConvert` is the converter
  writing into its buffer, with `SchemaWrites` for what it notes and what is in the buffer meanwhile.
- **Text**: quoted arguments (`Quoting`, `QuotingWords`, `src/core/sis_sds.c`) and JSON (`src/core/sis_json.c`):
  `Json` is the printer and the parser, `JsonRoundTrip` the strings, keys and numbers that read back, `JsonTrees` the
  trees, `JsonBlanks` blanks in a text, `JsonStandard` what is printed and read by RFC 8259, `JsonErrors` the texts
  that are refused, `JsonCode` the loops of the code.
- **Condition trees** (`Judge`, `src/core/sis_method.c`): the loader that links nodes and the pass that judges them
  in place.
- **Array lists** (`Lists`, `src/core/sis_list.c`): the list with a sliding start and the sorted list on two of them.
- **SHA-1** (`Sha1`, `Sha1Message`, `Sha1Constants`, `src/core/sis_sha1.c`) against FIPS 180-4.

`Arithmetic`, `Bits`, `Options` and `Sequences` are helpers. Words of 64 and 32 bits are sequences of bits, the lowest first.

## What turned out not to hold as promised

Each is stated with the exact condition under which the code does meet the promise.

- The whole-block copy of the schema converter is chosen when both schemas have the same size and number of fields
  and no field differs from its match in style, length or count. It gives the field-by-field result if and only if
  every field has its match at the same offset (`Schema.CopyIsConversion`), which for an upgrade whose fields are
  all reached means that they keep their order (`Schema.OrderAligns`).
- Fields are matched by names cut to 31 bytes. Records of a schema all come back from one that upgrades it if and
  only if the block is copied whole, or no name is longer than 31 bytes and no later field of the upgrade begins
  with the same ones (`Schema.UpgradesComeBackExactly`). So the values of a field with a name of 32 bytes are lost
  (`Schema.LongNameLost`).
- The number of the file written to, the one the index records, and the count of files in a file's tail are one byte
  each. The 257th file of a session takes the place of the first, which is emptied, and so on; a file of its own
  number is never there, so that the session cannot be opened again for reading. So a session is read back if and
  only if it takes at most 256 files (`FileSet.WriteAndReadBack`), and opened anew by the count, if every block
  carries something, if and only if it takes fewer (`FileSet.WriteAndReadAnew`). The index finds all blocks in their
  files if and only if there are at most 256, or one more and no data in the first
  (`FileVolumes.IndexHeldExactly`). With a limit of one byte for a file, 257 blocks are enough to lose the first
  (`FileVolumes.FirstBlockLost`).
- A reader of the lock list looks its first place up under the list's lock and stores it as its cursor afterwards.
  Unless the list keeps everything, the watcher can pass in between and the reader be led to freed memory, even one
  that is among the users, starts at the tail and looks after the first push (`LockListExact.ReadyReaderCrashes`).
  So with no more asked of readers than that, all runs are safe if and only if the list keeps everything
  (`LockListExact.AlwaysSafe`). The rule that is needed is about the store: the reader is among the users by then and
  the watcher has not passed the place (`LockList.Guarded`). From any state of a run, all runs that keep this rule are
  safe if and only if each reader with a cursor is among the users and the watcher has not passed it
  (`LockListExact.SafeExactly`), and storing its place leaves a reader safe from them if and only if it keeps the rule
  itself (`LockListExact.StoreSafeExactly`). It does if the watcher takes no step between the look and the store
  (`LockList.Undisturbed`); the code does not see to that, and starts the thread before the reader is among the users
  (`LockListExact.EarlyReaderCrashes`).
- A JSON string value reads back if and only if it has no backslash and no control byte, since the parser undoes
  only the escaped quote; a key if and only if it is not empty either and has no quote; a number if and only if it
  is spelt as one of its kind. A tree of such reads back if and only if a member without value is last in its
  object only where nothing but closing brackets follows, since the search for its colon runs on to the next one
  or the next comma, and a member without key has no value either, comes last in such a place, and not alone
  (`JsonTrees.RoundTripExactly`). So `{"k"}` reads back (`JsonTrees.BareLastReads`) and `[{"k"},1]` does not
  (`JsonTrees.BareLastFails`).
- The JSON loader forgets most errors: any text but the empty one is refused if and only if a string or key at the
  outermost level is broken off, or the text is over right behind an element of the outermost bracket, as a reading
  from left to right with a stack of open brackets tells (`JsonErrors.LoadRefuses`); the same defect one bracket
  further in is accepted (`JsonErrors.InnerErrorForgotten`).
- Field offsets are unsigned shorts, and a name given twice leaves the bytes of the earlier field to nobody. A
  schema's layout is sound if its names are apart and its fields' bytes are fewer than 65536, and not if just one of
  the two holds (`SchemaFormat.CreateDb`); when neither does it may be, by chance (`SchemaFormat.SoundByChance`).
- dictAdd is refused if and only if the one table in use has 2^63 buckets and is due to grow
  (`DictRefinement.AddRefusedWhen`). dictReplace then goes on to read through a null pointer, whether the key is in the
  table or not (`DictRefinement.ReplaceReadsNullWhen`).

## Model

| member | source | states |
|---|---|---|
| Bits.Rev | src/core/sis_dict.c:779-787 | the swaps of ever smaller groups reverse the bits of a word |
| DictRefinement.CreateRefines | src/core/sis_dict.c:98-118 | a new table keeps the invariant and is the empty map |
| DictRefinement.ExpandKeeps | src/core/sis_dict.c:134-164 | starting a new table, or being refused one, keeps the invariant and every entry |
| DictRefinement.NextPowerIsSize | src/core/sis_dict.c:986-996 | the size chosen is a legal power of two, and holds what was asked for unless it is the largest |
| DictRefinement.RehashKeeps | src/core/sis_dict.c:175-218 | any number of rehash rounds keeps the invariant, entries and count, and each round moves rehashidx on or ends the rehash |
| DictRefinement.RehashStepKeeps | src/core/sis_dict.c:249-251 | one step, paused or not by iterators, keeps the invariant and every entry |
| DictRefinement.FindRefines | src/core/sis_dict.c:488-507 | in any mid-rehash state a find answers as the map does and leaves the map as it is |
| DictRefinement.AddRefines | src/core/sis_dict.c:281-308 | an add is an insertion of a new key, or reports the entry that is there and changes nothing |
| DictRefinement.AddRefusedWhen | src/core/sis_dict.c:964-984 | an add is refused if and only if the one table in use is at the largest size and due to grow |
| DictRefinement.ReplaceReadsNullWhen | src/core/sis_dict.c:314-335 | replace comes to read through the null pointer if and only if the table in use is at the largest size and due to grow |
| DictRefinement.ReplaceRefines | src/core/sis_dict.c:314-335 | else it sets the key's value and tells whether it was new |
| DictRefinement.SetValueRefines | src/core/sis_dict.c:314-335 | writing a value in place is the map update and moves nothing |
| DictRefinement.DeleteRefines | src/core/sis_dict.c:376-411 | delete removes just that key and returns its entry |
| DictRefinement.SizeCounts | src/core/sis_dict.c:376-411 | the used counters of the two tables add up to the number of keys of the map |
| DictSizes.NextPowerIsLeast | src/core/sis_dict.c:986-996 | no smaller legal size would do |
| DictSizes.GrowsWhen | src/core/sis_dict.c:964-984 | a table grows exactly when it is full and growing is allowed, or holds six times its buckets, and then to the least size for twice its entries; the first size is four |
| DictSizes.ShrinksTo | src/core/sis_dict.c:122-132 | a shrink is to the least size for the entries, four at least, and refused only where the table has that size |
| DictSizes.RehashBounded | src/core/sis_dict.c:166-218 | a call for n rounds that does not end the rehash passes at least n buckets, and at most n with entries and 10 n without |
| DictSizes.NewestFirst | src/core/sis_dict.c:281-308 | a new entry is the first of its chain, in the table that is to stay |
| DictRuns.ApplyRefines | src/core/sis_dict.c:281-507 | one operation of any kind keeps the invariant and acts on the map as on a map |
| DictRuns.RunRefines | src/core/sis_dict.c:281-507 | after any run from a new table the contents are those of the same run on a map |
| DictRuns.LoadBound | src/core/sis_dict.c:964-984 | with automatic growth and no safe iterator no reachable state holds more entries than the newest table has buckets |
| DictScan.ScanCounts | src/core/sis_dict.c:873-959 | one call reports each entry at most once: those whose hash agrees with the cursor in the smaller table's bits, all of them from an aligned cursor |
| DictScan.ScanCovers | src/core/sis_dict.c:889-959 | an entry whose reversed hash lies between the cursors before and after a call is reported by it, in two tables as in one |
| DictScan.ScanMoves | src/core/sis_dict.c:945-958 | a call's cursor, reversed, is larger than before unless it is back at zero |
| DictScan.ScanComplete | src/core/sis_dict.c:789-872 | a scan from zero to zero, with any operations between the calls, reports every key that was there throughout, with its value |
| DictScan.ScanEnds | src/core/sis_dict.c:873-959 | the reversed cursor grows with every call, so every scan ends, whatever happens between the calls |
| DictScan.StaticScan | src/core/sis_dict.c:873-959 | with nothing between the calls a scan takes as many calls as the smaller table has buckets and reports each entry exactly once |
| DictIteration.NextReturns | src/core/sis_dict.c:575-608 | a call returns a pending entry with its value and leaves exactly the others pending, or ends with none pending |
| DictIteration.OpPending | src/core/sis_dict.c:249-251 | with a safe iterator open, the operations it allows leave pending what was pending, even when an add starts a rehash |
| DictIteration.IterationReturns | src/core/sis_dict.c:575-608 | from any point of an iteration a key that stays is returned once if it is pending and else never |
| DictIteration.IterationComplete | src/core/sis_dict.c:568-608 | a whole safe iteration returns each key that is there from the start and never deleted by exactly one call |
| Dictionary.PowerOfTwoFor | src/core/sis_dict.c:986-996 | the doubling loop finds the size the model takes |
| Dictionary.HashTable.ExpandTo | src/core/sis_dict.c:134-164 | makes the model's expansion, in place |
| Dictionary.HashTable.ExpandWhenFull | src/core/sis_dict.c:964-984 | makes the model's automatic growth |
| Dictionary.HashTable.ResizeToFit | src/core/sis_dict.c:122-132 | makes the model's shrink to the least size that fits |
| Dictionary.HashTable.RehashBuckets | src/core/sis_dict.c:175-218 | the loops over empty buckets and chains make the model's rehash |
| Dictionary.HashTable.FindEntry | src/core/sis_dict.c:488-507 | makes the model's find, over both tables |
| Dictionary.HashTable.AddEntry | src/core/sis_dict.c:281-308 | makes the model's add and gives its answer |
| Dictionary.HashTable.ReplaceEntry | src/core/sis_dict.c:314-335 | makes the model's replace, or tells that the null pointer is read |
| Dictionary.HashTable.DeleteEntry | src/core/sis_dict.c:376-411 | makes the model's delete |
| Dictionary.HashTable.ScanStep | src/core/sis_dict.c:873-959 | reports the model's entries in its order and returns its cursor |
| Dictionary.SafeIterator.Next | src/core/sis_dict.c:575-608 | makes the model's step, with the saved next entry |
| Memory.SizeRoundTrip | src/core/sis_memory.c:180-230 | a size below 2^64 takes 1 to 9 bytes, which tell their own length, and is read back from them |
| Memory.EightBytes | src/core/sis_memory.c:128-159 | the eight bytes of a number are its digits to the base 256, the lowest first |
| Memory.NumberOfEight | src/core/sis_memory.c:160-170 | eight bytes stand for their sum, each with its weight |
| Memory.FirstByteGrows | src/core/sis_memory.c:180-209 | the first byte of a size never falls as the size grows, and is greater where the size takes more bytes |
| Memory.Buffer.Pack | src/core/sis_memory.c:51-71 | moving the unread bytes to the front changes none of them |
| Memory.Buffer.Cat | src/core/sis_memory.c:91-109 | the bytes are appended, in place or in a larger buffer |
| Memory.Buffer.CatNumber | src/core/sis_memory.c:128-159 | a number's low bytes are appended, the lowest first |
| Memory.Buffer.TakeNumber | src/core/sis_memory.c:160-170 | the number is taken from the front |
| Memory.Buffer.CatSize | src/core/sis_memory.c:180-209 | appends the size itself up to 250, else a code and what the code stands for, byte by byte for each range of sizes, and tells how many |
| Memory.Buffer.TakeSize | src/core/sis_memory.c:210-230 | takes from the front the size that the first byte announces, case by case, and just its bytes |
| Memory.Buffer.TrySize | src/core/sis_memory.c:231-271 | tells exactly whether all bytes that the first one announces are there |
| Memory.Buffer.Move | src/core/sis_memory.c:436-445 | drops bytes from the front, all of them if there are no more |
| Memory.Buffer.ReadFrom | src/core/sis_memory.c:311-336 | appends what one read gives, nothing only at the end of the file |
| DiskFormat.FrontOfRest | src/core/disk/sis_disk_files.c:461-493 | ten bytes at hand are enough to tell the next frame's head and size, and what follows is its stored bytes |
| DiskFormat.FrameBytes | src/core/disk/sis_disk_files.c:339-391 | the bytes of a block: the bit for compression is set exactly when the compressor is used and accepts the data, and then the size and the compressed bytes follow, else those of the data itself |
| DiskFormat.ReportsAre | src/core/disk/sis_disk_files.c:466-511 | marks are reported, and blocks of a hid other than 0 that have something in them, in order; no others |
| DiskFormat.DeliverAll | src/core/disk/sis_disk_files.c:423-523 | a callback that always goes on is handed everything |
| BlockStore.Uncompress | src/core/disk/sis_disk_files.c:394-421 | a compressed payload replaces the output, another is appended to it |
| BlockStore.Reader.ReadFront | src/core/disk/sis_disk_files.c:463-493 | one frame's front is passed, a marker is reported, and what is still to be reported in all stays the same |
| BlockStore.Reader.ReadPayload | src/core/disk/sis_disk_files.c:494-511 | one payload is handed on as it was written, and what is to be reported in all stays the same |
| BlockStore.Reader.ParseAll | src/core/disk/sis_disk_files.c:461-512 | the parser goes on until too few bytes are left, the tail is read or the callback stops it |
| BlockStore.Reader.ReadFile | src/core/disk/sis_disk_files.c:423-523 | however the reads fall, a file's blocks are reported in order, as far as the callback goes on |
| FileSet.Files.Write | src/core/disk/sis_disk_files.c:321-392 | a block's bytes, compressed where the compressor accepts them, are all that is added, at the place told: to the current file, or exactly when they go over its limit to a new one, whose number is kept in one byte |
| FileSet.Files.OpenNext | src/core/disk/sis_disk_files.c:105-138 | the file whose number the byte holds is begun anew, and what was in it is gone |
| FileSet.Files.Close | src/core/disk/sis_disk_files.c:50-77 | every file that is open gets its tail, byte by byte, and keeps its blocks |
| FileSet.Files.OpenToRead | src/core/disk/sis_disk_files.c:238-256 | a set is opened for reading if and only if it lists a file and no more than 256 |
| FileSet.Files.ReadAll | src/core/disk/sis_disk_files.c:423-523 | the files listed together report the blocks they hold, file by file |
| FileSet.Files.ReadBlock | src/core/disk/sis_disk_files.c:527-556 | from a place in a file the block held there comes back, and nothing when the read is short |
| FileSet.ReadByIndex | src/core/disk/sis_disk_files.c:527-556 | at the place recorded when a block was written, whatever was written after it, the set gives that block as long as its file was not begun anew |
| FileSet.WriteAndReadBack | src/core/disk/sis_disk_files.c:321-523 | any list of blocks written in one session and closed is reported exactly, across rollovers and however the reads fall, if it takes at most 256 files, and else cannot be opened |
| FileSet.CountWraps | src/core/disk/sis_disk_files.c:50-77 | the number of files a reopened set finds is the true one modulo 256 |
| FileSet.WriteAndReadAnew | src/core/disk/sis_disk_files.c:79-103 | opened by the count it left, a session of blocks that carry something is reported exactly if and only if it takes fewer than 256 files |
| FileVolumes.PlacesInOrder | src/core/disk/sis_disk_files.c:360-391 | the ranges of one file's blocks are not empty, do not overlap, increase, and leave no gap |
| FileVolumes.HeldThere | src/core/disk/sis_disk_files.c:105-138 | of the files begun, the last 256 are still held, each in the file of its number |
| FileVolumes.HeldExactly | src/core/disk/sis_disk_files.c:105-138 | the files still hold all that carries anything if and only if there are at most 256, or what was begun before the last 256 carries nothing |
| FileVolumes.IndexHeldExactly | src/core/disk/sis_disk_files.c:386-388 | every block of the index is still held if and only if there are at most 256 files, or one more and no data in the first |
| FileVolumes.IndexListed | src/core/disk/sis_disk_files.c:79-103 | a set opened anew lists every file the index names if and only if there are fewer than 256 |
| FileVolumes.FirstBlockLost | src/core/disk/sis_disk_files.c:105-138 | with a limit of one byte the 257th block takes the place of the first, and the 256th stands in front of all |
| FastQueue.StepSafe | src/core/sis_list.lock.c:262-314 | no step of a pusher or of the reader touches freed memory, and every one keeps the invariant |
| FastQueue.RunSafe | src/core/sis_list.lock.c:262-405 | so does every interleaving of any number of pushers with the reader |
| FastQueue.Delivered | src/core/sis_list.lock.c:277-335 | what was pushed is what was consumed, then the read list, then the write list; the two share no node; the counts are their lengths |
| FastQueue.PassEnds | src/core/sis_list.lock.c:277-335 | a reader left alone comes to the end of its pass having handed on everything pushed |
| FastQueue.ReleaseRef | src/core/sis_obj.c:30-72 | giving an object up takes away exactly one reference, the one its node held |
| FastQueue.Destroy | src/core/sis_list.lock.c:367-393 | each node left is freed once and each reference the queue held is given back once |
| LockList.StepSafe | src/core/sis_list.lock.c:573-677 | with every reader covered, no step that keeps the rule touches freed memory, and every one keeps the invariant |
| LockList.TakeExact | src/core/sis_list.lock.c:425-436 | a reader that stores its place at once is covered then if and only if it was among the users, at the tail and after the first push, or all is kept |
| LockList.Undisturbed | src/core/sis_list.lock.c:425-436 | such a reader keeps the rule whatever is done between its look and its store, if only the watcher takes no step |
| LockList.RunSafe | src/core/sis_list.lock.c:410-677 | no interleaving of pushes, readers ahead of the watcher when they store their places, and the watcher touches freed memory |
| LockList.Reclaimed | src/core/sis_list.lock.c:622-673 | in all such runs readers stay at or after the watcher's cursor and get what they passed, in order; only nodes before that cursor are freed; cursize is the size of what is queued before it |
| LockList.Reaccounted | src/core/sis_list.lock.c:650-666 | a round's sums, with the pop and without it, are the totals of what is then queued before the cursor |
| LockListSize.Round | src/core/sis_list.lock.c:638-669 | a round with no reader in the way gives the first object up exactly when nothing is kept, or what is queued up to the cursor is more than the limit |
| LockListSize.KeepsWithin | src/core/sis_list.lock.c:646-667 | in every run with a limit the objects counted tell how many are given up, and none is while all that was pushed is within the limit |
| LockListSize.KeepsAsManyAsFit | src/core/sis_list.lock.c:654-667 | of objects of one size as many as fit are kept, the last ones |
| LockListSize.KeepsNone | src/core/sis_list.lock.c:646-653 | in every run that keeps nothing the head is right behind the watcher |
| LockListSize.KeepsAll | src/core/sis_list.lock.c:623-624 | in every run that keeps everything nothing is given up |
| LockListReaders.HandedFromLook | src/core/sis_list.lock.c:425-464 | a reader is handed all that comes behind the head, or behind the tail, as it was when it looked, in order, up to where it stands |
| LockListExact.DoomedCrashes | src/core/sis_list.lock.c:410-677 | from any state of any run, a reader behind the watcher, not among the users, or between its look and its store can be led to freed memory |
| LockListExact.SafeExactly | src/core/sis_list.lock.c:410-677 | from any state of any run, all runs that keep the rule are safe if and only if every reader with a cursor is among the users and the watcher has not passed it |
| LockListExact.StoreSafeExactly | src/core/sis_list.lock.c:430-434 | storing the place it looked up leaves a reader safe in all later runs that keep the rule if and only if it is among the users and the watcher has not passed that place, or all is kept |
| LockListExact.TakeSafeExactly | src/core/sis_list.lock.c:425-436 | storing it at once does so if and only if the reader was among the users, at the tail and after the first push, or all is kept |
| LockListExact.AlwaysSafe | src/core/sis_list.lock.c:410-558 | with nothing asked of the readers, and with no more than to be among the users, at the tail and after the first push when they look, all runs are safe if and only if the list keeps everything |
| LockListExact.ReadyReaderCrashes | src/core/sis_list.lock.c:78-85 | in any other mode such a reader can be led to freed memory between its look and its store |
| LockListExact.EarlyReaderCrashes | src/core/sis_list.lock.c:541-558 | so can one whose thread has stored its place before it is among the users |
| WaitQueue.Queue.Push | src/core/sis_list.lock.c:221-241 | an object comes straight back exactly when nobody is dealing with one and none waits; else its node is linked behind all others |
| WaitQueue.Queue.Pop | src/core/sis_list.lock.c:124-139 | takes the object that has waited longest off the linked nodes, if any waits |
| WaitQueue.Queue.Turn | src/core/sis_list.lock.c:141-179 | the reader thread hands on the object that has waited longest, exactly when nobody is dealing with one, and only one |
| WaitQueue.HeldBack | src/core/sis_list.lock.c:221-256 | until set_busy(0) nothing more is delivered, whatever is pushed and however often the reader comes round; all of it waits in order |
| WaitQueue.FreedDelivers | src/core/sis_list.lock.c:245-256 | after set_busy(0), of all that waits or is pushed until the reader has come round, just the oldest is delivered |
| WaitQueue.Queue.Destroy | src/core/sis_list.lock.c:203-220 | gives back every reference held and no other |
| WaitQueue.RunKeeps | src/core/sis_list.lock.c:124-256 | in every run objects are delivered in push order, once each, never two without the busy flag cleared between, and count is the number waiting |
| WaitQueue.Delivers | src/core/sis_list.lock.c:181-256 | from a new queue, whatever the order of operations, what was pushed is what was delivered, then what waits; each waiting object is held by one reference |
| WaitQueue.AllDelivered | src/core/sis_list.lock.c:141-180 | as many turns as objects wait deliver all that was pushed |
| SchemaFormat.CreateDb | src/core/sis_dynamic.c:70-172 | the legal fields follow one another in order, a name given again replacing the field in its place; the layout is sound if and only if names are apart and all fits an unsigned short, unless both fail |
| SchemaFormat.LegalAre | src/core/sis_dynamic.c:107-118 | just the fields whose length and count are between 1 and 65535 are taken, in order |
| SchemaFormat.FoldsAlike | src/core/sis_map.c:43-46 | two names are the same if and only if they differ at most in the case of letters |
| SchemaFormat.SoundByChance | src/core/sis_dynamic.c:122-138 | a field of 65536 bytes and one of four under the same name leave a sound layout of the second alone |
| SchemaFormat.SignExtends | src/core/sis_dynamic.h:183-212 | a signed value written wider reads back the same, and its low bytes are the old ones |
| SchemaFormat.ZeroExtends | src/core/sis_dynamic.h:150-181 | so does an unsigned one |
| SchemaFormat.ConvertedHolds | src/core/sis_dynamic.c:655-681 | every value of a converted record stands at its place and is what the matching field has there, converted, or zeros where there is none |
| SchemaFormat.ValueBack | src/core/sis_dynamic.c:501-648 | a value widened within its style and narrowed again is what it was |
| SchemaValues.NumberKept | src/core/sis_dynamic.h:256-312 | the bytes of any number hold it modulo 256 to their count |
| SchemaValues.SignedIs | src/core/sis_dynamic.h:183-213 | a signed number is read in two's complement |
| SchemaValues.ConvertedBecomes | src/core/sis_dynamic.c:501-681 | in a converted record a number of another style or width is the number read, kept in the bytes there are; a time of another style is the same second; characters are cut or filled; characters and numbers become zeros of each other |
| SchemaValues.TimeFalls | src/core/sis_dynamic.c:460-499 | a tick becomes the second it falls in, and a second the minute |
| SchemaValues.TimeBegins | src/core/sis_dynamic.c:460-499 | a second becomes its first tick, and a minute its first second, modulo 2^64 |
| SchemaValues.DayGoes | src/core/sis_dynamic.c:460-499 | a day becomes the second of its noon, and a second its day |
| SchemaValues.TimeComesBack | src/core/sis_dynamic.c:460-681 | seconds kept as ticks and minutes kept as seconds come back if they fit |
| SchemaValues.BySeconds | src/core/sis_dynamic.c:460-681 | converted to seconds and on, any time becomes what it becomes at once |
| SchemaFormat.RecordBack | src/core/sis_dynamic.c:655-681 | a record converted to a schema that widens its own and reaches every field by name, and back, is the same byte for byte |
| Schema.CopyIsConversion | src/core/sis_dynamic.c:703-759 | where the matcher finds nothing changed, copying equals converting for all records if and only if every field's match stands at the same offset |
| Schema.RecordsBackExactly | src/core/sis_dynamic.c:655-759 | field by field, all records come back from an upgrade if and only if no name is cut and none is taken over by a later field with the same beginning |
| Schema.LongNameLost | src/core/sis_dynamic.c:719-725 | a field with a name of more than 31 bytes, widened, becomes zeros |
| Schema.ChangeIsMutual | src/core/sis_dynamic.c:703-759 | a block is copied whole to an upgrade if and only if it is copied back from it |
| Schema.OrderAligns | src/core/sis_dynamic.c:703-759 | where a block is copied to an upgrade that reaches every field, the copy is the conversion if and only if the fields keep their order |
| Schema.UpgradeConverts | src/core/sis_dynamic.c:650-681 | then any number of records become, by either path, the records converted one by one |
| Schema.UpgradesComeBackExactly | src/core/sis_dynamic.c:650-759 | blocks of any number of records all come back from an upgrade if and only if they are copied or every field is reached |
| SchemaConvert.Converter.constructor | src/core/sis_dynamic.c:703-769 | notes for each cut name the match of the last field that has it, and decides on the whole copy as the model does |
| SchemaConvert.WriteValue | src/core/sis_dynamic.c:501-648 | writes just the bytes of the converted value, by the cases of the two styles, and they are what the value is to become |
| SchemaConvert.Converter.CopyField | src/core/sis_dynamic.c:446-459 | one memmove writes all values of a field that differs at most in count |
| SchemaConvert.Converter.ConvertRecord | src/core/sis_dynamic.c:655-681 | writes the converted record and nothing beside it |
| SchemaConvert.Converter.ConvertRecords | src/core/sis_dynamic.c:655-681 | fills the buffer with the records converted one by one |
| SchemaConvert.Converter.ConvertBlock | src/core/sis_dynamic.c:798-835 | gives the converted block, or says which size is wrong and writes nothing |
| Quoting.CatRepr | src/core/sis_sds.c:1031-1067 | appends the quoted form of any bytes |
| Quoting.SplitArgs | src/core/sis_sds.c:1146-1301 | the loops with their quote flags split as the model does, or fail on the same lines |
| Quoting.HexRoundTrip | src/core/sis_sds.c:1071-1124 | the two digits of a byte are hexadecimal digits and give the byte |
| Quoting.SplitOfReprs | src/core/sis_sds.c:1031-1301 | the quoted forms of any byte strings, with spaces between, split into exactly these strings |
| Quoting.ReprsHaveNoNul | src/core/sis_sds.c:1031-1067 | quoted forms hold no NUL, so the line is a C string |
| Quoting.QuoteAndSplit | src/core/sis_sds.c:1031-1301 | written and split by the two loops, any arguments come back |
| QuotingWords.SplitOfWords | src/core/sis_sds.c:1146-1301 | a line of words, bare, in single or in double quotes, with blanks before, between and behind, splits into what the words hold |
| QuotingWords.ByteForms | src/core/sis_sds.c:1031-1067 | the quoted form of each byte: itself, behind a backslash, a letter, or two digits |
| JsonRoundTrip.StringReadBack | src/core/sis_json.c:149-205 | a printed string value reads back as itself to its end, whatever follows, if and only if it has no backslash and no control byte |
| JsonRoundTrip.KeyReadBack | src/core/sis_json.c:149-205 | a printed key reads back as itself if and only if it is not empty and has no backslash, control byte or quote |
| JsonRoundTrip.NumberReadBack | src/core/sis_json.c:207-235 | a number's text reads back with its kind if and only if it is spelt as a number of that kind |
| JsonTrees.ValuePrints | src/core/sis_json.c:999-1317 | the printed text of a tree, with what comes behind it, is its brackets, commas, colons, strings and numbers in order |
| JsonTrees.ValueLands | src/core/sis_json.c:326-351 | in such a text the parser, whatever node it fills in, stops in front of a comma, a colon, a closing bracket or the end |
| JsonTrees.ValueReads | src/core/sis_json.c:326-351 | a settled tree reads back in front of anything that may follow it there |
| JsonTrees.ValueFails | src/core/sis_json.c:238-325 | any other tree gets other children, or leaves the parser without a position |
| JsonTrees.RoundTripExactly | src/core/sis_json.c:921-1317 | loading the compact text of a tree of clean strings, keys and numbers gives the same tree if and only if it is settled and no string by itself |
| JsonTrees.BareLastReads | src/core/sis_json.c:176-200 | an object whose only member has a key and no value reads back |
| JsonTrees.BareLastFails | src/core/sis_json.c:176-200 | as the first of two elements of an array it does not |
| JsonBlanks.TokensPrint | src/core/sis_json.c:999-1317 | the compact text of a tree is its tokens, one after the other |
| JsonBlanks.LoadsAlike | src/core/sis_json.c:9-16 | texts of the same tokens that differ in the blanks between them are both refused, or load as the same but for keys that are empty |
| JsonBlanks.SpacedExactly | src/core/sis_json.c:238-369 | with bytes from 1 to 32 before, between and behind its tokens in any way, the text of a tree loads as that tree if and only if it is settled and no string by itself |
| JsonStandard.PrintedMeans | src/core/sis_json.c:921-997 | a printed string is one of section 7 of RFC 8259 and stands for just the bytes printed |
| JsonStandard.ShortForms | src/core/sis_json.c:974-993 | the two-byte escapes, each with its letter |
| JsonStandard.DecimalDenotes | src/core/sis_json.c:259-260 | an element's key is its number in decimal, with no zero in front |
| JsonStandard.WholeIsInt | src/core/sis_json.c:207-235 | digits, with a minus or without, are a text of an integer |
| JsonStandard.FractionIsDouble | src/core/sis_json.c:207-235 | with a point and more digits they are one of a double |
| JsonStandard.SmallObject | src/core/sis_json.c:284-325 | an object of one member, in characters, with a blank behind the colon, loads as it |
| JsonStandard.SmallArray | src/core/sis_json.c:238-282 | so does an array of two numbers with blanks around the comma |
| JsonErrors.CompleteExactly | src/core/sis_json.c:326-351 | the parser reads a value to its end exactly when the reading with a stack of brackets does |
| JsonErrors.LoadRefuses | src/core/sis_json.c:238-369 | every text: it is refused if and only if it is empty, broken off in a string or behind a key at the outermost level, or over right behind an element of the outermost bracket |
| JsonErrors.MissingBracket | src/core/sis_json.c:238-325 | a text without NUL that begins with a bracket and goes on is refused if and only if it is not complete and the matching bracket at its end would complete it |
| JsonErrors.InnerErrorForgotten | src/core/sis_json.c:261-266 | the same defect inside one bracket is refused and inside two is accepted |
| JsonCode.ReplaceString | src/core/sis_json.c:126-147 | rewrites the text in place with every escaped quote undone |
| JsonCode.ReadString | src/core/sis_json.c:149-205 | the scan with its byte before, the key and the search for the colon do what the model says |
| JsonCode.ReadNumber | src/core/sis_json.c:207-235 | the run of number bytes and the test for a point before a digit give the model's node |
| JsonCode.ReadContainer | src/core/sis_json.c:238-325 | the loops over elements and members give the model's node, position and error pointer |
| JsonCode.LoadText | src/core/sis_json.c:424-460 | loads or refuses as the model does: any text of a tree's tokens, with any blanks, as the tree, exactly when it is settled |
| JsonCode.PrintString | src/core/sis_json.c:921-997 | the escaped text fits the size counted beforehand, with its NUL |
| JsonCode.PrintValue | src/core/sis_json.c:999-1317 | prints what the model prints, each container within the size counted for it |
| JsonCode.PrintAndLoad | src/core/sis_json.c:921-1317 | printed and loaded by the two programs, a tree comes back if and only if it is settled and no string by itself |
| Judge.First | src/core/sis_method.c:148-159 | walking back finds the first node of the level |
| Judge.Load | src/core/sis_method.c:78-146 | a known call is linked behind the level, the father pointing at it, with all that is under it; an unknown one is left out |
| Judge.LoadLevel | src/core/sis_method.c:78-146 | the loaded level has the plans of the entries in order |
| Judge.JudgeFrom | src/core/sis_method.c:330-373 | the pass leaves in the first root's flag whether some root evaluates true, or in the father's whether it held and some child does; every other node visited ends false |
| Judge.LoadAndJudge | src/core/sis_method.c:161-183 | loading any configuration and judging it decides whether some top entry's call holds together with one of those under it, and so on down |
| Lists.StructList.Grow | src/core/sis_list.c:42-84 | makes room by sliding or by a larger buffer, and keeps the records |
| Lists.StructList.PushAll | src/core/sis_list.c:85-95 | appends the records |
| Lists.StructList.Update | src/core/sis_list.c:106-115 | replaces the record at a place of the list and refuses any other place |
| Lists.StructList.Insert | src/core/sis_list.c:116-135 | inserts before the place, at the front for a negative one and at the end for one behind |
| Lists.StructList.SetOne | src/core/sis_list.c:217-239 | sets, appends, or lengthens the list up to the place |
| Lists.StructList.Limit | src/core/sis_list.c:241-251 | keeps just the last records |
| Lists.StructList.Pack | src/core/sis_list.c:266-275 | keeps the records in a buffer of just their size |
| Lists.StructList.Pop | src/core/sis_list.c:278-288 | takes the first record |
| Lists.StructList.Delete | src/core/sis_list.c:289-306 | removes the range, wherever the list starts in its buffer, or nothing when there is no such range |
| Lists.InsertedKeys | src/core/sis_list.c:413-434 | a new key before the first smaller one keeps the keys strictly descending |
| Lists.InsertedTable | src/core/sis_list.c:413-434 | a pair inserted at one place of both lists is the map with that key set |
| Lists.DeletedTable | src/core/sis_list.c:494-505 | a pair removed from one place of both lists is the map without that key, and the order stays |
| Lists.SortList.FindIndex | src/core/sis_list.c:452-472 | the halving finds a key's place whenever the key is in the list and else says so |
| Lists.SortList.Find | src/core/sis_list.c:473-489 | gives the key's value |
| Lists.SortList.Set | src/core/sis_list.c:413-434 | sets the key in the map, keeps the order and both lists in step, and returns where the value is |
| Lists.SortList.Delete | src/core/sis_list.c:494-500 | removes the pair of the value pointed at, and gives the one behind |
| Lists.SortList.DeleteAt | src/core/sis_list.c:501-505 | removes the pair at a place, or nothing |
| Sha1.RolIsRotl | src/core/sis_sha1.c:15-18 | the two shifts are the rotation of section 2.2.2 of FIPS 180-4 |
| Sha1.ChForm | src/core/sis_sha1.c:46-56 | the code's choice of bits is Ch of section 4.1.1 |
| Sha1.MajForm | src/core/sis_sha1.c:63-68 | the code's majority of bits is Maj of section 4.1.1 |
| Sha1.InnerHash | src/core/sis_sha1.c:29-81 | the schedule interleaved with the rounds gives the hash of section 6.1.2, steps 1 to 4 |
| Sha1Constants.ConstantsAreRoots | src/core/sis_sha1.c:46-74 | the four constants are 2^30 times the square roots of 2, 3, 5 and 10, cut to whole numbers |
| Sha1Constants.InitialBytes | src/core/sis_sha1.c:87-87 | the bytes of the initial value run from 01 23 up to ef, down again to 10, and once more from f0 to c3 |
| Sha1Message.LoadBlock | src/core/sis_sha1.c:97-103 | sixteen words are read from a block, the highest byte first |
| Sha1Message.LoadRest | src/core/sis_sha1.c:106-113 | the last bytes, the byte 0x80 and zeros fill the block |
| Sha1Message.LengthWords | src/core/sis_sha1.c:119-119 | below 2^28 bytes the length in bits is the last word alone |
| Sha1Message.FullBlocks | src/core/sis_sha1.c:90-105 | the loop over whole blocks leaves less than a block, and what is to come gives the digest |
| Sha1Message.LastBlocks | src/core/sis_sha1.c:106-120 | the one-block or two-block ending gives the digest of the padded message |
| Sha1Message.ShaCalc | src/core/sis_sha1.c:83-125 | any message below 2^28 bytes gets the digest of sections 5.1.1 and 6.1.2 |

## Left out

- Pointers of the hash table: a bucket's chain is a sequence, the entry the bucket points to first; allocation, freeing and aliasing of entries are not modelled.
- DictRuns.RunRefines: runs have fewer than 2^63 operations, so that the counters do not wrap.
- Random sampling, fingerprints, statistics and unsafe iterators of the hash table.
- File styles without a tail record, sets opened for appending, and more than one writing session.
- FileSet.Files.Write: real file handles, seeks and write errors are not modelled; a file is a sequence of bytes, and no older file has the name of one that is begun.
- Compression itself, and a callback that leaves bytes in the output buffer.
- sis_fast_queue_clear and sis_lock_list_clear: they are only safe while no other thread works on the queue.
- Objects with a null pointer or at the largest reference count, and the compare-and-swap loop of sis_object_decr: a reference is taken or given back in one step.
- LockListExact.SafeExactly: with objects of positive size, as the size of an object with its header is in the code.
- WaitQueue.Queue.Turn: waiting, timeouts and thread creation are not modelled; a turn may come at any time, so the notice given by set_busy(0) is not needed either.
- FLOAT and PRICE fields, double lists and everything else in floating point.
- Schema.UpgradesComeBackExactly: the time of day and calendar functions are parameters.
- Conversion from and to schemas whose layout is not sound, as when a field's name is given twice: their records have bytes no field owns.
- The time, index and uniqueness marks of fields, and printing schemas and records as text.
- JSON nodes are values: the prev, next and father pointers and filling nodes in place are the order and nesting of the children; the parser's pointers are the texts from there on.
- JsonTrees.RoundTripExactly: elements of arrays have the numbers the parser gives them as keys, and none is without value, since such an array is not printed at all.
- The formatted output of JSON, reading values by path, cloning and editing of trees.
- Judge.LoadAndJudge: a method's call is a pure function of the node, and its argument text is part of the call.
- _sis_method_class_filter and marking: they run callbacks on data not shown.
- Lists: records are values, so a record that lies in the list's own buffer is not passed in; counts stay below 2^31.
- sis_struct_list_set, clone and append, node lists and pointer lists.
- Sha1Message.ShaCalc: the result is five words; writing them as base64 text is left out.
- Sockets, servers, workers, logging, configuration files and clients.
