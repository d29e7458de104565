# Crown node cores in Dafny

This project models the self-contained cores of the Crown node (C++, derived from
Bitcoin Core) and proves what they promise. Hashes, signatures, public keys, clocks,
random numbers and disks are parameters; everything else is modelled as the code has
it, with the same branches, limits and error results.

| file | what it models |
|---|---|
| `CoinRecords`, `CoinsCache` | unspent outputs of a transaction; the stack of write-back caches over the coin database |
| `CoinsCodec`, `CoinsExamples`, `VarInt`, `Amounts`, `Scripts` | the stored form of unspent outputs, byte by byte |
| `AddrBook`, `AddrIndex`, `AddrMan`, `AddrCheck`, `AddrScan`, `AddrExact` | the address manager: an address book of two tables, the linked indexes that keep it, the operations, whole runs, and `Check_` with its loops and exactly which states it accepts |
| `AddrCodec`, `AddrLoad` | saving and loading the address manager |
| `CheckQueue` | the parallel check queue: its class, and the protocol of master and workers as a state machine |
| `Merkle` | partial Merkle trees |
| `Limbs`, `Uint256`, `Compact` | 256-bit integers on 32-bit limbs, and the compact target format |
| `Positional`, `Base58` | the Base58 and Base58Check codecs |
| `Chain` | block index entries with their skip list, the active chain, locators |
| `Budget`, `Payments` | choosing and recognising a budget; the tally of payment votes |
| `DbTransaction` | pending writes and deletes over the database |
| `Basics`, `Powers` | shared types and powers |

Objects that the node changes in place are classes. Where an object keeps several
indexes of one thing, the class has a ghost field with the plain value (`CoinsViewCache.view`,
`AddrMan.book`) and every method says what happens to that value; the proofs that the
indexes follow it are lemmas about values. Every lemma has automatic induction switched
off, so that its body is the whole proof. What the operations compute is stated twice: by
a function that the proofs follow, and field by field or by known values, so that the two
hold each other.

The table of encodings in src/serialize.h:273-278 is wrong for 16511 and 65535; the model
has the bytes that the code writes, FF 7F and 82 FE 7F (`VarInt.VarExamples`).

Where the code does not keep what one would expect of it, the model keeps the code and
states exactly when the expectation holds:

- `ModifyNewCoins` leaves the cache consistent exactly if the base has nothing unpruned
  under the key and the coins that it wipes were counted as using no memory; a pruned
  leftover entry does no harm (`CoinsCache.LayerOpenNew`). With unpruned coins below, the
  new coins spent, the old ones show again, and a flush leaves them in the base
  (`CoinsCache.OldCoinsShowAgain`).
- `x *= x` on 256-bit integers gives zero, because the operand is cleared first; for two
  different objects the product is right (`Uint256.MulAssign`). Zero is the right square
  exactly of the multiples of 2^128 (`Uint256.SquareIsZero`).
- Coins come back from the database unchanged exactly if version and height are not
  negative: the variable-length format keeps seven bits of a negative number
  (`CoinsCodec.StoreAndLoad`).
- A committed transaction is the replayed log, for every log, exactly if no two keys of
  different types share a serialised form; otherwise the first written and then the second
  erased leaves the value, because deletes are written before writes (`DbTransaction.CommitExact`).
- `Add_` returns true for an address that nobody knew even where it finds no slot and is
  forgotten in the same call; it is in the book afterwards exactly if its slot for that source
  is free, or held by a terrible address or by one with another slot (`AddrBook.AddedStays`;
  `AddrBook.AddedAndGone` shows one that is lost).
- `Check_` never fails in a run, called after every operation as the source does, exactly if
  the key is set and every operation is dated properly: a known address is marked good at a
  positive time and tried at a time that is not negative (`AddrScan.RunChecked`;
  `AddrCheck.GoodAtZeroFails` shows a run that fails).
- Reads and commits of a transaction have the same exact condition (`DbTransaction.LookupExact`).
- A budget that the node itself chose makes a valid draft exactly if it has at most a hundred
  payments, because the choice has no such limit (`Budget.Recognised`; `Budget.TooManyChosen`
  shows a choice of more).

## Model

| member | source | states |
|---|---|---|
| `CoinRecords.Cleanup` | src/coins.h:113-118 | dropping spent outputs from the end leaves the only clean prefix that loses no unspent output |
| `CoinRecords.CleanPruned` | src/coins.h:251-256 | clean coins are pruned exactly if they have no outputs |
| `CoinRecords.Spend` | src/coins.cpp:35-42 | spends exactly an available output, changes no other, and leaves the coins clean |
| `CoinsCache.CoinsViewDB.BatchWrite` | src/txdb.cpp:49-70 | the database shows the dirty entries over its old contents, pruned ones erased; if the batch cannot be written it is unchanged |
| `CoinsCache.CoinsViewCache.FetchCoins` | src/coins.cpp:72-88 | pulling an entry from the base changes no view and no other entry; the entry is not DIRTY, and FRESH exactly if the base has nothing unpruned |
| `CoinsCache.CoinsViewCache.GetCoins` | src/coins.cpp:90-97 | returns what the plain map of the cache has under the key, and answers whether the cache now holds an entry |
| `CoinsCache.CoinsViewCache.HaveCoins` | src/coins.cpp:138-145 | true exactly if the plain map has unpruned coins; for a record with an open modifier, exactly if the record has outputs |
| `CoinsCache.CoinsViewCache.ModifyCoins` | src/coins.cpp:99-118 | opens one entry for change without changing the view; it is DIRTY, and FRESH exactly if the base has nothing unpruned; the layer stays consistent |
| `CoinsCache.CoinsViewCache.ModifyNewCoins` | src/coins.cpp:120-127 | the cache stays valid if and only if nothing unpruned is below and the wiped coins used no memory; the view loses the key |
| `CoinsCache.LayerOpenNew` | src/coins.cpp:120-127 | the same equivalence for a layer as a value, with what it then shows |
| `CoinsCache.OldCoinsShowAgain` | src/coins.cpp:120-127 | where the base has unpruned coins, spending all of the new ones drops the entry, the base's coins show again while the plain map has nothing, and the remaining entries are fit to be flushed, which leaves the coins in the base |
| `CoinsCache.CoinsModifier.Close` | src/coins.cpp:263-275 | the destructor cleans the coins, drops a FRESH pruned entry, and corrects the memory count; the view becomes the plain map with the new coins |
| `CoinsCache.LayerClose` | src/coins.cpp:263-275 | dropping a FRESH pruned entry changes no view, because FRESH means that the base has nothing unpruned; no entry is left that is DIRTY, FRESH and pruned |
| `CoinsCache.NextIsFresh` | src/coins.cpp:157-193 | the assert in `BatchWrite` holds: at every point of the loop a child's entry that the parent does not know is FRESH |
| `CoinsCache.AbsorbAllOk` | src/coins.cpp:157-195 | after all dirty entries are absorbed, in any order, the parent shows the child's view, its flags are right, no dead entry is left and its memory count is the sum over its entries |
| `CoinsCache.AbsorbAllAt` | src/coins.cpp:157-195 | what becomes of each entry of the parent, whatever the order: erased, put, overwritten with its FRESH flag kept, or left alone |
| `CoinsCache.CoinsViewCache.BatchWrite` | src/coins.cpp:157-195 | the parent's view becomes the child's, entry by entry as above; a FRESH entry that the child pruned is gone |
| `CoinsCache.CoinsViewCache.Flush` | src/coins.cpp:197-202 | the base's view becomes the cache's, the cache is empty, its own view unchanged; if the database write fails, the cache is emptied all the same and shows what the database has |
| `CoinsCache.Run` | src/coins.cpp:72-275 | over any run of reads, changes, nested caches and flushes, failing ones among them, every layer shows the plain maps obtained by performing the run on maps alone |
| `VarInt.EveryRunIsANumber` | src/serialize.h:265-275 | every run of marked bytes with an unmarked one behind is the encoding of a number: no redundancy |
| `VarInt.PrefixFree` | src/serialize.h:265-275 | no encoding begins another; every number has one encoding |
| `VarInt.VarExamples` | src/serialize.h:273-278 | the encodings of eleven numbers |
| `VarInt.WriteVarInt` | src/serialize.h:295-309 | writes the encoding, from a buffer filled backwards, and needs no more bytes than the source's buffer for the type has |
| `VarInt.FitsBuffer` | src/serialize.h:297 | the encoding of a number of so many bits takes at most a seventh of them, rounded up |
| `VarInt.GetSizeOfVarInt` | src/serialize.h:282-292 | the length of the encoding |
| `VarInt.ReadVarInt` | src/serialize.h:312-325 | on every stream the bytes read are the encoding of some number, the result is that number modulo the type, and it fails only where no number ends |
| `Amounts.DecompressCompress` | src/compressor.cpp:142-185 | decompression inverts compression on all naturals |
| `Amounts.CompressDecompress` | src/compressor.cpp:142-185 | compression inverts decompression on all naturals |
| `Amounts.CodeForm` | src/compressor.cpp:135-143 | the code of an amount from its digits and zeroes |
| `Amounts.CodeExamples` | src/compressor.cpp:142-159 | the codes of six amounts from a unit to all coins |
| `Amounts.CompressAmount` | src/compressor.cpp:142-159 | refines the closed form; up to MAX_MONEY no step leaves 64 bits |
| `Amounts.CompressedFits` | src/compressor.cpp:142-159 | the code of an amount up to MAX_MONEY fits 64 bits |
| `Amounts.DecompressAmount` | src/compressor.cpp:161-185 | refines the closed form without exceeding the amount on the way |
| `Scripts.DecompressCompress` | src/compressor.cpp:12-133 | every special script is recovered from its code and payload |
| `Scripts.StoredForms` | src/compressor.cpp:12-78 | the stored bytes of the five special scripts and of all others |
| `Scripts.NoSuchKey` | src/compressor.cpp:113-126 | a stored key that is no point of the curve gives an empty script |
| `Scripts.WriteScript` | src/compressor.h:67-76 | writes the special form or the length and the script |
| `Scripts.ReadScript` | src/compressor.h:79-91 | on every stream: a script is read exactly if one stands there, and it is that one with its exact end; a key that is no point of the curve leaves it empty |
| `Scripts.WrittenScript` | src/compressor.h:67-91 | what was written for a script stands in the stream as that script |
| `CoinsCodec.CalcMaskSize` | src/coins.cpp:17-33 | the bytes up to the last that is not zero, and how many are not zero |
| `CoinsCodec.BitIs` | src/coins.h:192-198 | bit p of a mask byte is set exactly if its output is unspent |
| `CoinsCodec.SomethingLeft` | src/coins.h:183 | the assert in `Serialize` holds for coins that are not pruned |
| `CoinsCodec.CodeParts` | src/coins.h:155-239 | the reader's flags and byte count are those of the coins, through the minus-one case |
| `CoinsExamples.FirstRecord` | src/coins.h:39-51 | the record that the source spells out for one unspent output, byte by byte |
| `CoinsExamples.SecondRecord` | src/coins.h:54-71 | the record that the source spells out for two of seventeen outputs, with its mask |
| `CoinsCodec.Serialize` | src/coins.h:178-206 | writes exactly the specified bytes |
| `CoinsCodec.GetSerializeSize` | src/coins.h:155-175 | equals the number of bytes written |
| `CoinsCodec.ReadMask` | src/coins.h:219-229 | on every stream: reads exactly up to the byte with which the count of nonzero bytes is reached, and returns the bits of all bytes; fails only where the stream has no such mask |
| `CoinsCodec.Unserialize` | src/coins.h:208-239 | on every stream: coins are read exactly if a record stands there, and they are its coins, cut to their types and cleaned, with its exact end |
| `CoinsCodec.WrittenCoins` | src/coins.h:178-239 | what was written for storable coins stands in the stream as those coins, a negative version or height cut to seven bits |
| `CoinsCodec.StoreAndLoad` | src/coins.h:178-239 | unchanged if and only if version and height are not negative |
| `AddrBook.AddForgetsOnlyTerrible` | src/addrman.cpp:247-313 | an announcement makes the book forget another address only if that is terrible and has a single slot |
| `AddrBook.AddedStays` | src/addrman.cpp:247-313 | true is returned exactly for a routable address that was not known, which is then in the book if and only if its slot was free, or held by a terrible address or by one with another slot |
| `AddrBook.AddedAndGone` | src/addrman.cpp:291-311 | an input where true is returned and the address is gone |
| `AddrBook.AddNotes` | src/addrman.cpp:258-286 | what an announcement changes of what is known, field by field: when the time is set anew and to what, the union of services, all else kept; what is noted of a new address; nothing of others |
| `AddrBook.AddSeats` | src/addrman.cpp:263-311 | exactly when a known address gains a reference or a new one a slot, and that at most that slot changes |
| `AddrBook.TerribleIff` | src/addrman.cpp:34-52 | which addresses are terrible |
| `AddrBook.SlotsNamed` | src/addrman.cpp:13-32 | an address takes the bucket and position that its hashes name |
| `AddrBook.GoodMoves` | src/addrman.cpp:150-245 | a good address ends in the tried table; at most the address whose only slot went to the evicted entry is forgotten |
| `AddrBook.GoodNotes` | src/addrman.cpp:213-217 | what a good connection changes of what is known, field by field |
| `AddrBook.GoodSeats` | src/addrman.cpp:150-196 | what it does to every slot of both tables, where the evicted address goes, and exactly which address is forgotten |
| `AddrBook.AttemptNotes` | src/addrman.cpp:315-332 | what an attempt changes, field by field |
| `AddrBook.ConnectedNotes` | src/addrman.cpp:472-490 | what a connection changes, field by field |
| `AddrBook.PlaceOk` | src/addrman.cpp:296-304 | taking a free slot keeps the table invariants and the limit of eight references |
| `AddrBook.VacateOk` | src/addrman.cpp:135-148 | the address in an emptied slot had a positive count and was not tried |
| `AddrMan.AddrMan.Create` | src/addrman.cpp:89-99 | all five indexes gain the entry consistently; one entry is not yet counted |
| `AddrMan.AddrMan.SwapRandom` | src/addrman.cpp:101-119 | swaps two places of the random order and nothing else; the asserts hold |
| `AddrMan.AddrMan.Delete` | src/addrman.cpp:121-133 | removes the entry from every index; no other address gets another identifier |
| `AddrMan.AddrMan.ClearNew` | src/addrman.cpp:135-148 | empties the slot and forgets its address exactly if that was its last; the assert holds |
| `AddrMan.AddrMan.MakeTried` | src/addrman.cpp:150-196 | the address leaves all new buckets and takes its tried slot, what was there returns to its own new slot; all asserts hold |
| `AddrMan.AddrMan.FindBucket` | src/addrman.cpp:221-236 | the search round all buckets finds one that holds the entry, so the "no bucket found" branch is never taken |
| `AddrMan.AddrMan.Good_` | src/addrman.cpp:198-245 | the book changes as specified and field by field, the indexes follow, at any time |
| `AddrMan.AddrMan.TakeSeat` | src/addrman.cpp:291-311 | a slot is taken, given up by a displaceable entry, or refused, and an entry left without any is deleted |
| `AddrMan.AddrMan.Add_` | src/addrman.cpp:247-313 | the book changes as specified and field by field, the result says whether the address was unknown, an unknown one is kept exactly if there is room, and the indexes follow |
| `AddrMan.AddrMan.Attempt_` | src/addrman.cpp:315-332 | notes the attempt for exactly that service and changes nothing else, at any time |
| `AddrMan.AddrMan.Connected_` | src/addrman.cpp:472-490 | refreshes the time for exactly that service, once in twenty minutes, and changes nothing else |
| `AddrMan.AddrMan.GetAddr_` | src/addrman.cpp:451-470 | at most 2500 and at most 23 percent, no address twice, none terrible, and all that are not terrible if there are fewer than allowed |
| `AddrCheck.SoundPasses` | src/addrman.cpp:374-448 | a sound state passes all nineteen tests of `Check_` exactly if the key is set and the times are in order: reference counts are the numbers of slots, counters the numbers of entries, and so on |
| `AddrScan.Check_` | src/addrman.cpp:374-448 | the scan of the entries and of both tables, striking off what it finds, returns zero exactly on the states that pass all tests |
| `AddrScan.CheckSound` | src/addrman.cpp:374-448 | on a sound state the scan returns zero exactly if the key is set and the times are in order |
| `AddrExact.SoundExact` | src/addrman.cpp:374-448 | the indexes keep an address book if and only if they pass the tests of their tables, the slots are within the tables, and identifiers and names match, which the check takes for granted |
| `AddrExact.CheckExact` | src/addrman.cpp:374-448 | then the check passes if and only if they keep a book with its times in order and the key is set: no test is missing and none too strict |
| `AddrCheck.DatedTimes` | src/addrman.cpp:198-490 | an operation keeps the times in order if and only if it does not mark a known address good at a time that is not positive, or tried at a negative one |
| `AddrCheck.Run` | src/addrman.cpp:76-490 | any run of operations from a new manager keeps the book obtained by performing it on the book alone; at its end `Check_` passes exactly if the key is set and the times are in order; the times are in order all along if and only if every operation is dated properly for the book that it meets |
| `AddrScan.RunChecked` | src/addrman.h:480-569 | with `Check_` at the start and after every operation, no check of a run fails if and only if the key is set and every operation is dated properly |
| `AddrCheck.GoodAtZeroFails` | src/addrman.cpp:198-245 | one address added and marked good at time zero fails the check |
| `AddrCodec.Serialize` | src/addrman.h:278-325 | writes exactly the specified stream, the header as the source has it; the two asserts on the counters hold |
| `AddrLoad.EntriesSound` | src/addrman.h:345-391 | reading the entries back loses none to a collision |
| `AddrLoad.HomeTaken` | src/addrman.h:355-364 | if the positions cannot be used, each slot goes to the first entry that has its own slot there, and only that one gets a reference |
| `AddrLoad.TriedTaken` | src/addrman.h:368-387 | of tried entries with one slot the first gets it and the others are lost |
| `AddrLoad.TableRead` | src/addrman.h:389-405 | whatever positions the stream has, no taken slot changes hands, no entry gets more than eight references, and a slot goes only to a new entry whose own it is; positions that cannot be used change nothing |
| `AddrLoad.HeadingIs` | src/addrman.h:334-346 | the header field by field |
| `AddrLoad.TableSound` | src/addrman.h:393-410 | reading the new table back fills the same slots with the same addresses |
| `AddrLoad.Prune` | src/addrman.h:407-417 | whatever was read, exactly the entries without a slot are deleted and the others keep all but their place in the random order; the asserts of `Delete` hold |
| `AddrLoad.Unserialize` | src/addrman.h:328-423 | on every stream: a manager is loaded if and only if a header, the entries and the buckets stand there, and its indexes are those that come of them; every entry has its place in the random order and is tried or has a slot |
| `AddrLoad.WrittenLoads` | src/addrman.h:278-423 | a stream written by a sound manager stands there as its entries and buckets, and gives a sound manager with the same book but for the last attempts; nothing is pruned |
| `AddrLoad.SaveAndLoad` | src/addrman.h:278-423 | both tables are the same, whatever the identifiers; of every address service, services, time, source, last success and attempts come back, the last attempt does not; if the check passed it passes again |
| `CheckQueue.CheckQueue.Add` | src/checkqueue.h:146-158 | appends the checks in order, counts them, and notifies nobody, one worker or all |
| `CheckQueue.CheckQueue.Section` | src/checkqueue.h:79-118 | accounts for the batch or counts the thread, notifies the master of the last batch, and leaves with an answer, to sleep or with a batch, field by field: the batch is the end of the queue, last check first, and of the right size |
| `CheckQueue.CheckQueue.Resume` | src/checkqueue.h:102-118 | the same after `cond.wait` |
| `CheckQueue.BatchIsShare` | src/checkqueue.h:110 | the size of a batch is the largest that the share, the limit and the least of one allow |
| `CheckQueue.LookFollowsSection` | src/checkqueue.h:91-118 | the state machine's search for work is the class's critical section seen from one thread |
| `CheckQueue.FinishFollowsSection` | src/checkqueue.h:79-118 | ending a batch is the critical section with its clean-up, and notifies a sleeping master exactly as that says |
| `CheckQueue.EnterFollowsSection` | src/checkqueue.h:79-118 | entering is the critical section of a new thread |
| `CheckQueue.WakeFollowsSection` | src/checkqueue.h:101-118 | waking is the critical section after `cond.wait` |
| `CheckQueue.AddFollowsQueue` | src/checkqueue.h:146-158 | adding changes the queue as the class does, and notifies exactly the workers that it says |
| `CheckQueue.FailureSkips` | src/checkqueue.h:118-124 | a thread starts its batch with the answer so far, and runs a check only while that is good |
| `CheckQueue.NextInv` | src/checkqueue.h:69-158 | every step of every interleaving keeps the invariant: `nTodo` is queued plus held checks, every check has one place |
| `CheckQueue.WaitIsConjunction` | src/checkqueue.h:69-158 | the result of a wait is the conjunction of exactly the checks added since the last one |
| `CheckQueue.OneHolder` | src/checkqueue.h:106-118 | no two threads hold the same check |
| `CheckQueue.NoLostWakeup` | src/checkqueue.h:80-104 | a blocked master without a pending notification has work to wait for, the queue is empty and a worker holds a batch |
| `CheckQueue.IdleAfterWait` | src/checkqueue.h:164-191 | after a wait the queue is idle until the next add |
| `CheckQueue.NeverStuck` | src/checkqueue.h:69-128 | while the master waits some useful step is possible |
| `CheckQueue.BoundedWait` | src/checkqueue.h:69-128 | every run of useful steps while the master waits is bounded by the work that was there |
| `Merkle.WidthIsShift` | src/merkleblock.h:66-68 | the shifted form is the rounded-up quotient |
| `Merkle.ShiftsFit` | src/merkleblock.cpp:40-152 | no shift or position of the walk leaves 32 bits within the size limit |
| `Merkle.PartialMerkleTree.TraverseAndBuild` | src/merkleblock.cpp:57-73 | appends the bits and hashes of the specified proof |
| `Merkle.PartialMerkleTree.TraverseAndExtract` | src/merkleblock.cpp:75-103 | consumes and returns what the specified walk does, the flag for bad input included |
| `Merkle.PartialMerkleTree.ExtractMatches` | src/merkleblock.cpp:121-152 | returns the specified answer, zero for every malformed proof; a root only for a proof within all limits of size |
| `Merkle.AnswerLimits` | src/merkleblock.cpp:121-135 | a root comes out only within the limits of transactions, hashes and bits |
| `Merkle.NothingAppended` | src/merkleblock.cpp:138-152 | no hash and no byte of bits can be appended to an accepted proof, so none can be cut off either |
| `Merkle.ThreeLeaves` | src/merkleblock.cpp:40-73 | root and proof of three transactions, spelled out |
| `Merkle.RoundTrip` | src/merkleblock.cpp:40-152 | extraction from a built tree passes all checks with any padding, and returns the root and exactly the flagged ids in order |
| `Merkle.NoForgedMatches` | src/merkleblock.cpp:75-152 | whatever bits and hashes: if the true root comes out, all matches are genuine ids at ascending positions, or two different pairs with the same hash are exhibited |
| `Uint256.AddAssign` | src/arith_uint256.h:136-146 | sum modulo 2^256 |
| `Uint256.Negate` | src/arith_uint256.h:78-87 | negative modulo 2^256 |
| `Uint256.SubAssign` | src/arith_uint256.h:148-152 | difference modulo 2^256 |
| `Uint256.Increment` | src/arith_uint256.h:174-181 | successor modulo 2^256, the carry running as far as it must |
| `Uint256.CompareTo` | src/arith_uint256.cpp:110-119 | the order of the values |
| `Uint256.ShiftLeft` | src/arith_uint256.cpp:22-36 | product with a power of two modulo 2^256, for every shift |
| `Uint256.ShiftRight` | src/arith_uint256.cpp:39-53 | quotient by a power of two, for every shift |
| `Uint256.Bits` | src/arith_uint256.cpp:172-184 | the number of bits of the value |
| `Uint256.MulAssign` | src/arith_uint256.cpp:68-81 | product modulo 2^256 for two different objects, zero for one |
| `Uint256.SquareIsZero` | src/arith_uint256.cpp:68-81 | the zero that a number multiplied by itself gives is right if and only if the number is a multiple of 2^128 |
| `Uint256.DivAssign` | src/arith_uint256.cpp:84-107 | quotient and remainder for every nonzero divisor; an error for zero |
| `Compact.OverflowTest` | src/arith_uint256.cpp:219-221 | the test on the code is exactly whether the value reaches 2^256 |
| `Compact.SetCompact` | src/arith_uint256.cpp:204-222 | value, sign and overflow of every code |
| `Compact.GetCompact` | src/arith_uint256.cpp:224-245 | the encoding of the value, in 32 bits |
| `Compact.PartsFit` | src/arith_uint256.cpp:240-241 | the asserts on mantissa and size hold |
| `Compact.LargestNotAbove` | src/arith_uint256.cpp:204-245 | encoding rounds down to the largest value that the format can express |
| `Compact.EncodingIsStable` | src/arith_uint256.cpp:204-245 | for either sign, encoding the decoded value with its sign gives the same code, and the sign does not change the value |
| `Compact.CompactForm` | src/arith_uint256.cpp:224-245 | the exponent is the least that leaves the sign bit free, the mantissa the leading bytes, and the sign bit is set exactly for a negative number that is not zero |
| `Positional.ConvertBack` | src/base58.cpp:21-105 | converting between bases with leading zeroes kept is its own inverse the other way round |
| `Base58.EncodedSize` | src/base58.cpp:76-77 | 138/100 of the bytes and one is always enough |
| `Base58.DecodedSize` | src/base58.cpp:31-32 | 733/1000 of the letters and one is always enough |
| `Base58.TextExamples` | src/base58.cpp:67-105 | the texts of four byte strings |
| `Base58.SpacesAre` | src/base58.cpp:24-25 | which characters are skipped as blanks |
| `Base58.MulAdd` | src/base58.cpp:41-46 | the carry loop multiplies and adds, and no carry is left |
| `Base58.EncodeBase58` | src/base58.cpp:67-105 | the text of the bytes |
| `Base58.DecodeBase58` | src/base58.cpp:21-65 | accepts exactly the texts of byte strings, blanks around them allowed, and returns the bytes |
| `Base58.OneMeaning` | src/base58.cpp:21-65 | a text stands for one byte string at most |
| `Base58.EncodeDecode` | src/base58.cpp:21-105 | decoding inverts encoding for every byte string |
| `Base58.DecodeEncode` | src/base58.cpp:21-105 | encoding inverts decoding for every string without blanks that decodes |
| `Base58.EncodeBase58Check` | src/base58.cpp:117-124 | the text of the payload and its checksum |
| `Base58.DecodeBase58Check` | src/base58.cpp:126-141 | accepts exactly the texts of payloads with the right checksum, and returns the payload |
| `Chain.InvertLowestOneIs` | src/main.cpp:3675-3676 | n and n - 1 share all bits but the lowest one |
| `Chain.SkipHeightIs` | src/main.cpp:3679-3687 | the height to skip to, by the one bits that it loses |
| `Chain.GetAncestor` | src/main.cpp:3689-3711 | the walk along skip pointers finds the ancestor by parents, for every height; none outside the range |
| `Chain.AddBlock` | src/main.cpp:3723-3727 | a new block's skip pointer leads to an ancestor |
| `Chain.EntryIsAncestor` | src/chain.cpp:40-50 | the entry at a height is the ancestor of every later entry |
| `Chain.ActiveChain.SetTip` | src/chain.cpp:40-50 | the whole chain is the new tip's, although the loop stops where it meets the old one |
| `Chain.ActiveChain.ContainsIs` | src/chain.h:391-394 | a block is contained exactly if it is an ancestor of the tip |
| `Chain.ActiveChain.Next` | src/chain.h:396-402 | the successor exactly for contained blocks below the tip |
| `Chain.ActiveChain.FindFork` | src/chain.cpp:80-86 | a common block, and no common block is higher |
| `Chain.ActiveChain.GetLocator` | src/chain.cpp:52-78 | the same list as by ancestors only |
| `Chain.HeightsDescend` | src/chain.cpp:52-78 | the heights descend strictly to zero |
| `Chain.LocatorShape` | src/chain.cpp:52-78 | from the block to the genesis block in at most 12 + ceil(log2(height + 1)) entries |
| `Chain.LocatorGaps` | src/chain.cpp:52-78 | every height of a locator from the one before: eleven steps of one, then steps that double |
| `Budget.BudgetManager.GetBudget` | src/masternode-budget.cpp:590-644 | a ranking by votes, then larger fee hashes; the greedy choice along it; every pick valid, established, above the threshold and running over the period; what every proposal is allotted |
| `Budget.ChosenFits` | src/masternode-budget.cpp:622-640 | the chosen proposals never exceed the budget |
| `Budget.ChosenIff` | src/masternode-budget.cpp:622-640 | a proposal is chosen if and only if it is valid, established, has enough votes, runs over the period and fits after the picks ranked ahead of it |
| `Budget.SortedUnique` | src/masternode-budget.cpp:1948-1958 | two sorted lists of the same payments are equal |
| `Budget.BuildPayments` | src/masternode-budget.cpp:218-227 | the allotted payments of the choice |
| `Budget.GetTotalPayout` | src/masternode-budget.cpp:1912-1923 | the sum of the payments |
| `Budget.SamePayments` | src/masternode-budget.cpp:1847-1898 | sorted payments match if and only if the node's own choice has the same payments, in any order |
| `Budget.BudgetDraft.constructor` | src/masternode-budget.cpp:1700-1721 | the draft has the given payments, larger amounts first, then smaller hashes, then smaller payees |
| `Budget.BudgetDraft.AutoCheck` | src/masternode-budget.cpp:1825-1903 | matches if and only if a tip is known, the node is a masternode, the draft was not looked at before, the last vote is long enough ago and the own choice has the same payments; what is remembered of it |
| `Budget.BudgetDraft.IsValid` | src/masternode-budget.cpp:2002-2049 | true if and only if all the tests pass |
| `Budget.NextSuperblockIs` | src/masternode-budget.cpp:104-107 | the next superblock is the first multiple of the cycle ahead |
| `Budget.Recognised` | src/masternode-budget.cpp:1825-2049 | a draft of one node's choice is valid if and only if it has at most a hundred payments, and matches at exactly the nodes that choose the same payments |
| `Budget.TooManyChosen` | src/masternode-budget.cpp:622-640 | a ranking whose choice has more payments than a draft may have |
| `Payments.AddPayee` | src/masternode-payments.h:78-90 | the votes of that payee grow, all others stay, no payee is listed twice, a new one comes last |
| `Payments.GetPayee` | src/masternode-payments.h:92-105 | the first payee with the most votes |
| `Payments.MasternodePayments.AddWinningMasternode` | src/masternode-payments.cpp:346-373 | a new vote is logged and counted, a hundredfold from a reference node, a known one is not; the index counts the log and lists payees by their first votes |
| `Payments.MasternodePayments.CheckAndRemove` | src/masternode-payments.cpp:476-503 | exactly the votes further back than a thousand blocks and than the masternodes and a quarter are forgotten, and the index counts what is left |
| `Payments.MasternodePayments.GetBlockPayee` | src/masternode-payments.cpp:306-313 | the payee whose logged votes for the height weigh the most, of several the one first voted for, if there are any |
| `DbTransaction.CollectedDisjoint` | src/leveldbwrapper.h:258-319 | nothing is pending both to be written and deleted |
| `DbTransaction.LookupReplayed` | src/leveldbwrapper.h:274-310 | pending changes over the database look like the replayed log |
| `DbTransaction.LookupExact` | src/leveldbwrapper.h:274-310 | reads agree with the replayed log for every log if and only if no two keys share a serialised form |
| `DbTransaction.CommitExact` | src/leveldbwrapper.h:327-342 | commits agree with the replayed log for every log if and only if no two keys share a serialised form |
| `DbTransaction.Transaction.Write` | src/leveldbwrapper.h:258-271 | the write is the last of the log, and nothing is pending both ways |
| `DbTransaction.Transaction.Erase` | src/leveldbwrapper.h:311-320 | the delete is the last of the log, and nothing is pending both ways |
| `DbTransaction.Transaction.Read` | src/leveldbwrapper.h:274-294 | reads what is pending over the database under the key, which is what the replayed database has where keys are apart; a pending value of another type is refused |
| `DbTransaction.Transaction.Exists` | src/leveldbwrapper.h:297-309 | whether something is pending or stored under the key, which is whether the replayed database has it where keys are apart |
| `DbTransaction.Transaction.Commit` | src/leveldbwrapper.h:327-342 | the database becomes the replayed one, or stays as it is if the batch cannot be written; nothing is pending in either case |
| `DbTransaction.Transaction.Rollback` | src/leveldbwrapper.h:370-376 | the database is untouched, and nothing is pending |

## Left out

- Networking, RPC, start-up, the wallet, scripts and their interpreter, proof of work and stake, InstantX, sporks and logging.
- The best-block hash through `Flush`, and `AccessCoins`, whose result is a pointer into the cache.
- Caches are opened and flushed as a stack: a base is not changed while a cache above it holds entries, as the node uses them.
- `Select_`, `GetChance` and `GetPriority`: floating point and random selection.
- Identifiers, counters, heights and vote counts are unbounded integers; the 32-bit limits of `nIdCount`, `nVotes` and buffer sizes over 2 GB are not modelled. Times of address entries, amounts, limbs, variable-length integers and the compact format have their widths.
- CAddrMan `Clear` on an object that is not new, which leaves two of its maps filled; `Unserialize` is modelled on a new object. The reading of a stream is separated from filling the indexes.
- AddrCodec.Serialize: the byte form of the stream is not modelled; tokens stand for its self-delimiting fields, whose formats are those of the network message classes.
- Slots of the address tables that hold -1 are absent keys of a map, and bucket counts are any positive numbers.
- The notification of one waiting thread may also reach nobody in the check queue's model, which covers more runs than the code has; interruption of threads and the destructor are not modelled.
- The packing of flag bits into bytes in the Merkle block message.
- The arithmetic of the curve: `CurveOk` says that a valid point is found again from its compressed form.
- Whether the collateral or the signature of a budget draft is good is a parameter.
- Script operations of the budget: payees are compared by their scripts, where the source compares their printed form; a re-vote on a draft, which the source does not store, is not modelled.
- Block index entries are values with their parent and skip entries inside; the node has one object per hash, so equality of values stands for equality of pointers.
- The log of payment votes is a list of entries with their hashes; the order of the source's map does not matter to any result.
- The handlers of scoped database transactions, and I/O errors while reading.
- Standard sorts are modelled by insertion; their result is determined where the order is total.
- The bounded containers `limitedmap.h` and `mruset.h`, the Bloom filter, checkpoints and fee rates.
