# Verified model of the login server's ciphers, hashes, tables, queues, locks and pools

The repository is a Windows login server with its support libraries. Between its sockets, windows
and SQL it carries a number of self-contained algorithms and data structures whose results other
code relies on without checking. This project states what each of them promises and proves it, in
Dafny 4.11: `dafny verify dfyconfig.toml` checks everything.

Nearly all of that code works by changing things in place, and so does the model: tables and buffers
are arrays filled by loops, objects are classes with the source's fields. Each method is proved
against a function of its inputs or of the old state, and the promises are then proved about those
functions. Code that many threads run at once is modelled as steps of any number of threads, cut
where the source makes a system call, an interlocked operation or takes a lock.

| files | source | subject |
|---|---|---|
| `DesStandard`, `DesTables`, `DesKnownAnswer`, `DesLookup`, `Des` | `src/AuthServer/Des.c` | FIPS PUB 46-3 bit by bit; the source's numbers; a known answer; why its lookup tables compute the standard; the code |
| `MersenneRecurrence`, `MatRandom` | `lib/arda2/math/matRandom.cpp` | the infinite MT19937 recurrence; the generator that refreshes 624 words in place |
| `Md5Standard`, `Md5KnownAnswer`, `Md5` | `src/AuthServer/md5.cpp` | RFC 1321 on a whole message; its answer for "abc"; the buffered object |
| `IpList` | `src/AuthServer/IPList.cpp`, `IPList.h` | merging and looking up blocked address ranges |
| `RwLock`, `SpinLock` | `src/AuthServer/Lock.cpp` | the reader/writer lock and the spin mode of `CLock` |
| `TimerQueue` | `src/AuthServer/Job.cpp`, `Job.h` | timers with ticks that wrap |
| `Framing` | `src/AuthServer/CSocketServer.cpp`, `SocketServerEx.cpp` | length-prefixed packets in and out |
| `Blowfish` | `src/AuthServer/Blowfish.cpp` | the cipher and its self-modifying key schedule |
| `BufferPool` | `src/AuthServer/IOBuffer.cpp`, `IOBuffer.h` | reference counts and sixteen chains of free buffers |
| `ConnectionPool` | `src/AuthServer/DBConn.cpp` | the linked FIFO of database connections |
| `MachineWords`, `ExplicitHeap` | `lib/arda2/memory/memExplicitHeap.cpp` | what adding, subtracting and masking 32-bit words does to numbers; the bump allocator on such words |
| `Sha512`, `Sha512KnownAnswer` | `lib/cryptLib/sha512Impl.cpp`, `sha512Impl.h` | padding, packing and rounds of FIPS 180-2; its answer for "abc" |
| `Arithmetic`, `BitBlocks`, `BlockBuffers`, `Counting`, `LittleEndian`, `Pieces` | | shared facts about division, bits, blocks of a buffer, counting, bytes of words, joined pieces |

What the code promises and where it stops:

- **DES.** The fast routines compute the standard for every input, and for every password and every
  buffer `DesReadBlock` takes `DesWriteBlock` back. No exceptions. Complementing key and block
  complements the cipher.
- **Mersenne Twister.** Call n after any seed returns word 624 + n of the recurrence, tempered. Runs
  add up: the run from the exclusive or of two states is the exclusive or of their runs. The
  state transition loses no live bit, so no seed ever leads to the all-zero state and two different
  odd starting words never lead to the same state after the same number of steps.
- **MD5.** Any cutting into pieces gives the digest of the whole. The block loop tests
  `i + 63 < inputLen` in 32 bits; the loop stops where it should exactly when its last index is at
  most 2^32 - 64, which holds for every piece shorter than 2^32 - 63 bytes and fails for some longer
  one.
- **Blocked addresses.** The table stays sorted with real gaps all through a load exactly when no
  accepted range but the first starts at 0.0.0.0; the loaded table then answers membership and is
  canonical. For a later range from 0.0.0.0 `record.begin - 1` wraps to the largest address and the
  record is appended behind everything it should merge with. 0.0.0.0 is then found only if the *first*
  accepted range starts there. After one such range every lookup is still right exactly when the
  table starts at 0.0.0.0 and either has one entry, which the range covers, or has more, the range ends
  within the first, and the halving search never looks at the appended entry before the one in front of
  it: with 4, 5, 10 to 13, 22 to 29 and so on entries it does, and loses the last one even to a range
  that was in the table already.
- **Locks.** A writer is never inside together with a reader or another writer. There is no deadlock,
  although the first reader waits for the data while holding the mutex.
- **Timers.** The tick comparison orders times exactly when they are within half a wrap of each other;
  under that condition the cached tick is the earliest, and a drain fires every due timer once and no
  other, in order if the callbacks push nothing. Over any run of turns and pushes, each within half a
  wrap of the turn before it, every turn fires exactly what is due and no timer is lost or duplicated,
  however often the ticks wrap.
- **Framing.** The packets do not depend on how the bytes are cut. A frame is read back exactly when
  the header matches: always for `CSocketServer` while the length fits the header; for
  `CSocketServerEx` only with a packet size type of 3, since its sender uses the setting and its reader
  a constant (`src/AuthServer/SocketServerEx.cpp:182` and `269`; `src/AuthServer/Config.cpp:148` sets 3).
- **Buffer pool.** Every buffer is referenced, in some thread's hands or pooled once, and only one of
  these. Its count is the number of references only while there are any: the sockets call `Free`
  directly with the count at 1 (`src/AuthServer/IOSocket.cpp`: the destructor, `OnWriteCallback` and
  `Write`) and it stays 1 in the pool until `Alloc` sets it.
- **Allocator.** Regions are disjoint and inside their block, and aligned if the alignment is a power of
  two, exactly when no call wraps the count of remaining bytes into a success and no call that makes
  the heap grow asks for more than a block. A refused call takes its size off the count all the same.
  A growing heap that gets its blocks keeps to both as long as block size and mask stay below 2^31 and
  no call asks for more than a block; it then serves every call.
  A heap that cannot grow serves nothing more after a failure exactly as long as what is asked for
  in all is at most the count, by then below zero, plus 2^31; past that the signed word wraps and the
  next call is served outside the block. Two calls for 2^31 - 1 bytes of a heap of 8 do it, and so do
  calls no larger than the block if that is large.
- **SHA-512.** The block index `i << 7` is made in 32 bits, so blocks are read in place exactly when the
  padded message is no longer than 2^32 bytes.

Where the code departs from RFC 1321 (some pieces longer than 2^32 - 64 bytes) or from FIPS 180-2 (the
upper 64 bits of the length field are always 0 and the length is kept mod 2^64) the model follows the
code. The assertions the source keeps in comments about the connection list
(`src/AuthServer/DBConn.cpp:217` and `247`) and the one on the padded length
(`lib/cryptLib/sha512Impl.cpp:144`) follow from `ConnectionPool.DBEnv.TakeFront`,
`ConnectionPool.DBEnv.PutBack` and `Sha512.PaddedIsSmallest`.

## Model

| member | source | states |
|---|---|---|
| `Des.WriteThenRead` | src/AuthServer/Des.c:476-517 | For every password and every buffer with any length argument (also negative or not a multiple of 8): after key set-up and write the buffer holds the standard's cipher of each whole block and nothing else is changed; read gives the buffer back, byte for byte |
| `Des.DecipheredBuffer` | src/AuthServer/Des.c:476-497 | For every key schedule, every buffer and any number of whole blocks: deciphering block by block undoes enciphering block by block; no other byte changes |
| `Des.CipherBlockUndone` | src/AuthServer/Des.c:424-473 | On eight bytes, the standard with the keys reversed undoes the standard with the keys in order |
| `DesStandard.DecipherInvertsEncipher` | src/AuthServer/Des.c:424-473 | For all tables in range whose two permutations are inverse, all keys and all blocks: deciphering an enciphered block gives it back |
| `DesStandard.EncipherInvertsDecipher` | src/AuthServer/Des.c:424-473 | The converse: enciphering a deciphered block gives it back, so both are bijections on blocks |
| `DesStandard.RoundsUndone` | src/AuthServer/Des.c:308-326 | For any number of rounds, any keys and any f: the rounds run on the interchanged halves with the keys reversed end at the interchanged start |
| `DesStandard.RoundsFromFront` | src/AuthServer/Des.c:432-433 | Running a list of rounds is running its first round and then the rest |
| `DesStandard.Preoutput` | src/AuthServer/Des.c:424-447 | What stands behind the final permutation: the halves after the last round, interchanged; in front of the first round, the halves of the initial permutation |
| `DesStandard.FAt` | src/AuthServer/Des.c:281-300 | Every bit of the cipher function: the bit of one selection function that the permutation names, in the row and column its six inputs name, each input a bit of the right half against a bit of the round key |
| `DesKnownAnswer.KnownCipher` | src/AuthServer/Des.c:424-447 | With the source's tables, a block of zeros under a key of zeros becomes 8ca64de9c1b123a7, a known answer: it fixes the shape of the rounds and the table entries on the way |
| `DesStandard.FOfNots` | src/AuthServer/Des.c:281-300 | Complementing the right half and the round key leaves the cipher function as it was |
| `DesStandard.EncipherOfNots` | src/AuthServer/Des.c:424-447 | The complementation law, for all tables, keys and blocks: complementing every round key and the block complements the cipher |
| `DesStandard.ScheduleOfNot` | src/AuthServer/Des.c:350-374 | The round keys of a complemented key are the complemented round keys |
| `Des.Cipher.constructor` | src/AuthServer/Des.c:53-174 | The tables of numbers are the source's own; the five lookup tables have their shapes and hold anything |
| `Des.Cipher.DesKeyInit` | src/AuthServer/Des.c:499-517 | From tables of any contents: afterwards all five tables hold what they should for the standard key schedule of the password folded by XOR into eight bytes |
| `Des.FoldPassword` | src/AuthServer/Des.c:507-511 | The loop leaves in key byte b the XOR of the password characters b, b + 8, ... up to the first NUL and at most forty |
| `Des.Used` | src/AuthServer/Des.c:508 | The characters that count: all before the first NUL, at most forty, and no fewer |
| `Des.KInit` | src/AuthServer/Des.c:350-375 | The filled key table holds, bit for bit, the sixteen keys of the standard schedule of the 64-bit key |
| `Des.OneShotRotation` | src/AuthServer/Des.c:366-368 | Rotating both halves once by the running total is the standard's C and D of the round, which shift step by step |
| `Des.FillRoundKey` | src/AuthServer/Des.c:369-373 | Row i of a cleared key table becomes the pc2 selection of the rotated key; the other rows keep their bytes |
| `DesStandard.CDByTotal` | src/AuthServer/Des.c:92 | For any pc1: C and D after the shifts of rounds 0 to r are pc1 of the key rotated by the total |
| `DesStandard.RotateTimesAdds` | src/AuthServer/Des.c:366-368 | Rotating m times and then n times is rotating m + n times |
| `DesStandard.RotateTimesAt` | src/AuthServer/Des.c:366-368 | Bit j after n rotations is the bit the index expression of kinit reads, for every n up to 28 |
| `DesStandard.RoundKeyAt` | src/AuthServer/Des.c:350-374 | Every bit of every round key is the key bit that pc2, the rotation so far and pc1 lead to |
| `DesTables.TotrotIsTotal` | src/AuthServer/Des.c:92 | The sixteen numbers of totrot are the running totals of the standard's shifts 1, 1, 2, ... 1 |
| `DesTables.FinalUndone` | src/AuthServer/Des.c:53-75 | The numbers of fp are in range and ip read through fp is the identity |
| `DesTables.InitialUndone` | src/AuthServer/Des.c:53-75 | The numbers of ip are in range and fp read through ip is the identity |
| `DesTables.StandardValid` | src/AuthServer/Des.c:53-160 | All tables of the source stay in range, have the right sizes, and its two permutations are inverse to each other |
| `Des.PermInit` | src/AuthServer/Des.c:401-421 | From any contents, the table ends with exactly the mask bits of the permutation it is given |
| `Des.FillPermMasks` | src/AuthServer/Des.c:412-420 | One nibble position and value: bit k of the cleared mask is set iff output bit k comes from a set bit of that nibble; no other entry changes |
| `Des.Permute` | src/AuthServer/Des.c:181-197 | With a table filled for p, ORing two nibble masks per byte gives the bits p selects, for every block |
| `DesLookup.NextByteByNibbles` | src/AuthServer/Des.c:189-196 | Bit k after one more input byte is bit k before, or the high-nibble mask, or the low-nibble mask |
| `DesLookup.MergedAll` | src/AuthServer/Des.c:181-197 | Once every input byte is merged, the output is the bit selection |
| `Des.P32Init` | src/AuthServer/Des.c:377-397 | From any contents, the byte table ends with exactly the mask bits of the 32-bit permutation |
| `Des.FillP32Masks` | src/AuthServer/Des.c:388-396 | One byte position and value of that table, the others unchanged |
| `Des.Perm32` | src/AuthServer/Des.c:201-222 | ORing one mask per byte gives the bits the 32-bit permutation selects, for every block of four bytes |
| `DesLookup.NextByteByIndex` | src/AuthServer/Des.c:214-221 | Bit k after one more input byte is bit k before or the byte mask |
| `DesLookup.ExpandedIsE` | src/AuthServer/Des.c:225-255 | The shifts and masks of expand give, for all 32 input bits, the 48 bits of the standard's E operation |
| `Des.SInit` | src/AuthServer/Des.c:337-346 | Entry j of pair table i is two selection-function results in one byte, for all 4 * 4096 entries |
| `DesLookup.GetCompIsS` | src/AuthServer/Des.c:328-335 | The row and column getcomp takes from a six-bit number are those of the standard's selection function on the six bits |
| `DesLookup.FrontPair` | src/AuthServer/Des.c:265-274 | The first twelve-bit index of contract is two six-bit groups of the standard side by side |
| `DesLookup.BackPair` | src/AuthServer/Des.c:265-274 | So is the second, which starts four bits into its first byte |
| `DesLookup.PairIsTwoSelections` | src/AuthServer/Des.c:258-276 | A pair-table entry at two six-bit groups holds, bit for bit, the results of two neighbouring selection functions |
| `DesLookup.ContractedIsSubstitute` | src/AuthServer/Des.c:258-276 | The four lookups are all eight selection functions, for every 48-bit input and every set of S tables |
| `Des.Cipher.F` | src/AuthServer/Des.c:281-300 | For every 32-bit half and every 48-bit key in the table: expand, XOR, four lookups and perm32 give the standard's f |
| `Des.Cipher.Iter` | src/AuthServer/Des.c:308-326 | One churning operation is one round of the standard on the two halves |
| `Des.Cipher.Rounds16` | src/AuthServer/Des.c:424-473 | endes is the standard's enciphering and dedes its deciphering, for every block |
| `Des.Cipher.CryptBlock` | src/AuthServer/Des.c:481-485 | One block of the buffer is replaced by its image, in place; all other bytes stay |
| `Des.Cipher.DesMem` | src/AuthServer/Des.c:476-487 | The loop maps every block of the first mlen bytes and nothing else; a length of 0 or less changes nothing |
| `Des.Cipher.DesWriteBlock` | src/AuthServer/Des.c:489-492 | Exactly the whole blocks in len bytes are enciphered; the last len % 8 bytes and all after stay |
| `Des.Cipher.DesReadBlock` | src/AuthServer/Des.c:494-497 | Exactly the whole blocks in len bytes are deciphered |
| `BlockBuffers.MapUndone` | src/AuthServer/Des.c:476-497 | If one block map undoes another on eight bytes, it does so on every buffer, for any number of leading blocks |
| `BlockBuffers.TailUntouched` | src/AuthServer/Blowfish.cpp:587-603 | Mapping the whole blocks in any length leaves the bytes past the last whole block alone |
| `MatRandom.Generator.constructor` | lib/arda2/math/matRandom.cpp:48-58 | A new generator is seeded with 4357 |
| `MatRandom.Generator.Seed` | lib/arda2/math/matRandom.cpp:61-118 | From any state: the 624 words are 69069^k times the odd seed, and the run starts over at call 0 |
| `MatRandom.Generator.Reload` | lib/arda2/math/matRandom.cpp:124-142 | The three in-place loops, which read a mix of old and new words, move the state on by exactly 624 words of the infinite recurrence |
| `MatRandom.Generator.Generate` | lib/arda2/math/matRandom.cpp:121-152 | For every seed and every call number n: the result is the tempering of x[624 + n] of the recurrence |
| `MatRandom.Generator.Range` | lib/arda2/math/matRandom.cpp:191-194 | The n-th word scaled: at least 0 and below iMax when iMax is positive, between iMax and 0 otherwise |
| `MatRandom.Generator.RangeBetween` | lib/arda2/math/matRandom.cpp:197-200 | In [iMin, iMax) when iMin < iMax, between the two otherwise, for every pair whose difference fits in 32 bits |
| `MatRandom.ScaledInRange` | lib/arda2/math/matRandom.cpp:191-194 | The top half of the 64-bit product lies in the range, for every word and either sign of the bound |
| `MatRandom.RangeIsEven` | lib/arda2/math/matRandom.cpp:191-194 | The words giving r are exactly those from ceil(r * 2^32 / n) on, and no two results are given by numbers of words that differ by more than one |
| `MatRandom.FibreSize` | lib/arda2/math/matRandom.cpp:191-194 | Each result is given by floor(2^32 / n) or one more of the words |
| `MersenneRecurrence.TwistInjective` | lib/arda2/math/matRandom.cpp:130-131 | The twist loses nothing: equal twists come from equal words |
| `MersenneRecurrence.NextTells` | lib/arda2/math/matRandom.cpp:130-131 | The new word and the word 397 on determine the top bit and the low 31 bits that went in |
| `MersenneRecurrence.RunsAdd` | lib/arda2/math/matRandom.cpp:124-142 | Superposition: at every step the run from the exclusive or of two states is the exclusive or of their runs |
| `MersenneRecurrence.OutputsAdd` | lib/arda2/math/matRandom.cpp:121-152 | The same for the tempered words handed out |
| `MersenneRecurrence.DifferenceMovesOn` | lib/arda2/math/matRandom.cpp:128-139 | For any two runs and any k: where words k and k + 1 agree, words k + 624 differ exactly as words k + 397 do |
| `MersenneRecurrence.FirstWord` | lib/arda2/math/matRandom.cpp:109-152 | The first word handed out for the seed 4357 is 0xd13c8af5 |
| `MersenneRecurrence.SeedWordPower` | lib/arda2/math/matRandom.cpp:109-116 | n seeding steps multiply by the n-th power of 69069, modulo 2^32 |
| `MersenneRecurrence.UntemperInvertsTemper` | lib/arda2/math/matRandom.cpp:146-149 | Every output word determines the state word it was tempered from |
| `MersenneRecurrence.LiveDetermines` | lib/arda2/math/matRandom.cpp:124-142 | Two states that agree on the 19937 live bits have the same words ever after |
| `MersenneRecurrence.LiveOneBack` | lib/arda2/math/matRandom.cpp:124-142 | States whose successors agree on the live bits agree on them: the transition is injective |
| `MersenneRecurrence.LiveAllTheWayBack` | lib/arda2/math/matRandom.cpp:124-142 | The same over any number of steps |
| `MersenneRecurrence.ZeroIffStartsZero` | lib/arda2/math/matRandom.cpp:124-142 | A run is at some time all zero on the live bits iff it starts so |
| `MersenneRecurrence.SeedWordsOdd` | lib/arda2/math/matRandom.cpp:109-116 | Every word of every seeded state is odd |
| `MersenneRecurrence.SeededNeverZero` | lib/arda2/math/matRandom.cpp:109-142 | From any seed, no state the generator reaches is all zero on the live bits |
| `MersenneRecurrence.SeedsMeetOnlyIfEqual` | lib/arda2/math/matRandom.cpp:109-142 | Two seeds are in the same live state after the same number of steps iff they are equal up to the low bit seeding forces on |
| `MersenneRecurrence.OutputsDetermineRun` | lib/arda2/math/matRandom.cpp:121-152 | Two runs that give the same 624 outputs in a row have the same words from there on |
| `Md5.HashPieces` | src/AuthServer/md5.cpp:114-170 | For every list of pieces, each shorter than 2^32 - 63 bytes: updating with them in turn and finishing gives the one-shot RFC 1321 digest of their concatenation |
| `Md5.MD5.constructor` | src/AuthServer/md5.cpp:100-108 | A new object stands for the empty message |
| `Md5.MD5.Update` | src/AuthServer/md5.cpp:114-142 | Whether the source stays inside its input, iff its loop test stops in time; then the object stands for the old message followed by the input: count is its bit length mod 2^64, state the fold of its whole blocks, buffer its tail |
| `Md5.MD5.TransformBlocks` | src/AuthServer/md5.cpp:133-134 | For every input: the block loop, with its test made in 32 bits, has folded every whole block when it gets to the last index; it goes on past the input iff that index is above 2^32 - 64 |
| `Md5.MD5.Final` | src/AuthServer/md5.cpp:147-170 | The digest of everything fed in, and the object zeroed |
| `Md5.MD5.EncodeCount` | src/AuthServer/md5.cpp:153 | The eight bytes saved are the RFC's length field for the message so far |
| `Md5.MD5Transform` | src/AuthServer/md5.cpp:174-260 | Four registers that stay put while 64 operations name them in turn compute the RFC's compression of the block |
| `Md5.FourSteps` | src/AuthServer/md5.cpp:180-253 | Four operations on registers that stay put are four steps with registers that change roles |
| `Md5Standard.StepTells` | src/AuthServer/md5.cpp:75-96 | For all registers and words: a step gives the same for two blocks iff the word its index names is the same |
| `Md5Standard.StepInjective` | src/AuthServer/md5.cpp:75-96 | And the same for two states of the registers iff they are the same |
| `Md5Standard.StepsInjective` | src/AuthServer/md5.cpp:180-253 | So do any number of steps: no two states of the registers meet on the same block |
| `Md5Standard.FirstStepsTell` | src/AuthServer/md5.cpp:180-186 | The first n steps, n at most four, give the same for two blocks iff their first n words are the same |
| `Md5Standard.EveryWordOnce` | src/AuthServer/md5.cpp:180-253 | Each of the four rounds of sixteen steps reads every message word exactly once, and where |
| `Md5Standard.FChooses` | src/AuthServer/md5.cpp:65 | F takes y where x has ones and z where it has none, for any set of bit positions |
| `Md5Standard.GChooses` | src/AuthServer/md5.cpp:66 | G takes x where z has ones and y where it has none |
| `Md5Standard.HIsParity` | src/AuthServer/md5.cpp:67 | H is z where x and y agree and z turned over where they differ |
| `Md5Standard.ITurnsOver` | src/AuthServer/md5.cpp:68 | I is y turned over, except where x has none and z has ones |
| `Md5Standard.RotateMoves` | src/AuthServer/md5.cpp:72 | A rotation by s puts the low 32 - s bits s places up and the high s bits below them |
| `Md5KnownAnswer.KnownDigest` | src/AuthServer/md5.cpp:114-260 | The digest of "abc" is 900150983cd24fb0d6963f7d28e17f72, the answer of RFC 1321, appendix A.5: it fixes all constants, shifts and word indices |
| `Md5.AddCounts` | src/AuthServer/md5.cpp:121-124 | The two count words hold 8 * length mod 2^64 after any addition, whatever wraps on the way |
| `Md5.BufferedBytes` | src/AuthServer/md5.cpp:119 | Bits 3 to 8 of the low count word are the number of buffered bytes, for messages of any length |
| `Md5.GuardAtStop` | src/AuthServer/md5.cpp:133 | At the right last index, the wrapped loop test says stop iff that index is at most 2^32 - 64 |
| `Md5.ShortPiecesStop` | src/AuthServer/md5.cpp:133 | Every piece shorter than 2^32 - 63 bytes is safe, however many bytes are buffered |
| `Md5.LongPieceRunsOn` | src/AuthServer/md5.cpp:133 | 2^32 - 1 bytes on top of one buffered byte are not: at the end of the input the test still says go on |
| `Md5Standard.FoldInTwo` | src/AuthServer/md5.cpp:129-134 | Folding two runs of whole blocks one after the other is folding them at once |
| `Md5Standard.DecodeInvertsEncode` | src/AuthServer/md5.cpp:265-287 | Decode takes Encode back, for any words |
| `MachineWords.NumOfWord` | src/AuthServer/md5.cpp:280-287 | Four bytes decode to the word of the number b0 + 2^8 b1 + 2^16 b2 + 2^24 b3 |
| `Md5Standard.Pad` | src/AuthServer/md5.cpp:157-162 | The padded message is a whole number of blocks |
| `IpList.CIPList.Load` | src/AuthServer/IPList.cpp:93-181 | Whatever the table held, the loop leaves the table the specification gives for the list of ranges |
| `IpList.CIPList.Add` | src/AuthServer/IPList.cpp:153-176 | The erase-while-iterating loop and the insertion leave the table the specification gives for one more range |
| `IpList.CIPList.IpExists` | src/AuthServer/IPList.cpp:183-192 | The answer of the binary search; on a valid table, whether the address is covered |
| `IpList.CIPList.UpperBound` | src/AuthServer/IPList.h:41-44 | The halving search on the ends, on any table |
| `IpList.BoundSplits` | src/AuthServer/IPList.h:41-44 | On a valid table the search finds the first entry that ends after the address |
| `IpList.BoundAtExtremes` | src/AuthServer/IPList.cpp:154 | On any table of accepted ranges, valid or not, the search finds the end for the largest address and the first entry for 0 |
| `IpList.LookupIsCovers` | src/AuthServer/IPList.cpp:188-189 | On every valid table: found iff covered by some entry |
| `IpList.InsertMerges` | src/AuthServer/IPList.cpp:153-176 | A range starting above 0.0.0.0: the table stays sorted with real gaps and covers exactly the old addresses and the new ones |
| `IpList.AbsorbKeeps` | src/AuthServer/IPList.cpp:166-176 | Swallowing every entry the record touches leaves a valid table |
| `IpList.AbsorbCovers` | src/AuthServer/IPList.cpp:166-176 | And covers exactly the union |
| `IpList.InsertFromZero` | src/AuthServer/IPList.cpp:154 | A range from 0.0.0.0 is appended at the end, whatever the table |
| `IpList.InsertValidIff` | src/AuthServer/IPList.cpp:153-176 | One insertion into a valid table keeps it valid iff the range starts above 0.0.0.0 or the table is empty |
| `IpList.EveryPrefixValidIff` | src/AuthServer/IPList.cpp:93-181 | The table is valid all through a load iff no accepted range but the first starts at 0.0.0.0 |
| `IpList.LoadMerges` | src/AuthServer/IPList.cpp:148-177 | Under that condition the loaded table is valid and covers exactly what the accepted ranges cover |
| `IpList.AcceptedCovers` | src/AuthServer/IPList.cpp:148-151 | With no condition: the ranges passed over hold no address, so the accepted ones cover exactly what the whole list covers |
| `IpList.LoadedLookup` | src/AuthServer/IPList.cpp:148-192 | Under that condition: an address is found after loading iff it lies in a range of the list |
| `IpList.Canonical` | src/AuthServer/IPList.cpp:153-176 | Two valid tables that cover the same addresses are equal |
| `IpList.LoadIsCanonical` | src/AuthServer/IPList.cpp:148-177 | Under that condition two lists load to the identical table iff they cover the same addresses, in any order and with any overlaps |
| `IpList.LoadKeepsFirst` | src/AuthServer/IPList.cpp:148-177 | With no condition at all: only accepted ranges are in the table, and its first entry starts at 0.0.0.0 iff the first accepted range does |
| `IpList.ZeroFoundIff` | src/AuthServer/IPList.cpp:148-192 | With no condition: 0.0.0.0 is found iff the first accepted range starts there |
| `IpList.ZeroLostExample` | src/AuthServer/IPList.cpp:154 | A list of two ranges that covers 0.0.0.0 and does not find it |
| `IpList.LookupAfterZeroIff` | src/AuthServer/IPList.cpp:153-176 | For a valid table with entries and a range from 0.0.0.0: every lookup is right after adding it iff the table starts at 0.0.0.0 and, with one entry, the range covers it, or with more, the range ends within the first and the halving search does not skip the last |
| `IpList.LoadedLookupIff` | src/AuthServer/IPList.cpp:148-192 | The same for a whole load whose last accepted range starts at 0.0.0.0: every address is found iff it lies in a range of the list, iff that condition holds of the table before |
| `IpList.HarmlessIsRight` | src/AuthServer/IPList.cpp:183-192 | Under that condition the lookup is right for every address, although the table is no longer sorted |
| `IpList.HarmfulIsWrong` | src/AuthServer/IPList.cpp:183-192 | Without it, an address for which the lookup is wrong |
| `IpList.BoundEdges` | src/AuthServer/IPList.h:41-44 | On any table, sorted or not: the entry before the place found does not end after the address, the one at the place does |
| `IpList.SearchPasses` | src/AuthServer/IPList.cpp:188 | A short record at the end does not mislead a search that compares the entry before it first |
| `IpList.SearchSkips` | src/AuthServer/IPList.cpp:188 | And does mislead one that does not: the search ends behind the table |
| `IpList.SkipsIff` | src/AuthServer/IPList.cpp:188 | On how many entries it does not, without searching: those n with 3 * 2^k <= n + 1 < 4 * 2^k for some k, the appended record counted |
| `IpList.LastEntryLost` | src/AuthServer/IPList.cpp:153-192 | On every valid table of four entries, adding a range from 0.0.0.0 within the first loses the last entry |
| `RwLock.LockIsSafe` | src/AuthServer/Lock.cpp:112-150 | Over every interleaving of any number of threads: one writer at a time, no reader with a writer, and dataLock taken iff a writer or at least one reader has it |
| `RwLock.RunKeepsInv` | src/AuthServer/Lock.cpp:98-150 | Every state of every run keeps the invariant: readerCount counts the readers, the semaphore's one unit is free, with one writer or shared by the readers, and mutex has one owner |
| `RwLock.StepKeepsInv` | src/AuthServer/Lock.cpp:112-150 | One step of any thread keeps it |
| `RwLock.InvIsSafe` | src/AuthServer/Lock.cpp:112-150 | The invariant implies the safety above |
| `RwLock.FirstReaderAlone` | src/AuthServer/Lock.cpp:115-119 | While the first reader waits for dataLock inside mutex, no reader has the data |
| `RwLock.ReleasesSucceed` | src/AuthServer/Lock.cpp:123-150 | Over every run: neither the last reader nor a writer ever releases a semaphore that is free, so the error of WriteUnlock is never logged |
| `RwLock.BlockedHasHelper` | src/AuthServer/Lock.cpp:112-136 | In every reachable state, when a thread waits, another thread that holds the mutex or the data can take a step |
| `RwLock.CanBeFreed` | src/AuthServer/Lock.cpp:112-150 | From every reachable state, threads other than a blocked one can by themselves reach a state where it can go on, in a bounded number of steps: no deadlock |
| `RwLock.HelperSteps` | src/AuthServer/Lock.cpp:112-150 | A helper's step keeps the invariant and brings it closer to leaving, which is what bounds that run |
| `SpinLock.RunKeepsInv` | src/AuthServer/Lock.cpp:39-95 | Over every run: the word is 1 while one thread is inside and 0 otherwise |
| `SpinLock.MutualExclusion` | src/AuthServer/Lock.cpp:39-95 | Over every run: never two threads inside, and an exchange succeeds iff nobody is |
| `SpinLock.WaitersStay` | src/AuthServer/Lock.cpp:68-95 | A waiting thread never gives up, and goes in only when the word is 0 |
| `TimerQueue.GapOrdersIff` | src/AuthServer/Job.h:24-27 | For two times less than a wrap apart: comparing their ticks orders them iff they are within half a wrap |
| `TimerQueue.GapCycles` | src/AuthServer/Job.h:24-27 | Outside half a wrap the comparison is not an order: three ticks, each later than the next |
| `TimerQueue.GapIsOff` | src/AuthServer/Job.h:24-27 | Inside any half-range window, wrapping or not, the comparison is the order of the times |
| `TimerQueue.TopIsEarliest` | src/AuthServer/Job.cpp:35-46 | An entry no other is greater than has the earliest tick of the queue |
| `TimerQueue.PushKeepsEarliest` | src/AuthServer/Job.cpp:101-104 | Inside a window: the cached tick is the earliest of the queue after a push if it was before, and never moves later |
| `TimerQueue.PushKeepsEarlierIff` | src/AuthServer/Job.cpp:103-104 | For any two times less than a wrap apart: the cached tick is left at the earlier one iff they are within half a wrap |
| `TimerQueue.WindowSlides` | src/AuthServer/Job.cpp:30-49 | When nothing before a tick is pending, the window can start there with everything kept, so a run may wrap any number of times |
| `TimerQueue.CJob.constructor` | src/AuthServer/Job.cpp:137-152 | The queue starts with the top timer alone, due in a day, and the cached tick on it |
| `TimerQueue.CJob.Top` | src/AuthServer/Job.cpp:35 | Gives an entry no other is greater than |
| `TimerQueue.CJob.PushTimer` | src/AuthServer/Job.cpp:90-114 | While terminating nothing changes and nothing is woken; otherwise the timer is queued, and the cached tick moves, waking the timer thread if asked, iff the new tick is before it |
| `TimerQueue.CJob.PushWhenFree` | src/AuthServer/Job.cpp:90-114 | Another thread's push keeps everything valid and wakes the timer thread iff the cached tick moved |
| `TimerQueue.CJob.OnTimerCallback` | src/AuthServer/Job.cpp:168-174 | A callback adds the timers it pushes, and the top timer itself again a day later |
| `TimerQueue.CJob.Fire` | src/AuthServer/Job.cpp:38-39 | Pop and callback: the timer leaves, exactly what its callback pushes (and the top timer a day later) is added, nothing else is lost or duplicated, the top timer stays queued once, and fewer timers are due if the callback pushed none of its own |
| `TimerQueue.CJob.Drain` | src/AuthServer/Job.cpp:34-48 | Fires only timers due at the sampled tick, leaves none due, fires or keeps exactly once every timer queued and every timer the callbacks of those fired push, in tick order if they push none of their own, ends with the cached tick the earliest, never empties the queue, and terminates |
| `TimerQueue.CJob.Turn` | src/AuthServer/Job.cpp:30-49 | One turn: drains iff the cached tick is due; afterwards nothing is due, and everything holds for the window that starts at the sampled tick |
| `TimerQueue.CJob.RunEvents` | src/AuthServer/Job.cpp:23-114 | Over every run of turns and pushes of other threads, each within half a wrap of the turn before it: the timers queued at first, those each push names and those the callbacks of the timers fired push are fired or still queued, once; a push fires nothing; each turn fires only timers due at its tick, leaves none of them queued, and fires in order if the callbacks push none of their own |
| `TimerQueue.StaysInOrder` | src/AuthServer/Job.cpp:37-47 | A firing whose callback pushes nothing of its own leaves nothing queued that is due before anything fired |
| `TimerQueue.OneTopTimer` | src/AuthServer/Job.cpp:168-174 | The top timer is queued exactly once before and after any firing, so the queue is never empty |
| `TimerQueue.FewerDue` | src/AuthServer/Job.cpp:37-47 | A firing whose callback pushes nothing of its own leaves strictly fewer timers due |
| `Framing.Reader.OnRead` | src/AuthServer/CSocketServer.cpp:236-297 | For every buffer and either mode: packets posted, bytes kept, new mode and error are those of the specification scan |
| `Framing.ChunkingDoesNotMatter` | src/AuthServer/CSocketServer.cpp:247-297 | For both read loops, any connection and any cutting of any stream: same packets, same bytes left, same error as when read whole |
| `Framing.ScanInTwo` | src/AuthServer/SocketServerEx.cpp:173-226 | Scanning two runs of bytes at once is scanning the first, and then what it kept with the second |
| `Framing.ScanSettles` | src/AuthServer/SocketServerEx.cpp:173-226 | Whatever a read keeps holds nothing that could be read already |
| `Framing.KeptFits` | src/AuthServer/CSocketServer.cpp:264-291 | A read that keeps bytes keeps fewer than the buffer holds, so the next read has room |
| `Framing.Send` | src/AuthServer/CSocketServer.cpp:346-369 | Two header bytes in front of the assembled packet make its frame, the rest of the buffer stays; a failed assembly changes nothing and still gives a size to write |
| `Framing.SendEx` | src/AuthServer/SocketServerEx.cpp:245-278 | The same frame, and nothing sent when the assembly failed |
| `Framing.SendResource` | src/AuthServer/SocketServerEx.cpp:329-350 | The buffer starts with the length, the low byte of the command, the two low bytes of the key and the message |
| `Framing.FrameReadIff` | src/AuthServer/CSocketServer.cpp:253-291 | A frame alone is read back as its payload with nothing left iff the header value mod 2^16 less what the reader takes off is the payload length |
| `Framing.ServerFrameReadIff` | src/AuthServer/CSocketServer.cpp:357-369 | CSocketServer reads back what it frames iff the length fits the header |
| `Framing.ServerExFrameReadIff` | src/AuthServer/SocketServerEx.cpp:261-273 | CSocketServerEx reads back what it frames iff the packet size type is 3 |
| `Framing.FramesRecovered` | src/AuthServer/CSocketServer.cpp:236-369 | Any sequence of non-empty payloads of known type, framed, is recovered exactly and in order with nothing left |
| `Framing.FramesRecoveredInPieces` | src/AuthServer/CSocketServer.cpp:236-369 | And so in whatever pieces the frames arrive |
| `Framing.ResourceFrameRead` | src/AuthServer/SocketServerEx.cpp:329-350 | A resource frame is read by CSocketServerEx as one packet: command, key, message |
| `Blowfish.DecipherInverts` | src/AuthServer/Blowfish.cpp:541-585 | For any P and S tables: deciphering an enciphered pair gives it back |
| `Blowfish.BackwardUndoes` | src/AuthServer/Blowfish.cpp:548-557 | n deciphering rounds from the interchanged end of sixteen rounds are the interchanged state 16 - n rounds in |
| `Blowfish.CombineLaws` | src/AuthServer/Blowfish.cpp:538 | What each of the four S entries does to bf_F: the last is added, the third is exclusive or, only the sum of the first two counts |
| `Blowfish.RoundReadsS` | src/AuthServer/Blowfish.cpp:537-539 | For all tables and words: another value in an S entry changes a round iff the entry is one of the four named by the bytes of b, box k by byte k from the high one |
| `Blowfish.RoundReadsP` | src/AuthServer/Blowfish.cpp:539 | Another value in a P entry changes round n iff it is entry n |
| `Blowfish.EncipherReadsP` | src/AuthServer/Blowfish.cpp:541-562 | For all tables and every pair of words: another value in any of the eighteen P entries changes what the pair is enciphered to |
| `Blowfish.EncipherWithoutF` | src/AuthServer/Blowfish.cpp:541-562 | With zeros in the S boxes the left word meets the even P entries, the right word the odd ones, and they change places |
| `Blowfish.DecryptInvertsEncrypt` | src/AuthServer/Blowfish.cpp:587-603 | For any tables and any buffer: decrypting the encrypted blocks gives the buffer back, tail included |
| `Blowfish.Matrix.EncipherInPlace` | src/AuthServer/Blowfish.cpp:692-717 | The sixteen rounds in pairs, reading the tables in place, are the specified cipher |
| `Blowfish.Matrix.DecipherInPlace` | src/AuthServer/Blowfish.cpp:719-740 | And so for deciphering |
| `Blowfish.Matrix.CryptBuffer` | src/AuthServer/Blowfish.cpp:742-758 | The buffer loops map exactly the whole blocks of the length given; the tail is not touched |
| `Blowfish.Matrix.MixKey` | src/AuthServer/Blowfish.cpp:648-672 | The running index into the key, reduced at every step, XORs into P the cyclic key words |
| `Blowfish.Matrix.Initialize` | src/AuthServer/Blowfish.cpp:605-646 | Whatever the tables held: they end as a function of the source tables and the key alone, although every turn enciphers with the tables being rewritten |
| `Blowfish.KeyedTablesIff` | src/AuthServer/Blowfish.cpp:616-645 | The keyed tables are the one and only tables in which every pair of words, through P and on through S, is the pair before it (the first: two zeros) enciphered with the new words up to there and the mixed source words from there on |
| `Blowfish.RunningWord` | src/AuthServer/Blowfish.cpp:617-626 | The bytes read from the reduced index are those of the cyclic key, for keys of any length |
| `Blowfish.RepeatedAt` | src/AuthServer/Blowfish.cpp:617-626 | Byte i of a key written m times is byte i mod its length |
| `Blowfish.KeyRepetitionIsNothing` | src/AuthServer/Blowfish.cpp:605-690 | A key and the key repeated any number of times give the same tables |
| `Blowfish.MixedAgreeIff` | src/AuthServer/Blowfish.cpp:616-627 | Two keys of any lengths mix into P alike iff they agree, read cyclically, on the first 72 bytes |
| `Blowfish.KeyedTablesAgree` | src/AuthServer/Blowfish.cpp:605-690 | So keys that agree there give the same tables |
| `Blowfish.EncryptHereDecryptThere` | src/AuthServer/Blowfish.cpp:605-758 | Two sets of tables set up by the key schedule with the same key, whatever they held, end equal; what one writes is the cipher of each whole block, and the other decrypts it |
| `BufferPool.EveryBufferInOnePlace` | src/AuthServer/IOBuffer.cpp:25-68 | Over every interleaving, with direct calls of Free and writes of m_pNext by holders: a buffer is referenced, in some thread's hands between steps, or in the sixteen acyclic chains exactly once, and only one of these; while it is referenced its count is the number of references |
| `BufferPool.RunKeepsInv` | src/AuthServer/IOBuffer.cpp:25-54 | Every state of every run has sixteen chains that follow the links to NULL and each created buffer in one place |
| `BufferPool.StepKeepsInv` | src/AuthServer/IOBuffer.cpp:25-54 | One step of any thread keeps it |
| `BufferPool.PopKeeps` | src/AuthServer/IOBuffer.cpp:31-33 | Taking the head of a chain |
| `BufferPool.PushKeeps` | src/AuthServer/IOBuffer.cpp:50-53 | Putting a buffer at the head of a chain |
| `BufferPool.CallerKeeps` | src/AuthServer/IOBuffer.h:29-31 | What a caller with a reference may do: AddRef, Release (the last one hands the buffer to Free), Free by the only holder with the count left at 1, and linking the buffer into a list of its own; the last two are what IOSocket.cpp does with the buffers it writes |
| `BufferPool.LinkKeeps` | src/AuthServer/IOBuffer.h:21 | A holder that writes the link of its buffer, as IOSocket.cpp does to queue it for writing, disturbs no chain |
| `BufferPool.PooledCountExample` | src/AuthServer/IOBuffer.cpp:46-54 | A run after which a pooled buffer nobody references has count 1, because Free was called directly |
| `BufferPool.AllocIsExclusive` | src/AuthServer/IOBuffer.cpp:31-43 | The buffer Alloc is about to hand out has no reference and is in no other thread's hands |
| `BufferPool.FreeAll` | src/AuthServer/IOBuffer.cpp:56-68 | Deletes exactly the pooled buffers, chain by chain, never reading a link of a deleted one, and empties every slot |
| `BufferPool.FreeAllReady` | src/AuthServer/IOBuffer.cpp:56-68 | Every reachable state meets what FreeAll needs, so no buffer is deleted twice |
| `ConnectionPool.DBEnv.AllocSQLPool` | src/AuthServer/DBConn.cpp:81-107 | The free list is the array backwards, ending in its first entry, with the end pointer on it |
| `ConnectionPool.DBEnv.PushFront` | src/AuthServer/DBConn.cpp:98-104 | One entry linked in at the front; the end pointer set by the first |
| `ConnectionPool.DBEnv.Acquire` | src/AuthServer/DBConn.cpp:204-222 | The front entry exactly, or none iff the list is empty; the list stays a chain with its end pointer right, and every entry is free once or held |
| `ConnectionPool.DBEnv.TakeFront` | src/AuthServer/DBConn.cpp:207-219 | Unlinks the front entry and clears the end pointer iff it was the last |
| `ConnectionPool.DBEnv.Release` | src/AuthServer/DBConn.cpp:234-253 | The entry goes to the end of the list, everything else as it was |
| `ConnectionPool.DBEnv.PutBack` | src/AuthServer/DBConn.cpp:239-250 | Links it behind the last entry, or makes it the list |
| `ConnectionPool.ServedInOrder` | src/AuthServer/DBConn.cpp:200-253 | For every sequence of acquiring and releasing: entries handed out, then those free, are the array backwards followed by those released, in order |
| `ConnectionPool.FirstInFirstOut` | src/AuthServer/DBConn.cpp:200-253 | The same for any starting list and any allowed sequence of calls |
| `ConnectionPool.TakenInTurn` | src/AuthServer/DBConn.cpp:200-253 | An entry put back behind n others is taken after exactly those n, in their order |
| `ConnectionPool.NothingLost` | src/AuthServer/DBConn.cpp:200-253 | Entries taken and free are the entries at first and those put back, as multisets |
| `ExplicitHeap.MemExplicitHeap.constructor` | lib/arda2/memory/memExplicitHeap.cpp:28-36 | No block, nothing remaining |
| `ExplicitHeap.MemExplicitHeap.AllocateHeap` | lib/arda2/memory/memExplicitHeap.cpp:58-72 | From any state: the given alignment with its mask, block size and growth, one block if one was to be had, and the result says which |
| `ExplicitHeap.MemExplicitHeap.AddBlock` | lib/arda2/memory/memExplicitHeap.cpp:148-161 | A block of that size becomes the last one with all of it remaining; without one nothing changes |
| `ExplicitHeap.MemExplicitHeap.Release` | lib/arda2/memory/memExplicitHeap.cpp:123-139 | The state of a new object, but for the mask, which is left as it was |
| `ExplicitHeap.MemExplicitHeap.NewBytes` | lib/arda2/memory/memExplicitHeap.cpp:82-113 | From any state, also a new or released one: address and all fields afterwards are those of the specification in 32-bit words, on success, growth and both failures |
| `MachineWords.NumOfPlus` | lib/arda2/memory/memExplicitHeap.cpp:85 | Adding words adds their numbers mod 2^32 |
| `MachineWords.NumOfMinus` | lib/arda2/memory/memExplicitHeap.cpp:88 | Subtracting words subtracts their numbers mod 2^32 |
| `MachineWords.NegativeIff` | lib/arda2/memory/memExplicitHeap.cpp:90 | A word is below zero as a signed one iff its number is 2^31 or more |
| `MachineWords.NumSplits` | lib/arda2/memory/memExplicitHeap.cpp:85 | A mask splits a word in two parts whose numbers add up to its own |
| `MachineWords.NumUnderMask` | lib/arda2/memory/memExplicitHeap.cpp:85 | Under the mask of a power of two lies the remainder |
| `MachineWords.MaskedStep` | lib/arda2/memory/memExplicitHeap.cpp:85 | With any mask, adding it and clearing its bits moves an address on by at most the mask |
| `MachineWords.MaskedRoundsUp` | lib/arda2/memory/memExplicitHeap.cpp:85 | With the mask of a power of two the result is a multiple, and the address rounded up unless the sum wraps |
| `MachineWords.MaskOfSix` | lib/arda2/memory/memExplicitHeap.cpp:85 | With another mask it is no rounding: alignment 6 takes 12 to 16 |
| `ExplicitHeap.CountAfter` | lib/arda2/memory/memExplicitHeap.cpp:88-90 | The signed count after a call is the difference, wrapped back into range, and the call is served from the block iff it is not below zero |
| `ExplicitHeap.OverrunsIff` | lib/arda2/memory/memExplicitHeap.cpp:88-90 | Short of a whole turn of the count: a call is served although less remains iff it takes off more than the count plus 2^31 |
| `ExplicitHeap.AllocatedIsSound` | lib/arda2/memory/memExplicitHeap.cpp:58-72 | What AllocateHeap leaves is sound, with or without a block |
| `ExplicitHeap.ServeIsGood` | lib/arda2/memory/memExplicitHeap.cpp:82-113 | For every sequence of calls none of which wraps the count into a success or grows the heap for more than a block: all regions are inside an allocated block, pairwise disjoint, aligned for a power of two, and stay so when the heap grows |
| `ExplicitHeap.GrowingServesAll` | lib/arda2/memory/memExplicitHeap.cpp:82-113 | For a growing heap whose block size and mask together are below 2^31, and every sequence of calls with sizes up to the block size that gets its blocks: both bounds are kept, so all regions are good, and every call is served |
| `ExplicitHeap.ServeIsGoodIff` | lib/arda2/memory/memExplicitHeap.cpp:82-113 | For heaps with a block, of less than 2^31 bytes: a sequence of calls is good all along iff every call keeps to those two bounds |
| `ExplicitHeap.AnsweredIsGoodIff` | lib/arda2/memory/memExplicitHeap.cpp:82-113 | The same for one call |
| `ExplicitHeap.AllKeptIff` | lib/arda2/memory/memExplicitHeap.cpp:88-107 | For a heap that cannot grow, short of a whole turn of the count: the calls keep to the bounds iff all they take off is at most the count at first plus 2^31 |
| `ExplicitHeap.OverrunIsBad` | lib/arda2/memory/memExplicitHeap.cpp:88-112 | A region served by a wrapped count leaves its block, or leaves a count that does not reach its end |
| `ExplicitHeap.NewKeepsSound` | lib/arda2/memory/memExplicitHeap.cpp:82-113 | Success, growth and refusal keep the heap sound |
| `ExplicitHeap.NewIsApart` | lib/arda2/memory/memExplicitHeap.cpp:82-113 | A new region is disjoint from every region handed out before |
| `ExplicitHeap.NewIsPlaced` | lib/arda2/memory/memExplicitHeap.cpp:82-113 | A new region is inside the last block, before the next address, and aligned for a power of two |
| `ExplicitHeap.PlacedStays` | lib/arda2/memory/memExplicitHeap.cpp:82-113 | A region handed out stays inside its block through success, growth and refusal |
| `ExplicitHeap.SuccessIsExact` | lib/arda2/memory/memExplicitHeap.cpp:82-113 | After a success within the bounds the next address and the count meet exactly the end of the last block |
| `ExplicitHeap.GrowthFitsIff` | lib/arda2/memory/memExplicitHeap.cpp:91-101 | A growing call stays inside the block it adds iff its size is at most the block size |
| `ExplicitHeap.FailureIsFinalIff` | lib/arda2/memory/memExplicitHeap.cpp:88-107 | After a failure of a heap that cannot grow, short of a whole turn of the count: no sequence of calls is handed anything iff all they ask for, with the bytes skipped, is at most the count plus 2^31 |
| `ExplicitHeap.SmallHeapIsSound` | lib/arda2/memory/memExplicitHeap.cpp:58-72 | A heap of 8 bytes as AllocateHeap makes it is sound: the heap of the two examples on failure |
| `ExplicitHeap.FailureForgotten` | lib/arda2/memory/memExplicitHeap.cpp:88-107 | Two calls for 2^31 - 1 bytes of a heap of 8: the first is refused, the second is served |
| `ExplicitHeap.BlockSizedCallsOverrun` | lib/arda2/memory/memExplicitHeap.cpp:88-107 | A block of 2^30 bytes used up and two calls for as many refused: the third is handed the memory behind the block |
| `ExplicitHeap.FailureExample` | lib/arda2/memory/memExplicitHeap.cpp:88-107 | A heap that would serve 4 bytes, and does not after failing to serve 9 |
| `Sha512.GetMessageDigest` | lib/cryptLib/sha512Impl.cpp:96-214 | Up to 2^32 padded bytes the loops compute the section 6.3 hash of the padded message; beyond, the hash of the blocks the wrapped index reads |
| `Sha512.BlocksInPlaceIff` | lib/cryptLib/sha512Impl.cpp:165-168 | Every block is read where it is iff the padded message is no longer than 2^32 bytes |
| `Sha512.PadInPlace` | lib/cryptLib/sha512Impl.cpp:99-139 | The appending loops give the padding of section 5.1.2 |
| `Sha512.DistanceBytes` | lib/cryptLib/sha512Impl.cpp:102-126 | The distance computed from the truncated remainder, either branch, is the number of zero bytes needed, for messages of any length |
| `Sha512.AppendLength` | lib/cryptLib/sha512Impl.cpp:133-139 | The shifting loop appends the eight bytes of the length, high byte first |
| `Sha512.PaddedIsSmallest` | lib/cryptLib/sha512Impl.cpp:99-144 | The padded length is a multiple of 128 and the smallest one that holds the message and 17 bytes |
| `Sha512.PaddedInjective` | lib/cryptLib/sha512Impl.cpp:99-144 | No two messages of any lengths pad alike |
| `Sha512.PackedBytes` | lib/cryptLib/sha512Impl.cpp:80-94 | Every byte of a block can be recovered from its sixteen words |
| `Sha512.PackWordIsNumber` | lib/cryptLib/sha512Impl.cpp:84-92 | The sum of shifted bytes is the big-endian number of the eight bytes |
| `Sha512.BigEndianOfNumber` | lib/cryptLib/sha512Impl.cpp:80-94 | The bytes of a number put together from bytes are those bytes |
| `Sha512.NumberOfBigEndian` | lib/cryptLib/sha512Impl.cpp:133-139 | A number that fits is read back from its bytes |
| `Sha512.Schedule` | lib/cryptLib/sha512Impl.cpp:170-181 | The two schedule loops fill W_0 to W_79 of the standard |
| `Sha512.HashBlock` | lib/cryptLib/sha512Impl.cpp:169-213 | One turn of the block loop is 80 rounds of the standard and the sum |
| `Sha512.RoundTells` | lib/cryptLib/sha512Impl.cpp:193-204 | For all constants and states: a round gives the same for two schedule words iff they are equal, and for two constants iff they are equal |
| `Sha512.RoundInjective` | lib/cryptLib/sha512Impl.cpp:193-204 | And the same for two states of the eight variables iff they are equal |
| `Sha512.RoundsReadK` | lib/cryptLib/sha512Impl.cpp:193-204 | After t rounds another value in constant i has changed the state iff i is less than t |
| `Sha512.EightRoundsTell` | lib/cryptLib/sha512Impl.cpp:193-204 | For all constants and all starts: eight rounds give the same for two blocks iff their first eight words are equal |
| `Sha512.ScheduleTells` | lib/cryptLib/sha512Impl.cpp:172-181 | Any sixteen schedule words in a row determine the block |
| `Sha512.SigmaBits` | lib/cryptLib/sha512Impl.h:88-106 | Bit i of each sigma function is the parity of three bits of the word, named by the rotations (or two and a shift) |
| `Sha512.ChChooses` | lib/cryptLib/sha512Impl.h:78-81 | Ch takes y where x has ones and z where it has none, for any set of bit positions |
| `Sha512.MajAgrees` | lib/cryptLib/sha512Impl.h:82-85 | Maj is what two of its three words agree on, for any set of bit positions |
| `Sha512KnownAnswer.KnownDigest` | lib/cryptLib/sha512Impl.cpp:30-214 | With the constants of _LoadK the hash of "abc" is the answer of FIPS 180-2, appendix C.1: it fixes all constants, rotations and sums |
| `Sha512.ReadInPlace` | lib/cryptLib/sha512Impl.cpp:165-168 | While the index does not wrap, the blocks read are the blocks of the message in order |

## Left out

- Des.Cipher.constructor: the static tables of the source are fields of one object, which holds the source's own numbers; the program's single set of globals is one such object.
- Des.Permute: the local workspace of `permute`, `iter`, `f`, `endes` and `dedes` (`iters`, `swap`, `bigright`, `result`, `preout`) is modelled on values; only the tables and the caller's buffer are rewritten in place.
- DesTables.StandardValid: the selection tables and permutations are the source's numbers and only their shapes and inverses are proved; that they equal the printed tables of FIPS PUB 46-3 is not, beyond the entries one known answer visits (`DesKnownAnswer.KnownCipher`).
- Md5.MD5.Update: says whether the source stays inside its input, and nothing of the state when it does not, because it then hashes whatever lies behind; `Md5.GuardAtStop` says exactly when, and `Md5.LongPieceRunsOn` gives a piece. Pieces are shorter than 2^32 bytes, the type of the length.
- Md5.MD5Transform: the 64 written-out operation lines are a loop of sixteen groups of four, with the constants, word indices and shifts taken from tables.
- IpList.LoadMerges: requires that no accepted range but the first starts at 0.0.0.0, without which the table is not valid (`IpList.EveryPrefixValidIff`).
- IpList.LoadedLookup: the same condition; `IpList.LoadedLookupIff` is exact when only the last accepted range breaks it, and `IpList.ZeroFoundIff` holds for all lists. What the lookup answers after more insertions into a table that is no longer sorted is not described further.
- IpList.LoadIsCanonical: the same condition on both lists.
- IpList.CIPList.Load: starts from the parsed ranges; text parsing and log lines are left out, and the lock around the table is modelled on its own in `RwLock`.
- RwLock.LockIsSafe: the lock is modelled on values, as steps of a state; failures of the system calls, recursion of critical sections and fairness are left out, and a thread only unlocks what it locked.
- SpinLock.MutualExclusion: the pauses between tries and the critical-section mode of `CLock` are left out; a thread only leaves when inside.
- TimerQueue.CJob.Drain: requires pending ticks inside a half-range window, the exact condition for the comparison to order them (`TimerQueue.GapOrdersIff`), and callbacks that push inside it; callbacks that push for ever are left out by a finite script. The priority queue is a sequence whose `top` is the first entry no other is greater than, so the order of equal ticks is not captured; `top` in `RunTimer`, a reference into the queue, is a copy of the value.
- TimerQueue.CJob.PushTimer: reference counts of timer objects, `PushEvent`, `RunEvent`, waiting and the emptying of the queue at termination are left out.
- Framing.Reader.OnRead: `SM_CLOSE` and the unreachable error 3, logging and the posting of packets are left out; `CIOSocket::Read(n)` is read as keeping the last n bytes for the next buffer. `AS_MAX`, `AQ_MAX` and `PacketSizeType` are parameters.
- Framing.Send: `Assemble` is not part of this model; it is a parameter that says how many bytes it left behind the header.
- Blowfish.EncryptHereDecryptThere: the source has every routine twice, word for word, for the globals and for a `Blowfish_matrix`; here both are objects of one class, so that the two texts agree is not proved.
- Blowfish.Matrix.Initialize: S is one array of 1024 words, and the initial P and S constants are a parameter, since nothing proved depends on their values.
- Blowfish.Matrix.MixKey: a key of no bytes, for which the source divides by zero, is not allowed.
- BufferPool.StepKeepsInv: buffers are numbers and links a map, modelled on values as steps of a state; the contents and `m_size` of a buffer and the wrap of the two turn counters (whose low four bits alone count) are left out. A caller acts only on a buffer it has a reference to, and calls `Free` only as its only holder, as the sockets do with the buffers they write.
- BufferPool.FreeAll: run when no other thread is active, as from the pool's destructor.
- ConnectionPool.DBEnv.Acquire: one turn of the constructor's loop under the lock; the sleep between turns, the connection itself and MySQL are left out. `reset` is never set to TRUE in the source, and `Valid` says so.
- ExplicitHeap.ServeIsGood: what `MallocAligned` answers is a parameter, assumed aligned, apart from blocks in use, and with room for the mask between its end and the end of the address space. A start address that wraps to 0 reads as NULL.
- ExplicitHeap.ServeIsGoodIff: for blocks of less than 2^31 bytes, whose size fits the signed count.
- ExplicitHeap.FailureIsFinalIff: short of a whole turn of the count, since calls that take off 2^32 bytes more bring it back; addresses that align to NULL are left out.
- ExplicitHeap.NewIsPlaced: nothing is said of alignment when it is no power of two; `MachineWords.MaskOfSix` shows why.
- Sha512.GetMessageDigest: fewer than 2^32 blocks, because the 32-bit counter of the block loop cannot reach more. The 80 K constants are a parameter; `Sha512KnownAnswer.K` holds the ones the source loads.
- MatRandom.Generator.RangeBetween: the difference must fit in 32 bits, since overflow of a signed subtraction has no defined result.
- `matRandom::Unary`, `Uniform` and `Gaussian`, and all other floating-point code of `lib/arda2/math`: rounding is their point.
- The period of the Mersenne Twister and its equidistribution: facts about the polynomial, not about this code.
- Sockets, completion ports, windows, mail, logging, registry and MySQL: calls into code that is not shown.
- Packet handlers, interactive commands, `CLog`, `ServerId`, `CIPAccessLimit`, `CServerList`: only easy members.
- The property system, error macros, hash and container shims and performance counters of `lib/arda2`: thin wrappers.
