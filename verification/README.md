# Verified models of the virtual file system and its archive decoders

This project models, in Dafny, the parts of the program that keep state by intricate means, and proves
that they do what simpler definitions say. `dafny verify dfyconfig.toml` checks all of it.

- **The lh1 decoder** (`Lh1Tree`, `Lh1Rebuild`, `Lh1Words`, `Lh1Decoder`, `Lh1Layout`, `Lh1Codes`, `Lh1Twins`,
  `BitReader`): an adaptive Huffman tree in an array that is kept in order of frequency, with groups of equal
  frequency in place of a scan. The invariant is broken and repaired at every step from a leaf to the root, and the
  tree is rebuilt in place. What an encoder writes with its tree, a decoder reads with its own.
- **unlzx** (`Canonical`, `DecodeTable`, `LzxInput`, `LzxDecrunch`, `LzxTokens`, `LzxHeader`, `LzxAnnounce`,
  `LzxMachine`, `LzxRounds`, `LzxStream`): a two-level, bit-reversed table for canonical codes, a 32-bit bit register,
  block headers with code lengths that are themselves coded, a wrapped window with duplicated edges, the rounds that
  feed all this, and a resumable reader. Each is proved against a plain definition: codewords as RFC 1951, section
  3.2.2, has them, one flat bit string and a parser of it, an unbounded history, one run of a reference decoder, and
  one read of the whole. `LzxTokens` and `LzxAnnounce` write what the parser reads back.
- **The LHA tree builder** (`TreeDecode`): a queue in the array that is being built, over whatever was there before.
- **The handle protocol** (`VfsState`, `VfsSound`, `VfsJobs`, `VfsProtocol`, `VfsReuse`, `VfsOverlap`, `VfsSecure`,
  `VfsLoss`, `VfsTurns`, `VfsSpared`, `VfsEffects`, `VfsHandles`): a state machine whose steps are the sections under
  `handle_lock`, the creation and the end of jobs, and the release hooks. Threads interleave in any way. `VfsSound`
  holds the invariant of the tables and counters, `VfsJobs` that of the jobs, `VfsProtocol` the theorems about runs,
  and `VfsEffects` what the operations come to when nothing comes between their sections. Two of the promises need
  care from the callers, and for each there is a run that shows it and a theorem that says exactly when it is so:
  `VfsReuse` for ids that are passed in again while a mount is closed, and `VfsOverlap`, `VfsSecure`, `VfsLoss`,
  `VfsTurns` and `VfsSpared` for chains onto one file handle. `VfsHandles` has the sections themselves, updating
  fields in place.
- **Ownership** (`VfsResolve`, `VfsReadAll`): the path resolver and the read-all job against plugins, an allocator and
  a callback that answer as they like; what they were asked and answered is logged, and decides the result.
- **BLAKE2s and BLAKE2sp** (`Blake2s`, `Blake2sp`): buffered and interleaved updates against the digest of the whole.
- **Smaller pieces** (`PmaHistory`, `LhNewRing`, `History`, `CollapsePath`, `LhaDecoder`, `AesCtr`, `Bits`,
  `Wrappers`): a move-to-front list, a ring buffer, a path collapsed in place, reads in pieces, a counter-mode cipher.

The code is the authority where it and a comment disagree. One such place is proved: the comment on
`pending_dispatches` says that chains onto one file handle may overlap, and `VfsOverlap` has a run in which they do
and a job loses its file. (They may overlap as long as they end in turn.)

## What the theorems take for granted

- `MakeDecodeTable`: the table has room for all second-level slots that the code lengths call for (`Room`, which
  counts them exactly for a code that is not over-full and bounds them from above for one that is), the index has at
  least one and fewer than 16 bits, and there are no more symbols than first-level slots.
- `BuildTree` decodes under `CompleteCode` and `Roomy` (a Kraft sum of one, and room for 2n - 1 cells when n codes are
  used); that the tree is safe to read needs neither.
- Copies from a window: the distance does not exceed the bytes there are. Where it does, the reference decoder of
  `LzxDecrunch` is lost, and only the bounds are claimed.
- Headers of unlzx: nothing is claimed from a header on that is `Outside`. Such a header has a code for which a table
  may lack room (`Room`), gives a difference that leads before the table of differences, repeats the literal code
  before there has been one, or is not wholly in what is buffered. That is at least 8192 bits, and a header that
  leaves 96 of them is never of the last kind (`HeaderFits`).
- Handle protocol, for all theorems (`Orderly`): a reused id was issued earlier and is passed to one allocation at a
  time; while a mount is being closed nothing is issued, dispatched or chained on it (a dispatch may be under way);
  and when the close of a mount ends, no id that it has collected names a handle of another mount. A caller keeps the
  last by not passing in an id, on any mount, between a `vfs_mount_close` that collected it and its end;
  `MountCloseFreesOthers` says exactly when it fails.
- For the theorems about a handle's own job, also (`DispatchOnce`): a prepared handle is dispatched once.
- For those about jobs chained onto a file handle, also (`ChainInTurn`): a chain that ends records its job over the
  one it was chained after, or over one that has finished. Chains whose windows do not overlap do so, and so do many
  that overlap; `LossIsPossible` says exactly which job can lose its file handle otherwise.
- A job that runs inline on the calling thread is a job that finishes before the section that records it.
- Plugins deliver no more bytes than they are asked for and, in `VfsReadAll`, report the end of a file only at its
  end. The compression function, the block cipher and the checksum step are parameters.

## Model

| member | source | states |
|---|---|---|
| Lh1Tree.CountedKeepsConsistent | external/lhasa/lib/lh1_decoder.c:552-583 | One hit, counted by the walk to the root, keeps the whole invariant of the tree: frequencies in order, sums, links both ways, group leaders, the free list, and a root that equals the weight of the leaves and stays at or below 32768; the hit code gains one and no other code changes |
| Lh1Tree.ExchangeKeepsWalking | external/lhasa/lib/lh1_decoder.c:342-388 | Exchanging a node with the leader of its group keeps everything that holds in the middle of the walk, and the frequency of every code |
| Lh1Tree.IncrementKeepsWalking | external/lhasa/lib/lh1_decoder.c:392-432 | Raising the front node of its group by one moves the gap in the sums on to its parent and keeps the rest, in each of the four ways the groups can change |
| Lh1Tree.FreeGroupExists | external/lhasa/lib/lh1_decoder.c:147-155 | Whenever a group has to be allocated, one is free |
| Lh1Tree.TakeFreeGroup | external/lhasa/lib/lh1_decoder.c:147-155 | Taking the first unused group when the tree starts to use it leaves the list right: the groups that are not used, each once |
| Lh1Tree.ReturnGroup | external/lhasa/lib/lh1_decoder.c:159-163 | So does putting back a group that the tree has ceased to use |
| Lh1Decoder.Decoder.MakeGroupLeader | external/lhasa/lib/lh1_decoder.c:342-388 | The array is the tree with the node and the leader of its group exchanged; the place of the leader is returned |
| Lh1Decoder.Decoder.IncrementNodeFreq | external/lhasa/lib/lh1_decoder.c:392-432 | The array is the tree with that node raised by one |
| Lh1Decoder.Decoder.WalkToRoot | external/lhasa/lib/lh1_decoder.c:565-582 | The loop from a leaf to the root is the recursive walk |
| Lh1Decoder.Decoder.constructor | external/lhasa/lib/lh1_decoder.c:318-336 | Whatever was in the arrays, the decoder starts from a consistent tree that gives every code the frequency one and reads the words of a new tree |
| Lh1Decoder.Decoder.InitTree | external/lhasa/lib/lh1_decoder.c:180-250 | The initial tree is consistent, gives every code the frequency one, and reads each code from its word: the codes from 116 on from the 8-bit numbers from 0 on, and the others from the 9-bit numbers from 396 on |
| Lh1Words.NewWordReads | external/lhasa/lib/lh1_decoder.c:587-613 | In a tree laid out as a heap with the codes backwards at its end, those are the words; a 1 bit leads to the odd index |
| Lh1Decoder.Decoder.GatherLeaves | external/lhasa/lib/lh1_decoder.c:444-461 | The leaves move to the front in their order, each frequency halved and rounded up; none is overwritten before it is read |
| Lh1Decoder.Decoder.RegrowTree | external/lhasa/lib/lh1_decoder.c:463-520 | The backward build never runs out of leaves, never writes over one it has still to read, and ends with all of the array filled and one root at index 0 |
| Lh1Rebuild.PlaceLeaf | external/lhasa/lib/lh1_decoder.c:480-504 | Copying the next leaf keeps the state of the build: the filled part is a forest in order, and the writer stays ahead of the reader |
| Lh1Rebuild.PlaceBranch | external/lhasa/lib/lh1_decoder.c:506-519 | Inserting a branch over the next pair keeps the state of the build |
| Lh1Rebuild.BuiltTree | external/lhasa/lib/lh1_decoder.c:463-520 | What the build ends with is a linked, sorted tree with right sums over the same codes |
| Lh1Decoder.Decoder.NumberGroups | external/lhasa/lib/lh1_decoder.c:522-546 | The groups are numbered afresh so that they are again the classes of equal frequency, with the right leaders and free list |
| Lh1Decoder.Decoder.ReconstructTree | external/lhasa/lib/lh1_decoder.c:436-547 | The rebuilt tree is consistent, is over the same codes with each frequency f replaced by (f + 1) / 2, is below the limit, and is laid out by the order the codes had |
| Lh1Layout.RebuiltIsDetermined | external/lhasa/lib/lh1_decoder.c:436-547 | There is only one such tree: position by position the same code or children, frequency and parent, so that both sides of a transmission go on alike |
| Lh1Decoder.Decoder.IncrementForCode | external/lhasa/lib/lh1_decoder.c:552-583 | One hit, with a rebuild first when the root has reached the limit; for every sequence of codes the tree stays consistent |
| Lh1Decoder.HitCountsCode | external/lhasa/lib/lh1_decoder.c:552-583 | The hit code gains one over its old frequency, or over half of it after a rebuild, and every other code keeps its own |
| Lh1Codes.CodeWordReadsBack | external/lhasa/lib/lh1_decoder.c:587-620 | The bits of the path to a code are read back as that code, and nothing after them is used |
| Lh1Codes.ReadingWasWritten | external/lhasa/lib/lh1_decoder.c:587-620 | Whatever is read is the word of the code that is returned, followed by the bits that are left |
| Lh1Codes.RunReadsBack | external/lhasa/lib/lh1_decoder.c:587-620 | Over any run with the tree changing after every code, the codes that were written are the codes that are read |
| Lh1Twins.HitAlike | external/lhasa/lib/lh1_decoder.c:552-583 | Two trees that differ at most in the numbers of their groups still do so after one more hit of the same code, with a rebuild or without |
| Lh1Twins.WrittenAlike | external/lhasa/lib/lh1_decoder.c:587-620 | Over the same codes, from trees that are alike, the same bits are written and the trees end alike |
| Lh1Twins.OthersReadBack | external/lhasa/lib/lh1_decoder.c:587-620 | What one side writes with its own trees the other side reads back with its own |
| Lh1Codes.ReadCode | external/lhasa/lib/lh1_decoder.c:587-620 | Reads one code from the bit reader, fails exactly when the input ends inside its word, and counts the hit |
| BitReader.Reader.PeekBits | external/lhasa/lib/bit_stream_reader.c:59-97 | The next n bits of one flat string, most significant first, however the callback cuts the input into chunks; -1 exactly when fewer are left; nothing is consumed |
| BitReader.Reader.ReadBits | external/lhasa/lib/bit_stream_reader.c:102-117 | The same, and exactly n bits are consumed |
| BitReader.FilledValue | external/lhasa/lib/bit_stream_reader.c:89-93 | Or-ing a byte in below the bits of the 32-bit buffer appends its bits |
| Canonical.CodeWordsPrefixFree | external/unlzx/unlzx.c:236-258 | No codeword is a prefix of another |
| Canonical.PlaceIsKraft | external/unlzx/unlzx.c:236-258 | The position counter after all codes of at most d bits is their Kraft sum |
| Canonical.CodeWordStands | external/unlzx/unlzx.c:236-258 | A codeword, as a number, is the weight of the codewords before it: shorter ones first, equally long ones in the order of their symbols, without gaps |
| Canonical.SomeCodeWordStarts | external/unlzx/unlzx.c:223-311 | With a Kraft sum of one, every bit string of 16 bits starts with a codeword |
| DecodeTable.MakeDecodeTable | external/unlzx/unlzx.c:223-311 | Succeeds if and only if the codes that fit in the index, or all codes, have a Kraft sum of exactly one; after success the table decodes every window. Room for the second-level slots is the precondition |
| DecodeTable.EnterShortCodes | external/unlzx/unlzx.c:236-260 | The first level holds, for each entered code, exactly the bit-reversed indices that its codeword is a prefix of |
| DecodeTable.EnterLongCodes | external/unlzx/unlzx.c:275-306 | The second level is the tree of the longer codewords, built without a slot being used twice |
| DecodeTable.Reverse | external/unlzx/unlzx.c:239-245 | The index is the position with its bits reversed |
| DecodeTable.LookupFinds | external/unlzx/unlzx.c:506-521 | The walk through the levels finds the symbol whose codeword starts the window |
| DecodeTable.DecodedSymbolIsUnique | external/unlzx/unlzx.c:506-521 | The symbol returned is the only one whose codeword is a prefix of the window |
| Canonical.CompleteHasCode | external/unlzx/unlzx.c:223-311 | In a complete code every used symbol has a codeword |
| LzxInput.Register.Refill | external/unlzx/unlzx.c:508-512 | Two bytes of input, the high one first, go in above the waiting bits; control equals exactly the waiting bits and fits in 32 bits |
| LzxInput.PairIsNumber | external/unlzx/unlzx.c:508-512 | A pair of bytes in the flat string is a number, the high byte first, whose bits come lowest first |
| LzxInput.Register.Drop | external/unlzx/unlzx.c:524-530 | Dropping n bits refills when needed; what is left is the rest of one flat string and shift is in 0 to 15 again |
| LzxInput.Register.DropOne | external/unlzx/unlzx.c:515-520 | The other form of the refill, which tests shift before it is lowered, agrees |
| LzxInput.Register.Begin | external/unlzx/unlzx.c:326-330 | The refill at the start of a block leaves the flat string as it was |
| LzxInput.Register.PeekAhead | external/unlzx/unlzx.c:399 | The bit looked at above the index bits is the one that comes after them |
| LzxInput.ReadLiteral | external/unlzx/unlzx.c:506-530 | The walk of decrunch consumes exactly one codeword and returns its symbol |
| LzxInput.ReadLength | external/unlzx/unlzx.c:397-416 | The walk of read_literal_table, which drops the index bits last, does the same |
| LzxDecrunch.Window.Put | external/unlzx/unlzx.c:531-533 | Appends one byte to the history that the window shows |
| LzxDecrunch.Window.Copy | external/unlzx/unlzx.c:569-574 | Copies the bytes that lie that far back in an unbounded history, overlap included, as long as the distance does not exceed the bytes there are |
| LzxDecrunch.Window.Wrap | external/unlzx/unlzx.c:681-690 | Moving the end of the full buffer to its start shows the same history |
| LzxDecrunch.SlotRange | external/unlzx/unlzx.c:163-170 | The slots of distances follow one another and cover 0 to 65535 once |
| LzxDecrunch.ReadDistance | external/unlzx/unlzx.c:534-558 | The distance of a match, with aligned bits and the zero that stands for the last distance; it lies in 1 to 65535 |
| LzxDecrunch.ReadMatch | external/unlzx/unlzx.c:534-576 | Distance and length are those of the reference parser, which LzxTokens pins down; the length is at most 258 |
| LzxTokens.MatchReadsBack | external/unlzx/unlzx.c:534-576 | The codeword of symbol 256 + slot + 32 * lenSlot, then the bits of the distance (in an aligned block the lowest three as a codeword), then those of the length, are read as that match, whatever follows; distance zero is the one before |
| LzxTokens.LiteralReadsBack | external/unlzx/unlzx.c:506-533 | The codeword of a symbol below 256 is read as that literal |
| LzxTokens.EveryTokenCanBeSent | external/unlzx/unlzx.c:505-576 | With a codeword for every symbol, every literal and every match of distance 1 to 65535 and length 3 to 258 can be sent |
| LzxTokens.TokensAreDecoded | external/unlzx/unlzx.c:495-580 | And any tokens one after the other: the reference decoder makes of their words what they stand for |
| LzxDecrunch.DecrunchOne | external/unlzx/unlzx.c:505-576 | One round of the loop is one step of a reference decoder on a flat bit string and an unbounded history |
| LzxDecrunch.Decrunch | external/unlzx/unlzx.c:495-580 | So is the whole loop, for some number of steps; the bytes it puts into the window are those the reference decoder appends; destination stays in the buffer |
| LzxHeader.ReadHeader | external/unlzx/unlzx.c:316-490 | From any register: the header is read as the parser reads the flat bit string (how the block is coded, its 24-bit length, the code lengths, and nothing behind them), it is corrupt exactly when the parser finds a code that is not complete, and after success the tables decode every window |
| LzxHeader.ReadLengthsOf | external/unlzx/unlzx.c:396-477 | The lengths of one part, updated in place, are those that the parser reads: differences to the lengths of the block before, modulo 17, and runs of zeros or of one length that stop at the end of the part |
| LzxHeader.ReadStretch | external/unlzx/unlzx.c:397-476 | One symbol and what belongs to it: a difference, 4 + x or 3 + x zeros with x of 4 bits, longer runs of zeros with 5 or 6 bits, or a run of one length with a second symbol |
| LzxHeader.LengthsReadBack | external/unlzx/unlzx.c:396-477 | Any lengths can be announced after any others, by one symbol each: what is written is read back |
| LzxAnnounce.PieceReadsBack | external/unlzx/unlzx.c:396-475 | Each kind of piece is read back: a difference, symbol 17 with 4 bits, symbol 18 with 5 or 6 bits, and symbol 19 with one bit and a second symbol |
| LzxAnnounce.PieceSets | external/unlzx/unlzx.c:417-476 | A piece sets the next lengths, as far as the part goes, to zero or to the lowered length, and no others |
| LzxAnnounce.HeaderReadsBack | external/unlzx/unlzx.c:316-490 | Any header is read back: 3 bits for the way, 8 offset lengths of 3 bits in way 3, the block length with its highest byte first, and in every way but 1 the two parts of the literal lengths |
| LzxHeader.ReadLiteralsOf | external/unlzx/unlzx.c:377-484 | Both parts, each with a code of its own, and the table of the literals over the lengths of all 768 |
| LzxMachine.TokenMore | external/unlzx/unlzx.c:505-576 | No token depends on the input behind it: with more behind, it is the same token, and the rest is longer by as much |
| LzxMachine.HeaderMore | external/unlzx/unlzx.c:316-490 | Nor does a header |
| LzxMachine.HeaderFits | external/unlzx/unlzx.c:316-490 | A header that leaves enough for a token of what is buffered is read, or found corrupt, without looking further |
| LzxMachine.BlockIsSteps | external/unlzx/unlzx.c:691-698 | Until a block is used up, the reference decoder of the whole entry is the decoder of the block, and what is left is the length less the bytes that were put out, in 32 bits |
| LzxMachine.StepsMore | external/unlzx/unlzx.c:651-672 | A run of the reference decoder over any number of headers and tokens goes on unchanged when the buffer is topped up |
| LzxRounds.Decruncher.TopUp | external/unlzx/unlzx.c:651-673 | Moving what is left to the front and reading on behind it adds to the flat bit string and changes nothing before; what was put in is the archive, in order; fails exactly when the archive ends before the entry, or both the entry and the buffer are used up |
| LzxRounds.Decruncher.Round | external/unlzx/unlzx.c:647-700 | Top up, read a header if the block is used up, wrap, clip the end, decrunch: at least one byte is delivered, and the bytes are what the reference decoder, which reads the headers and the tokens, has appended to its history; fails as corrupt only at a header that is |
| LzxRounds.Rounds | external/unlzx/unlzx.c:647-700 | The bytes of any number of rounds, one after the other, are the output of one run of the reference decoder, headers and tokens, over all the input; decrunch_length wraps as it does in 32 bits and the last distance stays in 1 to 65535 |
| LzxRounds.Unpack | external/unlzx/unlzx.c:609-748 | From the start of a packed entry, for any number of rounds: reads of any sizes, even after errors, hand out a prefix of the history that the reference decoder makes of the bits of the archive |
| LzxRounds.RoundsAreProductive | external/unlzx/unlzx.c:712-722 | The rounds are a supply as the reader of the stream needs it: none is empty |
| LzxRounds.ReadsHandOutTheHistory | external/unlzx/unlzx.c:704-748 | Reads of any sizes, to the end of an entry, hand out exactly the history of the reference decoder if its checksum is that of the entry, and fail as corrupt otherwise |
| History.CopiedBackBytes | external/unlzx/unlzx.c:569-574 | Every copied byte equals the byte one distance before it, old or just copied |
| LzxStream.CrcCalc | external/unlzx/unlzx.c:184-192 | The running sum is the CRC of everything that was handed out |
| LzxStream.CrcConcat | external/unlzx/unlzx.c:184-192 | The CRC of data in pieces is the CRC of the data |
| LzxStream.CrcOfOne | external/unlzx/unlzx.c:184-192 | The register starts from all ones and is complemented at the end |
| LzxStream.Stream.Read | external/unlzx/unlzx.c:704-748 | The loop of stream_read is the function ReadOnce of the state before, the whole state after an error included |
| LzxStream.ReadMakesProgress | external/unlzx/unlzx.c:714-739 | A successful read of a positive size hands out bytes until the entry ends |
| LzxStream.ErrorsStick | external/unlzx/unlzx.c:709-712 | Of any reads one after the other, whatever each of them gives: when one fails, every later one fails with the same error |
| LzxStream.PiecesAreWhole | external/unlzx/unlzx.c:704-748 | Reads of any sizes give the bytes and the outcome of one read of their sum: they succeed to the end exactly when it does |
| LzxStream.SumIsChecked | external/unlzx/unlzx.c:741-744 | Reads to the end that get all the bytes succeed if and only if the checksum of those bytes is that of the entry, and fail with CorruptData otherwise |
| LzxStream.SumIsCheckedAtTheEnd | external/unlzx/unlzx.c:741-744 | It is the read that empties the entry that fails; the ones before it succeed |
| TreeDecode.ReadFromTree | external/lhasa/lib/tree_decode.c:228-251 | Reading terminates on every reachable tree and is the descent along the bits |
| TreeDecode.InitTree | external/lhasa/lib/tree_decode.c:61-68 | Every cell becomes a leaf, and the tree is safe to read |
| TreeDecode.TreeBuildData.ExpandQueue | external/lhasa/lib/tree_decode.c:83-108 | Every waiting entry gets two children further on, or nothing changes when there is no room; cells stay leaves or forward pointers in bounds, whatever was in the array |
| TreeDecode.TreeBuildData.AddCodesWithLength | external/lhasa/lib/tree_decode.c:131-162 | For any code lengths: the codes of one length take the waiting entries in order and, when none is left, the root; nothing else changes; says whether longer codes remain. For a complete code every code so far is at the end of its codeword |
| TreeDecode.BuildTree | external/lhasa/lib/tree_decode.c:166-203 | For any code lengths at all the array stays safe to read. For complete lengths with room, next_entry ends equal to tree_allocated and every codeword is read back |
| TreeDecode.QueueIsWanted | external/lhasa/lib/tree_decode.c:166-203 | At every length the entries that wait weigh, in the Kraft sum, exactly as much as the codewords still to come, and at least two of those come for each |
| TreeDecode.QueueIsUsedUp | external/lhasa/lib/tree_decode.c:166-203 | At the end none are left |
| TreeDecode.ReadingIsCodeWord | external/lhasa/lib/tree_decode.c:228-251 | What is read from such a tree was the codeword of a used code |
| VfsProtocol.JobsKeepTheirHandles | src/vfs/vfs.c:851-970 | When prepared handles are dispatched once, an unfinished job finds its handle alive; when chains also end in turn, it finds its file handle in the map |
| VfsProtocol.WindowsKeepTheirHandles | src/vfs/vfs.c:1040-1224 | A handle with an open scheduling window is not freed, and its count is the number of open windows |
| VfsProtocol.CountersAreExact | src/vfs/vfs.c:851-971 | closed_count is the number of closed handles, pending_dispatches the number of windows on the handle, and a closed handle is in the map and is no read or write |
| VfsProtocol.HooksRunOnce | src/vfs/vfs.c:821-850 | A release hook runs only for a freed handle and at most once; until it has run it is owed |
| VfsProtocol.HooksRunAfterJobs | src/vfs/vfs.c:821-892 | By then every job of the handle has finished, and so has every job chained onto it when chains end in turn |
| VfsProtocol.DestroyedMountIsEmpty | src/vfs/vfs.c:1422-1464 | No handle is left on a mount that has been closed |
| VfsProtocol.MountCloseFreesItsHandles | src/vfs/vfs.c:1382-1392 | When no id of a victim names a handle of another mount, the last section of a mount close frees every handle on the mount and no other, each with its work done |
| VfsReuse.MountCloseFreesOthers | src/vfs/vfs.c:1354-1390 | After every run whose earlier mount closes freed only handles of their own mounts: the last section frees a handle of another mount if and only if a handle that was given the id of a victim since the victims were collected is in the map |
| VfsReuse.MountCloseTakesAnothersHandle | src/vfs/vfs.c:1354-1390 | A run in which it does: an id is passed in again between the drain and the free, and its new handle is freed under an unfinished job |
| VfsProtocol.SweepTakesEveryIdleHandle | src/vfs/vfs.c:865-892 | The sweep frees a handle if and only if it is closed and its work is done, although it looks at closed_count first |
| VfsProtocol.CloseHidesTheHandle | src/vfs/vfs.c:926-970 | After a close from the main thread the id reads as absent, unless it is a read or a write; the handle itself goes if and only if its work is done |
| VfsEffects.DispatchTakesEffect | src/vfs/vfs.c:1040-1072 | After every run: the sections of a dispatch of a prepared handle can be taken, and leave one new unfinished job of that handle, which both its job fields name; its count of windows is what it was and its id still finds it |
| VfsEffects.PrepareTakesEffect | src/vfs/vfs.c:1017-1037 | A read-all that is only prepared is in the map under a new id, without a job |
| VfsEffects.IssueTakesEffect | src/vfs/vfs.c:355-440 | An operation that is issued gets a handle under a new id, in the map, and a job that waits for the given one; no other handle changes |
| VfsEffects.ChainTakesEffect | src/vfs/vfs.c:1116-1222 | A read or write of an open file gets a handle and a job that waits for the last job of the file, and becomes the last job itself |
| VfsEffects.CloseTakesEffect | src/vfs/vfs.c:926-970 | The deciding section of a close, in all its cases: an idle handle is freed and its hook is owed; a busy one is marked by the main thread, unless it is a read or a write; in all other cases nothing changes |
| VfsEffects.MountCloseTakesEffect | src/vfs/vfs.c:1295-1392 | The close of a mount whose work is done drains at once, and leaves the mount gone with exactly its handles |
| VfsOverlap.OverlapLosesAJob | src/vfs/vfs_internal.h:158-159 | A run in which two chains onto one file overlap, one of them inline on a worker, ends with the file handle freed under an unfinished read; the comment says chains may overlap |
| VfsLoss.LossIsPossible | src/vfs/vfs.c:1116-1222 | After every run in which prepared handles are dispatched once: an unfinished job chained onto a file handle can lose the handle, in one of the ways to go on, if and only if it is not Secure. It is secure when it runs inline in its window, or when every other chain under way waits for it and either last_job does too, or no further chain can begin and one under way has a job to record that does |
| VfsSecure.SecureStays | src/vfs/vfs.c:1116-1222 | Whatever step is taken, by whichever thread, a secure job stays secure |
| VfsTurns.OverwritingLoses | src/vfs/vfs.c:1202-1216 | A chain that ends over a last_job that has not finished and is not the one it was chained after exposes that job: it can lose its file handle, unless no further chain can begin, all chains under way wait for it, and one of them has a job to record |
| VfsSpared.OverwritingMayBeHarmless | src/vfs/vfs.c:1202-1216 | That exception exists: a run in which a chain ends over such a last_job while the closed file has one more chain under way, which waits for the job, so that no way to go on loses it |
| VfsTurns.RunsApartAreInTurn | src/vfs/vfs.c:1137-1222 | Runs in which the windows of chains onto one file handle do not overlap end their chains in turn |
| VfsSound.StepIsSound | src/vfs/vfs.c:355-1464 | Every atomic step of every thread keeps the tables, counters, hooks and mount closes right |
| VfsJobs.StepIsLinked | src/vfs/vfs.c:1040-1224 | Every step keeps every unfinished job on record at its own handle, once its window has closed, and keeps file handles older than the jobs chained onto them |
| VfsJobs.StepKeepsFiles | src/vfs/vfs.c:1116-1222 | Every step of a run whose chains end in turn keeps every unfinished chained job reachable from its file handle, along last_job and the dependencies |
| VfsJobs.FinishKeepsReach | src/vfs/vfs.c:1199-1202 | A job leaves a chain of dependencies only from its end |
| VfsJobs.EndDispatchStep | src/vfs/vfs.c:1065-1072 | The recording section of a dispatch puts the job on record at its handle and disturbs no other record |
| VfsJobs.EndChainKeepsFiles | src/vfs/vfs.c:1202-1222 | The publishing section of a chain in turn puts its job on record at the file handle and keeps all the others reachable |
| VfsSound.AllocateKeepsHandles | src/vfs/vfs.c:355-409 | A new handle has an id that no other handle has, is in no map, and leaves the tables and the counter of closed handles right |
| VfsSound.FreeIsSound | src/vfs/vfs.c:854-863 | Freeing published handles without windows keeps the tables and counters exact |
| VfsSound.MountFreeIsSound | src/vfs/vfs.c:1382-1464 | When the drain is over, the victims are idle and are all there is on the mount |
| VfsHandles.VfsTable.CollectHandlesLocked | src/vfs/vfs.c:139-149 | Each published handle that satisfies the predicate, once |
| VfsHandles.VfsTable.FreeHandleLocked | src/vfs/vfs.c:854-863 | The state after is the step that frees this handle |
| VfsHandles.VfsTable.ReclaimClosedHandles | src/vfs/vfs.c:874-892 | The two passes of the sweep are the one step of the protocol |
| VfsHandles.VfsTable.RunReleases | src/vfs/vfs.c:844-849 | Every hook on the list is run once, and only those |
| VfsHandles.VfsTable.Close | src/vfs/vfs.c:936-970 | The deciding section of a close is the step of the protocol, in each of its branches |
| VfsHandles.VfsTable.SnapshotMountVictims | src/vfs/vfs.c:1295-1313 | The ids of exactly the handles on the mount, each once, and with each the jobs that its handle names |
| VfsHandles.VfsTable.RefreshMountVictims | src/vfs/vfs.c:1333-1352 | In place, every victim gets the jobs that its handle names now, or none when it is gone; reports outstanding work if and only if some victim is not idle |
| VfsHandles.VfsTable.FreeMountVictims | src/vfs/vfs.c:1382-1390 | Looking each id up again frees exactly the victims still there, once |
| VfsResolve.Plugins.ResolveFullPath | src/vfs/vfs_tree.c:588-684 | Whatever the plugins answer: on success one handle is open in place of the root, opened by the returned plugin; on an error none; every buffer was freed once or belongs to the returned handle. The calls are those of a chain of layers from the first segment left to the last: in each, a file is found that the next plugin takes over, until the path ends at a directory or in a container that is one; the handle owns the memory of the last file |
| VfsResolve.Plugins.ResolveLayer | src/vfs/vfs_tree.c:634-674 | One layer settles its handles and buffers; its result is what its tries and offers came to, and the position grows |
| VfsResolve.Plugins.OpenRootFile | src/vfs/vfs_tree.c:598-632 | The special case of a root that is a file settles too: all of it is read and offered, and the handle returned owns what was read |
| VfsResolve.SettlesInTurn | src/vfs/vfs_tree.c:634-674 | Layer after layer the balance stays settled |
| VfsResolve.Plugins.TryOpenFile | src/vfs/vfs_tree.c:440-495 | At most one handle stays open, handed to the caller, with a buffer exactly when a file was read. The longest path is tried first; every one before the one that is found was refused, and nothing is found only when all were; a directory counts only as the whole of the path |
| VfsResolve.Plugins.FindPluginForMemory | src/vfs/vfs_tree.c:559-584 | The memory is offered to the plugins in turn, passes to the first that opens it, and stays with the caller when all decline or one calls it corrupt |
| VfsResolve.Plugins.CloneHandles | src/vfs/vfs_tree.c:499-526 | For any number of workers, and a plugin that makes clones, shares the handle, or gives out an earlier clone again: one handle for every worker or none at all. On a failure the clones are closed; the given handle is closed too if and only if it is among them, and one is closed twice if and only if it stands twice among them; with two workers neither can be |
| VfsResolve.Plugins.CloseClones | src/vfs/vfs_tree.c:514-517 | The closing loop closes every handle among the clones, and one of them twice if and only if it stands twice among them |
| VfsResolve.Plugins.CloseNodeResources | src/vfs/vfs_tree.c:232-262 | Every handle of the node is closed once, even if slots share it |
| VfsResolve.Plugins.FindRoot | src/vfs/vfs_tree.c:530-555 | The longest path that any plugin opens, by the first plugin that does; none only when every plugin has refused every path |
| VfsResolve.Plugins.MountPath | src/vfs/vfs_tree.c:688-706 | From finding the root plugin on, at most one more handle is open than before; the rest of the path is resolved from the root that was found |
| VfsResolve.Plugins.OpMount | src/vfs/vfs_ops.c:640-689 | What a mount leaves open is what its root node holds: the handle that was resolved and a clone of it, or nothing when that was refused |
| VfsReadAll.ReadAll.Execute | src/vfs/vfs_ops.c:695-707 | Every job calls back exactly once, also when it is canceled before it starts; an opened file is closed once; what stays allocated is what the result holds; what happened decides the status: canceled, not opened, failed or too large, or a success |
| VfsReadAll.ReadAll.OpReadAll | src/vfs/vfs_ops.c:201-346 | The same for every way through the operation; a file whose size is given is read by one call for that many bytes, and one of unknown size is delivered whole or, above 512 MiB, refused |
| VfsReadAll.ReadAll.ReadUnknown | src/vfs/vfs_ops.c:255-326 | The loop with the doubling buffer, and the probe at the cap: success means all bytes, and never more than the cap |
| VfsReadAll.ReadAll.SetError | src/vfs/vfs_ops.c:185-196 | Frees the buffer, closes the file and reports once |
| VfsReadAll.ReadAll.Deliver | src/vfs/vfs_ops.c:328-346 | Data that the callback replaces is freed at once and is not ours any more |
| VfsReadAll.ReadAll.FreeHandle | src/vfs/vfs.c:788-793 | Freeing the handle frees exactly what the job left allocated |
| Blake2s.Blake2s.Update | external/libarchive/libarchive/archive_blake2s_ref.c:216-239 | However the input is cut into pieces, the state is the one after putting it in at once; the counter is the byte count modulo 2^64 |
| Blake2s.Blake2s.Final | external/libarchive/libarchive/archive_blake2s_ref.c:241-265 | The digest of everything that was put in, as section 3.3 of RFC 7693 defines it, cut at the length that was asked for; what follows the digest when more is asked for is not specified; a finished state and a short output are refused |
| Blake2s.Blake2s.IncrementCounter | external/libarchive/libarchive/archive_blake2s_ref.c:63-67 | The two counter words carry as one number of 64 bits: it is the number of bytes so far, modulo 2^64 |
| Blake2s.StoredWord | external/libarchive/libarchive/archive_blake2s_ref.c:258-262 | Word i of the chain value is stored at byte 4 * i, its lowest byte first |
| Blake2s.DigestOfOne | external/libarchive/libarchive/archive_blake2s_ref.c:241-265 | For at most one block the digest is one compression, of the padded block, at its number of bytes, as the last |
| Blake2s.DigestOfTwo | external/libarchive/libarchive/archive_blake2s_ref.c:216-265 | For one to two blocks the first is compressed at 64 bytes and is not the last, also when it ends the block |
| Blake2sp.ShareAt | external/libarchive/libarchive/archive_blake2sp_ref.c:135-183 | Byte r of the k-th block of leaf i is byte r of block i in stripe k, and each exists when the other does |
| Blake2sp.Blake2sp.Update | external/libarchive/libarchive/archive_blake2sp_ref.c:135-183 | However the input is cut, each leaf has received exactly its every-eighth blocks of the whole stripes, and the rest is buffered |
| Blake2sp.Blake2sp.Final | external/libarchive/libarchive/archive_blake2sp_ref.c:186-213 | The tree digest of everything that was put in |
| Blake2sp.Hash | external/libarchive/libarchive/archive_blake2sp_ref.c:216-291 | The one-shot form gives the same tree digest, and fails exactly on a bad output or key length |
| Blake2sp.Blake2sp.NewLeaves | external/libarchive/libarchive/archive_blake2sp_ref.c:80-131 | Eight leaves with their own parameters, the last one marked, each fed the padded key if there is one |
| Blake2sp.NodeBlocks | external/libarchive/libarchive/archive_blake2sp_ref.c:47-77 | The parameter blocks of the leaves and of the root, byte by byte |
| PmaHistory.HistoryLinkedList.Update | external/lhasa/lib/pma_common.c:133-161 | The relinking is exactly move-to-front on the order, and the list is again one circle in both directions |
| PmaHistory.HistoryLinkedList.Find | external/lhasa/lib/pma_common.c:96-126 | The count-th byte of the order, whichever way round it walks |
| PmaHistory.HistoryLinkedList.constructor | external/lhasa/lib/pma_common.c:67-92 | The chain as it is cut and joined is one circle in the documented order |
| PmaHistory.GroupsInOrder | external/lhasa/lib/pma_common.c:72-90 | The groups of that order: 0x20 to 0x7f, 0x00 to 0x1f, 0xa0 to 0xdf, 0x80 to 0x9f, 0xe0 to 0xff, each counting up |
| PmaHistory.RelinkedAt | external/lhasa/lib/pma_common.c:143-160 | Node by node, the links after an update are those of the new order, also where the nodes coincide |
| PmaHistory.DecodeEncode | external/lhasa/lib/pma_common.c:59-64 | Positions taken from the order and looked up in it give the bytes back |
| LhNewRing.Ring.OutputByte | external/lhasa/lib/lh_new_decoder.c:509-517 | The ring holds the last RING_BUFFER_SIZE bytes of spaces followed by the output |
| LhNewRing.Ring.CopyFromHistory | external/lhasa/lib/lh_new_decoder.c:521-540 | With an offset below the size, the copy is the overlapping copy from an unbounded history |
| LhNewRing.CopiedOutput | external/lhasa/lib/lh_new_decoder.c:521-540 | By position: out[n + i] equals out[n + i - offset - 1], or a space before the start |
| CollapsePath.Collapse | external/lhasa/lib/lha_file_header.c:854-922 | The path rewritten in place is the evaluation of its components on a stack, with one leading slash kept |
| CollapsePath.CollapsedHasNoDots | external/lhasa/lib/lha_file_header.c:854-922 | No component that a slash ends is empty, "." or "..", and the path has not grown |
| CollapsePath.CollapsedTwice | external/lhasa/lib/lha_file_header.c:854-922 | Collapsing again changes nothing |
| CollapsePath.UpRemoves | external/lhasa/lib/lha_file_header.c:885-915 | ".." takes away the component in front of it, wherever in a path |
| CollapsePath.NothingIsWalked | external/lhasa/lib/lha_file_header.c:885-915 | An empty component and "." change nothing, and neither does ".." at the start |
| CollapsePath.ParseOnly | external/lhasa/lib/lha_file_header.c:876-883 | There is one way to cut a path at its slashes |
| LhaDecoder.Decoder.Read | external/lhasa/lib/lha_decoder.c:199-275 | As many bytes as asked for, unless the stream length or the codec ends first; they are the next ones of the codec output, and position and CRC follow |
| LhaDecoder.ReadAll | external/lhasa/lib/lha_decoder.c:199-275 | Reads of any sizes make up the codec output cut at the stream length |
| Wrappers.FoldConcat | external/lhasa/lib/lha_decoder.c:260-262 | The checksum of pieces is the checksum of the whole |
| AesCtr.Context.Update | external/libarchive/libarchive/archive_cryptor.c:488-521 | However the data are cut, each byte is combined with the key stream byte of its own position, also when a block is prepared and not used |
| AesCtr.IncreasedCounts | external/libarchive/libarchive/archive_cryptor.c:476-486 | The carry over eight bytes counts up by one, modulo 2^64 |
| AesCtr.NthCounts | external/libarchive/libarchive/archive_cryptor.c:476-486 | The counter of the n-th block is n, modulo 2^64 |
| AesCtr.KeyIsOfBlock | external/libarchive/libarchive/archive_cryptor.c:476-521 | Byte p of the key stream is byte p % 16 of the cipher of the number p / 16 + 1, in eight bytes with the lowest first and eight zeros |
| AesCtr.Twice | external/libarchive/libarchive/archive_cryptor.c:488-521 | Ciphering twice from the same position gives the data back |

## Left out

- LzxHeader.ReadHeader: claims nothing of a header that is `Outside`, and builds each table in a new array rather than
  over the one before; what is left there of an older table is never looked at.
- LzxRounds.Decruncher.Round: claims nothing of the decoder after an error, when no further round is run.
- LzxStream.Stream.Read: takes the rounds as a state and a next-round function; `LzxRounds` provides one. Seeking to
  the data of an entry is not part of it.
- Lh1Codes.ReadCode: the offsets that follow a code, and the output of the lh1 decoder, are not part of it.
- The width of the integers in the lh1 tree: that frequencies and indices fit in 16 bits follows from the proved bounds.
- The shape that LHARK gives to offsets and counts, and the reading of code lengths in the lh4 to lh7 decoders.
- LhNewRing.Ring.CopyFromHistory: takes the offset as read; that it is below the size of the ring is a precondition.
- CollapsePath.Collapse: what follows the last slash is kept as it is, "." and ".." included, as in the code.
- LhaDecoder.Decoder.Read: the progress callback, and the 64-bit overflow of a position near its limit.
- Handle ids and counters are unbounded: the wrap of the 32-bit `next_handle_id` is not modelled.
- The job system: its queue, priorities and waiting, and the memory orderings of the atomic fields.
- The result data, strings and arenas of a handle; watchers and the status of mounts; `vfs_cancel` and the queries.
- Liveness: that jobs finish, that a drain ends, and that an owed release hook is run in the end.
- VfsReadAll.ReadAll.ReadKnown: a file whose size the plugin gives is read by one call, and a short read is delivered
  short, as in the code.
- Resolution: the paths themselves, given here by their segments, and `vfs_tree_try_load_as_archive`.
- Memory that `mi_malloc` cannot provide while a path is resolved: the code does not check it there.
- Blake2s.Blake2s.Final: the bytes behind a digest, when more than 32 are asked for, are not specified.
- Blake2s.Blake2s.Update: the compression function, and how a parameter block becomes a chain value, are parameters.
- The lists of children in the tree of nodes and their recursive removal; fuzzy and natural comparison.
- ACLs, digests and formats of libarchive; the lhasa command line, headers other than paths, and deferred links.
- Drivers, the file system, the network and the watcher.
