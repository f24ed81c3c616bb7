# Models of a hardware-test toolset

Dafny models of the algorithms of a set of hardware tests, and proofs of what they are for.

- The baseline JPEG decoder of luvcview (`Bits`, `BitReader`, `Huffman`, `DecTable`, `Coefficients`, `McuCoding`,
  `Mcu`, `Idct`, `InverseDct`, `Yuv`, `Frame`, `ScanCoding`): a bit reader that unstuffs bytes, pads at markers and
  takes bits back; decoding tables that speed up canonical Huffman codes; run lengths and DC predictions; the
  fixed-point inverse transform with its shortcuts, and how far it is from the inverse DCT; and the placing of MCUs in
  a YUYV picture. Each fast form is proved against the simple definition of ITU-T T.81, and `ScanCoding` puts them
  together: what an encoder writes for an image, with or without restart markers, is decoded to every byte of the
  picture.
- The rumt memory tester (`Md5Rounds`, `Md5`, `Md5Vectors`, `Md5Stream`, `TryMem`, `Stats`, `Urumt`, `Bgrep`): MD5
  octet by octet against RFC 1321 and two of its known answers, the stream of octets made from it, the writer and the
  checker that agree on that stream, the ring of pages filled and verified, the saturating counters in a file, and the
  search for octets.
- Two pieces of alsa-lib: the version counters of `iatomic.h` as steps of writers and readers in any order
  (`Iatomic`, `IatomicPlain`), and circular lists with the counted records kept in them (`List`, `ShmArea`).
- Two tests of memtester under an explicit model of faults (`Memtester`), and the row scaling of `gui.c` (`Resize`).

Code that changes things in place is a class or a method with loops, proved against functions on values; the lemmas
say what those functions mean. `dafny verify dfyconfig.toml` checks all of it.

Five things that the code does differently from what one would expect are kept as they are, with the exact condition
under which they do not matter:

- bgrep goes on after a report from the border of the pattern without its last octet, not of the whole pattern
  (`Bgrep.RightExactly`).
- `check_areas` never looks at bit 7 (`TryMem.SilentExactly`, `TryMem.Bit7Missed`).
- `print_stats` leaves out the highest page checked while no bad bit has been recorded there (`Stats.RowPrinted`).
- `resize` takes a pixel from before its row when the output is wider than the input, or has an odd width and more
  than one row (`Resize.InOwnRowExactly`), and one from outside its buffer exactly when the output is wider or higher,
  but for a single column one row higher (`Resize.InBufferExactly`).
- `snd_atomic_write_begin` and `snd_atomic_write_end` increment with a load and a store. Two writers can lose
  one, and then a read in the middle of a section is accepted (`IatomicPlain.TwoWritersTorn`); all runs are safe
  exactly when there is no more than one writer (`IatomicPlain.SafeExactly`).

## Model

| member | source | states |
|---|---|---|
| `BitReaders.ScanStuff` | webcam/luvcview-20070512/utils.c:591-620 | What the reader takes for a segment is exactly what stuffing wrote: for any data, stuffed and followed by a marker, unstuffing gives the data, the marker and the place behind it, whatever else the input holds. |
| `BitReaders.BitReader.Fill` | webcam/luvcview-20070512/utils.c:591-620 | After a refill at least 16 bits are in the window of 32, and the window still holds the next bits of the unstuffed segment, zeros once the marker is met. |
| `BitReaders.BitReader.GetBits` | webcam/luvcview-20070512/utils.c:639-644 | A get of up to 16 bits returns the next bits of the segment as a number and moves on by as many. |
| `BitReaders.BitReader.UngetBits` | webcam/luvcview-20070512/utils.c:645-647 | Any part of what the last get took can be put back: the position is the earlier one, so the same bits come again. |
| `BitReaders.BitReader.ReadMarker` | webcam/luvcview-20070512/utils.c:622-633 | The marker behind a segment is returned and the reader stands at the next segment; without one in reach, 0 is returned and nothing has moved. It is in reach whenever no more than 24 bits of the segment are left. |
| `Huffman.PrefixFree` | webcam/luvcview-20070512/utils.c:740-787 | No code of a canonical table is a prefix of a longer one. |
| `Huffman.DecodeCorrect` | webcam/luvcview-20070512/utils.c:650-684 | DECODE of section F.2.2.3 of ITU-T T.81, one bit at a time, finds a code if and only if the bits begin with one, and gives the index of its symbol. |
| `DecodingTables.EntryNonZero` | webcam/luvcview-20070512/utils.c:740-787 | A lookup entry is non-zero if and only if its ten bits are below maxcode[9]: every other entry stays 0. |
| `DecodingTables.ShortFinds` | webcam/luvcview-20070512/utils.c:740-787 | An entry is decided by the one code of at most ten bits that its index begins with. |
| `DecodingTables.EntriesAt` | webcam/luvcview-20070512/utils.c:752-779 | The entries of one code are the next stretch of the table: each entry is filled by one code, none is left out and none is filled twice. |
| `DecodingTables.Unpack` | webcam/luvcview-20070512/utils.c:650-702 | The masks and shifts of DEC_REC get back the fields an entry was packed from, for negative values too. |
| `DecodingTables.DecTable.MakeHuff` | webcam/luvcview-20070512/utils.c:740-787 | dec_makehuff leaves in its arrays the tables that decode the given canonical table: llvals entry by entry, maxcode with its sentinel, valptr and vals. |
| `Coefficients.LookupShort` | webcam/luvcview-20070512/utils.c:650-702 | One lookup tells a code of at most ten bits: run and size, or the value itself when that is in the ten bits as well, and how many bits to put back. |
| `Coefficients.LookupNone` | webcam/luvcview-20070512/utils.c:664-672 | An entry of 0 says that the bits begin with no code of at most ten bits, and that the loop over longer codes starts above them all. |
| `Coefficients.LongCode` | webcam/luvcview-20070512/utils.c:664-672 | The loop over longer codes stops at the length of the code that is there, at the latest at the sentinel; it reaches the sentinel if and only if there is no code. |
| `Coefficients.LongSymbol` | webcam/luvcview-20070512/utils.c:673-678 | The index valptr[i] + c - 2 * maxcode[i-1] is in range and is that of the symbol of the code. |
| `Coefficients.DecRec2` | webcam/luvcview-20070512/utils.c:650-684 | Both slow paths deliver the run, the value and the bits used that decoding bit by bit does; without a code the marker is set to M_BADHUFF. |
| `Coefficients.DecRec` | webcam/luvcview-20070512/utils.c:686-702 | On all three paths the table-driven DEC_REC returns the run and the signed value, and uses the bits, of DECODE, RECEIVE and EXTEND of sections F.2.2.1 to F.2.2.4 of ITU-T T.81. |
| `McuCoding.RunLengthStep` | webcam/luvcview-20070512/utils.c:718-733 | The items of figure F.2 of ITU-T T.81 for a block: what the next item is, and from where the rest is encoded. |
| `McuCoding.ExtendExtra` | webcam/luvcview-20070512/utils.c:686-702 | EXTEND undoes the choice of additional bits of section F.1.2.1, and yields 0 only for size 0. |
| `McuCoding.CodesInOrder` | webcam/luvcview-20070512/utils.c:740-787 | Codes are counted as figure C.2 of ITU-T T.81 does: the first is 0, and each is one more than the one before it, shifted left by as much as it is longer. |
| `McuCoding.ItemDelivered` | webcam/luvcview-20070512/utils.c:650-702 | Decoding an encoded run and value gives back both and uses exactly the bits of its code, whatever follows. |
| `Mcus.DecodeBlock` | webcam/luvcview-20070512/utils.c:716-735 | A block encoded as section F.1.2 of ITU-T T.81 says is decoded to the same 64 coefficients with the DC prediction undone, no more and no fewer bits are used, and max is one more than the index of the last non-zero AC coefficient. |
| `Mcus.DecodeMcus` | webcam/luvcview-20070512/utils.c:704-738 | decode_mcus inverts the encoding of a whole MCU of n blocks: block k is at 64 * k, components change as next says, the predictions are those after the MCU, and max is right for each block. |
| `Mcus.SixBlocks` | webcam/luvcview-20070512/utils.c:467-469 | The order of the components in an MCU of six blocks: four of luma, each predicted by the one before it, then U, then V, with the predictions that are left for the next MCU. |
| `Mcus.FourBlocks` | webcam/luvcview-20070512/utils.c:467-469 | The same of four blocks: two of luma, then U, then V. |
| `Mcus.ThreeBlocks` | webcam/luvcview-20070512/utils.c:467-469 | The same of three blocks: one of each. |
| `Mcus.OneBlock` | webcam/luvcview-20070512/utils.c:467-469 | The same of one block, luma alone. |
| `Idct.Constants` | webcam/luvcview-20070512/utils.c:797-799 | The three constants are those of IFIX. |
| `Idct.BasisIsCosine` | webcam/luvcview-20070512/utils.c:863-894 | The rows of the exact butterfly are the cosine basis of the inverse transform, the scaling of aaidct included, within an explicit bound for each entry; that the cosines are cosines is Idct.HalfAngles. |
| `Idct.ButterflyError` | webcam/luvcview-20070512/utils.c:863-894 | For all integer inputs each output of the fixed-point butterfly is within 3 of the exact one, outputs 0 and 7 being exact. |
| `Idct.SampleError` | webcam/luvcview-20070512/utils.c:812-955 | Both passes and the final shift stay within an explicit constant of the exact two-dimensional transform, for all coefficients and quantisers. |
| `Idct.ZigZag` | webcam/luvcview-20070512/utils.c:957-966 | zig is the zig-zag order of figure A.6 of ITU-T T.81: the place of a pair of frequencies, computed from the diagonal it is on. |
| `InverseDct.AaidctConstants` | webcam/luvcview-20070512/utils.c:968-973 | The eight factors of aaidct are IFIX of the decimals of the source. |
| `InverseDct.IdctQtab` | webcam/luvcview-20070512/utils.c:976-986 | idctqtab leaves in every one of the 64 places of the zig-zag order the entry that was read times the factor of its two frequencies; no place is written for another. |
| `InverseDct.ExactAsSum` | webcam/luvcview-20070512/utils.c:812-955 | The two passes by Basis, columns first and in the order of the butterfly, are one double sum over the frequencies, and the offset comes through unscaled. |
| `InverseDct.FactorGap` | webcam/luvcview-20070512/utils.c:968-986 | For each pair of frequencies, the rounded factors of idctqtab times two entries of Basis differ from the product of the two cosines of section A.3.3 of ITU-T T.81 by no more than an explicit gap. |
| `InverseDct.InverseError` | webcam/luvcview-20070512/utils.c:812-986 | For all coefficients, tables and offsets, a sample computed with the table of idctqtab differs from the inverse DCT of section A.3.3, of the coefficients times the table as read, by less than the final rounding down, the bound on both passes, and the gaps weighted by the coefficients. |
| `InverseDct.InverseNear` | webcam/luvcview-20070512/utils.c:812-986 | In levels: besides the rounding down, by less than a 50th and a 125th for every unit of the dequantised coefficients. |
| `Idct.FlatButterfly` | webcam/luvcview-20070512/utils.c:848-862 | The branch for a column or row without AC terms gives what the butterfly would. |
| `Idct.EarlyReturn` | webcam/luvcview-20070512/utils.c:821-826 | When only the DC coefficient is not 0, the early return for max == 1 writes what the full transform gives. |
| `Idct.Idct` | webcam/luvcview-20070512/utils.c:812-955 | Whichever branches are taken, the 64 samples are those of the full two-pass transform of the dequantised block; nothing else is written. |
| `Yuv.ClipNearest` | webcam/luvcview-20070512/color.h:50-50 | CLIP gives the one byte that is nearest to a number: no byte is nearer, and no other is as near. |
| `Yuv.PixelBytes` | webcam/luvcview-20070512/utils.c:1020-1062 | By pixel: the luma byte is the clipped sample of block 2 * (r / 8) + c / 8, the chroma byte that of U where the column is even and of V where it is odd, at half the row and column. |
| `Yuv.Convert420` | webcam/luvcview-20070512/utils.c:1020-1062 | yuv420pto422 writes the sixteen rows of an MCU in bounds, 512 bytes at 512 different places, and no byte outside them. |
| `Frames.Offsets` | webcam/luvcview-20070512/utils.c:479-492 | The offsets of luma and chroma are IFIX(128.5) and IFIX(0.5). |
| `Frames.SampleAt` | webcam/luvcview-20070512/utils.c:479-492 | Which table and which offset each of the six blocks is transformed with: luma the first table and IFIX(128.5), U and V theirs and IFIX(0.5). |
| `Frames.TransformMcu` | webcam/luvcview-20070512/utils.c:478-492 | The six calls of idct give the samples of the six blocks, with the quantiser and the offset of their component, the max shortcut being always allowed. |
| `Frames.CountdownRight` | webcam/luvcview-20070512/utils.c:254-270 | Counting nm down from dri + 1 comes to 0 exactly before the MCUs k > 0 whose number is a multiple of dri, and rm is then RST0 + (k / dri - 1) modulo 8. |
| `Frames.CheckRestart` | webcam/luvcview-20070512/utils.c:264-275 | Before such an MCU, and no other, its marker is demanded: a wrong one is refused, the right one resets the predictions and moves to the next segment. |
| `Frames.PlaceMcu` | webcam/luvcview-20070512/utils.c:527-527 | Placing an MCU shows it at its place and leaves all MCUs shown before as they are. |
| `Frames.TouchedNext` | webcam/luvcview-20070512/utils.c:470-528 | The bytes of an MCU are none of those of the MCUs before it. |
| `Frames.DecodeScan` | webcam/luvcview-20070512/utils.c:467-540 | For any 4:2:0 image in segments the MCU loop and the check of the end return the verdict on its markers, those due before every multiple of dri and EOI; and unless a restart marker is wrong the picture shows every MCU, each of its bytes written once. |
| `Frames.PixelShown` | webcam/luvcview-20070512/utils.c:1020-1062 | By pixel of the whole picture: the luma byte is the clipped sample of its block of its MCU, the chroma byte that of U in even columns and V in odd ones, at half the row and column. |
| `Frames.PixelNearest` | webcam/luvcview-20070512/utils.c:1020-1062 | Down to the coefficients: at 2 * col in the bytes of its row, the luma byte of a pixel is the byte nearest to the sample of its place in its block, and the byte behind it the one nearest to 128 more than the sample of U, or in odd columns of V, that four pixels share. |
| `Frames.Coverage` | webcam/luvcview-20070512/utils.c:419-428 | Every byte of the picture is written if and only if width and height are multiples of 16. |
| `ScanCoding.PackBits` | webcam/luvcview-20070512/utils.c:591-620 | Bits packed into bytes are the bits that the reader finds in these bytes. |
| `ScanCoding.SegmentFound` | webcam/luvcview-20070512/utils.c:581-633 | A segment as section F.1.2.3 of ITU-T T.81 has it written, padded, stuffed and ended by its marker, is found as it was, with what follows it. |
| `ScanCoding.EncodedHolds` | webcam/luvcview-20070512/utils.c:467-534 | The bytes of a whole encoded scan, restart intervals included, are what the decoder needs, and its verdict on them is that there is no error. |
| `ScanCoding.DecodeImage` | webcam/luvcview-20070512/utils.c:462-540 | The round trip: for every image of 4:2:0 MCUs, encoded with any restart interval and found anywhere in the input, jpeg_decode from setinput on returns 0 and the picture shows the samples of every MCU, each byte written once. |
| `Md5Rounds.Transform` | rumt/md5stream.c:61-134 | The unrolled, masked MD5_transform is the sixty-four steps of section 3.4 of RFC 1321, added to the chaining variables. |
| `Md5.SplitDigits` | rumt/md5stream.c:199-202 | The octets written for a word are the digits of its number in base 256, the lowest first. |
| `Md5Vectors.EmptyDigest` | rumt/md5stream.c:61-204 | The digest of the empty message is d41d8cd98f00b204e9800998ecf8427e, as section A.5 of RFC 1321 has it. |
| `Md5Vectors.AbcDigest` | rumt/md5stream.c:61-204 | And that of "abc" is 900150983cd24fb0d6963f7d28e17f72. |
| `Md5.WordAppend` | rumt/md5stream.c:158-164 | Or-ing an octet into its word appends it to the residue, read low order first. |
| `Md5.PadZerosLeast` | rumt/md5stream.c:186-190 | The loop that feeds zeros stops after the least number of them that section 3.1 of RFC 1321 asks for. |
| `Md5.PaddedWhole` | rumt/md5stream.c:179-199 | A padded message is a whole number of blocks. |
| `Md5.Md5Ctx.Start` | rumt/md5stream.c:142-156 | The context is that of the empty message. |
| `Md5.Md5Ctx.Feed` | rumt/md5stream.c:158-177 | After each octet the context holds the compression of all complete blocks of what was fed, the residue as words low order first, and the 64-bit length. |
| `Md5.Md5Ctx.Stop` | rumt/md5stream.c:179-204 | For every message fed octet by octet the digest is that of sections 3.1 to 3.5 of RFC 1321. |
| `Md5Streams.StreamConcat` | rumt/md5stream.c:304-328 | Pieces of the stream, one after the other, are the stream: m blocks and then n blocks are m + n blocks. |
| `Md5Streams.CounterWords` | rumt/md5stream.c:321-326 | Word i of what is compressed for block n is digit i of n in base 2^32: n / (2^32)^i modulo 2^32. |
| `Md5Streams.NextBlock` | rumt/md5stream.c:304-328 | The chaining variables of the next block are the compression of any sixteen words that are those digits, from the final state of the digest of the seed on; and a block is these variables written out. |
| `Md5Streams.Count` | rumt/md5stream.c:325-326 | The loop with its carries turns the sixteen words of in from one 512-bit number to the next. |
| `Md5Streams.Md5Stream.Init` | rumt/md5stream.c:290-295 | After md5stream_init, from any earlier state, the stream depends only on what it is seeded with. |
| `Md5Streams.Md5Stream.Seed` | rumt/md5stream.c:297-302 | Seeding in pieces is seeding with all of them. |
| `Md5Streams.Md5Stream.Fill` | rumt/md5stream.c:304-328 | A fill writes the next blocks of the stream of the seed, as many as are whole in the length, and nothing else; the next fill goes on from there. |
| `TryMem.BitDigit` | rumt/rumt_trymem.c:105-118 | The bit tested is digit b in base 2 of the number of the octet. |
| `TryMem.ReportsExact` | rumt/rumt_trymem.c:105-118 | What check_areas prints is exactly the bits below bit 7 that differ from the stream, with their address and the value read. |
| `TryMem.SilentExactly` | rumt/rumt_trymem.c:105-118 | Nothing is printed if and only if all pages agree with the stream in bits 0 to 6. |
| `TryMem.Bit7Missed` | rumt/rumt_trymem.c:109-109 | Turning over bit 7 anywhere in memory that passes goes unseen: the loop stops at bit 6. |
| `TryMem.WrittenHolds` | rumt/rumt_trymem.c:124-145 | After write_areas each page, if no two overlap, holds its own part of the stream. |
| `TryMem.WrittenElsewhere` | rumt/rumt_trymem.c:124-145 | And memory outside the pages is as it was. |
| `TryMem.PagesApart` | rumt/rumt_trymem.c:131-133 | Areas that do not overlap have pages that do not. |
| `TryMem.DisjointExactly` | rumt/rumt_trymem.c:131-133 | And their pages do overlap if they overlap: the one if and only if the other. |
| `TryMem.Tester.WriteThenCheck` | rumt/rumt_trymem.c:84-145 | write_areas and then check_areas with the same seed, on disjoint areas of a device that keeps what is written: nothing is printed, and all pages are compared if and only if the device takes them all. |
| `TryMem.AreasPass` | rumt/rumt_trymem.c:84-145 | write_areas and then check_areas, with the same seed and disjoint areas of memory that keeps what it is given, prints nothing. |
| `TryMem.Tester.WriteAreas` | rumt/rumt_trymem.c:124-145 | The device ends up as the pages written in order make it; the program ends at the first page the device refuses, and only there. |
| `TryMem.Tester.CheckAreas` | rumt/rumt_trymem.c:84-121 | The lines printed are those of the pages in order, up to the first page the device refuses; the device is not changed. |
| `Stats.OctetsRead` | rumt/urumt.c:230-239 | Taking a number apart into four octets, high order first, and putting it together again gives the number. |
| `Stats.IncrementedSlot` | rumt/urumt.c:213-247 | record_incr adds to one slot, as far as it can go up, and changes no other; a file of whole slots stays one, and grows just enough. |
| `Stats.RunSlot` | rumt/urumt.c:213-261 | Over any run of calls a slot holds its first value and all increments, or 2^32 - 1 if that is less. |
| `Stats.RunLength` | rumt/urumt.c:242-246 | The file is as long as the highest slot recorded asks for. |
| `Stats.StatsFile.RecordIncr` | rumt/urumt.c:213-247 | The method makes the file what Incremented says, and fails if and only if the slot is there only in part. |
| `Stats.StatsFile.PrintStats` | rumt/urumt.c:322-339 | The lines are one for each eight octets of the file, each with the two slots of its page. |
| `Stats.FirstRowMissing` | rumt/urumt.c:322-339 | One page checked once, in a new file, has no line at all. |
| `Stats.RowPrinted` | rumt/urumt.c:322-339 | From an empty file, a page has a line if and only if a slot from its second one on was ever recorded, and the line decodes to the sums. So the highest page checked has none while no bad bit was found there. |
| `Urumt.SeedsDiffer` | rumt/urumt.c:146-158 | Two pages, or two passes, never have the same seed. |
| `Urumt.Schedule` | rumt/urumt.c:281-318 | What a fill put into its page is not filled over in the n_pages - 1 fills that follow, and the page comes next after them. |
| `Urumt.RingStart` | rumt/urumt.c:266-275 | The variables start as the schedule says. |
| `Urumt.RingSteps` | rumt/urumt.c:283-318 | ipage, ipass, opage, opass and retard are, after any number of iterations, what the number of iterations says; the page verified is that of n_pages - 1 fills before, with its pass number. |
| `Urumt.FillKeeps` | rumt/urumt.c:280-283 | Filling a page of the ring keeps the others: memory stays faithful. |
| `Urumt.CountIsDistance` | rumt/urumt.c:294-307 | The number of bad bits found in a page is the Hamming distance between what it should be and what it is. |
| `Urumt.BadBitsExact` | rumt/urumt.c:296-307 | What is reported is exactly the bits that differ, with the value they should have. |
| `Urumt.SilentExactly` | rumt/urumt.c:294-307 | Nothing is reported if and only if the page is as it should be. |
| `Urumt.Record` | rumt/urumt.c:308-316 | Too many bad bits end the program before anything is recorded; otherwise bad bits and the check are recorded for a page whose place is known, and nothing for another. |
| `Urumt.RecordedRun` | rumt/urumt.c:249-261 | What is recorded for a page is a run of record_incr, so the sums of Stats.RunSlot apply. |
| `Urumt.Tests.Iterate` | rumt/urumt.c:276-319 | One iteration of do_tests, whatever the memory has become, fills and verifies the pages of the schedule, reports the bad bits of the one verified and records them. |
| `Urumt.ChecksCount` | rumt/urumt.c:283-318 | How often a run verifies a page of physical memory is the number of its iterations whose turn it is, one page after the other from the time all but one are filled. |
| `Urumt.RunStatistics` | rumt/urumt.c:263-320 | In a run of any length, whatever the memory does, each page of physical memory has in the file how often it was verified and the sum of the bad bits found there, as far as the slots go up. |
| `Urumt.NoFalseAlarm` | rumt/urumt.c:276-319 | An iteration from faithful memory finds no bad bit, is not the last, and leaves the memory faithful. |
| `Urumt.RunSilent` | rumt/urumt.c:263-320 | So memory that keeps what it is given never has a bad bit, in a run of any length with any number of pages. |
| `Bgrep.ReverseInPlace` | rumt/bgrep.c:119-128 | The pattern is reversed in place. |
| `Bgrep.MakeLinks` | rumt/bgrep.c:37-60 | look_for_link[i] stands for the longest proper border of the part of the pattern matched before index i, 0 of it if there is none. |
| `Bgrep.FallLongest` | rumt/bgrep.c:144-145 | Falling back along the links skips no prefix that the octet could go on. |
| `Bgrep.NextRight` | rumt/bgrep.c:142-154 | If the state is the longest prefix that ends here, so it is after the next octet unless there is a report; and there is a report if and only if the pattern ends there. |
| `Bgrep.LeftmostFirst` | rumt/bgrep.c:118-162 | Nothing is reported if and only if the pattern is nowhere in the text; and what is reported first is its leftmost occurrence. |
| `Bgrep.AllRight` | rumt/bgrep.c:118-162 | For a pattern whose longest border is not changed by leaving out its last octet, the reports are all the occurrences, in order, for every text. |
| `Bgrep.Missed` | rumt/bgrep.c:147-149 | If the border of the pattern is the longer, the text that goes on from it has an occurrence that is not reported. |
| `Bgrep.FalseAlarm` | rumt/bgrep.c:147-149 | If it is the shorter, the text that goes on from the other has a report where the pattern does not occur. |
| `Bgrep.FalseAlarmAab` | rumt/bgrep.c:147-149 | For the pattern aab in the text aabab the second report, at 2, is false. |
| `Bgrep.MissedAba` | rumt/bgrep.c:147-149 | For the pattern aba in the text ababa the occurrence at 2 is missed. |
| `Bgrep.RightExactly` | rumt/bgrep.c:118-162 | All reports are right for every text if and only if leaving out the last octet of the pattern does not change its longest border. |
| `Bgrep.Prepare` | rumt/bgrep.c:119-135 | From the pattern as given, reversal and links lead to a search that stands at the start. |
| `Bgrep.Search.Step` | rumt/bgrep.c:142-154 | The search does for one octet what the state function says. |
| `Bgrep.Search.Scan` | rumt/bgrep.c:118-162 | The reports are those of all octets read, however they come in chunks. |
| `Iatomic.AlwaysConsistent` | overload-test/alsa-lib-1.0.9/include/iatomic.h:1071-1087 | In every run of single-step increments begin and end differ by the number of sections open, modulo 2^32. |
| `Iatomic.AcceptedExactly` | overload-test/alsa-lib-1.0.9/include/iatomic.h:1094-1104 | A read is accepted if and only if the number of sections that overlapped it is a multiple of 2^32. |
| `Iatomic.UndisturbedSnapshot` | overload-test/alsa-lib-1.0.9/include/iatomic.h:1077-1104 | A read that no section overlapped saw the words of one state. |
| `Iatomic.AcceptedIsSnapshot` | overload-test/alsa-lib-1.0.9/include/iatomic.h:1071-1104 | In every run from the start in which fewer than 2^32 sections overlap a read, snd_atomic_read_ok accepts it if and only if none does, and then all words read are of one state. |
| `Iatomic.TornAccepted` | overload-test/alsa-lib-1.0.9/include/iatomic.h:1100-1104 | The bound is needed: a run in which 2^32 sections overlap a read that is accepted and saw words of two states. |
| `Iatomic.AtomicWrite.Begin` | overload-test/alsa-lib-1.0.9/include/iatomic.h:1077-1081 | The counter steps of the runs are those of the fields. |
| `Iatomic.AtomicWrite.End` | overload-test/alsa-lib-1.0.9/include/iatomic.h:1083-1087 | The same at the end of a section. |
| `Iatomic.AtomicRead.Ok` | overload-test/alsa-lib-1.0.9/include/iatomic.h:1100-1104 | For a caller: true if and only if the sections that overlapped the read are a multiple of 2^32; and if they are fewer, all words read are of the state in which it began. |
| `IatomicPlain.RunSimulates` | overload-test/alsa-lib-1.0.9/include/iatomic.h:1077-1087 | With increments as loads and stores: a run in which no two increments of one counter overlap is a run of single steps, with the same words seen. |
| `IatomicPlain.OneWriterApart` | overload-test/alsa-lib-1.0.9/include/iatomic.h:1077-1087 | One writer keeps its increments apart, whatever a reader does in between. |
| `IatomicPlain.PlainSnapshot` | overload-test/alsa-lib-1.0.9/include/iatomic.h:1071-1104 | In runs whose increments keep apart, a read that fewer than 2^32 sections overlap is accepted if and only if none does, and then saw one state. This is enough, but not needed: only the number of writers decides (IatomicPlain.SafeExactly). |
| `IatomicPlain.SafeExactly` | overload-test/alsa-lib-1.0.9/include/iatomic.h:1071-1104 | In all runs of n writers an accepted read that fewer than 2^32 sections overlap saw one state, if and only if n is at most 1. |
| `IatomicPlain.TwoWritersTorn` | overload-test/alsa-lib-1.0.9/include/iatomic.h:1077-1104 | With two writers whose increments overlap, two sections begin and the counter goes up by one; a read that exactly one section overlaps is then accepted and saw words of two states. |
| `Lists.NextPrev` | overload-test/alsa-lib-1.0.9/include/list.h:17-19 | In a ring next and prev are inverse to each other. |
| `Lists.ListAdd` | overload-test/alsa-lib-1.0.9/include/list.h:57-60 | The new node comes first, behind the head; all others keep their order. |
| `Lists.ListAddTail` | overload-test/alsa-lib-1.0.9/include/list.h:70-73 | The new node comes last. |
| `Lists.ListDel` | overload-test/alsa-lib-1.0.9/include/list.h:94-97 | The ring closes where the node was, and the node keeps its links. |
| `Lists.ListDelInit` | overload-test/alsa-lib-1.0.9/include/list.h:103-107 | As list_del, and the node is an empty list. |
| `Lists.ListEmpty` | overload-test/alsa-lib-1.0.9/include/list.h:113-116 | True if and only if the head is alone. |
| `Lists.ListSplice` | overload-test/alsa-lib-1.0.9/include/list.h:123-137 | The nodes of the one list, in order, come before those of the other, for empty lists too; the head of the first still points at them. |
| `Lists.ForEach` | overload-test/alsa-lib-1.0.9/include/list.h:139-146 | Every node but the head is visited once, in order. |
| `ShmAreas.Registry.Create` | overload-test/alsa-lib-1.0.9/src/shmarea.c:50-60 | A new record is shared once and comes last in the list; without memory NULL is returned and nothing changes. |
| `ShmAreas.Registry.Share` | overload-test/alsa-lib-1.0.9/src/shmarea.c:69-75 | In every state that can be reached share is 1 and the shares less the destroys, and the list is exactly the records of which that is positive; NULL gives NULL. |
| `ShmAreas.Registry.Destroy` | overload-test/alsa-lib-1.0.9/src/shmarea.c:85-95 | Only the last destroy unlinks a record and detaches its memory, once; NULL gives -ENOENT. |
| `ShmAreas.DetachedOnce` | overload-test/alsa-lib-1.0.9/src/shmarea.c:85-95 | In every state that can be reached a record whose memory has been detached was detached once, after as many destroys as there were shares and one more, and is in the list no longer. |
| `ShmAreas.LiveShared` | overload-test/alsa-lib-1.0.9/src/shmarea.c:62-95 | And a record in the list has been destroyed no more often than shared. |
| `Memtester.PatternsDiffer` | memtester/tests.c:59-62 | No two words of a round are given the same pattern, whatever the address the buffer starts at. |
| `Memtester.PatternTurned` | memtester/tests.c:59-62 | Two rounds put an address and all its bits turned over into each word, in turn; and so do two words of a round. |
| `Memtester.TestStuckAddress` | memtester/tests.c:47-81 | test_stuck_address returns 0 if and only if every word of the range has a cell of its own, for any wiring of words to cells; it then leaves the pattern of the last round. |
| `Memtester.CompareRegions` | memtester/tests.c:30-45 | 0 if and only if the regions are equal. |
| `Memtester.AlikeExactly` | memtester/tests.c:197-226 | Two words read alike whatever is written if and only if the same bits are stuck at the same values. |
| `Memtester.TestSolidBits` | memtester/tests.c:197-226 | test_solidbits_comparison returns 0 if and only if every word reads alike in both buffers whatever is written. |
| `Resize.ColumnParity` | webcam/luvcview-20070512/gui.c:66-77 | The column taken has the parity of the number of the output pixel, so U and V alternate over the whole output; it is the scaled column or the one before. |
| `Resize.ScaledNear` | webcam/luvcview-20070512/gui.c:62-65 | The scaled column is x * Owidth / width, rounded down, or one less. |
| `Resize.ColumnNear` | webcam/luvcview-20070512/gui.c:62-79 | The column taken is that one or one of the two before it. |
| `Resize.InOwnRowExactly` | webcam/luvcview-20070512/gui.c:62-80 | All pixels are taken from their own row if and only if the output is no wider than the input and has an even width or a single row. |
| `Resize.InBufferExactly` | webcam/luvcview-20070512/gui.c:62-80 | For any two heights, all pixels are taken from inside the input buffer if and only if the output is no wider than the input and no higher, or is one pixel wide and one row higher than an input with an odd number of rows. |
| `Resize.BeforeTheBuffer` | webcam/luvcview-20070512/gui.c:67-79 | From buttons of 640 pixels for a camera of 800 the second pixel is taken from before the buffer. |
| `Resize.PictureInside` | webcam/luvcview-20070512/gui.c:64-82 | Inside the buffer, what memory holds around it does not show. |
| `Resize.PictureAt` | webcam/luvcview-20070512/gui.c:64-82 | Each output pixel is the one its row and column say. |
| `Resize.PictureScaled` | webcam/luvcview-20070512/gui.c:62-80 | Each output pixel is a pixel of its row of the input, at x * Owidth / width or at most two to the left of it, and of the parity that its number asks for. |
| `Resize.Resize` | webcam/luvcview-20070512/gui.c:49-84 | resize writes that picture and nothing else, whatever memory holds around its input; -1 for an empty one. |

## Left out

- BitReaders.BitReader.Fill: the callback in->func that could extend the input; the input is a whole buffer that ends in a marker.
- Coefficients.DecRec: for bits that begin with no code it states only the marker M_BADHUFF and the value 0.
- Coefficients.LongCode: the window is a natural number below 2^32; the source's int of 32 bits is read as its bits.
- DecodingTables.DecTable.MakeHuff: tables whose codes exceed 2^length; while decoding, the tables are read as values, so a change of the arrays in the middle of a scan is not modelled.
- Mcus.DecodeMcus: coefficient streams that no encoder produces, and the use of max for chroma in MCUs of 4 and 3 blocks.
- InverseDct.InverseError: the cosines are taken to ten decimals.
- Idct.Idct: overflow of 32-bit integers; products and sums are unbounded and shifts are floor divisions.
- Frames.DecodeScan: parsing of headers and tables, and the converters for 4:2:2, 4:4:4 and grey images.
- Md5Streams.Md5Stream.Seed: seeding after a fill without a new md5stream_init, which no caller does.
- TryMem.Tester.WriteAreas: a device takes a page or refuses it, so a write cut short is not modelled; addresses do not wrap, as on a device shorter than 2^32 octets.
- Stats.StatsFile.RecordIncr: the wrap-around of the offset of slots from 2^30 on, and failures of the file other than a slot in part.
- Urumt.Tests.Iterate: delays, messages other than bad bits, and look_for_pages; a page is a multiple of 16 octets, and words are stored low order first.
- Bgrep.Search.Step: the count of octets does not wrap at 2^64; parsing of hexadecimal arguments, and the empty pattern, for which the source reads outside its buffer.
- Iatomic.AcceptedIsSnapshot: memory is seen in order, which is what the barriers are for; snd_atomic_read_wait.
- ShmAreas.Registry.Destroy: the destructor at exit, overflow of the counter, and use of a record after it was freed.
- Lists.ForEach: list_for_each_safe, and list_entry, which is pointer arithmetic.
- Memtester.TestStuckAddress: progress output; the range does not reach beyond address 2^32.
- Resize.Resize: overflow of Owidth << 16, from widths of 32768 on.
- The device code (V4L2, framebuffer, keyboard, ports, I2C, sockets), the other patterns of memtester, and the tables kept as data: no algorithm, or only easier members of the same kind.
