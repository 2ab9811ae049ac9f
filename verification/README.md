# bzip2 1.0.5 and zlib checksums, verified

A Dafny model of the bzip2 codec in `dep/bzip2` and of the checksum code in `dep/zlib`, with proofs that

* **compressing and decompressing is the identity**: for every sequence of `BZ2_bzCompress` calls and every sequence
  of `BZ2_bzDecompress` calls, whatever input and room for output each call offers, in FAST and in SMALL mode, the
  decompressor returns exactly the bytes the compressor consumed and reads exactly the bytes it delivered
  (`RoundTrip.RoundTrip`); asking to finish with any room for output reaches the end of the stream, and so does
  decompressing with some input and some room in each call, so for every input the whole round trip terminates and is
  the identity (`RoundTrip.Identity`); asking to flush with any room completes the flush (`RoundTrip.FlushAll`), and
  running with any room takes all the data (`RoundTrip.RunAll`);
* **wrong checksums are found**: on a stream in which any checksums may be wrong, over every sequence of calls, the end is
  reported only if all of them are right, and BZ_DATA_ERROR only if one is wrong, with the bytes up to the end of its
  block out (`RoundTrip.Inspect`);
* the stream has the form that the format asks for: the bytes it starts with, blocks that are full unless a flush or the
  end cut them short, and in every block the tables that four rounds of choosing and fitting lead to
  (`RoundTrip.CompressParts`, `TableChoice.ChooseCoding`);
* the decompressor can be stopped at every bit: its parser is the resumable machine of the source, a label with the
  saved locals, advanced by one GET_BITS at a time, and for every bit string, valid or not, that announces no more
  selectors than the source has room for, stopping and going on gives what one run gives (`FrontReader.RunResumes`,
  `FrontReader.FrontRun`, `BlockReader.CodeKeeps`);
* the Huffman lengths are optimal: whatever prefix code is taken, it codes the weights that were used in no less, and
  these are the frequencies themselves, zero counting as one, unless an optimal code for them is longer than the limit
  (`HuffmanOptimal.DepthsOptimal`, `HuffmanLengths.MakeCodeLengths`);
* every stage of the codec meets its own specification, imperative code included: the exponential radix sort over
  cyclic rotations, the two-ended bucket scan of the main sort, the inverse Burrows-Wheeler walk in both table
  layouts, move-to-front with zero-run coding and the decoder's two-level list, length-limited Huffman codes,
  canonical code tables, the bit buffers, the table printer and parser, run-length coding, and the two streaming
  state machines;
* zlib's fast CRC-32 loops equal the bit-serial CRC of section 8 of RFC 1952, Adler-32 with deferred reduction equals
  the sums of section 2.2 of RFC 1950, and both `combine` functions compute the checksum of a concatenation.

`dafny verify dfyconfig.toml` checks everything.

## How the model is laid out

| files | part of the program |
|---|---|
| `Rotations`, `InverseBwt`, `OriginPointer` | cyclic rotations, sorted orders, the last column, the walk that undoes it |
| `FallbackQSort`, `FallbackSort`, `BucketScan` | `fallbackQSort3`, `fallbackSort`, Step 2 of `mainSort` |
| `MoveToFront`, `MtfEncoder`, `MtfDecoder`, `ColumnDecoder` | move-to-front and zero runs, both sides |
| `HuffmanHeap`, `HuffmanTree`, `HuffmanOptimal`, `HuffmanLengths`, `HuffmanCodes` | code lengths, codes, decoding tables |
| `Bits`, `BitStream`, `BlockFormat`, `BlockWriter`, `FrontReader`, `BlockReader`, `BlockParser`, `TableChoice`, `BlockSize` | bit strings, the bit buffers, the block format and both of its ends |
| `BlockCodec`, `RunLength`, `RunBuffer`, `BlockCrc`, `BlockSums`, `StreamFormat`, `StreamBytes`, `Packer`, `Compressor` | one block, run-length coding, the checksums of blocks and stream, `BZ2_compressBlock`, `BZ2_bzCompress` |
| `Expander`, `FastDecoder`, `SmallDecoder`, `Unpacker`, `Decompressor`, `RoundTrip` | the output side, `BZ2_bzDecompress`, the round trip |
| `Iteration`, `Crc32`, `CrcTables`, `Adler32` | the zlib checksums |

Code that works in place is modelled in place: arrays for `fmap`, `eclass`, `tt`, `ll16`/`ll4`, `mtfa`, `heap`,
objects for the compressor, the decompressor, the bit buffers and the two-level list. Each such method is proved
against a function or predicate of values, and the properties are proved of those.

Some invariants are written `forall i :: Opened(i) ==> ...`. The quantifier changes nothing logically; it keeps a proof
that only passes an object along from looking inside its invariant. For the same reason what is known to lie ahead in
the input of a decompressor is a value of a subset type (`Decompressor.Prospect`, `BlockParser.Sight`).

Two things are parameters of the model. The CRC steps of bzip2 are an arbitrary byte fold and an arbitrary way of
folding block checksums into the stream checksum (`StreamFormat.Sums`), and all results hold for any choice; what the
source uses is `BlockSums.BZIP2`. Addresses and byte order are arguments of the zlib loops.

The loops of `BZ2_decompress` that wait for input in the middle (decompress.c:197-373, 562-586) are modelled as the
switch statement makes them behave: `FrontReader.FrontAt`, `BlockReader.CodeAt`, `Decompressor.At` and
`ColumnDecoder.ColumnBuilder` hold the label and the saved locals, and each step takes the value of one field.

A comment (dep/bzip2/blocksort.c:1059-1061) says that the stream does not depend on which sorter ran. The specification
both sorters have to meet, a sorted order of the rotations, does not settle that: `OriginPointer.AmbiguousExactlyWhen`
shows that it determines the row number sent with a block exactly when no other rotation spells the block. It always
determines the last column and the decoded block.

FAST and SMALL write the same bytes for every column, but not always the same report: for a block that stops right
after four equal bytes, FAST reports corruption in the call that has room for the last byte, SMALL in the first call
that has room beyond it (`Unpacker.ExpandBoth`, `Unpacker.FourEqualBytes`). The compressor never makes such a block.

## Model

| member | source | states |
|---|---|---|
| `RoundTrip.RoundTrip` | dep/bzip2/bzlib.c:407-464 | whatever calls compress the data and whatever calls, each with any part of the stream and any room, decompress it in either mode, the output is a prefix of the input; when the end is reported it is all of it and exactly the stream was read; the end is reported if enough calls offer input and room |
| `RoundTrip.Identity` | dep/bzip2/bzlib.c:808-858 | for all data, any positive sizes of the compressor's output buffers, either mode and any schedule of decompression calls that each offer some input and some room, the data comes back and what lies behind the stream is left unread |
| `RoundTrip.FinishAll` | dep/bzip2/bzlib.c:360-403 | repeated BZ_FINISH calls, each with any positive amount of output room, terminate with BZ_STREAM_END after all input was consumed |
| `RoundTrip.FlushAll` | dep/bzip2/bzlib.c:429-442 | repeated BZ_FLUSH calls, each with any positive amount of output room, terminate with BZ_RUN_OK: all input is in finished blocks, all but at most 32 bits of them is delivered, and the compressor is ready to go on |
| `RoundTrip.RunAll` | dep/bzip2/bzlib.c:422-426 | repeated BZ_RUN calls, each with any positive amount of output room, take all the data and close no block but full ones |
| `RoundTrip.CompressParts` | dep/bzip2/bzlib.c:407-464 | data handed over in any parts by BZ_RUN calls and ended by BZ_FINISH, with any positive rooms, becomes one whole stream; every block but the last has at least 100000 * size - 19 and at most four more bytes; every block is coded with the tables and selectors that the encoder chooses; no data makes no block; the stream begins as `StreamBytes.StreamBegins` says |
| `RoundTrip.CompressAll` | dep/bzip2/bzlib.c:407-464 | any call sequence that reaches BZ_STREAM_END has delivered one whole stream whose blocks stand for exactly the bytes consumed; unless one of the calls was BZ_FLUSH, all blocks but the last are full |
| `RoundTrip.DecompressAll` | dep/bzip2/bzlib.c:808-858 | on a whole stream followed by anything, every sequence of calls with any parts of the input and any room gets the data in order; the end is reported with all data out and exactly the stream read, at the latest after as many productive calls as there are bytes to read and write |
| `RoundTrip.Inspect` | dep/bzip2/bzlib.c:808-858 | on a stream whose block and stream checksums may be wrong, every sequence of calls gets the data in order up to the end of the first block with a wrong checksum; BZ_STREAM_END is returned only if every checksum is right, with all data out and exactly the stream read, BZ_DATA_ERROR only if one is wrong, with all that precedes it out, and one of the two after enough productive calls |
| `Packer.WholeExactly` | dep/bzip2/bzlib.c:819-853 | a stream is one of the compressor's form exactly when it has that form up to its checksums and these are right |
| `RoundTrip.DecompressToEnd` | dep/bzip2/bzlib.c:808-858 | calls that each offer some input and some room reach BZ_STREAM_END |
| `InverseBwt.InverseTransform` | dep/bzip2/compress.c:163-167 | for every nonempty block, periodic ones included, and every sorted order of its rotations, walking the inverse links from the block's row reads the block |
| `InverseBwt.LastColumnUnique` | dep/bzip2/blocksort.c:1059-1061 | every sorted order of the rotations gives the same last column |
| `InverseBwt.LinkRotates` | dep/bzip2/decompress.c:539-544 | a link leads to a row that spells the same rotation one character further on, also among tied rows |
| `OriginPointer.AmbiguousExactlyWhen` | dep/bzip2/blocksort.c:1059-1061 | two sorted orders can put the block in different rows if and only if another rotation spells the block |
| `OriginPointer.OriginUnique` | dep/bzip2/blocksort.c:1083-1088 | without such a repetition the row number is the same for every sorted order |
| `OriginPointer.TwoEqualBytes` | dep/bzip2/blocksort.c:1059-1061 | the block of two equal bytes has two sorted orders with different rows |
| `FallbackQSort.SimpleSort` | dep/bzip2/blocksort.c:30-59 | the insertion sort with its stride-four pre-pass permutes only its stretch and leaves it nondecreasing by class |
| `FallbackQSort.Partition` | dep/bzip2/blocksort.c:132-162 | the three-way partition keeps equals at both ends and separates the rest around the median |
| `FallbackQSort.Divide` | dep/bzip2/blocksort.c:126-170 | one round either finds the stretch constant or splits it into smaller, equal and larger parts |
| `FallbackQSort.SplitDepth` | dep/bzip2/blocksort.c:172-178 | with the larger part pushed first, sizes on the stack halve, so a stretch of up to 900000 never needs more than 18 entries |
| `FallbackQSort.QSort3` | dep/bzip2/blocksort.c:92-180 | fmap[loSt..hiSt] is permuted within itself and sorted by class, nothing else changes, and the stack bound of assertion 1004 holds |
| `FallbackSort.Distribute` | dep/bzip2/blocksort.c:236-241 | the radix pass puts the positions in order of their first byte |
| `FallbackSort.SkipBits` | dep/bzip2/blocksort.c:278-290 | skipping whole words of header bits finds the first bit of the other kind |
| `FallbackSort.ComputeClasses` | dep/bzip2/blocksort.c:266-271 | each position gets the start of the bucket of the rotation H characters later |
| `FallbackSort.KeyDecides` | dep/bzip2/blocksort.c:266-306 | within a bucket equal on H characters, comparing classes is comparing 2H characters |
| `FallbackSort.RefinePass` | dep/bzip2/blocksort.c:273-306 | one pass turns buckets that are the classes equal on H characters, in order, into those equal on 2H characters |
| `FallbackSort.RefineAll` | dep/bzip2/blocksort.c:259-313 | the doubling loop ends with all rotations in order |
| `FallbackSort.Reconstruct` | dep/bzip2/blocksort.c:315-328 | the block bytes destroyed by the classes are rebuilt exactly from the counts and the order |
| `FallbackSort.Sort` | dep/bzip2/blocksort.c:211-329 | for every block of 1 to 900000 bytes fmap becomes a permutation of the rotations in sorted order and the block is unchanged |
| `BucketScan.SynthesiseBuckets` | dep/bzip2/blocksort.c:911-946 | with the small buckets [ss,j], j != ss, sorted, the two scans put every [t,ss] with t not done, [ss,ss] included, in order; the cursors meet unless the block is one repeated byte, where the other arm of assertion 1007 holds; nothing else changes |
| `BucketScan.Scan` | dep/bzip2/blocksort.c:919-935 | one scan reads a whole side of the big bucket, including entries it has only just written, and never overwrites what it still has to read |
| `BucketScan.PredOrder` | dep/bzip2/blocksort.c:919-935 | rotations with equal first characters compare like their successors |
| `BucketScan.LowFirst` | dep/bzip2/blocksort.c:919-935 | rotations whose run of ss ends below ss come strictly before those whose run ends above |
| `BucketScan.AllFilled` | dep/bzip2/blocksort.c:937-944 | unless the block is one repeated byte, the two scans together fill every bucket exactly |
| `BucketScan.OneByteBlock` | dep/bzip2/blocksort.c:937-944 | in a block of one repeated byte [ss,ss] is the whole block and nothing is scanned |
| `BucketScan.SortedGivesBase` | dep/bzip2/blocksort.c:911-918 | the stretches of any sorted order on either side of [ss,ss] are what Step 2 asks for: the rotations with that second character, all of them, in order |
| `FastDecoder.BuildCftab` | dep/bzip2/decompress.c:487-490 | cftab[c] is the number of column bytes below c |
| `FastDecoder.ComputeLinks` | dep/bzip2/decompress.c:539-544 | every cell keeps its byte and holds above it the link of the stable-sort inverse |
| `FastDecoder.NextRun` | dep/bzip2/bzlib.c:636-662 | the unrolled run detection finds the next run of every walked block, also where the block stops right after four equal bytes |
| `FastDecoder.FastState.Output` | dep/bzip2/bzlib.c:589-681 | for every block, each call writes the next bytes of what it unrolls to, as many as fit, updates the checksum by exactly them and resumes at any byte; corruption is reported exactly when the block stops right after four equal bytes and the room reaches its end, and that call saves nothing |
| `FastDecoder.StartFast` | dep/bzip2/decompress.c:487-556 | for every column and row, what the FAST path will write is what the walked block unrolls to |
| `SmallDecoder.SetLL` | dep/bzip2/bzlib_private.h:458-473 | writing one 20-bit cell changes that cell only, although two cells share a nibble byte |
| `SmallDecoder.ComputeT` | dep/bzip2/decompress.c:506-514 | the packed cells hold T, the stable-sort rank of every column position |
| `SmallDecoder.ReverseCycle` | dep/bzip2/decompress.c:516-525 | the in-place pointer reversal terminates and inverts T along the cycle through origPtr |
| `SmallDecoder.IndexIntoF` | dep/bzip2/bzlib.c:687-698 | the binary search finds the byte whose stretch of sorted rows contains the position |
| `SmallDecoder.SmallState.Output` | dep/bzip2/bzlib.c:759-803 | as for the FAST expander, but corruption is reported exactly when there is room beyond the end |
| `SmallDecoder.StartSmall` | dep/bzip2/decompress.c:504-535 | for every column and every origPtr the table construction terminates and the SMALL path will write the same bytes as the FAST path |
| `Unpacker.ExpandBoth` | dep/bzip2/bzlib.c:819-826 | for every column, every origPtr and every sequence of avail_out values FAST and SMALL write the same bytes; corruption is reported only for a block that stops right after four equal bytes, and the two reports differ exactly when the room ends with its last byte |
| `Unpacker.FourEqualBytes` | dep/bzip2/bzlib.c:763-780 | a block of four equal bytes stops there and unrolls to its byte plus four copies, so room for exactly those makes the reports differ |
| `RunLength.ExpandInvertsEncode` | dep/bzip2/bzlib.c:215-247 | expanding what add_pair_to_block wrote for separated runs gives the bytes of the runs |
| `Expander.ScriptFrom` | dep/bzip2/bzlib.c:589-681 | every block splits into runs that spell what it unrolls to, and the last run overshoots exactly when the block is not complete |
| `RunLength.UnrollComplete` | dep/bzip2/bzlib.c:589-681 | what a complete block unrolls to is its expansion |
| `MoveToFront.RunRoundTrip` | dep/bzip2/compress.c:174-188 | the RUNA/RUNB digits add up to the run length they stand for |
| `MoveToFront.DecodeInvertsEncode` | dep/bzip2/decompress.c:375-479 | decoding gives back every column over the alphabet, from any list whose front is the encoder's, with any run pending |
| `MtfEncoder.MakeMapsE` | dep/bzip2/compress.c:105-115 | bytes in use are numbered densely in order |
| `MtfEncoder.MakeMapsD` | dep/bzip2/decompress.c:26-36 | the dense number of each byte in use leads back to it |
| `MtfEncoder.Promote` | dep/bzip2/compress.c:189-205 | the shifting search finds the symbol's rank and moves it to the front |
| `MtfEncoder.GenerateMTFValues` | dep/bzip2/compress.c:119-231 | although 16-bit values overwrite the 32-bit pointers in the same buffer, exactly the specified values for the last column come out |
| `MtfDecoder.TwoLevelList.Take` | dep/bzip2/decompress.c:416-468 | for every index, the 16 x 16 list returns the entry of the flat list and becomes its move-to-front, compaction included |
| `MtfDecoder.HandDown` | dep/bzip2/decompress.c:448-453 | passing the last entry of one line to the next loses nothing, also when the lines touch |
| `MtfDecoder.PackStep` | dep/bzip2/decompress.c:456-465 | the compaction copy never overwrites an entry it still has to read |
| `MtfDecoder.Compact` | dep/bzip2/decompress.c:456-465 | compaction leaves the abstract list unchanged and all lines at the top of the arena |
| `ColumnDecoder.RunValueSnoc` | dep/bzip2/decompress.c:381-391 | a further RUNA/RUNB digit counts by the doubled weight reached so far |
| `ColumnDecoder.TakeKeeps` | dep/bzip2/decompress.c:375-479 | taking one value changes nothing about the column that all the values complete, also in the middle of a run |
| `ColumnDecoder.TakeAllDecodes` | dep/bzip2/decompress.c:375-479 | value by value up to the end mark, the column is the one that all the values decode to |
| `ColumnDecoder.ColumnBuilder.Take` | dep/bzip2/decompress.c:375-479 | one value updates column, counts, two-level list and pending run as specified, and fails exactly when the column gets longer than the block may be |
| `ColumnDecoder.RunFits` | dep/bzip2/decompress.c:375-412 | while the values can still complete a column, the run read so far and the weight reached are within the length of that column, so a column of a block keeps `es` and `N` far below 32 bits |
| `BlockParser.Parser.Accumulates` | dep/bzip2/decompress.c:375-412 | in every state of reading an encoded block a pending run has `es` below and `N` at most one above the greatest size of the block |
| `HuffmanHeap.UpHeap` | dep/bzip2/huffman.c:33-42 | restores the heap after an insertion, keeping the same nodes |
| `HuffmanHeap.DownHeap` | dep/bzip2/huffman.c:44-59 | restores the heap after a removal, keeping the same nodes |
| `HuffmanTree.MergeConserves` | dep/bzip2/huffman.c:29-31 | a merge keeps the total weight of the roots |
| `HuffmanTree.MergeBalanced` | dep/bzip2/huffman.c:100-110 | merging the two lightest roots keeps the Fibonacci bound between height and weight |
| `HuffmanTree.KraftExact` | dep/bzip2/huffman.c:114-121 | the depths of the leaves of one tree have Kraft sum exactly one |
| `HuffmanOptimal.Exchange` | dep/bzip2/huffman.c:100-110 | the lengths of any prefix code can be changed, at no cost, so that the two lightest symbols are the longest ones and equally long |
| `HuffmanOptimal.LowerBound` | dep/bzip2/huffman.c:100-110 | at every stage of the merging no prefix code for the nodes then without a parent costs less than the weights of the merges still to come |
| `HuffmanOptimal.DepthsOptimal` | dep/bzip2/huffman.c:84-121 | the depths in a tree made by always merging the two lightest roots are the lengths of an optimal prefix code: no lengths that satisfy Kraft's inequality have a smaller weighted sum |
| `HuffmanLengths.BuildTree` | dep/bzip2/huffman.c:84-112 | the heap loop builds one tree over all leaves with their weights, at most as high as the weights allow, each node made of the two lightest roots of its time |
| `HuffmanLengths.TooLongHasHeavyLeaf` | dep/bzip2/huffman.c:123-146 | a code longer than the limit implies a weight large enough to shrink |
| `HuffmanLengths.MakeCodeLengths` | dep/bzip2/huffman.c:63-148 | terminates for every frequency vector with total at most 900000; lengths lie between 1 and the limit and have Kraft sum exactly one; they are optimal for the weights after the rounds of halving, and there was a round only where an optimal code was too long |
| `HuffmanLengths.WeightsScale` | dep/bzip2/huffman.c:142-146 | after r rounds a weight is the frequency, zero counting as one, less two, divided by 2^r and rounded down, plus two |
| `HuffmanLengths.WeightsOrder` | dep/bzip2/huffman.c:142-146 | rounds keep the order of the weights |
| `HuffmanCodes.CodeFits` | dep/bzip2/huffman.c:152-166 | with a Kraft sum of at most one every canonical code fits its length |
| `HuffmanCodes.PrefixFree` | dep/bzip2/huffman.c:152-166 | no canonical code is a prefix of another |
| `HuffmanCodes.AssignCodes` | dep/bzip2/huffman.c:152-166 | the loop assigns the canonical codes |
| `HuffmanCodes.CreateDecodeTables` | dep/bzip2/huffman.c:170-200 | limit, base and perm are those of the canonical code |
| `HuffmanCodes.DecodeInvertsCode` | dep/bzip2/decompress.c:74-102 | each code followed by any bits decodes to its own symbol and takes exactly its length |
| `BitStream.BitWriter.W` | dep/bzip2/compress.c:58-78 | emitted bytes followed by the live bits of bsBuff are all fields written so far, this one appended |
| `BitStream.BitWriter.Finish` | dep/bzip2/compress.c:45-54 | all bits come out, padded with fewer than eight zero bits |
| `BitStream.BitReader.GetBits` | dep/bzip2/decompress.c:43-65 | the next n bits in order; fails exactly when buffer and input hold fewer, then keeps all of them; reads no input byte it does not need |
| `BitStream.BitReader.Feed` | dep/bzip2/decompress.c:43-65 | a call's input comes behind the bits left by the calls before |
| `BitStream.GetAcross` | dep/bzip2/decompress.c:43-65 | a field cut in two by the end of the input is read, when asked for again with more input, as the field of the joined input |
| `BitStream.FieldMore` | dep/bzip2/decompress.c:43-65 | a field that is there stays the same when more bits arrive |
| `BitStream.FieldOf` | dep/bzip2/decompress.c:43-65 | reading a field of the written width gives the written value |
| `FrontReader.NumberOfField` | dep/bzip2/decompress.c:253-259 | reading byte by byte gives the same number as one wide field |
| `BlockFormat.MapRoundTrip` | dep/bzip2/compress.c:494-515 | the two-level bitmap parses back to the same alphabet |
| `BlockFormat.SelectorsRoundTrip` | dep/bzip2/compress.c:461-478 | undoing move-to-front gives back the selectors |
| `BlockFormat.SelectorBitsRoundTrip` | dep/bzip2/compress.c:517-526 | table count, selector count and unary selectors parse back |
| `BlockFormat.TablesRoundTrip` | dep/bzip2/compress.c:528-542 | delta-coded lengths parse back |
| `BlockFormat.FrontRoundTrip` | dep/bzip2/decompress.c:241-329 | everything before the values parses back, with whatever bits follow |
| `BlockFormat.DataRoundTrip` | dep/bzip2/compress.c:544-594 | the values, coded in groups of fifty by their selectors' tables, parse back up to the end mark |
| `BlockWriter.PutMap` | dep/bzip2/compress.c:494-515 | writes exactly the bitmap |
| `BlockWriter.MtfSelectors` | dep/bzip2/compress.c:461-478 | the in-place list gives the move-to-front positions of the selectors |
| `BlockWriter.PutSelectors` | dep/bzip2/compress.c:517-526 | writes exactly the selector part |
| `BlockWriter.PutTables` | dep/bzip2/compress.c:528-542 | writes exactly the length tables |
| `BlockWriter.PutData` | dep/bzip2/compress.c:544-594 | writes exactly the coded values and uses one selector per group |
| `FrontReader.FrontRun` | dep/bzip2/decompress.c:241-329 | for every bit string, valid or not, the label machine from the block checksum to the last code length accepts exactly what the parser accepts, with the same result and the same bits left over; for the source this holds where at most 18002 selectors are announced |
| `FrontReader.RunResumes` | dep/bzip2/decompress.c:590-620 | for every bit string and every cut, stopping for lack of bits and going on with the saved label and locals ends as one run does |
| `FrontReader.RunOutcome` | dep/bzip2/decompress.c:590-620 | running as far as the bits go and saving changes nothing about what the parse will give |
| `FrontReader.RangesRun` | dep/bzip2/decompress.c:266-285 | from any point of the mapping table the machine gives what the bitmap parser gives |
| `FrontReader.SelectorsRun` | dep/bzip2/decompress.c:286-314 | the same for the selectors, with bad counts and overlong unary numbers rejected, up to the 18002 selectors that `selectorMtf` holds |
| `FrontReader.AnnouncedCount` | dep/bzip2/decompress.c:291-314 | whatever bits come, a front that is accepted has exactly as many selectors as were announced |
| `FrontReader.TablesRun` | dep/bzip2/decompress.c:316-329 | the same for the code lengths, with values outside 1..20 rejected |
| `BlockReader.UndoMtf` | dep/bzip2/decompress.c:302-314 | the in-place list undoes the move-to-front of the selectors |
| `BlockReader.CodeKeeps` | dep/bzip2/decompress.c:88-102 | for every bit string, one field read in the middle of a code changes nothing about the symbol it will give |
| `BlockReader.ValueStep` | dep/bzip2/decompress.c:74-102 | with a parse of values ahead, the next field is there and either the code goes on or its symbol is the next value, the table changing every fifty |
| `BlockReader.TableDecodes` | dep/bzip2/decompress.c:331-347 | a table built for lengths with Kraft sum at most one undoes their code |
| `TableChoice.PackedCost` | dep/bzip2/compress.c:357-385 | two 16-bit sums in one word never carry into each other |
| `TableChoice.ChooseTable` | dep/bzip2/compress.c:351-405 | both cost paths choose the first of the cheapest tables |
| `TableChoice.SelectTables` | dep/bzip2/compress.c:341-434 | every group of fifty gets a cheapest table, and rfreq counts the symbols each table then codes |
| `TableChoice.FreqRowCounts` | dep/bzip2/compress.c:406-434 | what is counted for a table and a symbol is the number of places where the symbol stands in a group of fifty that has the table |
| `TableChoice.MakeTables` | dep/bzip2/compress.c:444-452 | each table is an optimal code for the frequencies tallied for it, halved as often as an optimal code was longer than 17 bits |
| `TableChoice.InitialTables` | dep/bzip2/compress.c:279-317 | the symbols are cut into consecutive ranges, each the shortest that reaches an equal share of the occurrences left, every second inner one a symbol shorter; each table favours its range, and no symbol is favoured twice |
| `TableChoice.CutUnique` | dep/bzip2/compress.c:289-303 | the end of such a range is determined |
| `TableChoice.ChooseCoding` | dep/bzip2/compress.c:271-458 | two to six tables by the number of values, cut from the frequencies of the symbols; then four iterations in each of which every group takes the first of its cheapest tables and each table becomes an optimal code for what it codes, halved while one longer than 17 bits; the tables are complete prefix codes and there is one selector per group, at most 18002 |
| `BlockCodec.EncodeBlock` | dep/bzip2/compress.c:602-652 | what is written for a block is an encoding of it, with the bytes in use marked as given and the coding that `ChooseCoding` describes |
| `BlockParser.Parser.Accept` | dep/bzip2/decompress.c:241-485 | from the bits of an encoded block and anything after them, one field after another is taken without rejection, from any label |
| `BlockParser.Parser.HasField` | dep/bzip2/decompress.c:43-65 | until the block is read the field waited for lies ahead, before the end of the block |
| `BlockParser.Parser.SelectorsFit` | dep/bzip2/decompress.c:293-305 | while the selectors of an encoded block are read, the place written next lies within `selectorMtf` |
| `BlockParser.Parser.Complete` | dep/bzip2/decompress.c:481-485 | when it is read, the last column, its counts and the start row are those of the block, and the input stands right behind it |
| `BlockCodec.ValuesDecode` | dep/bzip2/decompress.c:349-479 | the values of a column decode from the identity list of 256 entries back to the column |
| `BlockSize.EncodedBlockFits` | dep/bzip2/compress.c:619 | any encoding of a block of at most 100000*size - 10 bytes leaves room behind the block in arr2 for header, trailer and an unfinished word |
| `StreamBytes.StreamBegins` | dep/bzip2/compress.c:619-661 | every stream starts with 0x42 0x5a 0x68 and 0x30 plus the block size; then come 0x31 0x41 0x59 0x26 0x53 0x59 and, most significant byte first, the complement of the register over the bytes of the first block started at 0xffffffff; without a block the stream is fourteen bytes, ending in 0x17 0x72 0x45 0x38 0x50 0x90 and four zeros |
| `StreamBytes.FrontLayout` | dep/bzip2/compress.c:631-651 | a block's front is 32 bits of checksum, one bit for randomisation, 24 bits of row number, the mapping table, the coding |
| `StreamBytes.CodingLayout` | dep/bzip2/compress.c:513-527 | the coding is three bits for the number of tables, fifteen for that of selectors, the selectors in unary, the tables |
| `StreamBytes.TableLayout` | dep/bzip2/compress.c:530-546 | a table starts with five bits for its first length |
| `BlockSums.CheckDigits` | dep/bzip2/bzlib_private.h:157-172 | the block checksum of the digits one to nine is 0xfc891918 |
| `BlockSums.ByTableEntry` | dep/bzip2/bzlib_private.h:167-172 | a step by the table entry is eight shifts of the register |
| `Compressor.EState.Bounded` | dep/bzip2/compress.c:619 | over all reachable states the block has at most nblockMAX + 9 bytes and the bytes in zbits fit behind it in arr2 |
| `Compressor.EState.Blocks` | dep/bzip2/bzlib.c:381-394 | over all reachable states every block has 100000 * size - 19 to 100000 * size - 15 bytes unless a flush closed it or it is the last of a stream that has ended, and every block is coded as the encoder codes it |
| `RunBuffer.Buffer.Add` | dep/bzip2/bzlib.c:260-284 | one input byte more is held; block, byte set and checksum stay those of the runs; afterwards a run is pending |
| `RunBuffer.Buffer.AddPair` | dep/bzip2/bzlib.c:215-247 | the pending run goes into the block, which grows by at most five bytes |
| `RunBuffer.Buffer.Flush` | dep/bzip2/bzlib.c:251-256 | nothing is pending afterwards and nothing is lost |
| `Packer.Output.CompressBlock` | dep/bzip2/compress.c:602-667 | header before the first block, the block's encoding if it is not empty, the trailer with the combined checksum exactly when asked for; all bytes written fit behind the block |
| `Compressor.CopyInput` | dep/bzip2/bzlib.c:288-329 | the bytes taken enter the run buffer in order; a block that fills up leaves a run pending and is at most four bytes over |
| `Compressor.CopyOutput` | dep/bzip2/bzlib.c:333-356 | delivers the next output bytes until the buffer or the block is used up |
| `Compressor.EState.CloseLast` | dep/bzip2/bzlib.c:382-388 | the last block takes the pending run and is at most nine bytes over the limit; its output fits behind it; the trailer is written exactly when finishing |
| `Compressor.EState.HandleCompress` | dep/bzip2/bzlib.c:360-403 | terminates; input consumed is always finished blocks plus current block plus pending run; output is the stream in order; it stops only for want of input or room, or at the end; it closes a block early only when all input of a flush or of the stream is in |
| `Compressor.EState.Compress` | dep/bzip2/bzlib.c:407-464 | over every call sequence: the code returned and the next mode are those of the switch, by the mode, the action, whether avail_in is what was announced, whether bytes moved and whether all is delivered; a refused call changes nothing; BZ_RUN takes all input or fills the room; BZ_STREAM_END comes with the one trailer written and all output delivered; BZ_RUN_OK after a flush means everything is in finished blocks; BZ_FLUSH_OK and BZ_FINISH_OK only when the output buffer is full; every call with room for output is done or comes strictly nearer to it |
| `Unpacker.StartOutput` | dep/bzip2/decompress.c:487-556 | in either mode the output will be the expansion of the encoded block |
| `Unpacker.BlockOutput.Output` | dep/bzip2/bzlib.c:819-826 | either expander writes the next bytes and recognises the end of the block |
| `Decompressor.SignatureExactly` | dep/bzip2/decompress.c:197-210 | four bytes are accepted as the signature if and only if they are 0x42 0x5a 0x68 and a digit from 0x31 to 0x39; otherwise BZ_DATA_ERROR_MAGIC |
| `Decompressor.MarkExactly` | dep/bzip2/decompress.c:222-235 | six bytes are accepted as the mark of a block or of the end if and only if they are it; otherwise BZ_DATA_ERROR |
| `Decompressor.ByteLeads` | dep/bzip2/decompress.c:197-235 | outside of blocks the next byte is there and leads on: through the file magic, a block header or the trailer, never to an error |
| `Decompressor.DState.Read` | dep/bzip2/decompress.c:195-621 | field after field until a block can be written, the stream ends, with the checksum stored at its end taken in, or the input is used up while the stream has more |
| `Decompressor.DState.WriteBlock` | dep/bzip2/bzlib.c:810-843 | part of the block is written; at its end BZ_DATA_ERROR is returned exactly when the stored checksum is not that of its bytes |
| `Decompressor.DState.Decompress` | dep/bzip2/bzlib.c:808-858 | over every sequence of calls, each with any next part of the input and any room, on a stream whose checksums may be wrong: the data comes out in order; BZ_OK means the room is filled, or the input used up and more of the stream to come; BZ_STREAM_END comes exactly when all data is out, every checksum was right and exactly the bytes of the stream are read; BZ_DATA_ERROR comes exactly for a wrong checksum, with the bytes up to the end of its block out |
| `Crc32.ByteAtOnce` | dep/zlib/crc32.c:82-107 | adding the bits of a byte one at a time is adding them at once and shifting eight zeros |
| `Crc32.ByTable` | dep/zlib/crc32.c:217-218 | eight shifts are one table lookup and a byte shift |
| `Crc32.Times` | dep/zlib/crc32.c:344-358 | the matrix product applies the operator the matrix stands for |
| `Crc32.Square` | dep/zlib/crc32.c:361-369 | the squared matrix stands for the operator composed with itself |
| `Crc32.AppendZeros` | dep/zlib/crc32.c:386-420 | the alternating square-and-multiply loop appends 8 * len2 zero bits |
| `Crc32.Combine` | dep/zlib/crc32.c:372-425 | crc1 with 8 * len2 zero bits appended, added to crc2; crc1 itself for lengths below one |
| `Crc32.CombineIsConcat` | dep/zlib/crc32.c:372-425 | that is the checksum of the concatenation |
| `Crc32.CheckValue` | dep/zlib/crc32.c:221-254 | the checksum of the digits one to nine is 0xcbf43926 |
| `Crc32.CrcContinues` | dep/zlib/crc32.c:221-254 | a checksum taken up again where it was left is that of the concatenation |
| `Crc32.CrcInjective` | dep/zlib/crc32.c:221-254 | different starting values give different checksums of every string |
| `Crc32.LeadingZero` | dep/zlib/crc32.c:244-252 | a zero byte in front of a string changes its checksum |
| `CrcTables.MakeTables` | dep/zlib/crc32.c:108-148 | table k holds the register after a byte and k zero bytes, the other four the same with bytes reversed |
| `CrcTables.Little` | dep/zlib/crc32.c:258-295 | the little-endian loops compute the CRC for every length and alignment |
| `CrcTables.Big` | dep/zlib/crc32.c:298-337 | so do the big-endian loops on the reversed register |
| `CrcTables.Update` | dep/zlib/crc32.c:221-254 | crc32 is the same in all three builds, and zero without a buffer |
| `CrcTables.CrcIsBitSerial` | dep/zlib/crc32.c:82-107 | that CRC is the bit-serial one of section 8 of RFC 1952 |
| `Adler32.Mod` | dep/zlib/adler32.c:26-45 | the seventeen conditional subtractions reduce every 32-bit value |
| `Adler32.Mod4` | dep/zlib/adler32.c:46-53 | the five reduce every value a short buffer can produce |
| `Adler32.NmaxIsLargest` | dep/zlib/adler32.c:14-16 | the sums of n bytes from reduced components fit 32 bits if and only if n is at most NMAX |
| `Adler32.WidestFits` | dep/zlib/adler32.c:100-124 | the sums of NMAX bytes fit 32 bits even from 16-bit components that are not reduced |
| `Adler32.Adler` | dep/zlib/adler32.c:60-128 | from any starting value all length branches give the two sums of section 2.2 of RFC 1950, without overflow between reductions; only after a single byte can the second sum be left BASE too large, exactly when the starting value was not reduced and the sums come to twice BASE |
| `Adler32.CheckValues` | dep/zlib/adler32.c:60-128 | the checksum of the digits one to nine is 0x91e01de, and the sums wrap at 65521 |
| `Adler32.Combine` | dep/zlib/adler32.c:131-152 | for any two values and any length the result is the reduced formula if and only if the sums before the last subtractions are below three and four times BASE, which reduced checksums always satisfy |
| `Adler32.CombineStrings` | dep/zlib/adler32.c:155-160 | combining the checksums of two strings gives the checksum of their concatenation |
| `Adler32.CombineIsConcat` | dep/zlib/adler32.c:131-152 | the formula gives the checksum of the concatenation |

## Left out

- The rest of `mainSort` (Steps 1 and 3, `mainGtU`, `mainQSort3`, quadrants, budget) and the choice between the sorters: `BlockCodec.SortBlock` uses `fallbackSort` for every block; by `InverseBwt.LastColumnUnique` any correct sorter gives the same column.
- Behaviour on malformed compressed input: the parser is modelled with its rejections, and the theorems of `FrontReader`, `BlockReader.CodeKeeps` and `Unpacker.ExpandBoth` hold for any input, but those of `BlockParser` and `Decompressor` are for streams the compressor can produce, checksums excepted: wrong signatures are rejected as in the source, but nothing is proved about what a whole decompression makes of them.
- FrontReader.FrontRun: does not say what happens when more than 18002 selectors are announced: the source then writes past `selectorMtf`, the model has a sequence. `BlockParser.Parser.SelectorsFit` shows that encoded blocks never do.
- FrontReader.SelectorsRun: the same.
- ColumnDecoder.ColumnBuilder.Take: `es` and `N` are unbounded, whereas in the source they overflow after some thirty digits of one run. `ColumnDecoder.RunFits` shows that no values that can complete a column get there.
- Adler32.Combine: `len2` is converted to unsigned long as where that type is at least as wide; a 32-bit unsigned long with a negative 64-bit offset is not modelled, and a second component that needs more than 16 bits is not cut off.
- Randomised blocks and `BZ2_rNums`: the encoder always writes the bit as zero.
- The 256 numbers of `BZ2_crc32Table`: `BlockSums.ByTableEntry` says what each of them has to be.
- Overlaying `block` and `zbits` in arr2: they are separate here, and `Compressor.EState.Bounded` states that the output fits behind the block.
- Allocation, verbosity printing, `AssertH` reporting, the 64-bit byte counters of the stream structure, NULL checks of the API.
- The stdio layer and the convenience wrappers of bzlib.c.
- `mtfFreq` is counted from the finished values in `TableChoice.CountValues` instead of while they are generated.
- Thread-safety of the table generation in crc32.c, and the other zlib files.
- dep/gsoap, dep/SFMT, dep/mersennetwister, dep/libmpq, dep/acelite, dep/utf8cpp and contrib.
