# Link compression and framing

This project models the algorithms at the centre of a VPN's PPP and L2TP code, in the form the C code has them: arrays and
objects updated in place, loops with their invariants, and beside them the specifications that the methods are proved against.

- **Deflate and inflate** (`vpn/ppp-2.4.5/common/zlib.c`). The sender: string matching with lazy evaluation over a sliding
  window and hash chains (`RollingHash`, `Lz77Tokens`, `Lz77Chains`, `Lz77Search`, `Lz77`); Huffman trees with a limit on the code length,
  canonical codes, and the accounting of every bit (`PriorityQueue`, `HuffmanTheory`, `HuffmanRuns`, `PrefixCodes`, `HuffmanHeights`,
  `LengthRepair`, `TreeMerging`, `TreeLengths`, `DeflateState`, `TreeBuilder`, `BitLengths`, `CanonicalCodes`, `TreeCodes`);
  the run coding of the code lengths and the three kinds of block (`BitWriting`, `Codebook`, `Alphabet`, `CodeLengths`, `RunCoding`,
  `Blocks`, `BlockSizes`, `BlockTrees`, `BlockWriter`, `StaticTrees`, `BlockFlush`, `DeflateInit`). The receiver: `huft_build`
  (`HuftTheory`, `HuftState`, `HuftPlacing`, `HuftBits`, `HuftBuilding`, `HuftTrees`, `HuftDecoding`), the header, the
  resumable decoder and the fast one, and the ring buffer (`BitReading`, `TreeReading`, `InflateScript`, `InflateSteps`,
  `InflateFast`, `LostBytes`, `InflateCodes`, `InflateStreams`, `Window`), and whole blocks from input in pieces and to output in pieces (`Feeding`,
  `InflateBlocks`). Both together: `BodyRoundTrip`,
  `HeaderRoundTrip` and, for whole streams from nothing, `DeflateInflate`.
- **BSD compress** (`vpn/ppp-2.4.5/modules/bsd-comp.c`). The dictionary coder and its decoder as functions (`BsdCoder`), the two
  ends in step over whole runs (`BsdLockstep`), the greedy choice of the coder (`BsdGreedy`), and the open-addressed hash table with lazy clearing that implements the
  dictionary (`Probing`, `BsdTable`, `Accumulator`, `BsdDb`); a code that no sender emits (`BsdStray`).
- **Smaller cores**: Adler-32 (`Adler`), streaming MD5 (`Md5`), hidden attribute-value pairs of L2TP (`HiddenAvp`), the frame
  check sequence and HDLC framing (`FrameCheck`, `Hdlc`), and flow control on the receive side of the PPP driver
  (`ReceivePath`).
- **Arithmetic**: `Arith`, `Bits`, `BitOrder`, `Sums`, `Options`.

A *script* is what a stream of bits means to the decoder: the symbols it spells, how it ends, and the bits behind it. It is how
the decoders are specified without reference to how they read. `InflateStreams.EveryStream` shows that every stream has one.

Machine integers are written out where they matter: the 16-bit buffer of `send_bits`, the 32-bit bit buffer of inflate and
accumulator of BSD compress, the counters of BSD compress, both sums of Adler-32 and the bit count of MD5.

## Model

| member | source | states |
|---|---|---|
| DeflateInflate.RoundTrip | vpn/ppp-2.4.5/common/zlib.c:1624-1831 | Deflate followed by inflate is the identity: for input in pieces of any sizes, any tuning parameters, either matcher, blocks cut anywhere, the stream handed to inflate in pieces of any sizes and its output taken in buffers of any sizes, with the fast path or without it: what inflate writes out is the input, as far as all buffers have room, and all of it comes out if and only if they do |
| DeflateInflate.Identity | vpn/ppp-2.4.5/common/zlib.c:3728-3997 | The same for any matcher whose tokens stand for all its input, however its calls were interleaved, and for any unused block writer; with two bytes behind the stream inflate never waits for more input than there is |
| DeflateInflate.SendAll | vpn/ppp-2.4.5/common/zlib.c:2795-2838 | Tokens tallied one by one and flushed when the buffer is full or the caller likes make a stream of well-formed blocks, ended once, that tells the input; the bytes of a block are there to be stored exactly if its start is still in the window, and never reach 64K |
| DeflateInflate.FlushBlock | vpn/ppp-2.4.5/common/zlib.c:2683-2789 | One flush extends the bits of the stream by exactly one block of the tokens tallied, padded to a byte only at the end of the stream |
| DeflateInflate.BlocksTell | vpn/ppp-2.4.5/common/zlib.c:2683-2789 | What the blocks of a stream tell, one after the other, is what all their tokens together stand for, and no block reaches back further than its tokens |
| InflateBlocks.Inflate | vpn/ppp-2.4.5/common/zlib.c:3728-3997 | Of any stream of blocks, stored, fixed or dynamic, in pieces of any sizes and with output buffers of any sizes, inflate_blocks makes what the blocks tell and stops exactly behind the last block; if it stops before, the last buffer is full and something waits for another, and what entered the window is the beginning of what the blocks tell; every byte of room is accounted for |
| InflateBlocks.ReadBlock | vpn/ppp-2.4.5/common/zlib.c:3728-3997 | One block, from its three type bits, however its input comes and its output goes: the window grows by what the block tells, the last-block flag is the one sent, and the bits left are those behind the block; or the last output buffer is full, with a beginning of the block in the window |
| InflateBlocks.ReadStored | vpn/ppp-2.4.5/common/zlib.c:3750-3820 | A stored block: padding, length and complement are skipped and its bytes enter window and output in order, over any number of output buffers; or the last is full, with the first of them there |
| InflateBlocks.TreesFixed | vpn/ppp-2.4.5/common/zlib.c:4495-4541 | The tables of the fixed trees serve the fixed lengths; deflate's own fixed code words show that the lengths are complete |
| TreeReading.TreeReader.Process | vpn/ppp-2.4.5/common/zlib.c:3830-3955 | TABLE, BTREE and DTREE over any bits and any interruptions: what was consumed and what is ahead stay the same bits in total, and the reader stops with the trees only where the bits spell a header with acceptable trees, else with one of its errors and the reason for it |
| TreeReading.CountsRefused | vpn/ppp-2.4.5/common/zlib.c:3830 | The counts are refused exactly if they ask for more than 286 literal and length symbols or more than 30 distances |
| TreeReading.BitLengthAt | vpn/ppp-2.4.5/common/zlib.c:3854 | inflate's own table border: the three bits read at 14 + 3r become the length of that same code, by the closed form |
| TreeReading.MakeTable | vpn/ppp-2.4.5/common/zlib.c:4395-4470 | A set of lengths is accepted exactly if its Kraft sum is 1 or it is a lone one-bit code (in which case it has a table that decodes it); an empty set gives no table |
| TreeReading.LookLone | vpn/ppp-2.4.5/common/zlib.c:4355-4374 | With a lone one-bit code both bits cost one bit and lead to its symbol: the entry for the unused bit is invalid, and the base that stays from the entry before is the symbol |
| HeaderRoundTrip.HeaderRead | vpn/ppp-2.4.5/common/zlib.c:2593-2617 | If the bits are the header that send_all_trees sent, the reader stops with exactly the lengths of both trees, nothing consumed beyond the header, and with tables for them |
| HeaderRoundTrip.NeverWaits | vpn/ppp-2.4.5/common/zlib.c:3830-3955 | The reader of such a header waits only while fewer than seven bits are behind it |
| BodyRoundTrip.DynamicBody | vpn/ppp-2.4.5/common/zlib.c:2843-2888 | For every block with trees of its own the bits of compress_block are a script that the decoder's tables read back as the tokens and then the end of the block |
| BodyRoundTrip.StaticBody | vpn/ppp-2.4.5/common/zlib.c:2843-2888 | The same for the fixed trees |
| InflateCodes.Decoder.Process | vpn/ppp-2.4.5/common/zlib.c:4674-4831 | inflate_codes, fast or slow and interrupted anywhere, keeps its place: the bits taken from the input are always those the script has passed, and at the end of the block or at an error the window holds what the tokens stand for and exactly the script's tail is left; it asks for input only if fewer than 15 bits are ahead |
| InflateCodes.Decoder.Round | vpn/ppp-2.4.5/common/zlib.c:4674-4831 | One round of the state machine keeps that, makes progress, and leaves only for a reason that holds |
| InflateFast.FastLoop | vpn/ppp-2.4.5/common/zlib.c:4971-5109 | inflate_fast with 258 bytes of room and ten of input: the window grows by what whole tokens stand for, the bits consumed are exactly those tokens' bits, output and input are never overrun, and fewer than eight bits stay in the buffer; UNGRAB hands back bytes that came with an earlier input if and only if the bits held beyond those of this input are at least eight more than the bits consumed, which never happens if fewer than eight were held over on entry |
| InflateCodes.FastIsSlow | vpn/ppp-2.4.5/common/zlib.c:4696-4710 | From one state, inflate_fast and the LEN to LIT rounds up to the same token leave the same history, ring contents and pointers, the same bits ahead and the same verdict, and the slow rounds never wait for input or output on the way |
| LostBytes.MakeSkewed | vpn/ppp-2.4.5/common/zlib.c:4416-4470 | Lengths of one bit for literal 0, nine for 128 others and two for the end of the block are complete, and huft_build makes nine-bit tables for them |
| LostBytes.LiteralTaken | vpn/ppp-2.4.5/common/zlib.c:4712-4727 | With tables of nine bits, eight bits held and one byte left, the look-up of a literal of one bit takes that byte and leaves 15 bits held and the input used up |
| LostBytes.EndLost | vpn/ppp-2.4.5/common/zlib.c:4964-4973 | A reader that holds 15 bits of one input when the next is at hand, and an end of block of two bits next: inflate_fast passes just those two bits, ends the block, and hands back one byte more than it took of the new input |
| InflateCodes.Decoder.Supply | vpn/ppp-2.4.5/common/zlib.c:4684-4831 | Input that comes because the decoder asked for it is safe: when the next token begins, fewer than eight of the bits held are from before it, so that inflate_fast hands back nothing else |
| InflateStreams.EveryStream | vpn/ppp-2.4.5/common/zlib.c:4674-4831 | Any bits at all are the beginning of a script, so that these results leave out no input |
| InflateScript.CallersTablesWork | vpn/ppp-2.4.5/common/zlib.c:4395-4541 | The tables huft_build makes for the callers' sizes 9, 6, 7 and 5 all have the properties that the decoder needs, incomplete distance trees included |
| BitReading.BitReader.NeedBits | vpn/ppp-2.4.5/common/zlib.c:3587-3594 | NEEDBITS changes no bit ahead and fails only at the end of the input with fewer bits than asked for |
| BitReading.BitReader.GrabBits | vpn/ppp-2.4.5/common/zlib.c:4962-4963 | GRABBITS likewise, with at most three bytes |
| BitReading.BitReader.Ungrab | vpn/ppp-2.4.5/common/zlib.c:4964 | UNGRAB, where the whole bytes held are from the input at hand, hands them back and moves the position of no bit, although their bits stay above k in the buffer |
| BitReading.BitReader.Fits32 | vpn/ppp-2.4.5/common/zlib.c:3594 | The bit buffer fits 32 bits at every step |
| Window.Window.OutByte | vpn/ppp-2.4.5/common/zlib.c:3601 | A byte written enters history and output at their ends |
| Window.Window.NeedOut | vpn/ppp-2.4.5/common/zlib.c:3597-3600 | Wrapping and flushing lose no byte and repeat none; there is no room only if the output is full and something waits for it |
| Window.Window.Flush | vpn/ppp-2.4.5/common/zlib.c:4868-4936 | What is delivered is always a prefix of what was produced, in order across the wrap, and all of it if output is left over |
| Window.Window.FastCopy | vpn/ppp-2.4.5/common/zlib.c:5037-5063 | The copy of inflate_fast, from either side of the wrap, appends what copying from the history means, overlapping or not |
| Window.Window.AddHistory | vpn/ppp-2.4.5/common/zlib.c:4030-4073 | An uncompressed packet enters the history and is not output; refused exactly while output is pending or a block is being read |
| HuftTrees.HuftBuild | vpn/ppp-2.4.5/common/zlib.c:4191-4392 | huft_build reports Z_DATA_ERROR exactly if the Kraft sum exceeds 1, Z_OK exactly if it is 1 or the longest length is 1, returns the clamped table size, and every entry it sets is sound for the canonical code |
| HuftPlacing.TablesComplete | vpn/ppp-2.4.5/common/zlib.c:4284-4388 | Every entry of every table is set if and only if no code skips a table |
| HuftDecoding.WalkDecodes | vpn/ppp-2.4.5/common/zlib.c:4191-4392 | For a complete set of lengths with all entries set, any lookahead leads through the linked tables to the one symbol whose code word it starts with, and drops just that word |
| HuftDecoding.CallersNeverSkip | vpn/ppp-2.4.5/common/zlib.c:4395-4470 | With the sizes and numbers of symbols of all callers in Deflate no code skips a table |
| HuftDecoding.FewNeverSkip | vpn/ppp-2.4.5/common/zlib.c:4311-4325 | No code skips a table if there are fewer than 2^(l+1) codes for first tables of l bits |
| HuftDecoding.TwoLevelsNeverSkip | vpn/ppp-2.4.5/common/zlib.c:4311-4325 | Nor if no code needs a third table |
| HuftDecoding.SkippingExample | vpn/ppp-2.4.5/common/zlib.c:4311-4325 | Given the lengths 1, 3, 3, 3, 3 and m = 1 huft_build succeeds, with tables of one bit that are sound for them and leave entries unset |
| BlockFlush.Deflater.TrFlushBlock | vpn/ppp-2.4.5/common/zlib.c:2683-2789 | The kind of block is the one that takes the fewest bytes, stored before fixed before dynamic; the bits sent are those of that kind, the trees of a dynamic block are complete canonical codes with a word for every symbol sent, and compressed_len equals the number of bits sent after every flush |
| BlockFlush.Deflater.TrTally | vpn/ppp-2.4.5/common/zlib.c:2795-2838 | One more token in the block, counted in both trees, with the tables of tr_static_init giving the code of RFC 1951 for its length and distance |
| BlockFlush.Deflater.TrStoredBlock | vpn/ppp-2.4.5/common/zlib.c:2622-2633 | A stored block: type, padding to the byte, length, complement, data; accounted to the bit |
| DeflateInit.TrInit | vpn/ppp-2.4.5/common/zlib.c:2137-2162 | A new stream has nothing sent, an empty block, and the fixed books with a word for every symbol |
| BlockWriter.BuildTrees | vpn/ppp-2.4.5/common/zlib.c:2698-2713 | The three trees of a block: complete codes for just the symbols used, and opt_len and static_len equal to the bits that sending the block with its own and with the fixed trees takes |
| BlockWriter.BuildBlTree | vpn/ppp-2.4.5/common/zlib.c:2558-2586 | The code for the lengths has a word of at most seven bits for every symbol of the header, the result is the last rank in use, and opt_len grows by exactly the header's bits |
| BlockWriter.SendAllTrees | vpn/ppp-2.4.5/common/zlib.c:2593-2617 | The bits sent are the counts, the lengths of the bit length codes, and both trees run coded |
| BlockWriter.HeaderAt | vpn/ppp-2.4.5/common/zlib.c:1902-1903 | Bit for bit: five, five and four bits of counts, then at bit 14 + 3r the length of the r-th bit length code in the order 16, 17, 18, 0, 8, 7, 9, 6 and so on outwards from 8, by a closed form |
| BlockSizes.BodySize | vpn/ppp-2.4.5/common/zlib.c:2843-2888 | The bits of a block's body are the frequencies times code and extra lengths |
| Blocks.CompressBlock | vpn/ppp-2.4.5/common/zlib.c:2843-2888 | The bits sent are those of the tokens under the two books, then the end of the block |
| BlockFlush.CopyBlock | vpn/ppp-2.4.5/common/zlib.c:2964-2986 | Padding with zero bits to the byte, the length and its complement, and the data |
| CodeLengths.ScanTree | vpn/ppp-2.4.5/common/zlib.c:2462-2501 | scan_tree counts exactly the symbols that send_tree will send, and sets the guard |
| CodeLengths.SendTree | vpn/ppp-2.4.5/common/zlib.c:2507-2552 | The bits sent are those of the run-coded lengths |
| RunCoding.RunSent | vpn/ppp-2.4.5/common/zlib.c:2507-2552 | A run of equal lengths behind another length is sent in one way only: up to ten zeros as one repeat of 17 and up to 138 as one of 18, other lengths once and then by repeats of six, by a closed form of the number of symbols and of each of them |
| CodeLengths.TreesRoundTrip | vpn/ppp-2.4.5/common/zlib.c:3874-3917 | Decoding by the rules of section 3.2.7 of RFC 1951 turns both trees, sent one after the other, back into one stream of their lengths and leaves what follows |
| Alphabet.TrStaticInit | vpn/ppp-2.4.5/common/zlib.c:2067-2099 | The tables give every length 3..258 and every distance 1..32768 the symbol whose base and extra bits stand for it |
| StaticTrees.StaticLitTree | vpn/ppp-2.4.5/common/zlib.c:2100-2125 | The fixed literal tree is a complete canonical code of the lengths in section 3.2.6 of RFC 1951 |
| BitWriting.BitWriter.SendBits | vpn/ppp-2.4.5/common/zlib.c:2043-2055 | Whatever is in the 16-bit buffer, the bits sent so far grow by just these, least significant first |
| BitWriting.BitWriter.BiFlush | vpn/ppp-2.4.5/common/zlib.c:2928-2940 | No bit changes and fewer than eight stay in the buffer |
| BitWriting.BitWriter.BiWindup | vpn/ppp-2.4.5/common/zlib.c:2945-2958 | The bits are padded with fewer than eight zeros to a whole byte |
| TreeCodes.BuildTree | vpn/ppp-2.4.5/common/zlib.c:2375-2456 | A complete canonical code for the used symbols, at least two, within max_length; if the Huffman tree is not too deep of least cost of all prefix codes, and none that costs as little has a shorter longest word; else repaired in order of frequency; opt_len and static_len grow by exactly the bits of the symbols used |
| TreeBuilder.ForcedIsZeroOrOne | vpn/ppp-2.4.5/common/zlib.c:2406-2412 | The symbols forced into the tree are 0 or 1 unless symbol 1 is the only one that occurs, in which case it is 2 |
| HuffmanTheory.Optimal | vpn/ppp-2.4.5/common/zlib.c:2424-2447 | At every stage of merging the two rarest the lengths cost no more than any lengths that satisfy the Kraft inequality |
| PrefixCodes.HuffmanCheapest | vpn/ppp-2.4.5/common/zlib.c:2424-2447 | So the leaves' lengths are the cheapest of all prefix codes |
| HuffmanHeights.HuffmanFlattest | vpn/ppp-2.4.5/common/zlib.c:2198-2203 | What the tie breaker is for: with the lower of equally heavy trees merged first, every prefix code that costs as little has a word at least as long as the longest of the Huffman tree |
| HuffmanHeights.HeightFits | vpn/ppp-2.4.5/common/zlib.c:2433 | With 16-bit frequencies no tree is higher than 22, by Fibonacci weights, so that the depth byte holds its height and never wraps |
| PrefixCodes.KraftInequality | vpn/ppp-2.4.5/common/zlib.c:2333-2365 | Every prefix-free set of words satisfies the Kraft inequality |
| PriorityQueue.PqDownHeap | vpn/ppp-2.4.5/common/zlib.c:2211-2234 | The heap order is restored from k on; entries are permuted and those outside are untouched |
| BitLengths.GenBitlen | vpn/ppp-2.4.5/common/zlib.c:2246-2323 | The depths of the tree if none is too large; otherwise lengths within the limit, as many of each as bl_count says, Kraft equality, handed out along the order of frequency; totals exact in both cases |
| LengthRepair.Repair | vpn/ppp-2.4.5/common/zlib.c:2292-2302 | The overflow loop never takes from an empty length and performs exactly the repairs that restore Kraft equality |
| LengthRepair.RepairedFills | vpn/ppp-2.4.5/common/zlib.c:2292-2302 | After the repairs the counts have Kraft sum 1 and count as many leaves as before |
| TreeCodes.RarerIsLonger | vpn/ppp-2.4.5/common/zlib.c:2309-2322 | After a repair, too, no symbol has a shorter code than a more frequent one |
| TreeCodes.GenCodes | vpn/ppp-2.4.5/common/zlib.c:2333-2365 | Every symbol gets its canonical code word, reversed, and all others are left alone |
| CanonicalCodes.WordsPrefixFree | vpn/ppp-2.4.5/common/zlib.c:2333-2365 | No code word is a prefix of another |
| CanonicalCodes.WordsComplete | vpn/ppp-2.4.5/common/zlib.c:2333-2365 | With Kraft equality every string of max bits starts with one of the words |
| CanonicalCodes.InOrder | vpn/ppp-2.4.5/common/zlib.c:2340-2362 | The code words are in the order of section 3.2.2 of RFC 1951, by length and then by symbol, each behind the last |
| BitOrder.BiReverse | vpn/ppp-2.4.5/common/zlib.c:2913-2923 | The bits in reverse order |
| Lz77.Matcher.DeflateSlow | vpn/ppp-2.4.5/common/zlib.c:1717-1831 | For any chunking of the input the tokens expand to exactly the input consumed, no distance is beyond MAX_DIST, each token ends within the window that was there when it was sent, a lazy match survives a slide of the window, at the end the tokens stand for the whole input, and a call to finish that runs out of room has consumed some of it; and every token is explained by thorough searches: a literal is sent only where nothing was found (or dropped as filtered or too far, or not looked for with HuffmanOnly or after a match of max_lazy) or where the next position has something longer, a match only where the next has not; the only strings that no search finds are the last two of the input seen, and none while more input is awaited |
| Lz77.Matcher.DeflateFast | vpn/ppp-2.4.5/common/zlib.c:1624-1710 | The same for the greedy matcher, which sends what a thorough search finds at each position; the only strings that no search finds are at the end of the input or inside a match longer than max_insert_length |
| Lz77.Matcher.LongestMatch | vpn/ppp-2.4.5/common/zlib.c:1269-1405 | A result above prev_length is a real match at match_start, although the third byte is never compared; and the search is thorough: of the last max_chain strings inserted within reach with the same hash (a quarter of them if prev_length is good) none is repeated here for more bytes than the result, unless that is at least nice_match or all that is ahead, and never is the one at hash_head |
| Lz77.Matcher.FillWindow | vpn/ppp-2.4.5/common/zlib.c:1446-1534 | A slide of the window moves no position of the input, and input is read until there is enough lookahead or no more input |
| Lz77.Matcher.InsertString | vpn/ppp-2.4.5/common/zlib.c:708-711 | The hash chains stay exact: what is returned is the last inserted string with the hash of the current one, or nil if none lies in the window but perhaps at its first byte |
| Lz77Chains.FollowChain | vpn/ppp-2.4.5/common/zlib.c:1400-1401 | Following prev from an inserted string within reach stays on its chain, also across slides |
| RollingHash.ThirdByteEqual | vpn/ppp-2.4.5/common/zlib.c:1330-1339 | With at least eight hash bits, equal hashes and two equal bytes force the third to be equal |
| RollingHash.PrimedByUpdate | vpn/ppp-2.4.5/common/zlib.c:697 | The rolling hash depends on the last three bytes alone |
| BsdLockstep.EveryRunInStep | vpn/ppp-2.4.5/modules/bsd-comp.c:491-1119 | From two fresh ends, for any sequence of packets within the MRU, sent compressed or plain, every packet is delivered and both ends' states agree after each |
| BsdLockstep.CompressedPacketRestored | vpn/ppp-2.4.5/modules/bsd-comp.c:848-1119 | Every packet that bsd_compress returns is restored exactly, and both ends agree afterwards on dictionary, counters and sequence number |
| BsdLockstep.Refused | vpn/ppp-2.4.5/modules/bsd-comp.c:865-905 | A message is refused without a loss exactly if it is too short or out of sequence; the sequence number moves on by one either way; and a packet is never longer than the MRU and its header |
| BsdLockstep.PacketRoundTrip | vpn/ppp-2.4.5/modules/bsd-comp.c:931-1098 | Decoding the codes sent yields the phrase in progress and then the data, including codes used just as they are defined, while the code width grows on both sides |
| BsdLockstep.StepExpands | vpn/ppp-2.4.5/modules/bsd-comp.c:966-985 | Every code that a sender in step sends is in use at the receiver, or is the one being defined there, and stands for the same bytes at both ends |
| BsdStray.StrayExactly | vpn/ppp-2.4.5/modules/bsd-comp.c:966-985 | As the last code of a packet, a code above the one being defined passes if and only if it is the next above, is not the first of the packet and its expansion is within the MRU, and then the result and the state are those of the code being defined |
| BsdStray.StrayPacket | vpn/ppp-2.4.5/modules/bsd-comp.c:966-985 | A packet that the receiver restores, with the same state afterwards, from two different messages, one of them with such a code |
| BsdLockstep.IncompMatchesCompress | vpn/ppp-2.4.5/modules/bsd-comp.c:719-829 | bsd_incomp leaves the state that bsd_compress would have left |
| BsdLockstep.EncodeKeepsDistinct | vpn/ppp-2.4.5/modules/bsd-comp.c:604-669 | No key is ever entered twice, so the entries are an injective map |
| BsdGreedy.LongestPhrase | vpn/ppp-2.4.5/modules/bsd-comp.c:598-669 | Each code sent stands for the longest beginning of what is left that any code in use stands for |
| BsdGreedy.ReturnedExactly | vpn/ppp-2.4.5/modules/bsd-comp.c:492-711 | A packet is returned if and only if its protocol is compressed and header and codes fit both limits, with the size and the six header bytes stated |
| BsdLockstep.WidthExact | vpn/ppp-2.4.5/modules/bsd-comp.c:640-690 | Between packets the code width is the least, from nine bits on, that still has room for the next code to be defined, or the greatest |
| BsdLockstep.EveryRunBounded | vpn/ppp-2.4.5/modules/bsd-comp.c:238-274 | In every run the counters stay within 32 bits and below RATIO_MAX's scale, and both ends' agree |
| BsdLockstep.CountersNeverWrap | vpn/ppp-2.4.5/modules/bsd-comp.c:238-274 | Counting one more packet wraps neither the counts nor the scaled ratio |
| Probing.SlotsDiffer | vpn/ppp-2.4.5/modules/bsd-comp.c:630-637 | With a prime size the first hsize probes of a path are all different, so a search ends unless the table is full |
| Probing.TableSizesPrime | vpn/ppp-2.4.5/modules/bsd-comp.c:334-360 | The four sizes are prime |
| BsdDb.Bsd.Probe | vpn/ppp-2.4.5/modules/bsd-comp.c:615-640 | The hash search finds the code of a key if it has one, stale cells of a lazy clear included, and else a free cell at the end of its path |
| BsdDb.Bsd.Mismatch | vpn/ppp-2.4.5/modules/bsd-comp.c:642-665 | Entering a key refines adding it to the map, with the old cell's back pointer cut and the code width adjusted |
| BsdDb.Bsd.Compress | vpn/ppp-2.4.5/modules/bsd-comp.c:491-712 | The in-place coder refines the dictionary coder, counters included |
| BsdDb.Bsd.Incomp | vpn/ppp-2.4.5/modules/bsd-comp.c:719-829 | So does the routine for plain packets |
| BsdDb.Bsd.Decompress | vpn/ppp-2.4.5/modules/bsd-comp.c:848-1119 | So does the decoder, verdict included; the account ends, with a verdict of its own, where a code follows one that is not even being defined |
| BsdDb.Bsd.Unwind | vpn/ppp-2.4.5/modules/bsd-comp.c:1014-1038 | Following prefixes backwards from the length in lens writes exactly the expansion of the code |
| BsdDb.Bsd.Check | vpn/ppp-2.4.5/modules/bsd-comp.c:238-274 | Aging, the ratio and the decision to clear, in place, are those of the specification |
| BsdLockstep.ClearDue | vpn/ppp-2.4.5/modules/bsd-comp.c:238-274 | On the counters: a CLEAR is due if and only if a check is due, the dictionary is full, and the bytes in are to the bytes out, both aged by a quarter from 2^23 - 1 on, less than the ratio on record or than one to one; without a CLEAR the ratio on record never falls, and the new state is stated in full |
| Accumulator.Writer.Output | vpn/ppp-2.4.5/modules/bsd-comp.c:514-538 | The 32-bit accumulator emits the bits in order, most significant first |
| Adler.Adler32 | vpn/ppp-2.4.5/common/zlib.c:5351-5378 | The checksum by blocks of NMAX bytes, sixteen at a time, is the byte-by-byte one modulo 65521, and neither sum overflows 32 bits |
| Adler.ByWeights | vpn/ppp-2.4.5/common/zlib.c:5351-5378 | From the beginning the checksum is, in the upper half, the number of bytes and their sum weighted by how many are left, and in the lower half 1 and their sum, both modulo 65521 |
| Adler.InPieces | vpn/ppp-2.4.5/common/zlib.c:5351-5378 | The checksum of two pieces, one after the other, is that of both together |
| Adler.NmaxIsGreatest | vpn/ppp-2.4.5/common/zlib.c:5341-5342 | With one byte more between reductions the second sum can overflow |
| Md5.Context.Update | vpn/xl2tpd/md5.c:77-123 | Pieces of any size, empty ones too, add up to the message; the bit count is exact modulo 2^64 |
| Md5.Context.Final | vpn/xl2tpd/md5.c:129-170 | The digest is the fold of the block function over the padded message |
| Md5.PaddedBytes | vpn/xl2tpd/md5.c:129-164 | The padded message byte by byte, as in section 3 of RFC 1321: the message, 0x80, zeros, and in the last eight bytes, low byte first, the number of bits modulo 2^64; its length is the least multiple of 64 that holds these |
| HiddenAvp.EncryptAvp | vpn/xl2tpd/aaa.c:363-432 | The value, with its length before it and the padding behind, is hidden in place under the chained digests of section 4.3 of RFC 2661, for every length of value |
| HiddenAvp.OnTheWire | vpn/xl2tpd/aaa.c:363-432 | Byte by byte: the header with the hidden bit and the length, high bytes first; the first sixteen bytes under the digest of attribute, secret and random vector, all others under that of the secret and the sixteen bytes before |
| HiddenAvp.DecryptAvp | vpn/xl2tpd/aaa.c:434-511 | Accepts exactly if the random vector is known and the hidden text begins with a length that fits, and then restores the pair |
| HiddenAvp.HiddenOnce | vpn/xl2tpd/aaa.c:434-511 | Nothing but the cipher text hides a given text |
| HiddenAvp.Roundtrip | vpn/xl2tpd/aaa.c:363-511 | Encrypted, byte-swapped as the receiver does, and decrypted, a pair comes back with the H bit cleared if and only if its value has at most 4078 bytes |
| HiddenAvp.SwapHeader | vpn/xl2tpd/misc.c:178-201 | The header changes byte order, the value does not |
| FrameCheck.EntryIs | vpn/xl2tpd/control.c:25-58 | Every word of the table is what eight steps of the polynomial make of its index |
| FrameCheck.GoodExactly | vpn/xl2tpd/control.c:89-104 | A frame folds to the good value if and only if its last two octets are the check sequence of the rest |
| FrameCheck.OneOctet | vpn/xl2tpd/control.c:89-104 | Changing one octet anywhere changes the check sequence |
| FrameCheck.LeadingZero | vpn/xl2tpd/control.c:89-104 | So does a zero octet in front, because of the initial value |
| FrameCheck.Digits | vpn/xl2tpd/control.c:25-104 | The check sequence of the octets 0x31 to 0x34 is 0xec, 0x74 |
| Hdlc.AddFcs | vpn/xl2tpd/control.c:89-104 | The two octets added make the whole fold to the good value |
| Hdlc.WritePacket | vpn/xl2tpd/control.c:1671-1695 | The frame, with flags only at both ends, exactly if it fits the buffer |
| Hdlc.FrameOfDigits | vpn/xl2tpd/control.c:1671-1695 | The frame of the octets 0x31 to 0x34 is 7e 31 32 33 34 ec 74 7e |
| Hdlc.FrameRead | vpn/xl2tpd/call.c:152-199 | Reading a frame gives the payload without the check sequence and consumes no more than the frame |
| Hdlc.AnyFrame | vpn/xl2tpd/call.c:152-199 | Of any stuffed octets that fit the buffer the reader makes, up to a flag, a packet without the last two, or the only one there is, or nothing, and up to an escaped flag nothing valid |
| Hdlc.TooMany | vpn/xl2tpd/call.c:152-199 | Of more octets than fit it makes an overrun and throws away all there is |
| Hdlc.Call.ReadPacket | vpn/xl2tpd/call.c:90-206 | The loop over the buffer is that reader, with the state it leaves in every outcome |
| Hdlc.EscapeKept | vpn/xl2tpd/call.c:152-199 | The reader's state between two calls is complete if and only if the octets read so far do not end with the escape octet |
| Hdlc.EscapeLost | vpn/xl2tpd/call.c:152-199 | An octet split from its escape comes out changed |
| ReceivePath.Ppa.FindDest | vpn/ppp-2.4.5/modules/ppp.c:2063-2074 | The first stream that is bound to the protocol |
| ReceivePath.Ppa.Put | vpn/ppp-2.4.5/modules/ppp.c:1903-1930 | A frame for a stream waits on the control queue only behind the blocked flag, and each stream's frames stay in order; a frame for pppd keeps the order if and only if it waits too or no other such frame does |
| ReceivePath.Ppa.ServiceControl | vpn/ppp-2.4.5/modules/ppp.c:1977-1995 | Exactly the messages before the first that finds no room are taken, each to its stream or up to pppd, in order; every stream's order is kept, and the flags are cleared only once nothing waits |
| ReceivePath.Ppa.ServiceStream | vpn/ppp-2.4.5/modules/ppp.c:2007-2049 | Exactly the frames before the first that finds no room leave upward in arrival order, each once, dropped only for want of memory; other streams are untouched |
| ReceivePath.ControlOrder | vpn/ppp-2.4.5/modules/ppp.c:1922-1929 | After any run the frames for pppd are in arrival order if and only if none was passed up while another waited |
| ReceivePath.Overtaken | vpn/ppp-2.4.5/modules/ppp.c:1922-1929 | A run in which one overtakes another |

## Findings

Properties that one would expect of the code and that fail, each with an input and the exact condition.

- **`huft_build` can leave entries of its tables unset.** When a code is more than `l` bits deeper than the table before it, the table
  in between is given 2^j entries with j > l, of which only those with an index below 2^l are ever filled. Input: lengths
  1, 3, 3, 3, 3 with m = 1 (`HuftDecoding.SkippingExample`). Exact condition: all entries are set if and only if no code skips a
  table (`HuftPlacing.TablesComplete`, with the predicate `NoSkip` on the counts of the lengths). None of the callers in inflate
  is affected (`HuftDecoding.CallersNeverSkip`).
- **Frames for pppd can overtake each other.** `pppurput` sends such a frame straight up when there is room above, although others
  may still wait on the control queue behind a frame for a blocked protocol. Input: a frame for a protocol whose queue is full, a
  control frame while there is no room above, another when there is (`ReceivePath.Overtaken`). Exact conditions: one call keeps the
  order if and only if the frame waits too or no frame for pppd waits that differs from it (`ReceivePath.Ppa.Put`); a run keeps it
  if and only if that never happened (`ReceivePath.ControlOrder`). The frames of every bound protocol do stay in order.
- **`read_packet` forgets an escape between two calls.** The octet after the escape is then taken for itself. Input: the octets of a
  frame for 0x7e, cut behind the escape octet (`Hdlc.EscapeLost`). Exact condition: nothing is lost if and only if the octets read
  by the first call do not end with the escape octet (`Hdlc.EscapeKept`).
- **Hidden values of more than 4078 bytes do not come back.** `encrypt_avp` writes the total length into a field of twelve bits
  without looking whether it fits; from 4079 bytes on it runs into the flags, the field says that there is no value, and the
  reader refuses the pair. Input: any value of 4079 bytes (`HiddenAvp.SeenEmpty`). Exact condition: a pair comes back if and only
  if its value has at most 4078 bytes (`HiddenAvp.Roundtrip`). The one caller, `add_callid_avp`
  (`vpn/xl2tpd/avpsend.c:188`), hides two bytes, so that no caller is affected.
- **`inflate_fast` can hand back bytes that it did not take from the input at hand.** UNGRAB moves the input pointer back by every
  whole byte held, also by those that came with an earlier buffer, and so in front of the buffer. Input: a dynamic block with a
  literal of one bit, 128 of nine bits and an end of block of two bits. Eight bits are held when the literal begins, the look-up
  takes the last byte of the input, and 15 bits stay held (`LostBytes.LiteralTaken`) when the output is full and the call ends; the
  next call brings room and new input, and the next thing is the end of the block (`LostBytes.EndLost`). Exact condition: it happens if and only if the bits held on entry beyond those of this input exceed the
  bits that the call consumes by eight or more (`lost` in `InflateFast.FastLoop`); a caller is safe who enters with fewer than
  eight bits held over (`BitReader.InHand`, which every operation keeps but the supply of new input), and so is one who supplies
  new input only when `inflate_codes` has asked for it (`InflateCodes.Decoder.Supply`).
- **The comment "node is 0 or 1" in `build_tree` is not right** (`vpn/ppp-2.4.5/common/zlib.c:2411`). Input: symbol 1 alone in use;
  the forced symbol is 2. Exact condition: it holds if and only if symbol 1 is not the only one that occurs
  (`TreeBuilder.ForcedIsZeroOrOne`). Symbol 2 has no extra bits either, so that the accounting is unaffected (`TreeCodes.BuildTree`).
- **`bsd_decompress` accepts a code above the one being defined.** Input: at the start of a stream, the codes 0x21 and 258; the receiver
  makes the same packet of them, with the same state afterwards, as of 0x21 and 257 (`BsdStray.StrayPacket`). Exact condition:
  as the last code of a packet it passes if and only if it is `max_ent + 2`, not the first of the packet and within the MRU
  (`BsdStray.StrayExactly`). No sender emits it (`BsdLockstep.StepExpands`).

## Left out

- Level 0 and flushes between blocks: `deflate_stored` and the empty stored blocks of a sync flush are not modelled; the joined theorem is for the two matchers, with blocks cut wherever the caller likes.
- `deflate()` and `inflate()` themselves: the zlib header, trailer and preset dictionaries, the calls between the matcher's loop and the block writer (`DeflateInflate.SendAll` tallies the matcher's tokens after they were found, with the flush decisions free), and changes of level in mid-stream.
- DeflateInflate.RoundTrip: two bytes are asked for behind the stream, which is where zlib's trailer lies.
- InflateBlocks.Inflate: stored blocks are shorter than 65536 bytes, as their 16-bit length demands; the byte that `inflate_blocks` hands back behind the last block is left in the bit buffer, where the position is the same; new input comes only when the decoder has asked for it, and the next output buffer only when the last is full.
- InflateFast.FastLoop: stops short of the pointer moving in front of the buffer, see Findings.
- BsdDb.Bsd.Decompress: the verdict `DecompStray` stands for what the source does when a code follows one that is not even being defined, which depends on entries never set; the checks under DEBUG are left out, as are allocation failure and statistics.
- PPP Deflate over packets (`vpn/ppp-2.4.5/modules/deflate.c`): packet flushes, `_tr_stored_type_only`, `_tr_align`, `inflate_packet_flush` and the sequence numbers around them are not modelled; of the receiver's way of taking in plain packets only `inflate_addhistory` is.
- TreeReading.TreeReader.Process: progress codes (Z_OK against Z_BUF_ERROR) are not modelled, nor is what `inflate_blocks` does with a header's error afterwards.
- InflateCodes.Decoder.Process: distances beyond the history or the window, which the code does not look for, are excluded by the script.
- HuftTrees.HuftBuild: freshly allocated entries are `Unset`; the stale base of an invalid entry is 0, but for the lone one-bit code, whose look-up takes it from the entry before; failure to allocate is left out.
- Lz77.Matcher.DeflateSlow and DeflateFast: `prev` is zero when allocated; the branches for 16-bit machines, the choice of level and `check_match` are left out, and whether a block is flushed or output runs out is left open; `match_start` is an integer, as only differences from it are used.
- TreeCodes.BuildTree: `bl_count` entries and the two totals are unbounded integers (they are far below their limits, except that the totals pass through -1); the unions `fc` and `dl` are shared arrays.
- BlockFlush.Deflater.TrFlushBlock: `set_data_type`, the overlay of the block buffer on the pending buffer and the output of pending bytes are left out.
- BlockFlush.Deflater.TrTally: the guess whether to end the block early is left to the caller.
- BitWriting.BitWriter.SendBits: or-ing disjoint bits into the 16-bit buffer is written as addition modulo 2^16.
- BsdDb.Bsd.Compress: chains of message blocks are byte sequences with room for maxolen bytes; failure to allocate and the statistics are left out.
- Md5.Context.Final: the block function and its output are parameters (any functions of the right type); the context is not cleared.
- HiddenAvp.EncryptAvp: the 16-byte hash is any function; tunnel and attribute tables, and `handle_avps`, which checks the lengths before `decrypt_avp` is called, are left out.
- Hdlc.Call.ReadPacket: works on the octets in the buffer; errors of `read()` and the synchronous framing are left out.
- Hdlc.WritePacket: the transmission behind the conversion is left out.
- ReceivePath.Ppa.Put: the bindings are fixed, messages are not of high priority, the packet filter has passed the frame and the promiscuous copies are left out.
- ReceivePath.Ppa.ServiceStream: the DLPI header and the re-enabling of queues are left out; any order of service calls is allowed.
- L2TP's sequence-number windows compare 16-bit numbers as plain integers and keep no modular order, so there is no order theorem to state; sockets, pppd, configuration, the address pool and the Python agents are input and output.
