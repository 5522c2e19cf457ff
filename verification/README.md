# Verified models of the compression, checksum, cipher and session cores

This project models the parts of the repository that compute or keep state in a way that is easy to get wrong, and
proves what their documentation and the standards they implement promise. Code that updates objects and arrays in
place is modelled by classes, methods and loops in the same form; each is proved against a specification function or
a reference decoder, and the theorems are about those.

- **Huffman tables** (`Bits`, `Huffman`, `TableSpec`, `TableSort`, `TableSteps`, `TableLookAhead`, `TableFill`,
  `TableCursor`, `TableTiles`, `InfTrees`): `inflate_table` of zlib 1.2.11, against canonical Huffman codes.
- **inflate** (`BitStream`, `Decoder`, `DecoderRuns`, `BitBuffer`, `Fetch`, `InflateLemmas`, `InflateSteps`,
  `InflateStates`, `FastPath`, `Window`, `Inflate`, `Resumption`, `SyncSearch`): the resumable state machine on raw
  streams with a 32K window, its unrolled fast path, its circular window, and the search for a flush mark. The
  reference is a one-shot decoder that works on the whole stream bit by bit.
- **deflate** (`Lz77`, `HashKey`, `Chains`, `Matcher`, `Deflate`, `Compression`): the four matchers over a sliding
  window with hash chains, up to the sequence of tallied tokens.
- **Checksums** (`Adler`; `Gf2`, `Crc`, `CrcCombine`, `CrcTables`, `Words`): fast forms against the definitions, and
  the checksum of a concatenation from those of its parts.
- **RSA, base64 and AES** (`JavaArithmetic`; `Arith`, `Rsa`; `Base64`, `Base64Lines`, `Base64Machine`; `AesTables`, `AesCipher`,
  `AesState`, `Aes`, `AesModes`): round trips.
- **SNMP requests** (`SnmpRuns`, `Snmp`, `RequestIds`): retries, reports, timeouts and cancelling as a state machine
  of atomic steps, with bounds over all its runs, and the tables and timer tasks that carry it out.
- **Network addresses** (`NetworkAddress`): the octet counter of `QNetworkAddress::calculate`.

`dafny verify --resource-limit 2000000 --verification-time-limit 0 dfyconfig.toml` checks everything: no proof needs more
than 2000000 units of the solver, and with the limit of 30 seconds that is the default a slow machine may stop early.

## How to read the model

- Machine integers are numbers with their bounds proved or their wrap-around written out: accumulators of inflate stay
  below 2^32, sums of Adler-32 are of a 32-bit type, `JavaArithmetic` has Java's conversions to int and long, the
  lengths computed by the base64 codecs and by `encrypt` wrap as they do there (for arrays and strings whose length is
  an int, and for inputs of C with an unsigned length), and products of `fastPow` are shown to stay inside a long.
- `Err` of the Java code stands for an exception, whichever it is.
- A position of deflate is counted from the start of the stream; window indices are positions less `base`. The start
  of a match may be below zero after a slide while its distance stays right.
- Tallied literals and pairs are an append-only sequence of tokens. `Expand` is what they stand for.
- `Reaches(d, e, input, room)` says that the reference decoder gets from state d to state e with this input and room
  for this much output; `Stuck` that it cannot go on from there. Every state of the machine is proved to make such a
  run, so that the theorems about sessions are about one deterministic decoder.
- A link in `head` and `prev` is trusted only for strings that are still within reach; `Linked` says what it then
  leads to.
- `Snmp.Valid`, which every method keeps, ties the timer to the table: a handle has one scheduled task at most, that of
  its request.
- The steps of an SNMP session are what the user, the clock, the timer and the peer do; each is atomic, a timer task
  runs when it is due, and a handle and a key belong to one request of the user. `Fate` is what becomes of a message:
  delivered, refused before its handle is assigned, or broken off after.

Some properties one might expect do not hold, and the exact conditions are proved instead: `inflateSync` shifts the
bit buffer the wrong way (`SyncSearch.HeldIsAligned`), zero and ISO padding cannot always be removed (`Aes.ZeroBack`,
`Aes.IsoBack`), `decodeLines` refuses what `encodeLines` made of lines that end inside a group
(`Base64Lines.LinesRoundTrip`), the Java codec breaks at 2^29 bytes and with it `encrypt` at 2^27
(`Base64.JavaRoundTrip`, `Rsa.EncryptDecrypt`), the C codec at 2^32 characters (`Base64Machine.MachineEncode`), and
`getRequestTimeout` overflows (`SnmpRuns.RequestTimeoutFits`). A response alone
does not stop the retries of an asynchronous request: `ProcessResponse` leaves it pending until it is cancelled or
times out. A message that is broken off after its handle was assigned stays pending although the caller gets an
exception.

## Model

| member | source | states |
|---|---|---|
| InfTrees.InflateTable | cpp-Qt/lib/impl/zlib/zlib-1.2.11/inftrees.c:106-303 | -1 exactly for over-subscribed sets and for incomplete ones other than the all-zero set and the single one-bit length or distance code; 1 exactly when the entries the code needs exceed ENOUGH; otherwise every bit string that starts with the bit-reversed canonical codeword of a symbol (section 3.2.2 of RFC 1951) is led to the entry of that symbol with its length, through at most one sub-table, and every other string to the invalid code marker; the sub-tables follow one another from the root table to the end of the entries used, and every one of these is where some bit string leads; nothing outside the table space changes |
| TableSpec.DeepestIs | cpp-Qt/lib/impl/zlib/zlib-1.2.11/inftrees.c:266-277 | the width a sub-table needs is that of the longest codeword that continues past its root entry, and is reached by one |
| Huffman.KraftIsLastEdge | cpp-Qt/lib/impl/zlib/zlib-1.2.11/inftrees.c:130-136 | the sum of the shares of all codewords is where the last canonical code ends: the running check on left is the Kraft sum |
| Huffman.StartsIffInterval | cpp-Qt/lib/impl/zlib/zlib-1.2.11/inftrees.c:230-237 | a bit string has the reversed codeword of a symbol in front exactly when its reversal lies in the interval of that symbol |
| Huffman.Disjoint | cpp-Qt/lib/impl/zlib/zlib-1.2.11/inftrees.c:230-255 | intervals of different symbols never meet: the canonical code is prefix-free |
| Huffman.Adjacent | cpp-Qt/lib/impl/zlib/zlib-1.2.11/inftrees.c:239-255 | the interval of the next symbol in sorted order starts where the one before ends |
| Huffman.CodeFits | cpp-Qt/lib/impl/zlib/zlib-1.2.11/inftrees.c:130-138 | unless the set is over-subscribed, every canonical codeword fits in its length |
| TableSort.CountLengths | cpp-Qt/lib/impl/zlib/zlib-1.2.11/inftrees.c:106-110 | count[l] is the number of symbols of length l |
| TableSort.BoundRoot | cpp-Qt/lib/impl/zlib/zlib-1.2.11/inftrees.c:112-128 | the longest and shortest lengths in use, and the root size forced between them |
| TableSort.CodesLeft | cpp-Qt/lib/impl/zlib/zlib-1.2.11/inftrees.c:130-138 | negative exactly for an over-subscribed set; otherwise what the Kraft sum lacks of a complete code |
| TableSort.SortSymbols | cpp-Qt/lib/impl/zlib/zlib-1.2.11/inftrees.c:140-147 | work lists all symbols in use by length and then by value |
| TableSteps.FillEntries | cpp-Qt/lib/impl/zlib/zlib-1.2.11/inftrees.c:230-237 | exactly those of the 2^curr entries whose low index bits are the codeword are written, all others kept |
| TableSteps.BackIncrement | cpp-Qt/lib/impl/zlib/zlib-1.2.11/inftrees.c:239-248 | adds one to the code as read backwards, and goes to zero from all ones |
| TableLookAhead.SubTableBits | cpp-Qt/lib/impl/zlib/zlib-1.2.11/inftrees.c:266-274 | the width found from the remaining counts is that of the longest codeword under the root entry |
| InfTrees.FillTables | cpp-Qt/lib/impl/zlib/zlib-1.2.11/inftrees.c:213-288 | the large loop decodes all symbols and gives up exactly when the needed entries exceed the limit |
| TableTiles.TilesVisited | cpp-Qt/lib/impl/zlib/zlib-1.2.11/inftrees.c:222-286 | when the sub-tables of the links tile the entries after the root table, with no gap and no overlap, every entry is where some bit string leads |
| TableTiles.TilesApart | cpp-Qt/lib/impl/zlib/zlib-1.2.11/inftrees.c:257-286 | sub-tables of different root entries share no entry |
| BitBuffer.LookUp | cpp-Qt/lib/impl/zlib/zlib-1.2.11/inflate.c:1054-1058 | any bits held lead to an entry; if the bits held cover its length it is the symbol whose codeword is next in the whole input, and if they do not and no input is left the symbol cannot be known |
| Fetch.FetchCode | cpp-Qt/lib/impl/zlib/zlib-1.2.11/inflate.c:961-965 | pulling bytes one at a time until an entry is covered finds the next symbol of the whole input, takes no byte more than its codeword needs, and fails only at the end of the input |
| Fetch.NeedBits | cpp-Qt/lib/impl/zlib/zlib-1.2.11/inflate.c:503-520 | false exactly at the end of the input, with everything taken in |
| InflateStates.StoredState | cpp-Qt/lib/impl/zlib/zlib-1.2.11/inflate.c:887-901 | skips to a byte, takes the length if its complement follows, refuses the block otherwise |
| InflateStates.CodeLensState | cpp-Qt/lib/impl/zlib/zlib-1.2.11/inflate.c:960-1008 | one code length symbol with its repeat: exactly the step of the reference decoder, or a wait for more input |
| InflateLemmas.LengthsInOrder | cpp-Qt/lib/impl/zlib/zlib-1.2.11/inflate.c:938-945 | the length sent as number i is that of symbol order[i], and the symbols whose lengths were not sent get zero |
| Inflate.Inflater.DoType | cpp-Qt/lib/impl/zlib/zlib-1.2.11/inflate.c:851-886 | after the last block the bits of the byte are dropped; otherwise the last-block bit and the type lead to the state for the block |
| Inflate.Inflater.DoTable | cpp-Qt/lib/impl/zlib/zlib-1.2.11/inflate.c:920-937 | the three counts of a dynamic block; more than 286 or 30 symbols are refused |
| Inflate.Inflater.DoLenLens | cpp-Qt/lib/impl/zlib/zlib-1.2.11/inflate.c:938-958 | all code length code lengths, zeros for the rest, and their table, exactly as the reference decoder |
| Inflate.Inflater.DoCodeLens | cpp-Qt/lib/impl/zlib/zlib-1.2.11/inflate.c:959-1041 | all code lengths with repeats, the end-of-block check and both tables, exactly as the reference decoder |
| Inflate.Inflater.FixedTables | cpp-Qt/lib/impl/zlib/zlib-1.2.11/inflate.c:278-323 | the fixed codes are those of section 3.2.6 of RFC 1951, built by inflate_table |
| Inflate.Inflater.DoLen | cpp-Qt/lib/impl/zlib/zlib-1.2.11/inflate.c:1053-1092 | one literal/length symbol: literal, end of block, length or error |
| Inflate.Inflater.DoDist | cpp-Qt/lib/impl/zlib/zlib-1.2.11/inflate.c:1103-1129 | one distance symbol |
| Inflate.Inflater.DoMatch | cpp-Qt/lib/impl/zlib/zlib-1.2.11/inflate.c:1146-1190 | copies as much of a match as there is room for, out of the window and the output, or finds it too far back |
| Inflate.Inflater.DoCopy | cpp-Qt/lib/impl/zlib/zlib-1.2.11/inflate.c:903-919 | copies as many stored bytes as there are input and room for |
| FastPath.FastCode | cpp-Qt/lib/impl/zlib/zlib-1.2.11/inffast.c:110-115 | with 15 bits held, the entry and at most one link give the next symbol of the input |
| FastPath.FastNext | cpp-Qt/lib/impl/zlib/zlib-1.2.11/inffast.c:104-158 | a literal, a length and distance, the end of the block or an error takes at most six bytes of input and is a run of reference steps; the accumulator stays below 32 bits |
| FastPath.GiveBack | cpp-Qt/lib/impl/zlib/zlib-1.2.11/inffast.c:292-296 | the unused whole bytes go back to the input: the stream position stays, and fewer than 8 bits are held |
| Inflate.Inflater.FastCopy | cpp-Qt/lib/impl/zlib/zlib-1.2.11/inffast.c:169-264 | the three window cases and the direct copy all give the bytes a distance back, byte by byte |
| Inflate.Inflater.FastSymbol | cpp-Qt/lib/impl/zlib/zlib-1.2.11/inffast.c:103-290 | one pass takes at most 6 bytes and writes at most 258, and is a run of the slow states |
| Inflate.Inflater.InflateFast | cpp-Qt/lib/impl/zlib/zlib-1.2.11/inffast.c:50-307 | the whole fast loop is a run of the slow LEN to MATCH states to the same output and stream position, with fewer than 8 bits held after it |
| Window.WriteWindow | cpp-Qt/lib/impl/zlib/zlib-1.2.11/inflate.c:414-442 | after any write the circular window holds exactly the last min(total, 32K) bytes written, oldest at wnext once it is full |
| Window.ReadWindow | cpp-Qt/lib/impl/zlib/zlib-1.2.11/inflate.c:1302-1310 | reading the window from wnext on gives those bytes in order |
| Inflate.Inflater.UpdateWindow | cpp-Qt/lib/impl/zlib/zlib-1.2.11/inflate.c:396-444 | keeps the window equal to the last bytes of the history with the output of this call |
| Inflate.Inflater.GetDictionary | cpp-Qt/lib/impl/zlib/zlib-1.2.11/inflate.c:1291-1312 | returns the last min(total, 32K) bytes of all output, in order |
| Inflate.Inflater.Run | cpp-Qt/lib/impl/zlib/zlib-1.2.11/inflate.c:652-1246 | the loop over the states is a run of the reference decoder, and stops only where it is stuck: finished, in error, out of input or out of room |
| Inflate.Inflater.Outcome | cpp-Qt/lib/impl/zlib/zlib-1.2.11/inflate.c:1261-1274 | the return value from the state reached: end and error exactly in those states, buffer error exactly when nothing else applies and nothing was done or a finish was asked for |
| Inflate.Inflater.Inflate | cpp-Qt/lib/impl/zlib/zlib-1.2.11/inflate.c:622-1275 | one call: from the state before, a run of the one-shot decoder over all input given so far ends stuck in the state after; input and output are exactly accounted for; the return value tells end, error and lack of progress exactly |
| DecoderRuns.EndUnique | cpp-Qt/lib/impl/zlib/zlib-1.2.11/inflate.c:851-1196 | the reference decoder can get stuck in one state only, for given input and room |
| DecoderRuns.ReachesMore | cpp-Qt/lib/impl/zlib/zlib-1.2.11/inflate.c:851-1196 | a run on part of the input and room stays a run when more of either is granted |
| Resumption.SessionIsRun | cpp-Qt/lib/impl/zlib/zlib-1.2.11/inflate.c:622-1275 | any series of calls, cut anywhere in input and output, is one run on the whole stream |
| Resumption.SettledIsOneShot | cpp-Qt/lib/impl/zlib/zlib-1.2.11/inflate.c:622-1275 | a settled session ends in the very state, output, position and verdict of the one-shot decoder of section 3.2.3 of RFC 1951 |
| Resumption.PartitionDoesNotMatter | cpp-Qt/lib/impl/zlib/zlib-1.2.11/inflate.c:622-1275 | two ways of cutting the same stream into calls end in the same state with the same bytes |
| Resumption.OutputIsPrefix | cpp-Qt/lib/impl/zlib/zlib-1.2.11/inflate.c:622-1275 | before it is settled a session has produced the first bytes of what the stream decodes to |
| Resumption.Decode | cpp-Qt/lib/impl/zlib/zlib-1.2.11/inflate.c:622-1275 | decoding a stream call by call with any cuts is such a session, and its output and verdict are those of the one-shot decoder |
| SyncSearch.NextIsLongest | cpp-Qt/lib/impl/zlib/zlib-1.2.11/inflate.c:1388-1394 | after each byte got is again the length of the longest end of the bytes seen that is a beginning of 00 00 FF FF |
| SyncSearch.SyncSearch | cpp-Qt/lib/impl/zlib/zlib-1.2.11/inflate.c:1377-1398 | carries on from any earlier bytes; stops right after the first mark, or at the end of the bytes |
| SyncSearch.FoundUnique | cpp-Qt/lib/impl/zlib/zlib-1.2.11/inflate.c:1366-1398 | the place found and the number returned are determined by the bytes, so that no two ways of cutting them differ |
| SyncSearch.Search | cpp-Qt/lib/impl/zlib/zlib-1.2.11/inflate.c:1366-1398 | however the bytes are cut up over calls, the place found is the end of the first mark in all of them together, and 4 is reached exactly when there is one |
| SyncSearch.TakeHeld | cpp-Qt/lib/impl/zlib/zlib-1.2.11/inflate.c:1412-1422 | the bytes taken from the bit buffer are the whole bytes of the shifted hold, lowest first |
| SyncSearch.HeldIsAligned | cpp-Qt/lib/impl/zlib/zlib-1.2.11/inflate.c:1413-1422 | the bit buffer is shifted up instead of down past the current byte: the bytes searched first are the whole bytes held, whatever they are, exactly when fewer than 8 bits or a whole number of bytes are held |
| HashKey.Forgets | cpp-Qt/lib/impl/zlib/zlib-1.2.11/deflate.c:157-163 | after three UPDATE_HASH nothing is left of the key before them |
| HashKey.ThirdByte | cpp-Qt/lib/impl/zlib/zlib-1.2.11/deflate.c:1302-1311 | with at least 8 hash bits, equal keys and two equal bytes make the third byte equal |
| HashKey.RolledOn | cpp-Qt/lib/impl/zlib/zlib-1.2.11/deflate.c:157-163 | the running key of one string becomes that of the next |
| Chains.Insert | cpp-Qt/lib/impl/zlib/zlib-1.2.11/deflate.c:182-185 | INSERT_STRING keeps the chains: from any bucket strictly older strings of that key, and returns one of them |
| Chains.Slide | cpp-Qt/lib/impl/zlib/zlib-1.2.11/deflate.c:201-225 | sliding both tables keeps the chains, seen from the new start of the window |
| Chains.Next | cpp-Qt/lib/impl/zlib/zlib-1.2.11/deflate.c:1372-1373 | within the window a link leads to an older string with the same key, or nowhere |
| Matcher.RunLength | cpp-Qt/lib/impl/zlib/zlib-1.2.11/deflate.c:1341-1357 | the unrolled comparison finds exactly how far two strings agree, up to 258 bytes |
| Matcher.Candidate | cpp-Qt/lib/impl/zlib/zlib-1.2.11/deflate.c:1330-1357 | the quick checks and the comparison without the third byte find the run of a candidate exactly, or reject it only when it is no longer than the best so far |
| Matcher.LongestMatch | cpp-Qt/lib/impl/zlib/zlib-1.2.11/deflate.c:1236-1377 | a true match no longer than the lookahead and no further back than MAX_DIST, and no candidate visited on the chain matches for longer unless the match is long enough to stop |
| Matcher.RunOfByte | cpp-Qt/lib/impl/zlib/zlib-1.2.11/deflate.c:2081-2096 | exactly how far the byte before repeats, up to 258 |
| Deflate.Deflater.InsertString | cpp-Qt/lib/impl/zlib/zlib-1.2.11/deflate.c:182-185 | extends the chains by the string and keeps the running key |
| Deflate.Deflater.SlideWindow | cpp-Qt/lib/impl/zlib/zlib-1.2.11/deflate.c:1510-1518 | the text, the chains and all positions counted from the start of the stream stay, match_start included even when it goes below zero |
| Deflate.Deflater.FillWindow | cpp-Qt/lib/impl/zlib/zlib-1.2.11/deflate.c:1482-1599 | reads on until there is enough lookahead or no input; text, chains and position are kept, deferred strings are inserted, and the running key is right again |
| Deflate.Deflater.TallyLit | cpp-Qt/lib/impl/zlib/zlib-1.2.11/deflate.h:326-332 | appends a literal: the tokens still expand to the stream up to the new place |
| Deflate.Deflater.TallyDist | cpp-Qt/lib/impl/zlib/zlib-1.2.11/deflate.h:333-342 | appends a pair for bytes that occur there: the tokens still expand to the stream up to the new place |
| Lz77.AgainRepeats | cpp-Qt/lib/impl/zlib/zlib-1.2.11/deflate.h:333-342 | expanding a pair puts each byte equal to the one its distance before it, overlaps included |
| Lz77.RepeatsUnique | cpp-Qt/lib/impl/zlib/zlib-1.2.11/deflate.h:333-342 | and nothing else does |
| Deflate.Deflater.DeflateFast | cpp-Qt/lib/impl/zlib/zlib-1.2.11/deflate.c:1824-1918 | keeps the tokens expanding to exactly the input before strstart, and the chains, whatever input and flush |
| Deflate.Deflater.DeflateSlow | cpp-Qt/lib/impl/zlib/zlib-1.2.11/deflate.c:1926-2049 | the same with lazy matching: the tokens lack exactly the pending byte |
| Deflate.Deflater.RleStep | cpp-Qt/lib/impl/zlib/zlib-1.2.11/deflate.c:2078-2115 | one token: the longest run of the byte before as a pair of distance one if it is at least three, a literal otherwise |
| Deflate.Deflater.DeflateRle | cpp-Qt/lib/impl/zlib/zlib-1.2.11/deflate.c:2057-2124 | keeps the tokens expanding to the input consumed, with distances of one only |
| Deflate.Deflater.DeflateHuff | cpp-Qt/lib/impl/zlib/zlib-1.2.11/deflate.c:2130-2163 | keeps the tokens expanding to the input consumed, with literals only |
| Deflate.Deflater.Deflate | cpp-Qt/lib/impl/zlib/zlib-1.2.11/deflate.c:991-1040 | for every call, chunk of input and flush: the tokens expand to a prefix of all input offered, short of it by exactly what is unread, ahead and pending, with distances within the window; to all of it when the call completes its flush |
| Deflate.Deflater.Meaning | cpp-Qt/lib/impl/zlib/zlib-1.2.11/deflate.c:1824-2163 | between calls, at every level and strategy, the tokens expand to exactly the input before strstart less the pending byte |
| Compression.Compress | cpp-Qt/lib/impl/zlib/zlib-1.2.11/deflate.c:763-1068 | for every list of chunks and flushes, window, memory level, level and strategy, the tokens of the finished stream expand to the concatenated input |
| Compression.DecoderExpands | cpp-Qt/lib/impl/zlib/zlib-1.2.11/inflate.c:1146-1196 | the decoder, given one more token, puts out exactly what the tokens expand to |
| Adler.ReduceOnce | cpp-Qt/lib/impl/zlib/zlib-1.2.11/adler32.c:92-131 | reducing the sums once at the end is as good as at every byte |
| Adler.NmaxIsExact | cpp-Qt/lib/impl/zlib/zlib-1.2.11/adler32.c:12-14 | sums fit in 32 bits n bytes after a reduction, in the worst case, exactly when n is at most NMAX = 5552 |
| Adler.Mod28 | cpp-Qt/lib/impl/zlib/zlib-1.2.11/adler32.c:33-37 | the reduction without division is exact below 2^28 |
| Adler.Mod32 | cpp-Qt/lib/impl/zlib/zlib-1.2.11/adler32.c:38-42 | exact for any 32 bits |
| Adler.Mod63 | cpp-Qt/lib/impl/zlib/zlib-1.2.11/adler32.c:43-55 | exact below 2^63 |
| Adler.Adler32Z | cpp-Qt/lib/impl/zlib/zlib-1.2.11/adler32.c:63-131 | the checksum of section 8.2 of RFC 1950, on every path, with no sum ever above 2^32 - 1 |
| Adler.ChecksumJoin | cpp-Qt/lib/impl/zlib/zlib-1.2.11/adler32.c:63-131 | the checksum of a text is that of its second part carried on from that of its first |
| Adler.CombineIsJoin | cpp-Qt/lib/impl/zlib/zlib-1.2.11/adler32.c:157-163 | the combination formula gives the checksum of the two texts one after the other |
| Adler.CombineSums | cpp-Qt/lib/impl/zlib/zlib-1.2.11/adler32.c:157-167 | two conditional subtractions are enough for each sum |
| Adler.Combine | cpp-Qt/lib/impl/zlib/zlib-1.2.11/adler32.c:143-169 | for all texts a and b, combining their checksums with the length of b gives the checksum of a followed by b |
| CrcCombine.MatrixTimes | cpp-Qt/lib/impl/zlib/zlib-1.2.11/crc32.c:344-358 | the exclusive or of the rows picked by the bits of the vector |
| CrcCombine.MatrixSquare | cpp-Qt/lib/impl/zlib/zlib-1.2.11/crc32.c:361-369 | the square of the operator for n zero bits is that for 2n |
| CrcCombine.OneZero | cpp-Qt/lib/impl/zlib/zlib-1.2.11/crc32.c:386-392 | the first matrix is the operator for one zero bit |
| CrcCombine.CombineZeros | cpp-Qt/lib/impl/zlib/zlib-1.2.11/crc32.c:394-420 | the squaring loop shifts in eight zero bits for each byte of the second part, for any length |
| CrcCombine.Combine | cpp-Qt/lib/impl/zlib/zlib-1.2.11/crc32.c:372-425 | crc32_combine of the CRCs of a and b with the length of b is the CRC of a followed by b |
| Crc.CrcCombines | cpp-Qt/lib/impl/zlib/zlib-1.2.11/crc32.c:422-424 | the CRC is linear: that of a whole is those of its parts, the first shifted by the length of the second |
| CrcTables.MakeTables | cpp-Qt/lib/impl/zlib/zlib-1.2.11/crc32.c:88-131 | the eight tables: CRCs of single bytes, the same followed by one to three zero bytes, and their byte reversals |
| CrcTables.Bytewise | cpp-Qt/lib/impl/zlib/zlib-1.2.11/crc32.c:225-234 | equals the bit-at-a-time CRC of section 8 of RFC 1952 |
| CrcTables.FourFed | cpp-Qt/lib/impl/zlib/zlib-1.2.11/crc32.c:260-263 | four bytes fed one after another are one word fed through four tables |
| CrcTables.Little | cpp-Qt/lib/impl/zlib/zlib-1.2.11/crc32.c:266-297 | equals the bit-at-a-time CRC for every buffer, starting value and address alignment |
| CrcTables.FeedWordBig | cpp-Qt/lib/impl/zlib/zlib-1.2.11/crc32.c:300-302 | the big-endian register stays the byte reversal of the little-endian one |
| CrcTables.Big | cpp-Qt/lib/impl/zlib/zlib-1.2.11/crc32.c:306-337 | equals the bit-at-a-time CRC for every buffer, starting value and address alignment |
| Crc.CrcJoin | cpp-Qt/lib/impl/zlib/zlib-1.2.11/crc32.c:189-222 | the CRC of a whole is that of its second part carried on from that of its first |
| CrcTables.Running | cpp-Qt/lib/impl/zlib/zlib-1.2.11/zlib.h:1726-1739 | the loop of the documentation, one call for each chunk at any alignment, gives the CRC of all chunks together |
| Arith.Bezout | java/src/life/unwitting/rsaLite4j.java:23-34 | a common divisor that is a combination of the two numbers is the greatest |
| Arith.Exec | java/src/life/unwitting/rsaLite4j.java:23-34 | for all non-negative a and b: the greatest common divisor, equal to a x + b y with abs(x) <= max(1, b) and abs(y) <= max(1, a) |
| Arith.Fermat | java/src/life/unwitting/rsaLite4j.java:74-82 | x to a prime power leaves the remainder of x |
| Arith.Binomial | java/src/life/unwitting/rsaLite4j.java:74-82 | the binomial theorem, on which the step of that induction rests |
| Rsa.FastPow | java/src/life/unwitting/rsaLite4j.java:74-82 | the power modulo n with the sign of truncated remainders, no product outside a long |
| Rsa.PowerBack | java/src/life/unwitting/rsaLite4j.java:74-82 | x^(e d) leaves the remainder of x modulo p q when e d leaves 1 modulo (p-1)(q-1) |
| Rsa.RoundTrip | java/src/life/unwitting/rsaLite4j.java:100-125 | for distinct primes p and q above 128 with p q < 2^31, decrypting undoes encrypting for every signed byte |
| Rsa.MainKeys | java/src/life/unwitting/rsaLite4j.java:129-131 | the built-in keys satisfy the conditions of the round trip |
| Rsa.Encrypt | java/src/life/unwitting/rsaLite4j.java:100-111 | each byte to the public power as four bytes, lowest first, in base64: an exception exactly from 402653184 bytes on, where an array is too long for an int; the text is the encoding of these numbers exactly for fewer than 2^27 bytes, because encode pads in the wrong places from there on |
| Rsa.Decrypt | java/src/life/unwitting/rsaLite4j.java:113-125 | four bytes at a time to the private power; an exception exactly when decode refuses the text or its bytes are no multiple of four |
| Rsa.EncryptDecrypt | java/src/life/unwitting/rsaLite4j.java:100-125 | decrypt(encrypt(raw)) is raw for every list of fewer than 2^27 bytes, and an exception for every longer one |
| Base64.RoundTrip | java/src/life/unwitting/base64j.java:119-142 | the digits of an encoding, however its padding is left out, decode to what was encoded |
| Base64.JavaEncode | java/src/life/unwitting/base64j.java:119-142 | the base64 encoding of section 4 of RFC 4648 exactly for fewer than 2^29 bytes; from there on the length without padding wraps, and the text is the encoding with padding for every third and fourth character from the wrapped length on; an exception exactly when the length with padding is no int |
| Base64.FirstWrong | java/src/life/unwitting/base64j.java:120-138 | at 2^29 bytes the length without padding is -715827882 and the third character is already padding |
| Base64.JavaDecode | java/src/life/unwitting/base64j.java:210-240 | drops all trailing padding; refuses exactly a length that is no multiple of four, characters that are no digits, a single digit left over, and more than 715827882 digits, whose bytes wrap to an array that is too short; otherwise what the digits stand for |
| Base64.JavaRoundTrip | java/src/life/unwitting/base64j.java:119-240 | decode(encode(in)) is in for every array of fewer than 2^29 bytes, and an exception for every other |
| Base64Lines.EncodeLines | java/src/life/unwitting/base64j.java:62-76 | the encoding of each block of bytes followed by the separator; refuses exactly the line lengths that leave no bytes in a line, wrap-around included, and results with more characters than an int counts, whatever the wrapped size estimate is |
| Base64Lines.WholeGroups | java/src/life/unwitting/base64j.java:62-65 | a positive multiple of four, while three times as much fits an int, makes lines of whole groups |
| Base64Lines.DecodeLines | java/src/life/unwitting/base64j.java:165-174 | blanks, tabs and line ends are skipped and the rest decoded, or refused exactly as by decode |
| Base64Lines.LinesRoundTrip | java/src/life/unwitting/base64j.java:62-174 | lines are decoded to what was encoded exactly when they hold whole groups or there is only one line, and there are fewer than 2^29 bytes; otherwise they are refused |
| Base64Lines.EncodeDecodeLines | java/src/life/unwitting/base64j.java:62-174 | decodeLines(encodeLines(in)) is in exactly under those conditions and when the lines can be made; otherwise one of the two refuses |
| Base64Machine.MachineEncode | cpp-Qt/lib/impl/base64/base64/base64.cpp:72-119 | the three-state encoder makes the encoding of section 4 of RFC 4648, with its end, exactly for at most 3221225469 bytes; beyond that the unsigned count of characters wraps, and what out holds up to the count returned is the last part of the encoding |
| Base64Machine.OutSizeFits | cpp-Qt/lib/impl/base64/base64/base64.h:8 | the buffer size of the macro is enough for exactly those inputs |
| Base64Machine.MachineDecode | cpp-Qt/lib/impl/base64/base64/base64.cpp:121-164 | stops at the first padding; nothing for what is not base64; otherwise what the digits stand for |
| Base64Machine.DecodeText | cpp-Qt/lib/impl/base64/base64/base64.h:41-62 | the decoder with the buffer its macro asks for: the bytes of the digits before the first padding, none for what is not base64 |
| Base64Machine.CodecsAgree | cpp-Qt/lib/impl/base64/base64/base64.cpp:72-164 | on the bytes of any Java array, both encoders make the same characters, the Java decoder undoes the C encoder, and the C decoder undoes the Java encoder, exactly for fewer than 2^29 bytes; the C codec undoes itself for all of them |
| AesTables.SubUndone | cpp-Qt/lib/impl/Qt-AES/Qt-AES/qaesencryption.h:111-149 | the inverse substitution table undoes the table for every byte |
| AesCipher.XTimeSum | cpp-Qt/lib/impl/Qt-AES/Qt-AES/qaesencryption.cpp:86-89 | xTime is linear |
| AesCipher.ColumnBack | cpp-Qt/lib/impl/Qt-AES/Qt-AES/qaesencryption.cpp:322-362 | mixing a column with the optimised formula and unmixing it with multiplications gives the column |
| AesCipher.CipherUndone | cpp-Qt/lib/impl/Qt-AES/Qt-AES/qaesencryption.cpp:418-473 | deciphering undoes ciphering for every block and every array of round keys |
| AesState.ShiftRowsOf | cpp-Qt/lib/impl/Qt-AES/Qt-AES/qaesencryption.cpp:291-318 | the swaps in place are the row shifts |
| AesState.MixColumnsOf | cpp-Qt/lib/impl/Qt-AES/Qt-AES/qaesencryption.cpp:322-343 | the columns are mixed in place |
| AesState.InvMixColumnsOf | cpp-Qt/lib/impl/Qt-AES/Qt-AES/qaesencryption.cpp:348-363 | the columns are unmixed in place |
| AesState.Encipher | cpp-Qt/lib/impl/Qt-AES/Qt-AES/qaesencryption.cpp:418-445 | the rounds in place are the cipher of section 5.1 of FIPS 197 |
| AesState.Decipher | cpp-Qt/lib/impl/Qt-AES/Qt-AES/qaesencryption.cpp:447-473 | the rounds in place are the inverse cipher of section 5.3 of FIPS 197 |
| Aes.ExpandKey | cpp-Qt/lib/impl/Qt-AES/Qt-AES/qaesencryption.cpp:214-268 | the key schedule of section 5.2 of FIPS 197, word by word |
| Aes.RemovePadding | cpp-Qt/lib/impl/Qt-AES/Qt-AES/qaesencryption.cpp:31-73 | the padding of each kind taken off, and where the source would look before the first byte |
| Aes.Pkcs7Back | cpp-Qt/lib/impl/Qt-AES/Qt-AES/qaesencryption.cpp:31-73 | PKCS7 padding can always be removed |
| Aes.ZeroBack | cpp-Qt/lib/impl/Qt-AES/Qt-AES/qaesencryption.cpp:31-73 | zero padding can be removed exactly when the text does not end in a zero byte |
| Aes.ZeroLost | cpp-Qt/lib/impl/Qt-AES/Qt-AES/qaesencryption.cpp:31-73 | of a single zero byte nothing is left and the removal looks before the first byte |
| Aes.IsoBack | cpp-Qt/lib/impl/Qt-AES/Qt-AES/qaesencryption.cpp:31-73 | ISO padding can be removed exactly when some was put, or the text is empty, or its last non-zero byte is there and is not the marker |
| Aes.IsoLost | cpp-Qt/lib/impl/Qt-AES/Qt-AES/qaesencryption.cpp:31-73 | a whole block that ends in the marker byte loses it |
| Aes.ModeBack | cpp-Qt/lib/impl/Qt-AES/Qt-AES/qaesencryption.cpp:484-621 | in ECB, CBC, CFB and OFB (sections 6.1 to 6.4 of NIST SP 800-38A) decoding undoes encoding, for every key schedule and initial vector |
| AesModes.CbcEncode | cpp-Qt/lib/impl/Qt-AES/Qt-AES/qaesencryption.cpp:537-546 | the chain of blocks built in place is CBC |
| AesModes.CfbEncode | cpp-Qt/lib/impl/Qt-AES/Qt-AES/qaesencryption.cpp:548-556 | the feedback loop that runs one block ahead is CFB |
| AesModes.OfbCode | cpp-Qt/lib/impl/Qt-AES/Qt-AES/qaesencryption.cpp:558-567 | the key stream made first and combined at once is OFB, either way |
| AesModes.CbcDecode | cpp-Qt/lib/impl/Qt-AES/Qt-AES/qaesencryption.cpp:588-596 | each block put at the end and combined there is CBC decoding; fails exactly on a partial block |
| AesModes.CfbDecode | cpp-Qt/lib/impl/Qt-AES/Qt-AES/qaesencryption.cpp:597-606 | is CFB decoding, for any length |
| AesModes.Encode | cpp-Qt/lib/impl/Qt-AES/Qt-AES/qaesencryption.cpp:484-572 | nothing without an initial vector of one block outside ECB; otherwise the padded text in the mode |
| AesModes.Decode | cpp-Qt/lib/impl/Qt-AES/Qt-AES/qaesencryption.cpp:574-621 | nothing without an initial vector of one block outside ECB; otherwise the text decoded in the mode, except that a partial last block in ECB or CBC is read past its end |
| AesModes.EncodeDecode | cpp-Qt/lib/impl/Qt-AES/Qt-AES/qaesencryption.cpp:484-621 | decode(encode(x)) is x with its padding, and under PKCS7 removing the padding gives x |
| SnmpRuns.SendsBounded | java/src/org/snmp4j/Snmp.java:1073-1155 | in every run a request is transmitted at most retries + 1 + 2 times, whatever the peer and the transport do |
| SnmpRuns.BoundReached | java/src/org/snmp4j/Snmp.java:1095-1128 | that bound is reached for every number of retries |
| SnmpRuns.Silent | java/src/org/snmp4j/Snmp.java:1073-1084 | once a request is no longer pending nothing is sent or called back for it any more |
| SnmpRuns.CancelSilences | java/src/org/snmp4j/Snmp.java:891-907 | in every run, after cancel of an asynchronous request nothing is sent for it or told to its listener |
| SnmpRuns.TimedOutOnce | java/src/org/snmp4j/Snmp.java:1332-1359 | a listener is told of a timeout at most once |
| SnmpRuns.FromStart | java/src/org/snmp4j/Snmp.java:1073-1359 | from an empty session on, in every run: at most retries + 3 transmissions of a request, none before it is sent, and at most one timeout |
| SnmpRuns.TimeoutIsExact | java/src/org/snmp4j/Snmp.java:1332-1359 | left alone among any other traffic, a request is sent exactly retries + 1 times and its timeout comes after retries + 1 times its timeout |
| SnmpRuns.RequestTimeoutFits | java/src/org/snmp4j/DefaultTimeoutModel.java:45-47 | getRequestTimeout is that time exactly when retries + 1 fits an int and the product a long |
| SnmpRuns.RequestTimeoutWraps | java/src/org/snmp4j/DefaultTimeoutModel.java:45-47 | with 2^31 - 1 retries and a timeout of 1 it is -2^31 |
| Snmp.Snmp.PduHandleAssigned | java/src/org/snmp4j/Snmp.java:1307-1327 | the request takes the place under the handle, with its task due one timeout later |
| Snmp.Snmp.Send | java/src/org/snmp4j/Snmp.java:771-782 | exactly the send step of the state machine, for each fate of the message |
| Snmp.Snmp.RunTask | java/src/org/snmp4j/Snmp.java:1332-1375 | exactly the timer step: a retry in place of the request, a failure, or a timeout |
| Snmp.Snmp.ProcessResponse | java/src/org/snmp4j/Snmp.java:1032-1061 | exactly the response step: the listener is called and the request stays |
| Snmp.Snmp.ProcessReport | java/src/org/snmp4j/Snmp.java:1075-1155 | exactly the report step: sent again at most by its status, or taken away |
| Snmp.Snmp.CancelRequest | java/src/org/snmp4j/Snmp.java:891-907 | exactly the cancel step |
| Snmp.Snmp.WakeUp | java/src/org/snmp4j/Snmp.java:743-763 | exactly the end of a synchronous send |
| RequestIds.IdOfCall | java/src/org/snmp4j/MessageDispatcherImpl.java:152-159 | call after call, from any int, the identifiers run through 1 to 2^31 - 1 round and round |
| RequestIds.SameId | java/src/org/snmp4j/MessageDispatcherImpl.java:152-159 | two identifiers are equal exactly when they are a multiple of 2^31 - 1 calls apart |
| RequestIds.MessageDispatcher.GetNextRequestID | java/src/org/snmp4j/MessageDispatcherImpl.java:152-159 | always in 1 to 2^31 - 1, with the counter moved on |
| NetworkAddress.FreeBits | cpp-Qt/lib/impl/QNetworkAddress.cpp:45-51 | the broadcast address is the network number plus the bits the mask leaves free |
| NetworkAddress.Calculate | cpp-Qt/lib/impl/QNetworkAddress.cpp:45-75 | for every address and mask the odometer ends and lists network, network + 1, ..., broadcast - 1, exactly as many as the complement of the mask |

## Left out

- InfTrees.InflateTable: that 852 and 592 entries are always enough is not proved (it was found by exhaustive search);
  the size check is proved exact. The caller's duty that code length codes have at most `bits` bits is a
  precondition, because the source checks no size for them.
- Inflate.Inflater.Inflate: raw streams only; the zlib and gzip headers and trailers, Z_BLOCK and Z_TREES,
  `inflatePrime`, preset dictionaries, smaller windows, allocation failures and
  INFLATE_ALLOW_INVALID_DISTANCE_TOOFAR_ARRR are not part of this model.
- Inflate.Inflater.UpdateWindow: the window is said to hold the history only while it is in use; after an error or at
  the end of the stream the source may skip its update.
- SyncSearch.TakeHeld: the hold is not cut off at the width of an unsigned long; the bytes taken are below it.
- Deflate.Deflater.Deflate: whether the output buffer is full after a block is left open (both are allowed), because
  the bit output of `trees.c` (`_tr_flush_block`, `_tr_stored_block`, `_tr_align`) is not part of this model; so are
  stream states, headers, `deflate_stored`, `deflateParams`, `deflateTune`, `deflatePrime` and
  `deflateSetDictionary`.
- Deflate.Deflater.DeflateFast: that its choice of tokens is a good one is stated for `longest_match` only.
- Matcher.LongestMatch: the comparison by bytes; the variant for unaligned reads of two bytes (UNALIGNED_OK) is left
  out, and the FASTEST variant too. `w_mask` is a remainder by the window size.
- CrcTables.MakeTables: `crc32.h` holds the same tables as literals; they are not compared.
- Rsa.MainKeys: `initialize` and `GetPrimeNumber` (random keys in a fixed range) are left out; `initialize` also
  stores a coefficient as the product.
- Base64Lines.EncodeLines: that memory runs out, or that a virtual machine allows somewhat shorter arrays than an int
  counts, is not modelled here nor in the other methods on Java arrays.
- Base64Machine.MachineDecode: the variant tables of the original header and line breaks are not part of this model.
- AesModes.Decode: a partial block in ECB or CBC is said to be read past its end, not what is read there.
- Aes.ExpandKey: keys of exactly the length of the level; the branches that use AES-NI are left out, and so are the
  sizes in `expandedKey`, which nothing reads.
- Snmp.Snmp.Send: unconfirmed messages, which are sent without a request, and closing a session are left out; so are
  races inside `run`, `cancel` and `processReport`, because each is one atomic step.
- Snmp.Snmp.CancelRequest: two requests under one handle or one key, which replace each other in the tables, are
  excluded by the assumption on handles and keys.
- NetworkAddress.Calculate: an address is its four octets; the dotted text, which is compared in the source, is not
  modelled, nor is the parsing of the inputs.
- `infback.c`, `gzread.c`, `gzwrite.c`, `gzlib.c`, `compress.c`, `uncompr.c`: copies with callbacks, and drivers.
- BER encoding of SNMP messages, sockets, logging, dialogs and the HTTP code: outside the scope of these models.
- `SimpleCrypt` and `rsaUtils4j`: easy chains around library calls.
