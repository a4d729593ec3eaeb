# Web Polygraph in Dafny

A model of the stateful cores of Web Polygraph, an HTTP benchmarking tool, with proofs of
what they keep. `dafny verify dfyconfig.toml` checks the whole project.

Each core has a specification on values (datatypes, functions and lemmas) and, where the
source updates objects in place, classes whose methods are proved to do exactly what the
specification says. Laws are proved on the specification for all inputs and all runs and so
hold of the methods. Where a specification says how something is computed, a law beside it
says what it comes to in other terms: numerals by literal alphabets, sequence numbers by
neighbouring frames, the wait for workers by the wake-ups alone.

| files | what they model |
|---|---|
| Wrappers | the option type and the limits of a 32-bit `int` |
| CText, Decimal, Numerals | the C text routines: `isspace`, digits, `strtoll`, `isInt`, decimal output, and what numerals mean |
| ChunkedCoding, ChunkedParser | the incremental chunked decoder (section 3.6.1 of RFC 2616) |
| LogFormat, OutputLog, InputLog, LogRoundTrip | the buffered binary log, its writer and its reader |
| BeepFraming, BeepRun, BeepWire, BeepSession | BEEP framing (section 2.2.1 of RFC 3080) over rollback buffers |
| CacheIndex, CacheStore | the object cache: linked hash chains, FIFO policy, size accounting |
| Log2Bins, HistogramSpec, Histogram, HistogramLog, Percentiles | the histogram stack |
| StringRangeSpec, StringRangeIndex, StringRangeMerge, StringRange | string ranges as mixed-radix counters |
| IpRangeSpec, IpRange | compaction of address ranges |
| PipelineSpec, PipelineOrder, PipelineRuns, PipelineLinks, PipelineDrain, Pipeline | HTTP pipelining (section 8.1.2.2 of RFC 2616) |
| XactForestSpec, XactRetries, XactForest | the tree of transactions and their causes, with retries |
| Workers, WorkerRuns | waiting for worker processes, with escalation |

## Where the code differs from its intent

The model follows the code. Several properties one would expect hold only under a condition,
which is proved exact or shown necessary by a concrete input:

- **Chunked decoder.** The size line is converted by `strtoll`, which skips white space
  including the line's own CRLF. On an all-blank size line it reads whatever memory follows.
  Slicing is irrelevant if and only if no such line is met (`ChunkedDecoding.SlicingTheorem`).
- **BEEP.** `putMsg` takes a message number before it knows whether the frame fits, so a
  refused message leaves a gap that the peer rejects. A conversation arrives in full if and
  only if no refusal lies between two accepted messages of one channel
  (`BeepRun.ConversationTheorem`). A frame that arrives in part is rolled back and more is
  asked for, unless the part ends right before the digits of a header number: that is reported
  as malformed (`BeepFraming.TornFrameTheorem`). A bare line feed ends a line only if
  something follows it (`BeepWire.LineFeedTheorem`).
- **Cache.** Purging an empty entry from a full cache trips the assertion that space has been
  gained (`CacheStore.Cache.CacheIt`, with a run in `CacheStore.FillsUpAndAborts`).
- **Histograms.** An empty histogram adopts the limits of the one it adds but keeps its own
  kind of bins, so a linear one that adds a log2 one holds bins of the other kind
  (`Histograms.Histogram.Add` gives the exact condition, `Histograms.KindsMatter` an input).
- **String ranges.** `find` converts in the base the spelling suggests and past the end of the
  number: item 0 of `[0]` followed by `x1f` is not found at its index
  (`StringRangeSpec.HexLookalikeIsLost`), nor is item 1 of `[0-19]` with a 9 behind it in
  memory (`StringRangeSpec.MemoryGoesOn`); the exact condition is `StringRangeSpec.FindTheorem`.
  A range without blocks counts 0 items and lists one.
- **Pipelining.** Whether a transaction needs more filling is decided before its body is
  poured. When the last of a body is poured and written out in the same callback, its
  transaction leaves the writers while still a filler, returns, and blocks the next one
  (`PipelineRuns.LateBodyBlocksTheNext`); `PipelineRuns.StepTheorem` is the exact condition.
  The three lines thread one link field of the transaction (src/client/PipelinedCxm.h:45), and
  a queue asserts that the field is free before it takes a transaction in
  (src/xstd/Queue.h:84-99), although the manager puts every transaction into two lines at once.
  `PipelineLinks.ClashTheorem` says exactly when the assertion fails; from the start it fails at
  the first request that is filled (`PipelineLinks.StillTheorem`). The other results on
  pipelining are about the three lines as they are meant, with a link field each.
- **Transaction tree.** A transaction that finishes without a connection is forgotten on an
  early return (`XactForestSpec.TimedOutStays`). All are recycled if and only if none did so
  while childless (`XactForestSpec.AllRecycledTheorem`).
- **Workers.** The closing report says that workers were killed even when the escalation
  found nobody left; `Workers.ClosingReport` says exactly when.
- **Percentiles.** A comment in the source asks whether there can be fewer entries than asked
  for; in exact arithmetic there cannot (`PercentileRanks.Percentiles`).

## Model

| member | source | states |
|---|---|---|
| CText.IsIntIsLocal | src/xstd/gadgets.cc:121-143 | On a line holding something besides white space, the integer conversion gives the same result whatever memory follows the line. |
| CText.ConversionTheorem | src/xstd/gadgets.cc:121-143 | For every line that ends in a line feed: the conversion is independent of the memory behind the line if and only if the line holds something besides white space. This is what breaks the chunked decoder below. |
| Numerals.ValueTheorem | src/xstd/gadgets.cc:121-143 | Digits evaluate to a number if and only if they spell it in the literal alphabets 0123456789abcdef and 0123456789ABCDEF, most significant digit first. |
| Numerals.ReadsNumeral | src/xstd/gadgets.cc:121-143 | Behind any blanks and an optional sign, a numeral of the base is read as its number up to the first other character (a lone 0 before an x aside), and not at all outside 32 bits; without a numeral nothing is read. |
| Numerals.ReadsByLook | src/xstd/gadgets.cc:121-143 | With base 0 a numeral that begins with 0 is read as octal, any other as decimal. |
| Numerals.ReadsPrefixed | src/xstd/gadgets.cc:121-143 | With base 0 or 16 a numeral behind 0x or 0X is read as hexadecimal. |
| Numerals.ReadsHexDigit | src/xstd/gadgets.cc:121-143 | Each of the sixteen digits, in either case and followed by CRLF, reads as its place in the alphabet. |
| HttpText.HttpFindCrlf | src/runtime/HttpFindCrlf.cc:10-35 | The scan finds the first line feed and the run of carriage returns before it, as the specification function says. |
| HttpText.FindCrlfIsLocal | src/runtime/HttpFindCrlf.cc:10-35 | An end of line once found stays the same when more bytes arrive. |
| HttpText.FindCrlf | src/runtime/HttpFindCrlf.cc:10-35 | The first line feed, with exactly the carriage returns that stand directly before it; nothing if there is no line feed. |
| HttpText.FindCrlfOfLine | src/runtime/HttpFindCrlf.cc:10-35 | For a line without a line feed or a closing carriage return, the found end of line is exactly its CRLF. |
| ChunkedDecoding.ParseSplits | src/client/ChunkedCodingParser.cc:70-99 | Running the decoder on a first piece and then on what it left plus the second piece equals one run on both, as long as no all-blank size line is met. |
| ChunkedDecoding.FeedIsOneParse | src/client/ChunkedCodingParser.cc:70-99 | Any list of slices, with any memory behind each, gives the state, delivered content, trailers, error flag and unconsumed bytes of one call on the joined bytes. |
| ChunkedDecoding.BlankSizeLineMatters | src/client/ChunkedCodingParser.cc:109-132 | Whenever an all-blank size line is met there is a cut of the stream at which two memories behind the first slice leave different numbers of bytes unconsumed. |
| ChunkedDecoding.SlicingTheorem | src/client/ChunkedCodingParser.cc:70-196 | For every byte string: slicing and memory do not matter if and only if the decoder meets no all-blank chunk size line. |
| ChunkedDecoding.RoundTrip | src/client/ChunkedCodingParser.cc:109-196 | Every valid chunk and trailer list encoded per section 3.6.1 of RFC 2616, with each size spelled in hexadecimal digits of either case, decodes to the joined data and the trailers, ends at the message end without error, leaves all following bytes, and meets no blank size line. |
| ChunkedDecoding.SlicedRoundTrip | src/client/ChunkedCodingParser.cc:70-196 | The same however the encoded message and what follows it are cut into slices. |
| ChunkedDecoding.BadSizeIsRefused | src/client/ChunkedCodingParser.cc:109-132 | A size line that holds no number where one is due, a negative one or one beyond 32 bits ends decoding in an error with nothing consumed. |
| ChunkedDecoding.ChunkEndTheorem | src/client/ChunkedCodingParser.cc:152-169 | Behind the data of a chunk, decoding goes on behind the first line feed if and only if nothing but carriage returns stands before it; otherwise it ends in an error with nothing consumed. |
| ChunkedDecoding.JunkIsRefused | src/client/ChunkedCodingParser.cc:134-169 | A chunk with junk behind its data delivers the data and then fails. |
| ChunkedDecoding.EmptyLineIsBlank | src/client/ChunkedCodingParser.cc:109-132 | A concrete input: on CRLF alone a blank size line is met and slicing does matter. |
| ChunkedParsing.ParseBuffer.Consume | src/client/ParseBuffer.h:31-39 | Consuming advances the view; consuming too much consumes everything. |
| ChunkedParsing.ChunkedCodingParser.ParseChunkBeg | src/client/ChunkedCodingParser.cc:109-132 | The size line step on the object is the specification step: wait, fail, or consume the line and set sizes and phase; what sizes those are is fixed by ReadsNumeral. |
| ChunkedParsing.ChunkedCodingParser.ParseChunkBody | src/client/ChunkedCodingParser.cc:134-150 | The body step hands over at most what is left of the chunk and moves on when nothing is left. |
| ChunkedParsing.ChunkedCodingParser.ParseChunkEnd | src/client/ChunkedCodingParser.cc:152-169 | The step after a chunk: wait, fail on anything but CRLF, or go on to the next size line. |
| ChunkedParsing.ChunkedCodingParser.ParseTrailerHeader | src/client/ChunkedCodingParser.cc:171-196 | The trailer step reports a header or, on an empty line, the end of the message. |
| ChunkedParsing.ChunkedCodingParser.ParseData | src/client/ChunkedCodingParser.cc:70-79 | The whole loop over the fields equals the pure decoder on the same view and memory, and returns what it consumed. |
| LogFormat.Be32RoundTrip | src/base/OLog.h:48-49 | Loading a stored 32-bit integer gives it back. |
| LogFormat.Be32OfBytes | src/base/ILog.cc:21-37 | Storing what was loaded from any four bytes gives the bytes back. |
| LogFormat.Be32IsBigEndian | src/base/OLog.h:48-49 | The four bytes weighed from the left are the number, negative ones counted down from 2 to the 32nd. |
| LogFormat.SpelledOut | src/base/OLog.cc:143-201 | Both headers, an entry and a trailer, byte by byte. |
| OutputLog.OLog.Stream | src/base/OLog.cc:32-42 | Opening starts an empty log with the header of the chosen kind. |
| OutputLog.OLog.Capacity | src/base/OLog.cc:44-60 | Growing the buffer keeps the logical log, its pieces and the open entry. |
| OutputLog.OLog.Resize | src/base/OLog.cc:62-71 | The chosen capacity is large enough; the log is unchanged. |
| OutputLog.OLog.Flush | src/base/OLog.cc:93-121 | A flush of n hands over the first min(n, ready) buffered bytes, never those of the open entry, and keeps the logical log. |
| OutputLog.OLog.Put | src/base/OLog.h:200-212 | Putting bytes appends them to the logical log, to the open entry if there is one, through any overflow. |
| OutputLog.OLog.Overflow | src/base/OLog.cc:123-141 | Bytes that do not fit are appended all the same: fill, flush what may go, grow, put the rest. |
| OutputLog.OLog.PutInts | src/base/OLog.cc:203-207 | The array writer appends the count and the elements. |
| OutputLog.OLog.BegEntry | src/base/OLog.cc:143-151 | A new entry opens with a placeholder size and its tag and an empty payload. |
| OutputLog.OLog.EndEntry | src/base/OLog.cc:153-172 | The open entry becomes a closed one, its size field patched to its true length and the directory counting it; nothing written so far changes. |
| OutputLog.OLog.Abort | src/base/OLog.cc:73-85 | Exactly the bytes of the unfinished entry are dropped. |
| OutputLog.OLog.PutTrailer | src/base/OLog.cc:195-201 | The trailer is an empty prefix, the directory and the directory's length. |
| OutputLog.OLog.Close | src/base/OLog.cc:73-91 | After closing, the stream holds the rendering of all closed entries and the trailer; an unfinished entry is gone. |
| OutputLog.PatchedSize | src/base/OLog.cc:153-165 | Overwriting the four placeholder bytes at the entry pointer turns the open entry into the closed one and touches nothing else. |
| OutputLog.DirectoryAdds | src/base/OLog.cc:160-171 | The directory update counts the entry under its tag and records where the first of its kind ended. |
| LogRoundTrip.OpenEntryStaysBuffered | src/base/OLog.cc:93-113 | In every valid state what has been written is a prefix of the closed entries: no byte of an open entry is on the stream. |
| LogRoundTrip.Run | src/base/OLog.cc:32-207 | For every legal run of operations on a log of any capacity, the closed stream is the rendering of what the run closed plus a trailer with the right directory. |
| InputLog.LoadsBack | src/base/ILog.cc:21-37 | The prefix of a valid entry loads back to its size, category and tag, and is good. |
| InputLog.LoadsAny | src/base/ILog.cc:31-37 | Any 32-bit size and any 16-bit category and tag, negative ones included, load back from their bytes. |
| InputLog.BeginsNext | src/base/ILog.cc:69-102 | Beginning an entry skips progress entries and lands on the next other entry, or on the trailer. |
| InputLog.ReadingUndoesWriting | src/base/ILog.cc:69-108 | Alternating begin and end, however much of each payload was read, yields exactly the non-progress entries in order with tag, category, size and bytes, then the trailer. |
| InputLog.IntactPrefixes | src/base/ILog.cc:21-26 | A prefix counts as intact if and only if its category is 0 to 2, its tag 0 to 275 and its size 1 to ten megabytes. |
| InputLog.RecoverableRecords | src/base/ILog.cc:84-88 | The scan behind a corrupted prefix can stop at progress records shorter than 1024 bytes and at no other records. |
| InputLog.BeginsBehindCorruption | src/base/ILog.cc:69-102 | If records are laid out from the first offset behind a corrupted prefix that the scan can stop at, beginning an entry at the corruption begins the first of them that is no progress record, or the trailer. |
| InputLog.ReadingBehindCorruption | src/base/ILog.cc:69-108 | A session begun at the corruption visits exactly the non-progress records behind that offset, in order, and then the trailer. |
| InputLog.NothingBehindCorruption | src/base/ILog.cc:69-102 | Without such an offset nothing more is read. |
| InputLog.ILog.Get | src/base/ILog.cc:190-200 | A read succeeds exactly when the data suffices, and fails for good otherwise. |
| InputLog.ILog.Ignore | src/base/ILog.cc:212-218 | Skipping past the end fails the stream, otherwise it moves it. |
| InputLog.ILog.EndEntry | src/base/ILog.cc:104-108 | The rest of the entry is skipped; an overread entry is fatal. |
| InputLog.ILog.Resync | src/base/ILog.cc:69-102 | The byte-by-byte scan finds the first recoverable prefix behind a bad one, if there is one. |
| InputLog.ILog.BeginEntry | src/base/ILog.cc:69-102 | The loop over the stream equals the pure search, in each of its three outcomes; what the search finds on intact and on corrupted logs is stated by BeginsNext and BeginsBehindCorruption. |
| LogRoundTrip.ReadsBackTheRun | src/base/ILog.cc:69-108 | The reader started behind the header reads back from the written stream exactly the entries that were written. |
| LogRoundTrip.RenderedIsLaid | src/base/OLog.cc:143-172 | What the writer renders for a list of records is the layout the reader is proved against. |
| LogRoundTrip.WriteThenRead | src/base/ILog.cc:69-108 | Writer and reader together: any sequence of operations that logs a list of records, with flushes and reservations anywhere and a buffer of any size, gives a stream from which the reader visits exactly the non-progress records in order with their sizes and bytes, and then the trailer. |
| Decimal.ValueOfPrint | src/beep/BeepSessionMgr.cc:225-238 | Evaluating the digits of a printed number gives it back. |
| Decimal.PrintOfValue | src/beep/BeepSessionMgr.cc:295-306 | Printing the value of digits without leading zeros gives the digits back. |
| Numerals.OnlyPrint | src/beep/BeepSessionMgr.cc:225-238 | The printed number is the only decimal spelling of it without leading zeros. |
| BeepFraming.ReadsFrame | src/beep/BeepSessionMgr.cc:86-153 | A printed frame is read back as the same message and leaves what follows it, even when the payload contains the trailer text. |
| BeepFraming.TornFrameTheorem | src/beep/BeepSessionMgr.cc:86-153 | A frame cut at any place is not delivered and no channel changes; the input is as it was and more is asked for, unless the cut leaves a header number without its first digit: then the data is reported as malformed. |
| BeepWire.FrameFormat | src/beep/BeepSessionMgr.cc:36-84 | The bytes of a frame: type, channel, message number, a dot, octet number and size in decimal without leading zeros, the answer number for an answer, CRLF, the payload, END and CRLF. |
| BeepRun.WireReadsBack | src/beep/BeepSessionMgr.cc:86-153 | A wire of frames is delivered in full if every sequence check passes, and ends in an error if one does not. |
| BeepWire.SequencingTheorem | src/beep/BeepChannel.cc:28-43 | For any frames on known channels, whoever numbered them: all are delivered if and only if on every channel each message number is the one before plus 1 and each octet number the one before plus the length of what it carried, starting where the receiver stands; otherwise reading ends in an error. |
| BeepWire.FreshSequencing | src/beep/BeepChannel.cc:28-43 | The same for a session that has heard nothing yet, which takes any numbers to start with. |
| BeepWire.LineFeedTheorem | src/beep/BeepSessionMgr.cc:253-281 | A bare line feed is taken as the end of a line if and only if something follows it; at the end of the content more is asked for. |
| BeepWire.SpacesMayLack | src/beep/BeepSessionMgr.cc:264-277 | A frame without the spaces behind its type and around its dot reads like its proper form. |
| BeepWire.LineFeedsWillDo | src/beep/BeepSessionMgr.cc:279-292 | A frame whose lines end in bare line feeds reads like its proper form, if something follows it. |
| BeepWire.UnknownChannelIsRefused | src/beep/BeepSessionMgr.cc:130-146 | A frame on a channel the session does not have is an error and changes no channel. |
| BeepWire.OtherTrailerIsRefused | src/beep/BeepSessionMgr.cc:283-292 | Five bytes behind the payload that do not begin with END and a line end are an error. |
| BeepWire.OtherTypeIsRefused | src/beep/BeepSessionMgr.cc:86-110 | Three bytes that are none of the five message types are an error. |
| BeepRun.ConversationTheorem | src/beep/BeepSessionMgr.cc:36-153 | Between fresh sessions with the same channels: everything accepted comes back in order with every check passing if and only if no refused message lies between two accepted ones of one channel (section 2.2.1 of RFC 3080). |
| BeepRun.OneRefusalLosesTheNext | src/beep/BeepSessionMgr.cc:36-153 | A concrete conversation: of two accepted messages around a refused one, the receiver ends in an error. |
| BeepSession.BeepSessionMgr.StartChannel | src/beep/BeepSessionMgr.cc:31-34 | A new channel joins the others with fresh numbering. |
| BeepSession.BeepChannel.NextMsgNo | src/beep/BeepChannel.cc:16-18 | Asking for a message number uses it up, whether or not the message gets out. |
| BeepSession.BeepChannel.ConsumedMsg | src/beep/BeepChannel.cc:28-43 | A received message passes when message and octet numbers are the expected ones, and advances both; over whole wires that is SequencingTheorem. |
| BeepSession.IOBuf.Append | src/runtime/IOBuf.cc:83-89 | Appending extends the content when the space allows. |
| BeepSession.IOBuf.Consumed | src/runtime/IOBuf.h:41-41 | Consuming drops a prefix of the content and moves the front offset; when nothing is left both offsets go back to zero. |
| BeepSession.IOBuf.Pack | src/runtime/IOBuf.cc:137-147 | Packing keeps the content and regains all space. |
| BeepSession.IOBuf.RestoreState | src/runtime/IOBuf.cc:129-135 | Restoring brings back the offsets that were saved. |
| BeepSession.BeepSessionMgr.PutFrame | src/beep/BeepSessionMgr.cc:36-84 | The frame goes out whole when it fits in the space; otherwise the output is as it was. |
| BeepSession.BeepSessionMgr.PutMsg | src/beep/BeepSessionMgr.cc:36-84 | Accepted exactly when the output is good and the frame fits; the output grows by the frame or not at all; a refusal still uses up a message number. |
| BeepSession.BeepSessionMgr.GetMsg | src/beep/BeepSessionMgr.cc:86-153 | Reading on the buffers equals the pure parser, including rollback, error and need-more flags. |
| BeepSession.BeepSessionMgr.GetInt | src/beep/BeepSessionMgr.cc:295-306 | The integer primitive equals the pure scan and sets the flags the same way; digits that reach the end of the content are a number. |
| BeepSession.BeepSessionMgr.ContentOutUsed | src/beep/BeepSessionMgr.cc:187-191 | What was sent leaves the output and its space comes back. |
| BeepSession.BeepSessionMgr.SpaceInUsed | src/beep/BeepSessionMgr.cc:169-172 | Arrived bytes extend the input. |
| CacheIndex.LessIsStrictTotal | src/base/ObjId.h:156-177 | The id order is a strict total order that agrees with equality. |
| CacheIndex.InsertRepresents | src/cache/CacheEntryHash.cc:35-46 | Inserting at the place found keeps all chains sorted and makes the table the map with one more key. |
| CacheIndex.RemoveRepresents | src/cache/CacheEntryHash.cc:48-55 | Unlinking the found entry keeps all chains sorted and removes exactly its key. |
| CacheIndex.InsertSpelledOut | src/cache/CacheEntryHash.cc:35-40 | Redirecting one link to the entry and the entry to where the link pointed inserts it into that chain and no other. |
| CacheIndex.RemoveSpelledOut | src/cache/CacheEntryHash.cc:48-55 | Redirecting the link to where the entry points removes it from that chain and no other. |
| CacheIndex.CacheEntryHash.Find | src/cache/CacheEntryHash.cc:25-33 | Found if and only if the id is stored; the link returned is the entry's own or the place to insert it. |
| CacheIndex.CacheEntryHash.AddAt | src/cache/CacheEntryHash.cc:35-40 | Hanging an entry on the found link adds its key to the map; the count is the map's size. |
| CacheIndex.CacheEntryHash.Add | src/cache/CacheEntryHash.cc:42-46 | Adding a new entry adds exactly its key. |
| CacheIndex.CacheEntryHash.DelAt | src/cache/CacheEntryHash.cc:48-55 | Deleting at the found link removes exactly that key and unhooks the entry. |
| CacheIndex.CacheEntryHash.NodesAreStored | src/cache/CacheEntryHash.cc:25-55 | The entries linked into the table are exactly the stored ones. |
| CacheStore.Cache.Lookup | src/cache/Cache.cc:75-78 | The stored entry for the id, or none. |
| CacheStore.Cache.PurgeEntry | src/cache/Cache.cc:110-129 | A stored entry leaves index, queue and size together; the final assertion fails exactly when no space is left after the purge. |
| CacheStore.Cache.MakeRoom | src/cache/Cache.cc:80-108 | The purge loop evicts the shortest prefix of the admission queue that makes room and ends with enough space. |
| CacheStore.Cache.CacheIt | src/cache/Cache.cc:80-108 | Refused when known or too large; otherwise the oldest are evicted and the entry admitted last; aborts exactly when the cache is full and the oldest entry is empty. |
| CacheStore.FillsUpAndAborts | src/cache/Cache.cc:80-129 | A concrete run: an empty entry, one that fills the cache and one more; the third is answered by an abort. |
| CacheStore.CachePolicy.NoteAdmitted | src/cache/CachePolicy.h:22-22 | Admission appends to the queue. |
| CacheStore.CachePolicy.NotePurged | src/cache/CachePolicy.h:23-23 | Purging takes the entry out of the queue and keeps the order of the others. |
| Log2Bins.Val2Bin | src/base/histograms.cc:57-69 | The shift loop computes the bin of a value. |
| Log2Bins.Bin2ValIsValOf | src/base/histograms.cc:71-82 | The shift expression of a bin's value equals the doubling definition: bins above 512 start at twice the value 256 bins below. |
| Log2Bins.BinOfValOf | src/base/histograms.cc:57-82 | Every bin's own value falls into that bin. |
| Log2Bins.BinOfIsMonotone | src/base/histograms.cc:57-69 | Larger values never go to smaller bins. |
| Log2Bins.PrecisionTheorem | src/base/histograms.cc:57-82 | For every value of 32 bits: its bin starts at or below it, the next bin above it, no 32-bit overflow, width 1 below 512 and at most 1/256 of the value above. |
| Log2Bins.LogSmth | src/base/histograms.cc:137-142 | The shift count is the integer logarithm. |
| Log2Bins.ExpSmth | src/base/histograms.cc:144-149 | The shift loop computes the power of two. |
| Log2Bins.GroupMaxIncreases | src/base/histograms.cc:227-263 | Groups further on have larger maxima. |
| Log2Bins.SizeGroupId | src/base/histograms.cc:219-235 | A size belongs to the first group whose maximum is not below it. |
| Log2Bins.UseGroupId | src/base/histograms.cc:250-263 | The same for connection use counts. |
| HistogramSpec.SpreadIsNonNegative | src/base/AggrStat.cc:62-71 | Count times the sum of squares is never below the square of the sum, so the root is taken of a non-negative number. |
| HistogramSpec.StatisticsStaySane | src/base/AggrStat.cc:89-92 | Statistics of any samples pass the sanity test. |
| HistogramSpec.BinHoldsItsInterval | src/base/Histogram.cc:196-222 | A value lands in an inner bin if and only if the iterator's interval for the bin contains it; the two extreme bins also take what lies beyond. |
| HistogramSpec.BinsSumToCount | src/base/Histogram.cc:42-47 | The bins always add up to the number of samples. |
| Histograms.AggrStat.Record | src/base/AggrStat.cc:26-41 | Recording a sample yields the statistics of all samples so far. |
| Histograms.AggrStat.Add | src/base/AggrStat.cc:43-60 | Adding yields the statistics of the samples of both. |
| Histograms.Histogram.Record | src/base/Histogram.cc:42-47 | Recording keeps bins and statistics those of all samples. |
| Histograms.Histogram.Add | src/base/Histogram.cc:49-69 | Adding sums the bins one by one and joins the statistics, adopting the other's limits but not its kind of bins when empty; the result is the histogram of the samples of both if and only if the other's bins are those of its samples under this kind, as they are when the kinds agree. |
| Histograms.SumOfBins | src/base/Histogram.cc:55-69 | Bins summed with the bins of some samples are the bins of all samples if and only if the added ones are the bins of theirs. |
| Histograms.KindsMatter | src/base/Histogram.cc:49-69 | A concrete input: the log2 bins of 513 are not linear bins of 513. |
| Histograms.SameSamplesSameHistogram | src/base/Histogram.cc:42-69 | Bins and statistics are determined by limits and samples, however they were collected. |
| Histograms.MergedEqualsRecorded | src/base/Histogram.cc:42-69 | Recording xs and adding a histogram of ys equals recording xs and then ys, bin by bin and statistic by statistic. |
| HistogramLog.Store | src/base/Histogram.cc:71-100 | Storing writes limits, statistics and the bins, sparse or dense by the space rule. |
| HistogramLog.PairsIfShorter | src/base/Histogram.cc:71-100 | The bins are stored as pairs if and only if the pairs take at most four fifths of the room of all bins. |
| HistogramLog.SpelledOut | src/base/Histogram.cc:71-100 | Three stored histograms, number by number. |
| HistogramLog.Load | src/base/Histogram.cc:102-125 | Loading what was stored into a reset histogram with equal limits restores every bin and statistic and reads nothing more. |
| PercentileRanks.Rank | src/base/Histogram.cc:226-249 | There is a first bin whose cumulative count reaches the share, for every share up to the whole. |
| PercentileRanks.HistogramConstIter.Sync | src/base/Histogram.cc:203-222 | Synchronising puts the iterator on the bin at its index with that bin's bounds and count. |
| PercentileRanks.EntryEndsAtRank | src/base/Histogram.cc:174-249 | The first bin whose cumulative count reaches (j+1)/n of the total is not idle; entry j carries its upper bound and cumulative count, the index and lower bound of the first busy bin behind the entry before, and counts exactly the samples in between. |
| PercentileRanks.Percentiles | src/base/Histogram.cc:226-249 | With step 1/n and a non-empty histogram the loop over the iterator gives exactly n entries; entry j begins at the first busy bin behind the entry before and ends at the first bin whose cumulative count reaches (j+1)/n of the total. |
| StringRangeSpec.PositionIsUnique | src/base/StringRange.cc:86-94 | Different combinations of block positions have different indexes. |
| StringRangeSpec.PositionInRange | src/base/StringRange.cc:64-94 | Every combination's index is below the count. |
| StringRangeSpec.BlockText | src/base/StringRangeBlocks.cc:115-223 | A block contributes its own text, or its number in decimal, or the 32 bits of its number in lower-case hexadecimal without leading zeros. |
| StringRangeSpec.HexSpells | src/base/StringRangeBlocks.cc:115-223 | The hexadecimal text spells its number, in lower case and without leading zeros. |
| StringRangeSpec.OnlyHex | src/base/StringRangeBlocks.cc:115-223 | It is the only such text. |
| StringRangeSpec.CommonTailIsLongest | src/base/StringRangeBlocks.cc:67-82 | The tail match of a point is its longest common suffix with the text. |
| StringRangeSpec.ReadsIffStands | src/base/StringRangeBlocks.cc:136-156 | A printed non-negative number is read back as itself if and only if what follows it would not be read as part of it in the base its spelling suggests. |
| StringRangeSpec.FindTheorem | src/base/StringRange.cc:71-84 | With any memory behind the text, looking up a combination's text returns its index if and only if every point is non-empty and every number is non-negative, has no digit before it and stands in front of what follows, in the text or in memory. |
| StringRangeSpec.WellSpacedIsFound | src/base/StringRange.cc:71-84 | In a range whose points are non-empty and whose decimal intervals are non-negative and set off by points that neither end nor begin in a digit nor begin with x, every text is found at its index, if memory does not go on a number at its end. |
| StringRangeSpec.HexLookalikeIsLost | src/base/StringRangeBlocks.cc:136-156 | The clause about x is needed: item 0 of [0] followed by x1f is not found at its index. |
| StringRangeSpec.MemoryGoesOn | src/base/StringRangeBlocks.cc:136-156 | The clause about memory is needed: item 1 of [0-19] with a 9 behind it in memory is not found at its index. |
| StringRangeIndex.DigitsOfPosition | src/base/StringRange.cc:137-150 | The mixed-radix digits of an index are the combination with that index. |
| StringRangeIndex.FindInvertsItem | src/base/StringRange.cc:71-130 | For every index of a decimal range and any memory behind the item, find(item(i)) is i if and only if all blocks of the item stand alone. |
| StringRangeIndex.WellSpacedFindInvertsItem | src/base/StringRange.cc:71-130 | find(item(i)) is i for every index of a well-spaced range, if memory does not go on a number at the item's end. |
| StringRangeMerge.MergeTheorem | src/base/StringRange.cc:187-218 | Merging ranges that differ in one block adds the counts, and the merged range has the items of both and no others. |
| StringRangeMerge.MergedHas | src/base/StringRangeBlocks.cc:158-181 | Merging keeps the spelling; touching intervals share no member, so nothing is counted twice. |
| StringRangeMerge.BlockDiffTheorem | src/base/StringRangeBlocks.cc:158-175 | Intervals in one base count as one difference if and only if they share no number and are an interval together, and as none if and only if they have the same numbers. |
| StringRanges.StringRangeBlock.FindPoint | src/base/StringRangeBlocks.cc:67-82 | The backward comparison equals the longest common suffix match. |
| StringRanges.StringRangeBlock.FindInterval | src/base/StringRangeBlocks.cc:136-156 | The backward digit scan and conversion equal the specification match. |
| StringRanges.StringRange.Count | src/base/StringRange.cc:64-69 | The product of the block counts; 0 for the range without blocks. |
| StringRanges.StringRange.Find | src/base/StringRange.cc:71-84 | The accumulation from the tail yields the index of the positions read off, or nothing. |
| StringRanges.StringRange.IterPos | src/base/StringRange.cc:86-94 | The accumulated position is the index of the current combination. |
| StringRanges.StringRange.StartIter | src/base/StringRange.cc:132-135 | Starting puts all blocks on position 0 and the index at 0. |
| StringRanges.StringRange.SkipIter | src/base/StringRange.cc:137-150 | Blocks up to the early exit get their digit of the distance; those it does not reach have digit 0 and keep their old position, so from all zeros the iterator ends on the combination asked for. Succeeds exactly for distances within the range. |
| StringRanges.StringRange.NextIter | src/base/StringRange.cc:152-169 | The index grows by one, or wraps to 0 with the end reported. |
| StringRanges.StringRange.CurrentIter | src/base/StringRange.cc:171-177 | The text of the current combination; BlockText says what each block contributes. |
| StringRanges.StringRange.StrAt | src/base/StringRange.cc:120-130 | The item of the index, for exactly the indexes below the number of combinations. |
| StringRanges.StringRange.ToStrs | src/base/StringRange.cc:111-118 | All items in index order; the range without blocks, whose count is 0, lists one empty string. |
| StringRanges.StringRange.CanMergeSameType | src/base/StringRange.cc:187-205 | True for a range without blocks, else if and only if the ranges have equally many blocks and differ by one touching interval, in spite of the early exit. |
| StringRanges.StringRange.MergeSameType | src/base/StringRange.cc:207-218 | The blocks become the merged ones, or copies of the other's; the other range is unchanged. |
| IpRanges.IpRange.CanMerge | src/base/IpRange.cc:24-40 | The loop decides whether the boxes agree in all parts but one, where the second continues the first. |
| IpRanges.IpRange.Merge | src/base/IpRange.cc:42-53 | A mergeable box is absorbed in that part; otherwise nothing changes. |
| IpRanges.IpRange.Includes | src/base/IpRange.cc:62-73 | True if and only if every address of the other box is in this one. |
| IpRanges.IpRange.Count | src/base/IpRange.cc:75-80 | The product of the part widths. |
| IpRangeSpec.MergedIsValid | src/base/IpRange.cc:42-53 | A merged box keeps every part inside its limit. |
| IpRangeSpec.MergeConserves | src/base/IpRange.cc:42-53 | The merged box covers every address exactly as often as the two did together. |
| IpRanges.MergeAddsSizes | src/base/IpRange.cc:42-80 | The counts of merged boxes add up. |
| IpRangeSpec.PassTheorem | src/base/IpRange.cc:103-120 | A pass keeps the length if and only if no neighbours merge, and then changes nothing. |
| IpRangeSpec.CompactAllTheorem | src/base/IpRange.cc:103-133 | Compacting keeps every address as often as it was there and leaves no neighbours to merge. |
| IpRanges.CompactUndoesListing | src/base/IpRange.cc:19-133 | Listing all addresses of any box in order and compacting the list gives exactly that box back, which is what compaction is for. |
| IpRangeSpec.CompactUndoesSpelling | src/base/IpRange.cc:96-133 | The same from any stage: spelling out the leading parts of a box and compacting is the identity. |
| IpRangeSpec.SpelledOutIsSingles | src/base/IpRange.cc:13-17 | Spelled out in all parts, a box is a list of single addresses, each of its own once and no other. |
| IpRanges.CompactAddrs | src/base/IpRange.cc:103-120 | One pass equals the specification, reports whether it merged nothing, and strictly shrinks the list otherwise. |
| IpRanges.CompactAllAddrs | src/base/IpRange.cc:122-133 | The loop of passes ends; the result covers each address as often as it was listed, no neighbours merge, and the counts add up to the number of addresses. |
| PipelineOrder.FillKeepsPhase | src/client/PipelinedCxm.cc:99-112 | Filling keeps lines, progress and credit, for any space and any amounts poured. |
| PipelineOrder.CreditHasOwner | src/client/PipelinedCxm.cc:114-144 | Positive credit belongs to the first writer, whose size is known; credit that covers its request means the request is completely filled. |
| PipelineOrder.MoveOnTheorem | src/client/PipelinedCxm.cc:120-144 | After a write the lines are in order again, unless the head filler had its whole body poured and the buffer was written out: then it leaves the writers while still a filler. |
| PipelineRuns.StepTheorem | src/client/PipelinedCxm.cc:50-161 | One callback keeps order and credit if and only if the event comes in time: no response over before its request is written, no write that sends off the last of a body poured in the same callback. |
| PipelineRuns.RunTheorem | src/client/PipelinedCxm.cc:50-161 | Over whole runs, every state is in order if and only if every event comes in time. |
| PipelineRuns.BodilessRunTheorem | src/client/PipelinedCxm.cc:50-161 | With requests without bodies and responses in time, order and credit hold in every state of every run. |
| PipelineRuns.CreditTheorem | src/client/PipelinedCxm.cc:114-144 | Credit plus buffered bytes equal the bytes filled by the transactions now in the writers line; positive credit lies strictly below the known size of the first of them. |
| PipelineRuns.OrderTheorem | src/client/PipelinedCxm.cc:50-76 | Transactions become readers and finish in the order they came under control; one that is in neither of the first two lines is on the wire to its last byte. |
| PipelineRuns.OverlapTheorem | src/client/PipelinedCxm.cc:99-144 | Neighbouring lines share at most one transaction, the last of one and the first of the other. |
| PipelineRuns.StartIsInv | src/client/PipelinedCxm.cc:38-43 | Taking over the connection's first transaction as reader establishes the invariant. |
| PipelineDrain.FillTheorem | src/client/CltXact.cc:184-222 | A request without a header waits until half the buffer is free and fails if its header would fill the buffer up; then as many body bytes follow as are offered, needed and fit. |
| PipelineDrain.WireTheorem | src/client/PipelinedCxm.cc:99-144 | A write callback puts on the wire exactly what the socket takes of what is in the buffer after filling, if somebody stands among the writers, and nothing else leaves the buffer. |
| PipelineDrain.DrainedTheorem | src/client/PipelinedCxm.cc:114-144 | With requests without bodies and the buffer empty, the filled requests are exactly those among the readers or finished, and no credit is left. |
| PipelineDrain.DrainTheorem | src/client/PipelinedCxm.cc:99-144 | With requests without bodies, one write callback more than there are fillers, each sending all that is in the buffer, brings every request wholly onto the wire and into the readers or finished, in the order of control. |
| PipelineRuns.LateBodyBlocksTheNext | src/client/HttpCltXact.cc:338-354 | A concrete run, given a link field for each line: a body poured to its end and sent off in one callback puts its transaction back among the writers, and the next request, wholly on the wire, never becomes a reader. |
| PipelineLinks.ClashTheorem | src/xstd/Queue.h:84-99 | Between callbacks in order, a transaction is enqueued while its link field is in use exactly in a write callback that fills one that is not the last of the writers, or credits one that is not the last of the readers. |
| PipelineLinks.StillStep | src/xstd/Queue.h:84-99 | While nothing has been filled, the assertion fails exactly when write space comes with somebody waiting whose header fits; otherwise nothing is filled or sent. |
| PipelineLinks.StillTheorem | src/client/PipelinedCxm.cc:99-144 | From the start, a run in which the assertion never fails fills no request and sends no byte behind the first. |
| PipelineLinks.LateRunClashes | src/xstd/Queue.h:84-99 | The concrete run above meets the assertion. |
| Pipelines.CltXact.ControlledFill | src/client/CltXact.cc:184-222 | The header is made when half the buffer is free and must leave room; as many body bytes follow as are offered, needed and fit; whether more is needed is decided before pouring. |
| Pipelines.CltXact.ControlledPostWrite | src/client/CltXact.cc:247-262 | The request's size is taken off the credit exactly when the credit covers it. |
| Pipelines.PipelinedCxm.Control | src/client/PipelinedCxm.cc:50-54 | A transaction joins the fillers and write interest is there. |
| Pipelines.PipelinedCxm.FillBuffer | src/client/PipelinedCxm.cc:99-112 | The fill loop over the object equals the specification. |
| Pipelines.PipelinedCxm.MasterWrite | src/client/CltXact.cc:224-244 | One raw write moves the smaller of what the socket takes and what is buffered to the wire and to the credit. |
| Pipelines.PipelinedCxm.PassOn | src/client/PipelinedCxm.cc:120-144 | The loop over the writers equals the specification. |
| Pipelines.PipelinedCxm.NoteWriteReady | src/client/PipelinedCxm.cc:99-144 | The whole callback is one step of the state machine, or an abort where a header does not fit; the wire grows by exactly the smaller of what the socket takes and what is buffered after filling. |
| Pipelines.PipelinedCxm.NoteDone | src/client/PipelinedCxm.cc:68-76 | The first reader leaves; read interest stays exactly while readers are left. |
| XactForestSpec.RecycleTheorem | src/client/Client.cc:544-560 | Recycling a transaction and its causes leaves nothing finished and childless in use, except the stuck ones; whoever is recycled on the way was finished, and whoever stays keeps all but its child count. |
| XactForestSpec.StepTheorem | src/client/Client.cc:314-358 | Every event keeps the tree invariant, including child counts equal to the number of children in use; a transaction becomes stuck exactly when it finishes without a connection and without children; who is over afterwards was over before or is ended by the event, and whoever leaves was over or is ended by it. |
| XactForestSpec.RunTheorem | src/client/Client.cc:314-572 | Over every run the invariant holds, recycled transactions stay recycled, a transaction is over in the end if and only if it was or an event of the run ended it, and the stuck set is unchanged if and only if no transaction stranded. |
| XactForestSpec.RecycledTheorem | src/client/Client.cc:544-560 | From the start, for every run: every recycled transaction was ended by an event of the run, and nobody in use has a recycled cause. |
| XactForestSpec.AllDoneTheorem | src/client/Client.cc:544-572 | When all transactions in use are finished, none is left in use if and only if none is stuck. |
| XactForestSpec.AllRecycledTheorem | src/client/Client.cc:314-572 | From the start, for every run that ends with all finished: all are recycled if and only if no transaction finished without a connection while childless. |
| XactForestSpec.TimedOutStays | src/client/Client.cc:314-330 | A concrete run: a transaction that is over before it has a connection stays in use for ever. |
| XactForestSpec.RetryChainTheorem | src/client/Client.cc:800-818 | No chain of consecutive retries in any reachable client is longer than eleven transactions. |
| XactForestSpec.RunCountsAttempts | src/client/Client.cc:800-818 | The count of consecutive failures is at least the number of attempts made so far. |
| XactRetries.RetryTheorem | src/client/Client.cc:800-818 | A finished transaction brings forth a retry if and only if it had a connection, the client is not idle, a retry is wanted, and no eleven transactions have failed in a row. |
| XactRetries.IdleStays | src/client/Client.cc:800-818 | An idle client stays idle and retries nothing. |
| XactRetries.ElevenInLine | src/client/Client.cc:800-818 | The bound is reached: a run from the start with one transaction and ten retries of it in use together. |
| XactForests.Client.GenXact | src/client/Client.cc:562-572 | A new transaction is linked to its cause, which counts it. |
| XactForests.Client.RecycleXact | src/client/Client.cc:544-560 | The loop up the causes equals the specification. |
| XactForests.Client.LaunchCanceled | src/client/Client.cc:530-535 | A cancelled transaction is finished and recycled with its causes. |
| XactForests.Client.ShouldRetry | src/client/Client.cc:800-818 | Retry when not idle and between one and ten failures in a row were counted. |
| XactForests.Client.NoteXactDone | src/client/Client.cc:314-358 | What follows a finished transaction: nothing without a connection, else retry if called for, recycling, and cancelling a retry that cannot be launched. |
| Workers.MonitorIsBounded | src/app/WorkersRunner.cc:82-123 | With n workers at most n + 4 wake-ups count, and after as many the monitor is through. |
| Workers.StepProgress | src/app/WorkersRunner.cc:82-196 | The waiting state never goes back; every exit and every alarm that was set uses up patience. |
| Workers.SignalTheorem | src/app/WorkersRunner.cc:125-196 | Signals go only to workers still running, everybody running has been sent exactly what the state calls for, and nobody is killed without having been asked to terminate. |
| WorkerRuns.EscalationTheorem | src/app/WorkersRunner.cc:82-196 | After any wake-ups, told from these alone: who is left in the table, that an error is reported if and only if a worker of ours failed, that the state goes one step further with each alarm from the first exit on, and that the third such alarm gives up. |
| Workers.ClosingReport | src/app/WorkersRunner.cc:82-123 | For any workers and any sequence of wake-ups from the start: the monitor ends with everybody stopped, nothing ever sent, and the report that others were killed, if and only if the last wake-up it handled brought both the last exit and the first alarm. |
| Workers.KilledNobodyHappens | src/app/WorkersRunner.cc:118-123 | A concrete run of two workers that stop by themselves and are reported killed. |
| Workers.WorkersRunner.HandleStoppedWorker | src/app/WorkersRunner.cc:125-165 | The worker leaves the table, the counter follows, and the wait for the others starts; unknown processes change nothing. |
| Workers.WorkersRunner.HandleAlarm | src/app/WorkersRunner.cc:167-196 | Terminate, then kill everybody running, then give up. |
| Workers.WorkersRunner.Monitor | src/app/WorkersRunner.cc:82-123 | The loop equals the specification on every sequence of wake-ups. |

## Left out

- Sockets, file scanning, alarms, DNS, SSL, Kerberos, zlib, random numbers, configuration and reports: events, parameters or identity streams.
- Integer widths where sums stay small in practice: `Size` arithmetic in logs, sequence numbers and sizes in BEEP, counts of string ranges and address ranges are unbounded; 32-bit limits are kept in `isInt`, the log2 bins and the histogram bin subtraction.
- Chunked decoder: the next parser consumes all it is handed, as the parser for arbitrary bodies does; leftovers and buffer overflow notices are not modelled; messages in the round trip have chunk extensions and headers without line feeds of their own.
- Output log: the subclass that writes the magic header and trailer around the log is represented by the header at the start of the item list; progress record contents are bytes.
- Input log: end of file and failure of the stream are one flag.
- BEEP: message types outside the enumeration are not modelled; bytes scribbled beyond the space by a refused print are not part of the content.
- Cache: ids and sizes of entries are constant while cached, the hash respects equality and is non-negative; stray entries, farms and distribution points are not modelled.
- Histograms: sums are exact integers instead of doubles, percentile shares are exact fractions with step 1/n.
- Address ranges: names and ports of addresses; a family other than IPv6 counts as IPv4, as in the source.
- Pipelining: 100-continue pauses, aborts and abort positions, response bytes already buffered when a request is written. An abort ends the run. The write buffer is its size, packed after every write as the connection does.
- Transaction tree: launching, suspension and peers are events with any outcome; the pool reuses objects, the model makes new ones.
- Workers: every fork gives a distinct positive process id; the wait call returns a process or is interrupted.
- ChunkedDecoding.SlicingTheorem: for a next parser that consumes all it is handed, because one that does not leaves the position of its own bytes open.
- BeepRun.ConversationTheorem: for frames that have arrived whole, because `BeepFraming.TornFrameTheorem` covers the parts.
- BeepSession.BeepSessionMgr.GetInt: the position after digits that reach the end of the content is taken to be that end; libraries that report -1 there make the source step back one byte instead.
- StringRangeSpec.FindTheorem: for decimal intervals, because in base 16 the tail scan stops at letters and converts in base 10, 8 or 16 by the look of the digits.
- PipelineRuns.StepTheorem: without 100-continue pauses and aborts, where a transaction leaves the lines by other ways.
- PercentileRanks.Percentiles: in exact fractions, because rounding of the accumulated share is not modelled.
- XactForestSpec.StepTheorem: a transaction for which no next hop is found is neither launched nor cancelled in the source; here it stays in use, unfinished, and no later event happens to it.
- CacheStore.Cache.CacheIt: the state after an abort is not described, because the source ends the process there.
- FTP, NTLM and SPNEGO transactions, private cache counters, group names and statistics field lists: plumbing that would add only easy members.
