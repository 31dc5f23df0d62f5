# rypipe: model and proofs

rypipe turns row-oriented bytes into columnar tables. Each fast or parallel path of it is meant to
agree with a simple sequential meaning. This project models those paths and their meanings and
proves the agreements, for all inputs, all runs and all schedules.

- `ParallelStream`, `ParallelStreamProofs`, `StreamOutcomes`, `Reorderer`: ordered parallel
  streaming as a state machine over worker and coordinator steps, its invariant, its termination,
  what its runs report and hold, and the coordinator's loop as code.
- `Bits`, `QuoteScan`, `BlockMasks`: the 64-byte block scanner with cached masks, prefix-XOR
  parity and a cursor that carries quote state, against a byte-at-a-time scan (the quoting rule
  is AttValue, production 10 in section 2.3 of XML 1.0).
- `Digits`, `Decimal`, `DecimalText`: exact decimal comparison, parsing and formatting within
  128 bits.
- `RecordStream`, `LineParser`: the incremental record stream and the newline parser.
- `TextLines`, `Boundary`, `SplitPoints`, `Chunking`, `Ldif`, `Ini`, `Properties`: where an input
  may be cut, and what cutting does to the rows that three adapters emit.
- `Values`, `Filters`, `Table`, `TableBuilders`, `Merge`, `ChunkedRead`, `AdapterReads`: the
  columnar builder against a list of row maps, merging of chunk tables, and whole chunked reads
  of the three formats.
- `Spill`, `SpillRuns`: the spilling sink against a builder that never spills.
- `Bitmap`, `Arena`, `StrColumns`, `Dictionaries`, `Unify`: validity bitmaps, string buffers and
  dictionary encoding (the "Validity bitmaps", "Variable-size Binary Layout" and
  "Dictionary-encoded Layout" of the Apache Arrow Columnar Format).
- `Fusion`, `Pushdown`, `PlanMeaning`: pushing a prefix of pipeline stages into the parser's plan,
  exactly when that is right, and that the table builder does what such a plan means.

Words of 64 bits and bytes of 8 are sequences of booleans, bit `i` at index `i`. Where the source
works on a growing buffer or vector in place, a field or variable of sequence type is updated. A
class here keeps a ghost value (`model`, `contents`, `cells`) that its `Valid()` ties to the real
fields, and each method states the new ghost value.

## Where the code and its documentation differ

The model follows the code.

- `find_split_points` is documented to place nominal offsets at `bytes.len() * i / n`
  (crates/rypipe-core/src/decoder.rs:192); the code uses `bytes.len() / n * i` (line 251).
- `plan_chunk_count_with` is documented to return at least `threads` (line 31); more threads than
  the cap of 1024 get only the cap.
- The strict reorder-limit error of the coordinator
  (crates/rypipe-core/src/parallel_stream.rs:380-385) cannot occur.
- Properties that hold only under a condition are stated with it, and the condition is shown to be
  needed or exact: a quote byte of 0 or a delimiter that is a quote (`BlockMasks.FastPathExact`,
  `BlockMasks.WrongAnswers`), an unclosed INI header (`Ini.ChunkedParseExact`), and for pushdown an
  empty rename, a schema, a lenient source, native values, repeated fields, a renamed filter field
  and a drop of every column (the `Exact` lemmas of `Pushdown`), a seed with
  an incomplete index (`Unify.ChunkExact`, `Unify.UnifyColumns`), rows flushed before any kept
  value is sent (`SpillRuns.SpillRun`, with the input of `SpillRuns.EmptyRowLost`), the smallest
  128-bit integer (`DecimalText.FormatParses`).

## Model

| member | source | states |
|---|---|---|
| ParallelStreamProofs.OrderedSafety | crates/rypipe-core/src/parallel_stream.rs:294-388 | In every state of every run, under any schedule and any failures, an ordered stream has shown its consumer exactly chunks 0..k-1 in order; every buffered chunk lies in [next, next + max_reorder], and strictly ahead of next except while the buffer is flushed; the byte counter equals the size of the buffered batches and so never underflows; the reorder-limit error never fires |
| StreamOutcomes.RunsFinish | crates/rypipe-core/src/parallel_stream.rs:294-413 | Every run has at most 7·chunks + threads + 3 steps; a run that cannot go on has finished with every worker gone; it succeeded exactly when no step of it was a failed parse or a consumer call that refused a chunk it was shown, and then every chunk was delivered exactly once (in order when `ordered`) with nothing left pending or queued |
| StreamOutcomes.OutcomeExact | crates/rypipe-core/src/parallel_stream.rs:363-398 | Which verdict a stopped run has, told from the history of its steps: the consumer's error if and only if the consumer was shown a chunk and refused it; the parser's if and only if some parse failed and nothing was refused; success if and only if there was neither |
| StreamOutcomes.OneFailureEach | crates/rypipe-core/src/parallel_stream.rs:319-355 | A worker whose parse failed parses nothing more |
| StreamOutcomes.WindowExact | crates/rypipe-core/src/parallel_stream.rs:300-312 | A worker waits exactly while its chunk is more than `max_reorder` ahead of the published position |
| StreamOutcomes.HeldBounded | crates/rypipe-core/src/parallel_stream.rs:246-388 | In every state of every run the channel holds at most its capacity and, while receiving, the reorder buffer at most `max_reorder` chunks; an unordered stream buffers none |
| ParallelStreamProofs.NotStuck | crates/rypipe-core/src/parallel_stream.rs:294-355 | No reachable unfinished state is stuck: some worker or the coordinator can move, for any number of chunks, threads, channel slots and window size, also after an error |
| ParallelStreamProofs.MeasureFalls | crates/rypipe-core/src/parallel_stream.rs:294-413 | Every step of every schedule makes one measure smaller |
| ParallelStreamProofs.Conservation | crates/rypipe-core/src/parallel_stream.rs:294-388 | No step creates, duplicates or forgets a chunk: queue, workers, channel, coordinator, buffer, consumer and dropped chunks together hold the same multiset |
| ParallelStreamProofs.ReorderAccounting | crates/rypipe-core/src/parallel_stream.rs:363-386 | A batch received out of turn is ahead of the cursor and inside the window, is not buffered yet, adding its size does not saturate, and in strict mode the sum stays within the reorder limit, so that error branch is dead |
| ParallelStreamProofs.StopComplete | crates/rypipe-core/src/parallel_stream.rs:364-398 | When the channel runs dry with every sender gone, no failure happened and everything was delivered |
| ParallelStreamProofs.InvPreserved | crates/rypipe-core/src/parallel_stream.rs:246-413 | Every enabled step keeps shape, conservation, order, in-flight admission, failure tracking and the settled verdict |
| ParallelStreamProofs.RunInv | crates/rypipe-core/src/parallel_stream.rs:246-413 | The invariant holds in every state of every run from the initial state |
| ParallelStreamProofs.WindowTotal | crates/rypipe-core/src/parallel_stream.rs:215-220 | Any set of chunks inside one reorder window adds up to at most window width times the per-slot allowance |
| Reorderer.Coordinating.OnMessage | crates/rypipe-core/src/parallel_stream.rs:360-398 | The coordinator's loop body for one message, as the code writes it, ends in the state that the machine steps for that message reach, and returns exactly when the machine stops |
| Reorderer.Coordinating.Flush | crates/rypipe-core/src/parallel_stream.rs:370-376 | The flush loop over the buffer ends where the machine's drain steps end, and publishes the new position |
| Reorderer.DeliverIsRun | crates/rypipe-core/src/parallel_stream.rs:360-398 | What the loop body computes is a run of enabled machine steps |
| Reorderer.DeliverMeans | crates/rypipe-core/src/parallel_stream.rs:360-398 | What the loop body shows the consumer: chunks in turn, each accepted but perhaps the last; it returns the consumer's error exactly when it showed one that was refused, and the parser's exactly on a failed message |
| Bits.PrefixXor | crates/rypipe-core/src/block_masks.rs:41-49 | Six shift-and-xor steps give, at every bit, the parity of all bits up to it |
| BlockMasks.Scanner.Next | crates/rypipe-core/src/block_masks.rs:229-248 | At any position and after any earlier queries, the answer is that of a linear scan for the byte |
| BlockMasks.Scanner.NextAny | crates/rypipe-core/src/block_masks.rs:253-286 | The same for the first of several bytes, and it reports which one it is |
| BlockMasks.Scanner.MaskFor | crates/rypipe-core/src/block_masks.rs:178-187 | The cached mask is the exact mask of the byte in the loaded block |
| BlockMasks.Scanner.EnsureAll | crates/rypipe-core/src/block_masks.rs:208-217 | After it, every delimiter's cached mask is exact |
| BlockMasks.Scanner.NextUnquoted | crates/rypipe-core/src/block_masks.rs:301-333 | The answer is the byte-at-a-time matching-quote scan, with the quote state carried over from the call before, across blocks and tail, for any quote set in which the delimiter is not listed exactly once, nor 0 unless the delimiter is listed too |
| BlockMasks.Scanner.ScanBlockUnquoted | crates/rypipe-core/src/block_masks.rs:335-390 | Within one block, by parity or by events, the hit and the quote state left behind are those of the scalar scan, for any quote set in which the delimiter is not listed exactly once, nor 0 unless the delimiter is listed too; from outside with one entry of the set alone in the block the answer is the parity formula, whatever the set |
| BlockMasks.Scanner.ScanByParity | crates/rypipe-core/src/block_masks.rs:344-361 | The prefix-XOR fast path answers with the first delimiter bit of even quote parity; where it is taken on such a quote set, that is the block answer of the scalar scan |
| BlockMasks.Scanner.ScanByEvents | crates/rypipe-core/src/block_masks.rs:362-389 | The event-walking path gives the same block answer, for any quote bytes and any delimiter |
| BlockMasks.Scanner.SingleQuoteRemaining | crates/rypipe-core/src/block_masks.rs:392-407 | It names a quote byte if and only if exactly one entry of the quote set occurs in the rest of the block, and then that byte is the only quote byte there |
| BlockMasks.FastPathAnswers | crates/rypipe-core/src/block_masks.rs:344-361 | On a block whose remaining quotes are all one byte, neither the delimiter nor 0, delimiter bits with even quote parity are exactly the hits outside quotes |
| BlockMasks.AloneAnswers | crates/rypipe-core/src/block_masks.rs:344-361 | So it is on every block in which the scanner takes that path, for any quote set in which the delimiter is not listed exactly once, nor 0 unless the delimiter is listed too |
| BlockMasks.FastPathExact | crates/rypipe-core/src/block_masks.rs:344-361 | For every quote set, listed entries repeated or not: on all one-block buffers on which the scanner takes the parity path it equals the scalar scan if and only if the delimiter is not listed exactly once and 0 (the code's marker for "not in a quote") is not either, unless the delimiter is listed |
| BlockMasks.ScanFresh | crates/rypipe-core/src/block_masks.rs:335-361 | The scanner, as it runs, gives the parity path's answer on such a buffer |
| BlockMasks.WrongAnswers | crates/rypipe-core/src/block_masks.rs:344-361 | The scanner, run on two delimiters that are the quote byte, stops at the second; run on a zero quote byte and a delimiter, it misses the delimiter; the scalar scan does neither |
| BlockMasks.ForwardRun | crates/rypipe-core/src/block_masks.rs:301-387 | Every forward run of calls (from a start, then each last hit + 1) gives at each call the answer of a fresh scalar scan, if every delimiter asked for is such a one |
| BlockMasks.RunStep | crates/rypipe-core/src/block_masks.rs:301-333 | One call of such a run equals the scalar `scan_unquoted` from that position, and leaves the cursor in step, for any quote set in which the delimiter is not listed exactly once, nor 0 unless the delimiter is listed too |
| BlockMasks.PlainScan | crates/rypipe-core/src/block_masks.rs:597-620 | With no quote bytes the matching-quote scan is the plain scan |
| BlockMasks.NeverAtQuote | crates/rypipe-core/src/block_masks.rs:597-620 | A delimiter that is itself a quote byte is never reported by the scalar scan |
| QuoteScan.ReachScan | crates/rypipe-core/src/block_masks.rs:597-620 | Scanning may be resumed from any later position reached without a hit, with the quote state reached there |
| QuoteScan.ReplaySplits | crates/rypipe-core/src/block_masks.rs:597-610 | What the quote state stands for: the bytes read so far are plain bytes and whole quoted regions, each closed by its own quote byte, and perhaps one open region; the state is the quote byte of that one, or 0 |
| QuoteScan.SplitReplays | crates/rypipe-core/src/block_masks.rs:597-610 | The other way round: however a text splits into such pieces and an open region, the state after it is that region's quote byte, or 0 |
| QuoteScan.ScanFirst | crates/rypipe-core/src/block_masks.rs:597-620 | The scalar scan gives the first place from there on where the delimiter stands with no region open and is no quote byte, or nothing if there is none |
| Decimal.CompareDecimal128Exact | crates/rypipe-core/src/plan/predicate.rs:522-548 | For any two 128-bit values and any scales, comparing padded digit strings gives the order of the two unbounded integers at the larger scale |
| Decimal.LexicographicIsNumeric | crates/rypipe-core/src/plan/predicate.rs:533-543 | Digit strings of equal length compare as their numbers |
| Decimal.ShorterIsSmaller | crates/rypipe-core/src/plan/predicate.rs:537-539 | Of two numbers without leading zeros the shorter is the smaller, also after scaling |
| DecimalText.ParseDecimal128Exact | crates/rypipe-core/src/columnar/scalar_parse.rs:29-62 | For a text that is, after trimming, an optional sign, digits, and perhaps a point and digits with at least one digit in all: the result is the truncated scaled magnitude with its sign if the scale is at most 38 and the magnitude fits, and nothing otherwise |
| DecimalText.AcceptedIsWritten | crates/rypipe-core/src/columnar/scalar_parse.rs:29-62 | Whatever is accepted is such a text |
| DecimalText.MagnitudeExact | crates/rypipe-core/src/columnar/scalar_parse.rs:40-61 | The checked 128-bit steps give the truncated magnitude exactly when it fits; no intermediate step overflows earlier |
| DecimalText.FormatParses | crates/rypipe-core/src/columnar/scalar_parse.rs:29-76 | Parsing a formatted value gives it back if and only if the scale is at most 38 and the value is not the smallest 128-bit integer; otherwise nothing comes back |
| DecimalText.FormatWritten | crates/rypipe-core/src/columnar/scalar_parse.rs:64-76 | The formatted text is a minus sign for negative values and nothing otherwise, then the digits of the magnitude with the point exactly `scale` of them from the end and no point for scale 0; at least one digit comes before the point, and a leading zero only alone |
| DecimalText.Trimmed | crates/rypipe-core/src/columnar/scalar_parse.rs:30 | Trimming takes white space from both ends and nothing else |
| RecordStream.Stream.Feed | crates/rypipe-core/src/streaming_parser.rs:81-86 | Valid bytes are appended to what is pending, invalid ones change nothing |
| RecordStream.Stream.Parse | crates/rypipe-core/src/streaming_parser.rs:101-129 | For every parser that composes over prefixes: whatever the interleaving of feeds and parses, the records so far are those of all bytes fed so far, and the consumed bytes followed by the pending ones are everything fed; once the end was parsed by a parser that settles there, parsing again emits and consumes nothing |
| RecordStream.Stream.Consume | crates/rypipe-core/src/streaming_parser.rs:112-127 | Advancing and compacting the buffer drops exactly the consumed bytes from what is pending |
| RecordStream.ParseEquivalent | crates/rypipe-core/src/streaming_parser.rs:101-129 | After a parse, parser state and pending bytes still stand for everything fed |
| RecordStream.FeedEquivalent | crates/rypipe-core/src/streaming_parser.rs:81-86 | The same after a feed |
| LineParser.StepComposes | crates/rypipe-core/src/streaming_parser.rs:140-167 | The newline parser composes over prefixes, so the stream theorem applies to it |
| LineParser.StepSettles | crates/rypipe-core/src/streaming_parser.rs:140-167 | At the end of the input the newline parser has nothing left to emit, so a second parse after it finds nothing |
| LineParser.LinesCompose | crates/rypipe-core/src/streaming_parser.rs:148-167 | Lines of two chunks are the lines of the first, then those of its unfinished rest with the second |
| LineParser.ConsumesToLastNewline | crates/rypipe-core/src/streaming_parser.rs:148-167 | Exactly the bytes up to the last newline are consumed |
| LineParser.OneLine | crates/rypipe-core/src/streaming_parser.rs:148-167 | A completed line is one record, its decoded text, or none if that is empty |
| LineParser.ParseAvailable | crates/rypipe-core/src/streaming_parser.rs:148-167 | The loop over newlines computes those records and that count |
| Boundary.FindNextRecordBoundary | crates/rypipe-core/src/decoder.rs:322-408 | It always ends, with one past the first newline at or after `from` that is a boundary, or nothing if there is none |
| Boundary.FirstBoundaryIsFirst | crates/rypipe-core/src/decoder.rs:322-408 | That position is a boundary and none before it is; nothing means there is none |
| Boundary.IsContinuedNewline | crates/rypipe-core/src/decoder.rs:288-302 | A newline is continued exactly when an odd run of backslashes precedes it, not counting a carriage return |
| Boundary.TestNewline | crates/rypipe-core/src/decoder.rs:340-406 | The tests of one round, in the code's order and with its early exits, decide the declarative boundary predicate over continuation, comments and blank-line mode |
| Boundary.ManualBoundary | crates/rypipe-core/examples/engine_probe.rs:104-135 | The hand-written scan, as its own loop over newlines with its own backslash count and backward search, finds in the plain, continued, comment and blank-line modes what the declarative scan finds, from every start in every input |
| Boundary.BoundaryLine | crates/rypipe-core/src/decoder.rs:322-408 | Which lines end a record, by their texts: a line that does not end with the continuation character (an odd run of it for the backslash) before an optional carriage return, and begins with no comment prefix; in blank-line mode an empty one, and the line before it must pass the same two tests |
| Boundary.BoundaryFirst | crates/rypipe-core/src/decoder.rs:322-408 | The same for the first line, which never ends a record in blank-line mode |
| SplitPoints.PlanChunkCount | crates/rypipe-core/src/decoder.rs:33-46 | At least one chunk a thread unless the cap is smaller, never more than the cap, and more than one a thread only if every chunk keeps the size floor |
| SplitPoints.CountExact | crates/rypipe-core/src/decoder.rs:33-46 | The count is the largest k up to 1024 that is no more than the threads, or keeps the size floor (k times the floor fits the input) with at most 16 chunks a thread, or 8 for a stream |
| SplitPoints.InSkipRegion | crates/rypipe-core/src/decoder.rs:78-108 | True exactly when some opener inside the window before the position has no closer between it and the position |
| SplitPoints.FindSplitPoints | crates/rypipe-core/src/decoder.rs:230-271 | The points are 0, the length and the accepted splitter answers, each once and ascending; the two ends alone for one chunk or no input |
| SplitPoints.InteriorFromSplitter | crates/rypipe-core/src/decoder.rs:248-259 | Every point strictly inside is an answer of the splitter |
| SplitPoints.PointsAre | crates/rypipe-core/src/decoder.rs:248-259 | It is the answer for the nominal offset `len / n * i` of one of the chunks 1..n-1, and lies in no skip region |
| SplitPoints.AnswersTaken | crates/rypipe-core/src/decoder.rs:248-259 | Every such answer is a point of the plan |
| SplitPoints.RangesCover | crates/rypipe-core/src/decoder.rs:629-644 | The ranges are non-empty, each starts where the one before ends, and their slices are the input |
| Chunking.ChunksAgree | crates/rypipe-core/src/decoder.rs:629-644 | If no cut shows in the prefix it cuts, parsing range by range is parsing the whole, failures included |
| Chunking.ChunksExact | crates/rypipe-core/src/decoder.rs:629-644 | If each cut shows exactly when a condition on it fails, the whole plan is invisible exactly when all the conditions hold |
| Ldif.ParseChunk | examples/rypipe-ldif/src/lib.rs:47-103 | The line loop with its `in_record` flag sends one row for each group of lines between blank lines that is more than comments, with its wanted fields in order, and nothing else; it fails if such a group holds a folded, base64 or URL line |
| Ldif.LineMeans | examples/rypipe-ldif/src/lib.rs:53-94 | What a line sends: a blank one closes an open row, a folded one fails, a comment sends nothing, any other opens the row; with a colon it is key, colon, blanks and value (no colon in the key, only spaces in the blanks, no space before the value), fails exactly if a colon or `<` follows the first colon, and otherwise sends that value under that key if the key is wanted and nothing if not |
| Ldif.RecordsAreGroups | examples/rypipe-ldif/src/lib.rs:51-100 | Folding lines with the flag is cutting them at the blank lines and turning each group into a row |
| Ldif.GroupsAre | examples/rypipe-ldif/src/lib.rs:54-60 | The groups put back together with a blank line between each two are the lines, and no group holds a blank line |
| Ldif.GroupsUnique | examples/rypipe-ldif/src/lib.rs:54-60 | No other way of cutting the lines does that |
| Ldif.RowsBracketed | examples/rypipe-ldif/src/lib.rs:51-100 | Every row sent is opened once, filled, and closed, whatever the input |
| Ldif.SplitsAfterBlank | examples/rypipe-ldif/src/lib.rs:22-25 | The splitter answers the first point past `from` that comes right after an empty line, with LF or CRLF, and nothing exactly if there is none |
| Ldif.CutInvisible | examples/rypipe-ldif/src/lib.rs:47-103 | A cut after a blank line changes neither rows nor failure, whatever follows |
| Ldif.ChunkedParse | examples/rypipe-ldif/src/lib.rs:22-103 | However the input is planned into chunks, parsing the chunks is parsing the input |
| Ini.ParseChunk | examples/rypipe-ini/src/lib.rs:74-113 | The loop with its current section sends exactly the rows of the lines, each with the section named by the last closed header before it, or the empty one |
| Ini.LineMeans | examples/rypipe-ini/src/lib.rs:80-103 | What a line is, once white space is gone from its ends: nothing if blank or a comment; after `[` a header that names what comes before the first `]`, skipped without one; otherwise a pair if it has `=` or a colon, and nothing if not |
| Ini.PairParts | examples/rypipe-ini/src/lib.rs:117-131 | A pair is key, white space, the first `=` (or the first colon if there is no `=`), white space and value; the key does not end and the value does not begin with white space |
| Ini.RowMeans | examples/rypipe-ini/src/lib.rs:99-108 | A pair sends one row with its section and its value, each if wanted, in that order; no other line sends anything |
| Ini.RecordsArePlaced | examples/rypipe-ini/src/lib.rs:80-110 | Carrying the section along gives each line the section found by looking back for the last closed header |
| Ini.RowsBracketed | examples/rypipe-ini/src/lib.rs:92-109 | Every row sent is opened and closed |
| Ini.FindRecordStart | examples/rypipe-ini/src/lib.rs:22-51 | The moving cursor finds the first header line that starts after `from` |
| Ini.SectionShows | examples/rypipe-ini/src/lib.rs:80-109 | A chunk's rows depend on the section it starts in exactly when the section is wanted, differs, and some row precedes the chunk's first closed header |
| Ini.CutShows | examples/rypipe-ini/src/lib.rs:74-113 | One cut after a newline gives the rows of the whole if and only if the second part does not miss its section; it never changes the number of events |
| Ini.ChunkedParseExact | examples/rypipe-ini/src/lib.rs:22-113 | A whole plan gives the rows of the whole input if and only if no chunk misses its section |
| Ini.ChunkedParse | examples/rypipe-ini/src/lib.rs:22-113 | If every line that starts with `[` also has `]`, the splitter's plans are invisible |
| Ini.UnclosedHeaderLosesSection | examples/rypipe-ini/src/lib.rs:22-113 | An unclosed header starts a chunk, and its rows lose their section: the condition is needed |
| Properties.KvParts | examples/rypipe-properties/src/lib.rs:40-53 | The key has no separator; between key and value come white space, at most one `=` or `:`, and white space; the value is all that follows |
| Properties.LineMeans | examples/rypipe-properties/src/lib.rs:65-84 | What a line sends: nothing if blank or a comment, a failure if any other has a backslash, and else one row with the key and the value of the line, each if wanted |
| Properties.StartsAfterNewline | examples/rypipe-properties/src/lib.rs:22-27 | The splitter answers one past the first newline from there on, and nothing exactly if there is none |
| Properties.ParseChunk | examples/rypipe-properties/src/lib.rs:61-87 | The line loop sends one row a line, skips blanks and comments, and fails on a backslash |
| Properties.RowsBracketed | examples/rypipe-properties/src/lib.rs:61-87 | Every row sent is opened and closed |
| Properties.CutInvisible | examples/rypipe-properties/src/lib.rs:22-87 | A cut after any newline changes neither rows nor failure |
| Properties.ChunkedParse | examples/rypipe-properties/src/lib.rs:22-87 | However the input is planned into chunks, parsing the chunks is parsing the input |
| TextLines.LinesConcat | examples/rypipe-ldif/src/lib.rs:53 | Cutting after a newline splits the lines of a text and changes nothing else |
| TextLines.LinesAre | examples/rypipe-ldif/src/lib.rs:53 | The lines of a text are what lies between its line endings: put back together with `\n` or `\r\n` each they are the text; only the last may have no ending, and one carriage return at most goes with a newline |
| Filters.MissingIsNull | crates/rypipe-core/src/plan/predicate.rs:224-455 | The verdict of a predicate tree depends only on the stored values, and a missing field counts as null |
| Table.FilterLaws | crates/rypipe-core/src/plan/predicate.rs:435-457 | A builder keeps a row under `And` exactly when it keeps it under both filters, and under `Or` exactly when it keeps it under one or the other |
| Table.NotLaws | crates/rypipe-core/src/plan/predicate.rs:458 | A builder keeps under `Not` exactly the rows that it rejects without it; a constant filter keeps all rows or none |
| Table.FilterDuals | crates/rypipe-core/src/plan/predicate.rs:435-458 | De Morgan's laws, of the rows that the builder keeps |
| Table.OneField | crates/rypipe-core/src/plan/predicate.rs:464-466 | A test of one field sees the cell of the row under the field's new name, or a null one |
| Table.TwoFields | crates/rypipe-core/src/plan/predicate.rs:224-430 | A comparison of two fields takes the first for its first operand and the second for its second: one that ignores either is the test of the other |
| Table.KeptOrNot | crates/rypipe-core/src/engine/table_builder.rs:775-785 | A filtered row is appended or leaves the finished rows as they are; the row begun next is empty |
| Table.PutExact | crates/rypipe-core/src/engine/table_builder.rs:681-723 | A field goes under its new name into the row, unless that name is dropped; a new column comes last with the name's type; every other cell, every finished row and every other column stay |
| Table.LastWriteWins | crates/rypipe-core/src/engine/table_builder.rs:631-676 | Within a row each column holds the last value sent to it through rename and drop, a column sent none is null, and the rows before are untouched |
| Table.StepKeepsValid | crates/rypipe-core/src/engine/table_builder.rs:532-793 | Every event keeps the table well formed |
| Table.RunSplits | crates/rypipe-core/src/merge.rs:25-95 | Between rows, a builder that goes on is the join of what it has and a fresh builder fed the rest |
| TableBuilders.IsFull | crates/rypipe-core/src/engine/table_builder.rs:755-760 | The test by whole words and a remainder is true exactly when every column of the row is dirty, for any column count |
| TableBuilders.NullFill | crates/rypipe-core/src/engine/table_builder.rs:752-773 | Every column gets exactly one cell for the row: the value sent, or null |
| TableBuilders.TestRow | crates/rypipe-core/src/engine/table_builder.rs:775-776 | The filter on the stored row gives the verdict on the row as it was sent |
| TableBuilders.PopAll | crates/rypipe-core/src/engine/table_builder.rs:777-785 | Undoing a filled row restores every committed column |
| TableBuilders.SwapRemove | crates/rypipe-core/src/engine/table_builder.rs:350-385 | Removing one column by moving the last into its place keeps every other name on its own column |
| TableBuilders.TableBuilder.EnsureColumnIdx | crates/rypipe-core/src/engine/table_builder.rs:532-585 | A new column is null in every earlier row and comes last; a known one is found |
| TableBuilders.TableBuilder.PushFieldResolved | crates/rypipe-core/src/engine/table_builder.rs:631-676 | The columns then stand for the row model with the value put, replacing an earlier one of this row |
| TableBuilders.TableBuilder.PushField | crates/rypipe-core/src/engine/table_builder.rs:681-723 | The same through rename and drop; a dropped field changes nothing |
| TableBuilders.TableBuilder.FinishRow | crates/rypipe-core/src/engine/table_builder.rs:752-793 | The columns then stand for the row model with the row appended, or, when the filter rejects it, with the row gone and every committed value as before |
| TableBuilders.TableBuilder.Normalize | crates/rypipe-core/src/engine/table_builder.rs:474-482 | Columns are cut back to the finished rows |
| TableBuilders.TableBuilder.Feed | crates/rypipe-core/src/engine/table_builder.rs:631-793 | Over every run of events the columns, index, order and dirty mask stand for the list-of-row-maps model |
| TableBuilders.TableBuilder.SplitOff | crates/rypipe-core/src/engine/table_builder.rs:293-346 | The first rows become a table of their own with the same columns; between rows, the rest stays one too |
| TableBuilders.TableBuilder.TakeColumn | crates/rypipe-core/src/engine/table_builder.rs:350-385 | The named column is given up and every other name keeps its own column |
| Merge.PromoteToVariant | crates/rypipe-core/src/columnar.rs:660-717 | Only int64 to float64 and string to dictionary succeed; a null stays null, a whole number going to float is that number as a float, and every other cell is unchanged |
| Merge.Extend | crates/rypipe-core/src/merge.rs:25-95 | For any two builders: the first gets the columns it lacks, typed by the second's plan; it fails exactly when some column of the second cannot be brought to one type with that of the first; otherwise the result is the rows of the first, then those of the second, null-padded on the union of the columns in order of first appearance |
| Merge.TypedMerge | crates/rypipe-core/src/merge.rs:41-60 | If the second builder still has the types of its plan, creating its columns beforehand changes neither the verdict nor the result |
| Merge.AppendOne | crates/rypipe-core/src/merge.rs:67-90 | One round takes the named column from the other table, joins or pads, and leaves the others where they are |
| Merge.MergedIsJoin | crates/rypipe-core/src/merge.rs:25-95 | Between builders of one plan nothing is promoted, and the merge is plain concatenation |
| Merge.MergedCell | crates/rypipe-core/src/merge.rs:65-90 | Every cell of the merge comes from the table its row came from, or is null |
| Merge.FirstKept | crates/rypipe-core/src/merge.rs:65-90 | A cell of the first table stays in its row, null or not; it is the same number as a float exactly if its column was int64 and the other table's is float64, and otherwise the same cell |
| Merge.SecondKept | crates/rypipe-core/src/merge.rs:65-90 | The same for a cell of the second table, whose rows come after all rows of the first |
| Merge.OtherNull | crates/rypipe-core/src/merge.rs:79-90 | A column that only one table has is null in the rows of the other |
| Merge.KindKept | crates/rypipe-core/src/merge.rs:65-90 | A merged column has the type of its one table, or the common type: float64 for int64 and float64, dictionary for string and dictionary |
| Merge.UnifyExact | crates/rypipe-core/src/columnar.rs:1394-1403 | Two types have a common one exactly if they are equal, int64 and float64, or string and dictionary, either way round |
| ChunkedRead.ReadChunked | crates/rypipe-core/src/parallel.rs:276-282 | Parsing chunk after chunk into builders and merging them gives the fold of the chunk tables, or nothing if one fails |
| ChunkedRead.MergeIsRun | crates/rypipe-core/src/merge.rs:25-95 | Merging the table of one more chunk is going on with its events |
| ChunkedRead.ChunkedReadAgrees | crates/rypipe-core/src/merge.rs:25-95 | If the chunks give the events of the whole, folding `extend` over their builders gives the rows, columns and column order of one builder fed everything |
| AdapterReads.LdifReads | examples/rypipe-ldif/src/lib.rs:22-103 | An LDIF input read in any number of chunks gives the table of one pass, or fails with it |
| AdapterReads.PropertiesReads | examples/rypipe-properties/src/lib.rs:22-87 | The same for properties |
| AdapterReads.IniReads | examples/rypipe-ini/src/lib.rs:22-113 | The same for INI when every header-looking line is closed |
| Spill.SpillSink.Send | crates/rypipe-core/src/spill.rs:134-152 | The unspilled builder takes the same event; a batch with all its columns is flushed exactly at a row end at which rows are held and a limit is reached, and then nothing is held; otherwise the rows stay; after a refused spill nothing is consumed any more |
| Spill.SpillSink.SpillRows | crates/rypipe-core/src/spill.rs:83-113 | A spill does nothing after a failure or without rows; a failed one consumes nothing; a successful one leaves no rows behind |
| Spill.SpillSink.FinishRun | crates/rypipe-core/src/spill.rs:115-130 | On success the statistics are the number of batches and of rows of the unspilled table; the batches are that table up to null columns whenever every row stores something, and exactly when the first batch had a column |
| SpillRuns.SpillRun | crates/rypipe-core/src/spill.rs:76-130 | For every event run, every limit and every answer of the surroundings: the run fails only if a spill is refused; otherwise every row is counted, the batches are the unspilled table up to null columns if and only if there is no row or some kept value is sent before the first flush, and so they are whenever every row stores a kept value. Each batch before the last was handed over at the end of a row, with `rows_per_batch` rows gathered since the batch before or the capacity at the soft cap of a read that is not oversize, and was exported, fitted the budget and was consumed |
| SpillRuns.RunAll | crates/rypipe-core/src/spill.rs:76-152 | Bounded memory, after any events of a run without a failure: the builder holds the rows since the last batch, fewer than `rows_per_batch` or none; after a row end with the capacity at the soft cap of a read that is not oversize it holds none |
| SpillRuns.HoldsMore | crates/rypipe-core/src/spill.rs:76-90 | An event that flushes nothing keeps that bound |
| SpillRuns.HandedMore | crates/rypipe-core/src/spill.rs:76-113 | A row end that flushes is one more batch, handed over on those terms, and leaves nothing held |
| SpillRuns.RowsStored | crates/rypipe-core/src/engine/table_builder.rs:631-676 | If each row is sent a value that the plan keeps, no finished row is empty |
| SpillRuns.EmptyRowLost | crates/rypipe-core/src/spill.rs:92-112 | One row that stores nothing, with batches of one row: the run succeeds and counts the row, and the batches hold no row |
| Spill.LosslessIff | crates/rypipe-core/src/spill.rs:92-112 | Exported batches hold all spilled rows exactly when the first of them had a column (an export without columns has no rows); `SpillRuns.SpillRun` says for which inputs it has |
| Bitmap.PackAt | crates/rypipe-core/src/columnar.rs:36-64 | Bit i of the bytes is row i's validity and every unused bit is zero |
| Bitmap.AppendBytes | crates/rypipe-core/src/columnar.rs:79-91 | Appending whole bytes and masking the last gives the same bytes as pushing bit by bit |
| Bitmap.MaskKeeps | crates/rypipe-core/src/columnar.rs:84-89 | The mask never removes a bit |
| Bitmap.ValidityBitmap.Push | crates/rypipe-core/src/columnar.rs:36-46 | One more bit, with the null count exact |
| Bitmap.ValidityBitmap.Pop | crates/rypipe-core/src/columnar.rs:48-63 | It gives back and removes the last bit, undoing a push |
| Bitmap.ValidityBitmap.Append | crates/rypipe-core/src/columnar.rs:79-95 | On or off a byte boundary, the bits of the other bitmap follow |
| Bitmap.ValidityBitmap.SplitOff | crates/rypipe-core/src/columnar.rs:109-120 | The first n bits, and the rest, together the original |
| Arena.SliceAt | crates/rypipe-core/src/columnar.rs:211-216 | Offsets never fall, and neighbouring ones cut out exactly one value |
| Arena.PushValue | crates/rypipe-core/src/columnar.rs:233-239 | Pushing a value keeps the layout while the buffer fits 32-bit offsets; past that the new offset is negative |
| StrColumns.StrColumn.Push | crates/rypipe-core/src/columnar.rs:233-239 | One more cell; the column stays well formed exactly while its text fits |
| StrColumns.StrColumn.Pop | crates/rypipe-core/src/columnar.rs:241-246 | It undoes a push |
| StrColumns.StrColumn.Get | crates/rypipe-core/src/columnar.rs:296-303 | The cell, or nothing for a null or past the end |
| StrColumns.StrColumn.Append | crates/rypipe-core/src/columnar.rs:306-312 | The cells of the other column follow |
| StrColumns.StrColumn.SplitOff | crates/rypipe-core/src/columnar.rs:248-281 | For n > 0 the first n cells and, rebased, the rest; for 0 the column given back has no offsets |
| Dictionaries.DictCode | crates/rypipe-core/src/columnar.rs:472-487 | The code decodes to the value, a new value is added once, and the index stays the inverse of the table |
| Dictionaries.EncodeAll | crates/rypipe-core/src/columnar.rs:686-714 | A string column encoded as a dictionary decodes to the same cells |
| Dictionaries.DecodeIsCells | crates/rypipe-core/src/columnar.rs:902-916 | Reading every row through code, offsets and buffer gives the cells |
| Dictionaries.TryUpgrade | crates/rypipe-core/src/columnar.rs:1172-1214 | It upgrades exactly when there are rows enough, and the distinct non-null values are at most the maximal size and at most the share of the rows or 16; it never changes a cell |
| Dictionaries.ExtendOwned | crates/rypipe-core/src/columnar.rs:1124-1156 | The cells of the first column, then those of the second, with the index still the inverse |
| Unify.NewSeed | crates/rypipe-core/src/dict.rs:18-33 | The seed's index knows exactly its values and tells the truth about them; it is the inverse when they are distinct |
| Unify.CollectOverflow | crates/rypipe-core/src/dict.rs:91-106 | One chunk's values past the seed are all added, and nothing else |
| Unify.UnifyDictionaries | crates/rypipe-core/src/dict.rs:79-160 | The unified index knows exactly the seed's indexed values and the chunks' values past the seed's length; the seed's table is a prefix of the unified one, every further value is added once and was not in the seed's index, and that index keeps its codes |
| Unify.EntryExact | crates/rypipe-core/src/dict.rs:113-146 | A local entry keeps its value if and only if it lies past the seed's length, or is known to the unified index, or is the seed's own entry there |
| Unify.ChunkExact | crates/rypipe-core/src/dict.rs:113-160 | A chunk keeps all its values if and only if that holds of all its entries |
| Unify.SeededCovers | crates/rypipe-core/src/dict.rs:79-160 | It does when the chunk's dictionary starts with the seed, or when the seed's index inverts the seed and the chunk's low entries are seed values |
| Unify.ApplyRemap | crates/rypipe-core/src/dict.rs:165-174 | Codes go through the map; codes outside it, and all codes of an identity map, stay |
| Unify.IdentityMovesNothing | crates/rypipe-core/src/dict.rs:146-152 | A map marked as the identity moves no code |
| Unify.RemappedDecodes | crates/rypipe-core/src/dict.rs:113-174 | A remapped column decodes to the same cells when every entry keeps its value |
| Unify.UnifyColumns | crates/rypipe-core/src/dict.rs:79-174 | All of it, for any number of chunks: dictionaries unified, remaps built and applied; a chunk's column decodes with the global table to its own cells if and only if every entry that the column uses is past the seed, known to the unified index, or the seed's own there |
| Unify.ColumnExact | crates/rypipe-core/src/dict.rs:113-174 | That condition, for one column |
| Unify.UnseededChunkLost | crates/rypipe-core/src/dict.rs:93-94 | With an empty seed index, a chunk that does not start with the seed decodes to a wrong value |
| Fusion.PlanSplit | rypipe/fusion.py:32-63 | The overrides, put over the source plan, are the source plan with a longest fitting prefix of the stages merged in, and the stages left are the others |
| Fusion.SplitExact | rypipe/fusion.py:32-63 | Which prefix that is: a rename goes into a plan that drops, types, filters and observes nothing, after renames only, if it or the mapping so far is empty; a drop into one that types, filters and observes nothing, after renames and drops; a cast into one that neither filters nor observes, if it names a type and none for a column typed already; a filter into one that does not observe; an observer always; a custom stage never. The first stage left may not be pushed |
| Fusion.ObservedExact | rypipe/fusion.py:32-63 | The merged plan observes rows exactly if the source's does or an observer was pushed |
| Pushdown.PushdownPreserves | rypipe/fusion.py:32-63 | When each pushed stage is safe for the plan so far on every record sent, the merged plan in the engine's order and then the stages left give on every table what the source plan and then all stages give left to right, errors included; the source may be strict or lenient, have a schema, and its parser may send native values and repeated fields |
| Pushdown.PushOne | rypipe/fusion.py:38-62 | The same for one pushed stage and one record: no rename clash, or a rename that permutes the schema; texts, nulls and fitting native values for cast columns with no failing text hidden; filter fields that are neither renamed nor outside the schema |
| Pushdown.PushCast | crates/rypipe-core/src/columnar.rs:516-600 | Storing a value in its typed column, with the strict error for texts only, is storing it as text and casting that text afterwards, when the values sent to the column fit |
| Pushdown.PushDrop | crates/rypipe-core/src/plan.rs:314-326 | Dropping the union is dropping one set after the other, on every record, with or without a schema |
| Pushdown.DropExact | rypipe/fusion.py:53-54 | On a whole table, pushing a drop is right if and only if a column is left, or there was none, or there is no row (a table without columns is exported without rows) |
| Pushdown.EmptyRenameExact | rypipe/fusion.py:48-61 | Pushing an empty rename is right if and only if the source renames nothing, or nothing into or out of its schema |
| Pushdown.RenameSchemaExact | crates/rypipe-core/src/plan.rs:314-326 | Pushing a rename into a source with a schema is right if and only if it permutes the schema's columns and brings no other name into them |
| Pushdown.CastExact | rypipe/fusion.py:49-61 | Over all records that a parser may send: pushing a cast is right if and only if the source is strict already or no text can fail in its typed columns, every native value that may be sent to a cast column parses from its own text to what it stores, and, if fields may be repeated, no text can fail in a cast column |
| Pushdown.StrictLeaks | rypipe/source.py:328-339 | A text that a lenient source would null fails the whole read after the push |
| Pushdown.NativeDiffers | crates/rypipe-core/src/columnar.rs:516-600 | A native value whose text does not parse, or stores something else, makes the pushed cast differ |
| Pushdown.NativeExample | crates/rypipe-core/src/engine/table_builder.rs:587-615 | A native value sent to an untyped source under a pushed integer cast: merged it is stored without an error, unmerged its text fails the cast |
| Pushdown.HiddenTextFails | crates/rypipe-core/src/engine/table_builder.rs:587-615 | A text that fails is an error after the push even when a later value of the record hides it; the stage alone never sees it |
| Pushdown.FilterExact | crates/rypipe-core/src/plan/predicate.rs:464-466 | Pushing a one-field filter into a plan without one, whatever it renames, drops, casts and shows, is right if and only if the plan does not rename that field and the schema shows it, or reading the column raises no strict error and the test tells no value that the column read can hold from any that the result shows under the old name |
| PlanMeaning.RecordMeaning | crates/rypipe-core/src/engine/table_builder.rs:631-676 | Fed the events of a record, the table builder finishes exactly the row that the plan, as rename, drop, typed store and filter, keeps of the record, and none if it filters the record out; only a text that fails under a strict plan is an error |
| PlanMeaning.TableMeaning | crates/rypipe-core/src/engine/table_builder.rs:631-676 | So for whole tables: the builder holds the rows that the plan stores, in order, and has a column exactly when the plan shows one; a lenient plan never fails |
| PlanMeaning.PushdownInBuilder | rypipe/fusion.py:32-63 | Down to the builder: fed with the merged plan it exports a table on which the stages left give what the source plan and all stages give |

## Left out

- Pushdown.FilterExact: covers filters on one field and plans without a filter of their own; for other filters `Pushdown.PushdownPreserves` needs the sufficient condition that no field of the filter is a rename source and the schema shows them all, because two compensating leaves can make an unsafe filter right by accident.
- Merge.Extend: does not model the strict-type and unknown-field errors that a merge carries over, nor the insertion of new columns in schema order.
- Spill.SpillSink.FinishRun: does not model the strict-type, unknown-field and memory-budget errors that end a run besides a refused spill.
- SpillRuns.SpillRun: likewise.
- TableBuilders.TableBuilder.EnsureColumnIdx: does not model frozen schemas, schema projection or the recording of strict-type violations, nor the back-fill on the buffered path; it states what happens when none of them is configured.
- TableBuilders.TableBuilder.PushFieldResolved: does not model frozen schemas, schema projection or the recording of strict-type violations, nor the back-fill on the buffered path; it states what happens when none of them is configured.
- TableBuilders.TableBuilder.PushField: does not model frozen schemas, schema projection or the recording of strict-type violations, nor the back-fill on the buffered path; it states what happens when none of them is configured.
- TableBuilders.TableBuilder.SplitOff: with a row half filled it says nothing about what stays behind, because the code then loses the dirty bits of that row; its callers split between rows.
- StrColumns.StrColumn.Append: states the case where the joined text fits 32-bit offsets; the code does not check this.
- Dictionaries.DictCode: assumes that text and codes fit 32 bits, which the code does not check; `Arena.PushValue` shows that past that the offsets turn negative.
- Dictionaries.EncodeAll: assumes that text and codes fit 32 bits, which the code does not check; `Arena.PushValue` shows that past that the offsets turn negative.
- Dictionaries.TryUpgrade: assumes that text and codes fit 32 bits, which the code does not check; `Arena.PushValue` shows that past that the offsets turn negative.
- Dictionaries.ExtendOwned: assumes that text and codes fit 32 bits, which the code does not check; `Arena.PushValue` shows that past that the offsets turn negative.
- Unify.NewSeed: assumes that text and codes fit 32 bits, which the code does not check; `Arena.PushValue` shows that past that the offsets turn negative.
- Unify.CollectOverflow: assumes that text and codes fit 32 bits, which the code does not check; `Arena.PushValue` shows that past that the offsets turn negative.
- Unify.UnifyDictionaries: assumes that text and codes fit 32 bits, which the code does not check; `Arena.PushValue` shows that past that the offsets turn negative.
- Unify.UnifyColumns: assumes that text and codes fit 32 bits, which the code does not check; `Arena.PushValue` shows that past that the offsets turn negative.
- ParallelStreamProofs.OrderedSafety: assumes that the batches of one reorder window, which live in memory together, add up below the largest `usize`.
- The predicate-first buffered row path of the builder: crates/rypipe-core/src/engine/table_builder/predicates.rs is not part of this model; filtered rows are modelled on the late-predicate path, which pushes directly and pops on reject.
- Columns of the builder are values in a sequence field, so sharing between columns is not modelled; their byte layouts are modelled apart, in `StrColumns`, `Bitmap` and `Dictionaries`.
- The conversion of values into typed cells (numbers, dates, timestamps) and float arithmetic are uninterpreted functions.
- Schema projection, frozen schemas, memory budgets inside the builder, observers and their row totals, ordinal slot caching, strict-type bookkeeping inside the builder.
- The automatic-dictionary branch of the parallel executor end to end: it unifies with an empty seed index, where `Unify.EntryExact` says exactly which entries survive. Columns that are not dictionaries get an empty map there and are skipped here.
- Filters applied to exported Arrow batches, Arrow export itself, and pushing after export.
- SIMD mask code: masks are taken by their scalar definition.
- Mixing plain and quote-aware queries on one scanner; the two kinds of run are modelled apart.
- Thread scheduling below the level of steps: waits are guards on the shared dispatch value, the channel is a bounded queue that can be closed, and a panic in a worker is a failed parse.
- UTF-8 decoding and validation: text is a sequence of characters, positions count characters, and a cut after a newline is always between characters.
- The reason of a failed parse: only whether it fails is modelled, since chunks may fail in any order.
- Pushdown.PushOne: without a schema, asks that a pushed rename give no two names of one record the same name; which value then wins after a rename stage depends on the order of the table's columns, which is not modelled.
- Pushdown.DropExact: a source whose schema is dropped altogether while its filter still reads columns fails on export; that error is not modelled.
- The plan's dictionary columns: they hold the same texts as string columns. Python's own evaluation of a filter stage is taken to be the engine's.
- The order in which a conjunction or disjunction evaluates its sides, which cannot change its verdict.
- Folding, base64 and URL values of LDIF and escapes of properties, which the adapters reject.
- File reading, memory mapping, compression, Python bindings, sinks and sources, schema discovery, engine selection, profiling.
