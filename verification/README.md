# Algorithms and protocols of the JavaScript runtime

A Dafny model of the self-contained algorithms and state machines in the JavaScript runtime crate,
with proofs about all their inputs and all their runs. `dafny verify dfyconfig.toml` checks it.

Code that works step by step is imperative here too: objects are classes with the source's fields,
loops are loops, and asynchronous functions are cut at every `await` into methods that any other step
may come between. Each method is proved against a specification, and what the source promises is
proved about that specification. A nested loop of the source is often a method of its own (the levels
and diagonals of the diff, the decoder's groups, the inner search of the subsequence test).

| file | models |
|---|---|
| `MyersDiff.dfy`, `DiffPrinter.dfy` | the line diff of `assert` and its run-collapsing printer |
| `Subsequence.dfy` | the greedy subsequence test of partial deep equality |
| `Utf8.dfy` | UTF-8 as the standards define it: the grammar of section 4 of RFC 3629, the encoding of its section 3, the decoder of section 8.1.1 of the WHATWG Encoding Standard |
| `Utf8Replacement.dfy` | what bytes decode to, ill-formed parts included, told from the grammar alone |
| `TextDecoding.dfy` | the streaming `TextDecoder` |
| `Utf8Buffer.dfy`, `IntCodec.dfy`, `BufferSearch.dfy`, `Base64.dfy` | the codecs and searches of `Buffer`, base64-js, and the native `btoa` / `atob` |
| `HttpBody.dfy` | the cancel-safe response body reader |
| `Shell.dfy`, `ShellWords.dfy` | the constrained shell front end of `child_process`; what a command is and what its words are, told from the notation alone |
| `OutputCapture.dfy`, `ExecutionJobs.dfy` | bounded output capture, the ends of an execution job, the wrapper that drains it |
| `Blobs.dfy` | blob trees |
| `Events.dfy` | EventEmitter storage under re-entrant handlers |
| `DatagramTrace.dfy`, `DatagramSteps.dfy`, `DatagramRuns.dfy`, `DatagramQueue.dfy`, `DatagramConnects.dfy`, `DatagramSocket.dfy` | the datagram socket: what can be observed of it, its steps and what they keep, every run, the queue, connecting, and the object that takes the steps |
| `Options.dfy` | the absent-or-present value they share |

## What the proofs found

Where a natural promise does not hold of the code, the model keeps the code and the lemma says exactly
when the promise holds.

- The forward pass of the diff returns before falling through to `[]` exactly when at least one text has a line (`MyersDiff.MyersDiff`); for two empty texts `[]` is still the right answer.
- The UTF-8 encoder emits nothing for the last of two or more lead surrogates that end a string (`Utf8Buffer.PiecesMatch`: exactly then).
- A flushing `decode()` that throws does not restore the BOM flag (`TextDecoding.ReuseAfterThrow`). Such a decoder serves every next input as a fresh one would exactly when it was built to keep the BOM or nothing of the stream that failed had been decoded (`TextDecoding.ReuseIsFresh`); `TextDecoding.StaleBomFlag` is a run where it does not.
- base64-js fills its result array exactly when padding is absent or starts inside a group of four (`Base64.ToByteArray`); the buffer module's cleaning guarantees that.
- The output a truncating job captures is a prefix of what it wrote exactly when nothing is captured after the first write that did not fit (`OutputCapture.TruncationIsPrefix`); `OutputCapture.TruncationCanSkip` is a run where it is not.
- The backward search over 16-bit units returns a unit index, the forward one a byte index: the two agree exactly for a match at the start of the buffer (`BufferSearch.BackwardIndex`, `BufferSearch.BackwardExample`).
- A connect that waits in the queue when the bind comes to nothing or an operation throws is dropped (`DatagramConnects.Strands`: exactly then). An open socket stays in the connecting state whatever happens exactly when a connect was dropped (`DatagramConnects.ConnectingForGood`), and it refuses every later connect and disconnect. `DatagramConnects.StrandedForGood` is such a run.
- The connecting state matches the connects in flight after every step but one: a `connect` handler that has disconnected, started another connect and throws (`DatagramConnects.LawKept`; `DatagramConnects.Derailed` is such a run).
- A connect that fails on a bound socket leaves it without a receive loop (`DatagramRuns.DeafAfterFailedConnect`), as a failed receive, a throwing `message` handler and a failed disconnect do (`DatagramRuns.FailureDeafens`); no run without such an event does (`DatagramRuns.GentleRun`).
- Queued operations are not always all begun or all dropped: a send that throws in the flush ends the batch behind it (`DatagramQueue.ThrowingSend` is such a run). Everything queued is begun in order or still waits exactly when no step discards a queue and no send throws with others behind it (`DatagramQueue.BegunUnlessLost`); which step ends a batch, and how, is `DatagramQueue.StepEnds`.
- Cutting a string at an unquoted character restarts the lexer behind every hit; that cuts at the same places as one lexer run over the whole string (`Shell.CutAtFind`).

## Model

| member | source | states |
|---|---|---|
| MyersDiff.FrontierDominates | crates/runtime/src/builtin/assert.js:337-373 | no monotone alignment inside a rectangle reaches further than the furthest path with as many insertions and deletions, points outside the grid included |
| MyersDiff.PathAlignment | crates/runtime/src/builtin/assert.js:337-373 | every furthest point is reached by an alignment that pairs one related line pair per diagonal move |
| MyersDiff.FirstHit | crates/runtime/src/builtin/assert.js:337-373 | the first diagonal to pass both ends ends exactly at them, and no alignment leaves fewer lines unpaired |
| MyersDiff.SomeHit | crates/runtime/src/builtin/assert.js:337-373 | some path with at most N + M edits passes both ends, so the forward pass returns |
| MyersDiff.ForwardLevel | crates/runtime/src/builtin/assert.js:337-373 | one level over the reused array turns the furthest points of level d - 1 into those of level d, or stops at the first diagonal done |
| MyersDiff.ReadPrevious | crates/runtime/src/builtin/assert.js:292-335 | the neighbour the backtrack picks from a snapshot is the one the forward pass extended |
| MyersDiff.MyersBacktrack | crates/runtime/src/builtin/assert.js:292-335 | from the snapshots it rebuilds a valid script from (0, 0) with one edit per level, never leaving the texts; of all scripts with as few edits it is the one that, read from the ends of the texts, prefers deletions to insertions and insertions to unchanged lines, so no deletion stands directly in front of an insertion |
| MyersDiff.MyersDiff | crates/runtime/src/builtin/assert.js:337-373 | the reversed result is a valid edit script with no more inserts and deletes than any alignment of related lines leaves unpaired, and of the scripts with as few edits the preferred one; insertions come first in every replaced block |
| MyersDiff.OnlyOnePreferred | crates/runtime/src/builtin/assert.js:292-335 | two scripts with as few edits that are both preferred to all others are the same, so validity, minimality and preference determine the result |
| MyersDiff.InsertionsFirst | crates/runtime/src/builtin/assert.js:292-335 | in the preferred script no deletion stands directly in front of an insertion |
| MyersDiff.WalkIsBehind | crates/runtime/src/builtin/assert.js:337-373 | no way back to the start with a insertions and b deletions begins ahead of the furthest path with as many |
| MyersDiff.NoShorterScript | crates/runtime/src/builtin/assert.js:337-373 | a bound over alignments is a bound over all edit scripts |
| MyersDiff.TextSides | crates/runtime/src/builtin/assert.js:280-335 | nops and inserts are the actual text, nops and deletes the expected one: exactly, or up to trailing commas when those are checked |
| MyersDiff.ShownCarriesComma | crates/runtime/src/builtin/assert.js:315-321 | the line shown for an unchanged pair is one of the two, and carries a comma if either of them does |
| MyersDiff.DiffLines | crates/runtime/src/builtin/assert.js:280-373 | for lists of lines: both sides are rebuilt, the number of edits is least, and the script is the preferred one, with insertions first in every replaced block |
| DiffPrinter.PrintMyersDiff | crates/runtime/src/builtin/assert.js:375-427 | the printed lines are the rendering run by run (edits kept, runs of at most 7 nops whole, longer ones as first 5, "...", last); `skipped` exactly when eight lines in a row are nops |
| DiffPrinter.SkipsMeansLongRun | crates/runtime/src/builtin/assert.js:375-427 | the rendering by maximal runs skips exactly when some eight consecutive entries are nops |
| DiffPrinter.EditsAreMarked | crates/runtime/src/builtin/assert.js:375-427 | however much is collapsed, the lines marked "+" are the insertions and the lines marked "-" the deletions, in order |
| DiffPrinter.NothingCollapsed | crates/runtime/src/builtin/assert.js:375-427 | when nothing is skipped every entry is one line |
| Subsequence.Test | crates/runtime/src/builtin/assert.js:1591-1618 | for every relation, true exactly when increasing positions match the expected values one by one |
| Utf8.WellFormedIsGrammar | crates/runtime/src/builtin/buffer.js:2637-2672 | reading characters greedily finds a derivation from UTF8-octets exactly when there is one |
| Utf8.DecodesWithoutError | crates/runtime/src/builtin/encoding.rs:251-279 | the decoder reports no error exactly on the sequences of the grammar |
| Utf8.CutDecodes | crates/runtime/src/builtin/encoding.js:179-213 | decoding splits at every point where no character is open or the next byte is no continuation, ill-formed input included |
| Utf8Replacement.CharacterDecodes | crates/runtime/src/builtin/encoding.rs:251-279 | the encoding of a scalar value at the front decodes to it, and decoding goes on behind it |
| Utf8Replacement.CharIsEncoding | crates/runtime/src/builtin/encoding.rs:251-279 | every UTF8-char of the grammar encodes a scalar value |
| Utf8Replacement.BrokenPart | crates/runtime/src/builtin/encoding.rs:251-279 | an unfinished character in front of a byte that continues none of its characters is one error, and that byte is decoded anew |
| Utf8Replacement.StrayByte | crates/runtime/src/builtin/encoding.rs:251-279 | a byte that begins no character is one error |
| Utf8Replacement.TruncatedPart | crates/runtime/src/builtin/encoding.rs:251-279 | an unfinished character at the end of the input is one error |
| Utf8Replacement.DecodeReads | crates/runtime/src/builtin/encoding.rs:251-279 | the decoding of any bytes is their one and only reading as characters and maximal ill-formed parts, one item each |
| TextDecoding.DecodeImplMeans | crates/runtime/src/builtin/encoding.rs:251-279 | one-shot decoding gives, behind the BOM, the scalar value of every character and U+FFFD for every maximal ill-formed part; a fatal one throws exactly when the grammar has no derivation |
| TextDecoding.TrailingUtf8IncompleteLength | crates/runtime/src/builtin/encoding.js:53-79 | the backward scan returns the number of bytes the decoder of the standard holds at the end |
| TextDecoding.TrailingHeld | crates/runtime/src/builtin/encoding.js:53-79 | what the last lead byte and the continuation bytes behind it tell about the decoder's state |
| TextDecoding.HeldCut | crates/runtime/src/builtin/encoding.js:194-199 | cutting before the held bytes never changes the decoding, whatever follows |
| TextDecoding.DecodeImplSplits | crates/runtime/src/builtin/encoding.rs:251-279 | one-shot decoding of head and tail, the second never removing a BOM after a non-empty head, is one-shot decoding of the whole, errors included |
| TextDecoding.ErrorIsFinal | crates/runtime/src/builtin/encoding.js:179-213 | once a streaming call throws, every continuation of the stream is ill-formed |
| TextDecoding.TextDecoder.Decode | crates/runtime/src/builtin/encoding.js:179-213 | after a flush the outputs since the last one are the one-shot decoding of the bytes since then; it throws only if the whole is ill-formed, and then starts over with the bytes it still holds back; at most 3 bytes are pending |
| TextDecoding.DecodeChunks | crates/runtime/src/builtin/encoding.js:179-213 | any chunking decodes to what one call decodes, and throws exactly when that does |
| TextDecoding.ReuseAfterThrow | crates/runtime/src/builtin/encoding.js:208-212 | after a stream and a flush that threw, the next input is decoded keeping its BOM if anything of the failed stream had been decoded |
| TextDecoding.ReuseIsFresh | crates/runtime/src/builtin/encoding.js:208-212 | that is what a fresh decoder gives for every input exactly when the decoder keeps BOMs anyway or nothing had been decoded |
| TextDecoding.StaleBomFlag | crates/runtime/src/builtin/encoding.js:208-212 | a run after which a BOM is kept that a fresh decoder drops |
| Utf8Buffer.PiecesMatch | crates/runtime/src/builtin/buffer.js:2258-2336 | the unbudgeted output encodes the string with unpaired surrogates replaced, less one replacement exactly when the string ends in two lead surrogates |
| Utf8Buffer.Utf8RoundTrip | crates/runtime/src/builtin/buffer.js:2258-2336 | without unpaired surrogates the output is the encoding of RFC 3629 and decodes back to the string |
| Utf8Buffer.Utf8ToBytes | crates/runtime/src/builtin/buffer.js:2258-2336 | the output is the first n whole code points of the unbudgeted output, fits the budget, and one more would not fit |
| Utf8Buffer.BestPrefixIsLongest | crates/runtime/src/builtin/buffer.js:2258-2336 | no longer prefix ending on a code point boundary fits the budget |
| Utf8Buffer.IsUtf8 | crates/runtime/src/builtin/buffer.js:2637-2672 | accepts exactly what derives from UTF8-octets |
| Utf8Buffer.EncoderOutputIsUtf8 | crates/runtime/src/builtin/buffer.js:2258-2336 | every output of the encoder, lone surrogates and budgets included, is valid UTF-8 |
| HttpBody.ResponseBody.ReadChunk | crates/runtime/src/builtin/http_body_p3.rs:150-173 | one poll suspends with the log unchanged or returns one chunk, as the state and the recovered outcome say; conservation and order of the bytes are kept |
| HttpBody.ResponseBody.ReadFromReader | crates/runtime/src/builtin/http_body_p3.rs:175-215 | recovered bytes come before new ones; the bytes of an outcome are returned whole by the poll that has them, empty and cancelled reads are retried, a stream that ends without bytes is finished |
| HttpBody.ResponseBody.Finish | crates/runtime/src/builtin/http_body_p3.rs:217-234 | drops the writer and waits for the result future; nothing is returned or resolved yet |
| HttpBody.ResponseBody.Cancel | crates/runtime/src/builtin/http_body_p3.rs:47-94 | dropping the future keeps the outcome of the cancelled read for the next one |
| HttpBody.ResponseBody.ResultReady | crates/runtime/src/builtin/http_body_p3.rs:217-234 | the end or the error is reported when the result future resolves, and the body is consumed |
| HttpBody.Run | crates/runtime/src/builtin/http_body_p3.rs:76-234 | over every interleaving the chunks are a prefix of the body, nothing lost, repeated or reordered; without a discard the first end or error follows the whole body, the host's end of stream and the host's resolution of the result; an error is reported exactly when it resolved to one, once |
| Shell.SplitCommandTokenRecords | crates/runtime/src/builtin/child_process.js:1276-1393 | the tokenizer loop runs the lexer of the specification over the text; `ShellWords.TokenizeMeans` says what that gives |
| ShellWords.SingleQuotedText | crates/runtime/src/builtin/child_process.js:1342-1349 | single quotes append everything up to the closing quote to the token |
| ShellWords.PlainText | crates/runtime/src/builtin/child_process.js:1333-1339 | unquoted text without blanks, quotes, backslashes and shell characters is appended as it is |
| ShellWords.DoubleQuotedText | crates/runtime/src/builtin/child_process.js:1351-1382 | double quotes append what they enclose less the backslashes in front of what they escape, and record expansion markers and line continuations |
| ShellWords.CommandTokenizes | crates/runtime/src/builtin/child_process.js:1276-1393 | a command, written as blanks, bare, escaped and quoted parts, tokenizes to one record for every run of parts between blanks, with the values and the shell characters of its parts |
| ShellWords.TokenizeMeans | crates/runtime/src/builtin/child_process.js:1276-1393 | a text tokenizes exactly when it is a command, and only to the words of that command |
| Shell.HasUnsupportedJavaScriptShellSyntax | crates/runtime/src/builtin/child_process.js:1670-1711 | the checking loop computes the specification of the second lexer |
| Shell.LexersAgree | crates/runtime/src/builtin/child_process.js:1276-1393 | the check fires exactly when tokenizing fails or records an unescaped shell character |
| ShellWords.SupportedMeans | crates/runtime/src/builtin/child_process.js:1670-1711 | the check lets exactly the commands pass that note no shell character |
| Shell.DoubleQuotedValue | crates/runtime/src/builtin/child_process.js:1201-1274 | in double quotes an escaped value appends exactly itself to the current token and changes nothing else |
| Shell.UnquotedValue | crates/runtime/src/builtin/child_process.js:1201-1274 | unquoted, a glob-free value is tokenized into its blank-separated fields |
| Shell.FieldsKeep | crates/runtime/src/builtin/child_process.js:1276-1393 | inserting fields records no shell character and keeps the quoting state |
| Shell.ExpandTemplateEnvRefs | crates/runtime/src/builtin/child_process.js:1216-1274 | the expander loop computes the expansion of the specification, or fails where it does |
| Shell.ReferenceMeans | crates/runtime/src/builtin/child_process.js:1238-1247 | a reference is at the front exactly when the text starts with "${", an identifier in the environment, and "}" |
| Shell.ExpansionIsData | crates/runtime/src/builtin/child_process.js:1216-1393 | tokenizing the expansion of a whole template gives what the template means when every reference stands for data |
| Shell.ExpansionSucceeds | crates/runtime/src/builtin/child_process.js:1216-1274 | expansion succeeds for every template when no value holds a NUL or a glob character |
| Shell.ExpansionFails | crates/runtime/src/builtin/child_process.js:1248-1259 | expansion fails exactly when a reference stands for a value with a NUL, or outside double quotes for one with a glob character |
| Shell.FindUnquotedCharacter | crates/runtime/src/builtin/child_process.js:1400-1425 | finds the first hit outside quotes and escapes from the start position, or -1 |
| Shell.CutAtFind | crates/runtime/src/builtin/child_process.js:1427-1440 | restarting the lexer behind each hit cuts where a single pass would |
| Shell.SplitOnUnquotedCharacter | crates/runtime/src/builtin/child_process.js:1427-1440 | the parts are those of the single pass and join back to the source |
| ShellWords.CommandIsCut | crates/runtime/src/builtin/child_process.js:1427-1440 | a command is cut exactly at the parts that are the sought character outside quotes and escapes |
| IntCodec.LatchAndStore | crates/runtime/src/builtin/buffer.js:1869-1909 | the latched borrow is the one floor division needs, and the stored byte is the next two's complement digit |
| IntCodec.WriteIntLE | crates/runtime/src/builtin/buffer.js:1869-1888 | writes the two's complement bytes little end first, leaves the rest of the buffer, and fails exactly on the checks of the source |
| IntCodec.WriteIntBE | crates/runtime/src/builtin/buffer.js:1890-1909 | the same with the bytes mirrored |
| IntCodec.ReadIntLE | crates/runtime/src/builtin/buffer.js:1557-1572 | returns the signed value of the addressed bytes |
| IntCodec.ReadIntBE | crates/runtime/src/builtin/buffer.js:1574-1589 | returns the signed value of the addressed bytes, mirrored |
| IntCodec.DigitsOfSigned | crates/runtime/src/builtin/buffer.js:1557-1589 | every byte sequence is the encoding of the in-range value read from it |
| IntCodec.SignedOfDigits | crates/runtime/src/builtin/buffer.js:1869-1909 | the bytes of an in-range value read back as that value |
| IntCodec.RoundTrip | crates/runtime/src/builtin/buffer.js:1557-1909 | writing then reading at one place returns the value, in both byte orders; other bytes are unchanged |
| BufferSearch.ArrayIndexOf | crates/runtime/src/builtin/buffer.js:1017-1071 | forward the least match at or after the offset, backward the greatest at or before it, -1 exactly when there is none |
| BufferSearch.Forward | crates/runtime/src/builtin/buffer.js:1017-1071 | the loop that moves its index back terminates and finds the first match |
| BufferSearch.UnitMatchIsByteMatch | crates/runtime/src/builtin/buffer.js:1017-1071 | a match of 16-bit units is a match of the bytes at twice the position |
| BufferSearch.BackwardIndex | crates/runtime/src/builtin/buffer.js:1017-1071 | the backward search over units finds the match at twice the index it returns, and the index is a byte position exactly when it is 0 |
| BufferSearch.BackwardExample | crates/runtime/src/builtin/buffer.js:1017-1071 | an input whose match at byte 2 is reported as 1 |
| Base64.FromByteArray | crates/runtime/src/builtin/base64.js:97-148 | encoding in chunks of 16383 bytes writes the padded text of section 4 of RFC 4648 |
| Base64.ToByteArray | crates/runtime/src/builtin/base64.js:20-95 | decodes the letters before the padding into an exactly filled array, exactly when padding is absent or starts inside a group; the other cases are told apart |
| Base64.DecodeOfDigits | crates/runtime/src/builtin/base64.js:51-148 | decoding undoes encoding |
| Base64.Base64Clean | crates/runtime/src/builtin/buffer.js:2226-2239 | what is left after cleaning always fills the result exactly and keeps every letter before the first "=" |
| Base64.Base64ToBytes | crates/runtime/src/builtin/buffer.js:2363-2365 | every string decodes, to the bytes of its letters before the first "=" |
| Base64.UrlDecodes | crates/runtime/src/builtin/buffer.js:2252-2256 | the URL-safe alphabet of section 5 of RFC 4648 decodes to the same bytes |
| Base64.RoundTrip | crates/runtime/src/builtin/buffer.js:2226-2365 | padded or URL-safe unpadded, encoding then decoding through the cleaning returns the bytes |
| Base64.BtoaRaw | crates/runtime/src/builtin/base64.rs:10-40 | fails exactly on a character beyond Latin-1, and otherwise writes the text of the chunked encoder |
| Base64.AtobRaw | crates/runtime/src/builtin/base64.rs:43-109 | removes white space, refuses a length of 1 modulo 4 and otherwise decodes chunk by chunk as specified |
| Base64.AtobOfLetters | crates/runtime/src/builtin/base64.rs:43-109 | a text without padding decodes to the bytes of its letters and fails exactly on a character outside the standard alphabet |
| Base64.AtobOfEncode | crates/runtime/src/builtin/base64.rs:10-109 | native decoding undoes encoding |
| Base64.NativeRoundTrip | crates/runtime/src/builtin/base64.rs:10-109 | `atob` undoes `btoa`, whose text is the chunked encoder's |
| Blobs.Construct | crates/runtime/src/builtin/fetch-blob-4.0.0.js:48-87 | the content is that of the given parts, the size its length, and no part is empty |
| Blobs.Slice | crates/runtime/src/builtin/fetch-blob-4.0.0.js:168-211 | over any tree the content is the clamped sub-sequence of the content; size and parts stay consistent |
| Blobs.SliceMeans | crates/runtime/src/builtin/fetch-blob-4.0.0.js:168-211 | the slice is the bytes at or behind its start and in front of its end, in order, each counted from the end of the content when negative |
| Blobs.SliceOfLast | crates/runtime/src/builtin/fetch-blob-4.0.0.js:168-211 | `slice(-n)` is the last n bytes, or all of them |
| Blobs.SlicesCompose | crates/runtime/src/builtin/fetch-blob-4.0.0.js:168-211 | a slice of a slice is a slice at shifted positions |
| Blobs.SizesAddUp | crates/runtime/src/builtin/fetch-blob-4.0.0.js:48-87 | the sizes of the parts add up to the length of the content |
| Blobs.ToIterator | crates/runtime/src/builtin/fetch-blob-4.0.0.js:11-31 | the chunks are the views of the tree in order, whole or in pieces when cloned, nested blobs always in pieces; they concatenate to the content |
| Blobs.PieceAt | crates/runtime/src/builtin/fetch-blob-4.0.0.js:11-31 | every piece but the last has 65536 bytes, piece i from byte 65536 i on, and the pieces cover the view |
| Blobs.ArrayBuffer | crates/runtime/src/builtin/fetch-blob-4.0.0.js:131-140 | the chunks fill a buffer of the blob's size exactly with its content |
| Blobs.BlobText | crates/runtime/src/builtin/fetch-blob-4.0.0.js:111-122 | decoding part by part gives what decoding the whole content gives, whatever the part boundaries |
| OutputCapture.BoundaryIsWhole | crates/runtime/src/builtin/execution.rs:104-107 | the character boundaries of a string are exactly the ends of its well-formed prefixes |
| OutputCapture.FitIsLongest | crates/runtime/src/builtin/execution.rs:90-120 | what is accepted of a write is its longest whole-character prefix that fits |
| OutputCapture.CaptureIsBounded | crates/runtime/src/builtin/execution.rs:90-120 | at most `max_bytes` are captured in non-empty whole-character chunks; bytes are missing exactly when a write did not fit |
| OutputCapture.TruncationIsPrefix | crates/runtime/src/builtin/execution.rs:90-120 | the captured output is a prefix of the written output exactly when nothing is captured after the first write that did not fit |
| OutputCapture.OneByteTruncation | crates/runtime/src/builtin/execution.rs:90-120 | with one-byte characters exactly the first `max_bytes` bytes are kept |
| OutputCapture.TruncationCanSkip | crates/runtime/src/builtin/execution.rs:90-120 | a run whose captured output is not a prefix of what was written |
| ExecutionJobs.ExecutionJob.Push | crates/runtime/src/builtin/execution.rs:90-120 | taken chunks followed by queued ones stay what the stream captures; `overflowed` exactly when a write did not fit; under Terminate that cancels |
| ExecutionJobs.ExecutionJob.TakeEvent | crates/runtime/src/builtin/execution.rs:260-302 | a wait takes everything queued, in order, with the outcome if there is one |
| ExecutionJobs.ExecutionJob.Conclude | crates/runtime/src/builtin/execution.rs:523-541 | the result is Ok exactly when the execution was and neither cancellation nor timeout was flagged; a timeout wins over overflow, overflow over cancellation |
| ExecutionJobs.JavaScriptJob.DrainContinues | crates/runtime/src/builtin/execution.js:84-98 | every drained chunk reaches its stream until the wrapper failed, and the event with the outcome settles it |
| ExecutionJobs.JavaScriptJob.Fail | crates/runtime/src/builtin/execution.js:71-79 | the first failure destroys the streams, cancels and forgets the job and rejects; later ones change nothing |
| ExecutionJobs.DrainToEnd | crates/runtime/src/builtin/execution.js:84-98 | once the job is complete, two more events settle the wrapper and end its streams |
| ExecutionJobs.Run | crates/runtime/src/builtin/execution.js:71-98 | over every interleaving: the job is completed by the first event that ends it, as the flags raised before and that event say; the streams receive a prefix of what it captured, all of it when they are ended, and then the result is that value, with overflow reported exactly when a write did not fit, or that error; otherwise only the first rejected start rejects it; a resolved result means nothing interrupted the job and under Terminate nothing was lost |
| Events.TakeRemovesLast | crates/runtime/src/builtin/events.js:427-476 | removal takes away exactly the last matching listener, if there is one, and no other |
| Events.EveryRun | crates/runtime/src/builtin/events.js:197-208 | after every program, nested calls, exceptions and handlers that catch them included, a once wrapper is registered at most once, never after it fired, and ran its callback at most once; no list is empty |
| Events.IdleEmission | crates/runtime/src/builtin/events.js:277-346 | an emission whose handlers only return runs every registered listener once in order and leaves the permanent ones |
| Events.EventEmitter.AddListener | crates/runtime/src/builtin/events.js:351-403 | ends in the state of the specification, whose places `Events.AddPlaces`, `Events.IdleAdd` and `Events.AddsInOrder` state: in front of or behind the list as it is after the newListener handlers ran |
| Events.AddPlaces | crates/runtime/src/builtin/events.js:351-403 | without newListener handlers a prepended listener, once or not, is in front of all others and an appended one behind them, and nothing else changes |
| Events.IdleAdd | crates/runtime/src/builtin/events.js:351-403 | newListener handlers that only return run once each, in order, before the listener is there |
| Events.AddRefused | crates/runtime/src/builtin/events.js:351-403 | a newListener handler that throws keeps the listener from being added |
| Events.AddsInOrder | crates/runtime/src/builtin/events.js:351-403 | after any program of additions a list holds the prepended listeners, latest first, then what was there, then the appended ones in order |
| Events.AddsThenEmit | crates/runtime/src/builtin/events.js:277-403 | the emission that follows calls them in that order |
| Events.EventEmitter.RemoveListener | crates/runtime/src/builtin/events.js:427-476 | removes from the bare or the array form, drops the name with its last listener, then calls the removeListener handlers |
| Events.RemoveNothing | crates/runtime/src/builtin/events.js:427-476 | removing what is not registered changes nothing and tells nobody |
| Events.RemoveNotifies | crates/runtime/src/builtin/events.js:427-476 | removeListener handlers that only return run once each, in order, after a removal |
| Events.RemoveThrows | crates/runtime/src/builtin/events.js:427-476 | a removeListener handler that throws finds the listener already removed |
| Events.EventEmitter.EmitEvent | crates/runtime/src/builtin/events.js:277-346 | calls a snapshot of the listeners, whatever they do to the emitter |
| Events.EmissionIsSnapshot | crates/runtime/src/builtin/events.js:277-346 | whatever the first of two listeners does without throwing, removing the second included, the second is still called |
| Events.EventEmitter.ListenerCount | crates/runtime/src/builtin/events.js:551-570 | the number of listeners, or of the matching ones |
| Events.Run | crates/runtime/src/builtin/events.js:351-476 | every program leaves arrays of at least two listeners, the number of names in `_eventsCount`, and the lists of the specification, in the order `Events.AddsInOrder` gives |
| DatagramTrace.OrderlyMeans | crates/runtime/src/builtin/dgram.js:630-655 | in an orderly observation nothing is emitted after `close`, and once the token changes or the loop ends the earlier loops are silent |
| DatagramTrace.FairMeans | crates/runtime/src/builtin/dgram.js:177-234 | what was queued is the batches one after the other and the current line, what was begun from the queue is exactly the begun front of each, in order |
| DatagramSteps.Emit | crates/runtime/src/builtin/dgram.js:630-655 | the loop that may emit is the only one with the current token, and the socket is open |
| DatagramSteps.EnqueueBinds | crates/runtime/src/builtin/dgram.js:229-234 | queueing on an unbound socket puts the operation behind all others and starts the bind |
| DatagramSteps.FlushKeeps | crates/runtime/src/builtin/dgram.js:219-227 | a flush step begins the first waiting operation, hands a connect to the native call, and keeps queue, loops and connects in step with what is observed |
| DatagramSteps.BindFailedKeeps | crates/runtime/src/builtin/dgram.js:206-214 | a bind that comes to nothing drops every waiting operation and strands every waiting connect |
| DatagramSteps.StepKeeps | crates/runtime/src/builtin/dgram.js:128-655 | every step keeps the loops, the queue and the connects in flight what the observation says they are |
| DatagramRuns.EveryRun | crates/runtime/src/builtin/dgram.js:128-655 | over every interleaving: datagrams come only from the loop of the current token and never after `close`; every send called before `close` is queued or begun, in order; what was queued is begun once in queue order after the bind succeeded, or dropped; every accepted connect is answered, in flight or dropped; exactly as many datagrams, accepted connects, failed lookups, connects and binds are observed as there are possible events that bring one about |
| DatagramRuns.StepCounts | crates/runtime/src/builtin/dgram.js:128-655 | every step observes exactly what its event brings about: one datagram for a successful receive that finds the current token, one accepted connect for a call on an open disconnected socket, and so on, and nothing otherwise |
| DatagramRuns.GentleRun | crates/runtime/src/builtin/dgram.js:630-655 | a run without a failing event leaves every bound socket that is not connecting with its receive loop; a loop is there exactly when one was started since the last token change and has not ended |
| DatagramRuns.FailureDeafens | crates/runtime/src/builtin/dgram.js:484-655 | a failed receive, a throwing `message` handler and a failed disconnect each leave the socket without a receive loop |
| DatagramRuns.DeafAfterFailedConnect | crates/runtime/src/builtin/dgram.js:437-449 | a failed connect leaves every bound disconnected socket without a receive loop |
| DatagramQueue.StepEnds | crates/runtime/src/builtin/dgram.js:177-234 | every step ends exactly the batch it should: a flush with nothing left ends it begun whole, a send that throws ends it there, a bind that comes to nothing or a close discards the queue, and no other step ends one |
| DatagramQueue.BegunUnlessLost | crates/runtime/src/builtin/dgram.js:177-234 | over every run everything queued was begun in order or still waits exactly when no step discarded a queue and no send threw with others behind it |
| DatagramQueue.ThrowingSend | crates/runtime/src/builtin/dgram.js:204-214 | a run that ends with a batch of two sends of which one was begun |
| DatagramQueue.FlushCompletes | crates/runtime/src/builtin/dgram.js:219-227 | a flush that no send interrupts begins everything that waits, in order, and ends the batch whole |
| DatagramQueue.BoundQueueIsBegun | crates/runtime/src/builtin/dgram.js:177-227 | once the bind succeeds and nothing interrupts, all that was queued while binding is begun in order |
| DatagramConnects.LawKept | crates/runtime/src/builtin/dgram.js:408-482 | exactly one connect is in flight on a connecting open socket and none otherwise, kept by every step except exactly a `connect` handler that throws after starting another connect |
| DatagramConnects.Derailed | crates/runtime/src/builtin/dgram.js:441-449 | a run that ends disconnected with a connect under way and accepts a second one |
| DatagramConnects.Strands | crates/runtime/src/builtin/dgram.js:177-234 | a step drops the waiting connects exactly when the bind comes to nothing, an operation or a `listening` handler throws, or the socket is closed |
| DatagramConnects.ConnectingForGood | crates/runtime/src/builtin/dgram.js:408-505 | an open connecting socket stays so in every continuation exactly when a connect was dropped; otherwise some continuation ends the state |
| DatagramConnects.RefusedForGood | crates/runtime/src/builtin/dgram.js:408-505 | once a connect was dropped every later connect and disconnect of the open socket is refused |
| DatagramConnects.StrandedForGood | crates/runtime/src/builtin/dgram.js:206-214 | a run, a connect whose bind fails, that leaves the open socket connecting in every continuation, refusing connect and disconnect |
| DatagramSocket.Run | crates/runtime/src/builtin/dgram.js:128-655 | the object, whose methods update its fields one by one, ends every run of events in the state the steps give, with everything `DatagramRuns.EveryRun` and `DatagramQueue.BegunUnlessLost` promise of it |

## Left out

- JavaScript typing, argument coercion and argument errors; promises and wakers as such (awaits are steps, a wait is enabled when its condition holds); lost wake-ups.
- The Int32 storage of the diff's array: positions are far below 2^31. The reads beyond the extreme diagonals yield a value the code does not use.
- Joining the printed diff lines with newlines and colouring them.
- The native text decoder, and the UTF-16 tail scan: without the native decoder only UTF-8 can be decoded. The text of a string is its sequence of scalar values.
- `String::from_utf8_lossy` is taken to replace as the decoder of the WHATWG Encoding Standard does.
- `ResponseBody::empty`, the read chunk size and the hooks for other features. A cancelled host read is taken to carry no bytes.
- The shell front end behind the lexers: commands, redirections, process emulation. The trimming of tokens is subsumed by dropping empty ones. The name pattern of a reference is a function, characterised by `Shell.ReferenceMeans`, not a regular expression.
- Unsigned integers, floats and 64-bit integers of `Buffer`; value division is exact because values stay below 2^48.
- The empty needle and the clamping of offsets before a search starts (`bidirectionalIndexOf`).
- What `atob` returns for a text with misplaced `=` is in its specification, and nothing more is stated about it.
- Blob types, line-ending options and streams as objects; iteration over a nested blob is a method call.
- The registry of execution jobs with its limit of eight, the compilation of the job's source, deserializing its value.
- Arguments of events, the `error` event without a listener, rejection capture, the warning about too many listeners, `removeAllListeners`, `listeners`, registering again a wrapper obtained from `rawListeners`. The order of event names.
- Socket options, addresses and the sends themselves: an operation is opaque and may throw when started.
