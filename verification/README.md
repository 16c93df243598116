# Verified model of proxify's relay, logging pipeline and spec generator

This project models the parts of proxify that hold state machines, string
algorithms and heap structures of its own, and proves what they keep. The HTTP
and DSL libraries, the JSON and YAML codecs and the operating system appear as
function parameters, about which nothing is assumed unless a lemma says so.

| Files | What they model |
|---|---|
| `Text.dfy` | the Go string operations the code relies on (split, join, trim, replace) |
| `RelayStream.dfy` | what one direction of the socket relay does to its bytes |
| `RelayMachine.dfy`, `RelayShutdown.dfy`, `RelayRefinement.dfy` | the relay as an interleaving of three goroutines: its shutdown protocol and its streams |
| `SocketConn.dfy`, `RelaySolo.dfy` | the code of a pipe as methods over mutable connections, and its place among the machine's runs |
| `LogSpec.dfy`, `Logger.dfy`, `LoggerRuns.dfy` | the logger: a pure specification, the code against it, and the interleaving of producers, consumer and `Close` |
| `LogNames.dfy`, `LogSplit.dfy`, `LogPairs.dfy` | the log format and its two readers, the replay tool and swaggergen |
| `Http.dfy`, `Messages.dfy`, `Rewrite.dfy`, `Filters.dfy`, `Proxy.dfy` | messages with one-shot bodies, structured data, match-replace, filters, and the two modifiers |
| `ApiSpec.dfy`, `ApiHeap.dfy`, `ApiLaws.dfy` | the OpenAPI accumulator on values, on the heap, and its laws |
| `ApiFiles.dfy`, `ApiRun.dfy` | incremental runs on the specification file, and the code of a run |
| `EndToEnd.dfy` | from the filters of an exchange through any run of the logger to the readers |

How the pieces fit:

* **Relay.** `RelayMachine` splits the goroutines of one accepted socket into
  atomic steps: `err` is a check of `erred`, a send on the unbuffered channel
  and a write of `erred`; the deferred closes are steps of their own. Safety is
  proved of every reachable state of every interleaving. The same chunk
  functions specify the methods of `SocketConn.SocketConn`, and
  `RelaySolo.CodeIsARun` shows that whatever such a pipe does is a run of the
  machine.
* **Logger.** `LogSpec` says what one transaction leaves behind; the methods of
  `Logger.Logger` are proved against it, and `LoggerRuns` proves it of whole
  runs with concurrent producers, one consumer and `Close`.
* **Accumulator.** `ApiSpec.Add` is what `AddPath` does to the value of a
  specification. `ApiHeap` is the tree of objects, maps and one-shot readers,
  updated in place, with an ownership invariant at each level; each method is
  proved to do to the tree what its value-level counterpart does to its value.
  `ApiLaws` then proves what folding a log means, `ApiFiles` what any number of
  runs over the same file leave in it, and `ApiRun.Generator.Generate` is one
  such run.
* **End to end.** `EndToEnd.Exchange` runs both modifiers and derives the
  verdicts of the two transactions they queue; the lemmas after it follow such
  transactions through any run of the logger.

## What turned out not to hold

* `err` reads `erred` before sending and writes it only after the send
  (socket.go:177-184). A second pipe that reads it in between blocks on the send
  forever. `RelayShutdown.FateOfCheck` gives the exact condition and
  `RelayShutdown.StrandedEndOccurs` a schedule, for every configuration.
* Rewriting a stream chunk by chunk depends on how reads cut it, unless the
  rewriting distributes over concatenation; this is an equivalence
  (`RelayStream.IndependentIffHomomorphic`).
* Response match-replace is not all or nothing: when the rebuilt body is
  incomplete the new header is already in place and the body is gone
  (proxy.go:390-394); a failure at any earlier stage still sets the content
  length to -1 (proxy.go:360). `Rewrite.AllOrNothingIff` gives the exact
  condition and `Rewrite.HalfReplaced` a failing input. Request match-replace is
  all or nothing.
* The `content_length` and `status_code` variables of a response filter give way
  to headers of those names, exactly when there is one; `Content-Length` is one
  (`Filters.HeadersShadow`).
* Swaggergen reads a stored response back exactly when it starts like a status
  line and no later line of the request dumps does (`LogSplit.PairRoundTrip`).
* The replay tool recovers the host only when it has no `-` and the transaction
  was stored whole (`LogNames.ReplayRecoversHost`).
* An empty `Responses` map is omitted when a specification is saved and comes
  back nil; a later run that adds a response to such a method panics
  (`ApiLaws.SplitPanics` is an input, `ApiLaws.SplitLaw` the exact condition).
* A specification is written without truncating the file, so a shorter text
  leaves the old tail behind it (`ApiFiles.ShrinkingLeavesTail`, with
  `ApiFiles.DroppedQuery` as an input). Incremental runs are exact iff neither
  this nor the panic happens (`ApiFiles.FilesOfRuns`).
* Closing the structured writer between a record and its newline loses the
  newline: `LoggerRuns.CloseLeaves` says when, and what else `Close` drops, and
  `LoggerRuns.TornOccurs` that it happens.
* A weighted coding such as `br;q=1` is not removed from `Accept-Encoding`
  (`Rewrite.WeightedBrKept`).
* The repository's documentation says that a matching request's or response's
  dump gets the `.match.txt` suffix (README.md:223); the code tags only the
  response part (pkg/logger/logger.go:270-274), and so does the model.

## Model

| member | source | states |
|---|---|---|
| RelayShutdown.ShutdownSafety | socket.go:126-200 | In every reachable state of every interleaving at most one rendezvous on errsig has happened; erred implies it has; fullduplex has returned only after the pipe that met it failed a read or write; a connection is closed only after that, the remote one first |
| RelayShutdown.AtMostOneRendezvous | socket.go:175-200 | No run from the start contains two rendezvous steps |
| RelayShutdown.ErredIffFlagged | socket.go:184 | After any run erred is true exactly when some pipe has executed its write of it |
| RelayShutdown.FateOfCheck | socket.go:175-185 | In any run, a pipe whose check of erred follows the write of it has exited as the loser; one whose check precedes that write won the rendezvous or is at the send |
| RelayShutdown.StrandedForever | socket.go:183 | A pipe at the send after the other won stays there in every continuation |
| RelayShutdown.SawErredKept | socket.go:177 | What a pipe read in erred is final in every continuation |
| RelayShutdown.RunsEnd | socket.go:126-200 | Once Proxy has returned, every step of any pipe lowers a natural-number measure, so every continuation is no longer than its drop |
| RelayShutdown.QuiescentEnds | socket.go:175-200 | With Proxy returned, nothing can move iff both pipes have exited or are at the send; then the winner has exited, and the loser has exited iff it read erred as true, else it is stranded |
| RelayShutdown.EndIsReached | socket.go:175-200 | From every reachable state with Proxy returned some continuation reaches such an end |
| RelayShutdown.NoEarlyDeadlock | socket.go:115-200 | Until Proxy has returned some goroutine can always move |
| RelayShutdown.StrandedEndOccurs | socket.go:177-184 | Whatever the configuration, some schedule ends with the second pipe blocked forever |
| RelayShutdown.CleanEndOccurs | socket.go:177-184 | Whatever the configuration, some schedule ends with both pipes exited |
| RelayRefinement.StreamRefinement | socket.go:202-298 | In every reachable state, per direction: the chunks read are consecutive pieces of that direction's input of at most 0xffff bytes; completed writes delivered exactly the transforms of all of them but at most the last, in order; a failed write delivered a prefix of the last one's transform; bytes that came with a read error went nowhere |
| RelayRefinement.EachDirection | socket.go:187-265 | What reached rconn is lconn's input relayed with the request list and callback, and what reached lconn is rconn's input relayed with the response list and callback, by reads of at most 0xffff bytes |
| RelayRefinement.ClosedEnds | socket.go:126-148 | After lconn is closed no read from it and no write to it succeeds, and likewise for rconn |
| RelayRefinement.CountersExact | socket.go:287-297 | In every reachable state a counter equals, modulo 2^64, the total size of completed writes less one still to be counted, and never exceeds the bytes delivered while it has not wrapped |
| RelayRefinement.DeliveryIgnoresCuts | socket.go:217-297 | Two reachable states of any schedules that consumed the same amount of input have delivered the same bytes when the rewriting distributes over concatenation |
| RelayRefinement.DeliveredIsOutput | socket.go:217-297 | Without an HTTP client, what was delivered between iterations is the concatenation of the rewritten chunks read |
| RelayRefinement.PlainRelayIsTransparent | socket.go:217-297 | Without rewriting, what was delivered is a prefix of the input, whatever the schedule |
| RelayStream.RewriteChunk | socket.go:226-265 | The DSL loop and callback compute the left fold over the expressions, keeping the data where one fails, followed by the callback |
| RelayStream.RewrittenStages | socket.go:226-265 | A chunk is rewritten by each expression in the order of the list, each working on the result of the one before or on the same data where that failed, and then by the callback |
| RelayStream.TransformOf | socket.go:276-287 | What is written is the answer of the round trip if there is one, and the rewritten chunk if there is none |
| RelayStream.DslFoldAppend | socket.go:229-240 | Rewriting with two lists in a row is rewriting with their concatenation, failing expressions included |
| RelayStream.FailingExpressionSkipped | socket.go:233-239 | An expression that fails on the data reaching it can be removed from the list |
| RelayStream.RelayedIsOutput | socket.go:218-297 | Without round trips the relayed stream is the chunk rewriting mapped over the chunks read |
| RelayStream.IndependentIffHomomorphic | socket.go:217-265 | The output depends only on the input stream, for all ways of cutting it into reads, iff the rewriting distributes over concatenation |
| RelayStream.ReplaceSeesCuts | socket.go:217-265 | A two-byte replacement expression is a rewriting whose output does depend on the cuts |
| RelayStream.WrapIsMod | socket.go:31-32 | The counters' arithmetic is arithmetic modulo 2^64 |
| RelayStream.WrapAdd | socket.go:293-297 | Adding to a wrapped counter gives the wrapped sum |
| SocketConn.SocketConn.constructor | socket.go:115-170 | A relay starts with both counters at zero on its two connections |
| SocketConn.SocketConn.Forward | socket.go:225-297 | A chunk from lconn is rewritten with the request list and callback and counted as sent, one from rconn with the response list and callback and counted as received; the answer of the round trip, if there is one, is written instead; a failed write delivers a prefix, uncounted |
| SocketConn.SocketConn.Pipe | socket.go:202-299 | A pipe delivers the transforms of exactly the chunks its peers let through, in order, then exactly what the failing write delivers of the next one: from lconn with the request side and counted modulo 2^64 as sent, from rconn with the response side and counted as received; the other counter does not change; it reports the fault that stopped it |
| RelaySolo.CodeIsARun | socket.go:202-299 | For every script of reads, writes and replies there is a run of that direction's steps alone that relays the items, delivers the bytes, also those of a failing write, counts and fails as the code does and leaves the rest of the machine as it was |
| RelaySolo.PrepareRuns | socket.go:219-284 | A read, the evaluations, the callback and the round trip bring a pipe to the write of the item's transform |
| Logger.Logger.constructor | pkg/logger/logger.go:53-57 | The queue starts empty and open |
| Logger.Logger.LogRequest | pkg/logger/logger.go:103-114 | A nil request is not queued; another is queued last, without response, if there is room, blocks its caller on a full queue and panics on a closed one |
| Logger.Logger.LogResponse | pkg/logger/logger.go:117-128 | A nil response is not queued; another is queued last with its request if there is room, blocks its caller on a full queue and panics on a closed one |
| Logger.Logger.Close | pkg/logger/logger.go:223-228 | The structured writer is closed with what it had, and the queue is closed |
| Logger.Logger.Fill | pkg/logger/logger.go:259-289 | A part gets exactly the specified name, tag, suffix, framing newlines and truncation, or is not stored when it is not dumped |
| Logger.Logger.StoreWriter | pkg/logger/logger.go:259-296 | Every store that has a folder gets exactly the specified save, the others none |
| Logger.Logger.WriteStructured | pkg/logger/logger.go:164-200 | An open writer gets the specified line of the transaction or nothing, by verdict, response and encodability |
| Logger.Logger.Process | pkg/logger/logger.go:131-219 | One transaction adds its line to an open structured file and its request and response parts, in that order, to each store |
| Logger.Logger.AsyncWrite | pkg/logger/logger.go:131-220 | Draining a queue leaves in every store and in the structured file exactly what the queued sequence specifies |
| Logger.FileStore.Save | pkg/logger/file/file.go:47-69 | A part is appended to the file of its name, created if absent, when the store has a folder |
| Logger.JsonLinesWriter.Write | pkg/logger/jsonl/jsonl.go:26-34 | An encoded record becomes one line in an open file; an encoding error or a closed file leaves it unchanged |
| LogSpec.FilesAreContents | pkg/logger/file/file.go:59-69 | After any saves, the files are those saved to, each the old content followed by its payloads in order |
| LogSpec.Truncate | pkg/logger/logger.go:286-289 | A positive limit keeps the longest prefix within it, another keeps everything |
| LogSpec.SavesSpelled | pkg/logger/logger.go:202-289 | A transaction without request is not stored; of another the request is stored before the response, each if its flag lets it, with a newline after it and one before a response, cut to the limit |
| LogSpec.LineSpelled | pkg/logger/logger.go:164-200 | With a verdict other than false the line is the escaped encoding of time, URL, request and response data in that order; without response or data, or with a verdict of false, there is none |
| LogSpec.ApplyAppend | pkg/logger/file/file.go:59-69 | Saving two lists in a row is saving their concatenation |
| LogSpec.Consume | pkg/logger/logger.go:132-216 | Taking the first transaction off the queue and saving it leaves the same files to come |
| LogSpec.FramedSplits | pkg/logger/jsonl/jsonl.go:26-34 | Splitting a file of newline-free records at newlines gives back the records in order and one empty tail |
| LogSpec.OutputSplits | pkg/logger/jsonl/jsonl.go:26-34 | The structured output of any transactions, for any encoder, splits into exactly their lines |
| LogSpec.LineUnescaped | pkg/logger/jsonl/jsonl.go:31 | An encoder text without raw newlines is logged unchanged |
| Text.EscapeAt | pkg/logger/jsonl/jsonl.go:31 | Each newline becomes a backslash and the letter n, wherever it stands |
| LoggerRuns.Conservation | pkg/logger/logger.go:54-132 | In every reachable state the transactions sent are those processed, the one in hand and those queued, in that order, and the queue holds at most 1000 |
| LoggerRuns.FilesOfProcessed | pkg/logger/logger.go:131-219 | Between transactions the files are exactly those named by the processed sequence, each the in-order concatenation of its payloads |
| LoggerRuns.StructuredOutput | pkg/logger/logger.go:164-228 | In every reachable state the structured output is the lines of a prefix of the transactions sent, up to the newline of the last; with the writer open it is all those begun |
| LoggerRuns.WholeIffNotTorn | pkg/logger/logger.go:223-228 | Outside the moment between a record and its newline the output is whole iff the writer was not closed in such a moment |
| LoggerRuns.CloseLeaves | pkg/logger/logger.go:164-228 | For every run and whenever Close comes in it: the final structured output is the lines of exactly the transactions whose write was begun by then, with the last newline missing iff Close came between a record and its newline |
| LoggerRuns.TornOccurs | pkg/logger/jsonl/jsonl.go:31-32 | For every transaction that has a line some complete run leaves its record without the newline |
| LoggerRuns.DrainedAtEnd | pkg/logger/logger.go:131-228 | When the consumer ends, everything ever sent is in the stores, also what was queued when Close closed the writer |
| LoggerRuns.DrainProgress | pkg/logger/logger.go:131-228 | After Close every step lowers a measure, and some step is possible until the consumer has ended |
| LogNames.ParseName | cmd/replay/replay.go:128-147 | A .txt name parses into the specified host and ID; another is skipped |
| LogNames.ParseOfName | cmd/replay/replay.go:132-147 | Of any name the ID is what stands between the last dash and the next dot, and the host what stands before that dash without its dashes |
| LogNames.ReplayRecoversId | cmd/replay/replay.go:132-147 | The replay tool recovers a transaction's ID from its file name, for every host and option, iff the ID has no dash and no dot |
| LogNames.ReplayHostOfName | cmd/replay/replay.go:132-146 | What it recovers as host is the host with every dash deleted and the part suffix appended |
| LogNames.ReplayRecoversHost | cmd/replay/replay.go:132-146 | What it recovers as host is the host iff that has no dash and the transaction was stored whole |
| LogNames.NameInjective | pkg/logger/logger.go:259-274 | With the flags fixed and clean IDs, equal names mean equal host, ID, part and tag |
| LogNames.NamesSpelled | pkg/logger/logger.go:259-274 | With a dump flag only the dumped parts are stored, as host.request-ID or host.response-ID; without one all parts as host-ID, and a response with a verdict of true as host-ID.match |
| LogNames.StemOfName | cmd/replay/replay.go:132-134 | Stripping the extensions of a stored name leaves host, part suffix and ID, tagged or not |
| LogNames.JoinWithNothing | cmd/replay/replay.go:145-146 | Splitting at dashes and joining deletes the dashes |
| LogSplit.PairRoundTrip | cmd/swaggergen/swaggergen.go:161-167 | For any dumps r1, r2 and response s, the split of r1, newline, r2, two newlines, s, newline returns s and its newline iff s starts with "HTTP/1.0 " or "HTTP/1.1 " and no line of the dumps after the first starts with either |
| LogSplit.PatternMeans | cmd/swaggergen/swaggergen.go:161 | The pattern matches at a position iff a newline, "HTTP/1.", the digit 0 or 1 and a space stand there |
| LogSplit.ReadBackSpelled | cmd/swaggergen/swaggergen.go:161-163 | Of any file the response part is the text after the first newline that "HTTP/1.", the digit 0 or 1 and a space follow, and empty without one |
| LogSplit.ReadBackLeftmost | cmd/swaggergen/swaggergen.go:161-163 | The split is the text after the leftmost matching newline |
| LogSplit.ReadBackNone | cmd/swaggergen/swaggergen.go:161-163 | Without a match the response part is empty |
| LogSplit.MatchIffLater | cmd/swaggergen/swaggergen.go:161-162 | The pattern matches within the requests iff one of their lines after the first starts like a status line |
| LogPairs.OnlyItsId | pkg/logger/logger.go:259-296 | A file's content depends only on the transactions of the ID in its name, whatever else was logged |
| LogPairs.PairStored | pkg/logger/logger.go:202-296 | Among any other transactions, a pair logged whole is stored as both requests and the response in one file, or, when its verdict is true, as the requests in one and the response in the .match file |
| LogPairs.PairReadBack | cmd/swaggergen/swaggergen.go:161-167 | What swaggergen splits off that file is the response exactly under the round-trip condition |
| Messages.NewHttpRequestData | pkg/types/userdata.go:55-88 | The data of a request holds its request line, its headers with their values joined, its body and its dump; extracting it leaves the request as it reads; there is none iff the body cannot be read or the request dumped |
| Messages.DataSpelled | pkg/types/userdata.go:60-85 | Body, dump and header entries are each the request's own: the four of the request line, and every header with its values joined by a comma and a space |
| Messages.RequestLineKept | pkg/types/userdata.go:60-67 | With canonical header names no header hides the request line entries |
| Rewrite.MatchReplaceRequest | proxy.go:321-355 | When every expression succeeds, each on the text the one before it made of the dump, the request becomes the parse of the last text; on any failure method, header, URL and body read as before; only an unreadable body is lost |
| Rewrite.MatchReplaceResponse | proxy.go:358-400 | When every expression succeeds, header and body become those of the parse of the last text, the body none if it is incomplete; on a failure up to the parse both read as before; the content length is -1 in every case |
| Rewrite.AllOrNothingIff | proxy.go:358-400 | Header and body both stay or both come from the rewritten response iff the rewrite fails before or in the parse, or the parsed body is complete |
| Rewrite.HalfReplaced | proxy.go:390-394 | A parse that finds the body cut short loses the old header and leaves no body |
| Rewrite.Evaluate | proxy.go:328-338 | The loop computes the left fold of the expressions, ended by the first error |
| Rewrite.FoldAppend | proxy.go:331-337 | Rewriting with a concatenated list is rewriting with the two lists in a row, with errors |
| Rewrite.ParsedFromTrace | proxy.go:328-342 | A message whose dump starts a trace is parsed from the last text of the trace |
| Rewrite.FoldIffTrace | proxy.go:328-339 | The expressions give a result iff there are texts from the dump to it, each made by its expression from the one before |
| Rewrite.RewrittenIff | proxy.go:321-345 | There is a rewritten request iff the dump, every expression in turn and the parse of the last text succeed |
| Rewrite.RewrittenResponseIff | proxy.go:358-386 | The same of a response |
| Rewrite.AnyFailureUndoesAll | proxy.go:331-337 | One failing expression, wherever it stands, leaves no rewritten request |
| Rewrite.RemoveBrEncoding | proxy.go:251-256 | Only the Accept-Encoding header changes: of a value that lists codings, with or without spaces, to the list of those other than br; without the header, to an empty value |
| Rewrite.CodingsOfList | proxy.go:252 | The codings of a value are exactly those it was joined from, with or without spaces |
| Rewrite.CodingsAreAll | proxy.go:252 | Of any value, the codings joined by commas are the value without its spaces |
| Rewrite.RemovesExactlyBr | proxy.go:251-256 | The new value lists exactly the space-stripped codings other than br, in order and with multiplicity, and is empty when there are none |
| Rewrite.RemoveBrIdempotent | proxy.go:251-256 | Normalising twice gives the same header string as normalising once, for every value |
| Rewrite.WithoutKeeps | proxy.go:253 | Pruning removes every occurrence of the token and keeps the multiplicity of every other |
| Rewrite.WithoutAppend | proxy.go:253 | Pruning acts on each token by itself, so it keeps their order |
| Rewrite.JoinSpaces | proxy.go:252-254 | Stripping the spaces of a joined value undoes the spaces of the separator |
| Rewrite.WeightedBrKept | proxy.go:253 | A coding br with a weight is kept |
| Text.SplitJoin | proxy.go:252-254 | Splitting a join of separator-free tokens gives the tokens back |
| Text.JoinSplit | cmd/replay/replay.go:145-146 | Joining a split with the separator gives the string back |
| Filters.RequestToMap | pkg/util/util.go:14-48 | For a readable body the request reads the same afterwards, every built-in variable has its value whatever the headers, all_headers lists every header once in some order, and each other variable is a header's |
| Filters.RequestVarsSpelled | pkg/util/util.go:26-45 | Each built-in variable of a request is the field of its name, and raw and request are the dump |
| Filters.ResponseToMap | pkg/util/util.go:51-80 | For a readable body the response reads the same afterwards; the length and status variables give way to headers of their names, body and dump do not, all_headers lists every header once, and each other variable is a header's |
| Filters.ResponseVarsSpelled | pkg/util/util.go:65-77 | The body variable of a response is its body, and raw and response are the dump if there is one |
| Filters.AddHeaders | pkg/util/util.go:17-24 | In any order of the headers, a variable named by a header is that of some header of the name, every other variable keeps its value, and the text lists every header once |
| Filters.HeadersShadow | pkg/util/util.go:54-63 | The content_length and status_code variables are the length and the status of the response iff no header normalises to their names; with a Content-Length or a Status-Code header they are text |
| Filters.LengthHeaderWins | pkg/util/util.go:54-63 | With one header of the name, the content_length variable is that header's text |
| Filters.EvalBoolSlice | pkg/util/util.go:93-102 | The result is true iff the list is non-empty and every element is true |
| Filters.PassesIffAllTrue | proxy.go:225-300 | The joined verdict differs from false iff every request filter and every response filter held, and is true iff there was a filter too |
| Proxy.Proxy.TestRequest | proxy.go:225-233 | Every request filter is evaluated on the variables of the same, unchanged request; an error counts as false |
| Proxy.Proxy.TestResponse | proxy.go:284-292 | Every response filter is evaluated on the variables of the same, unchanged response; an error counts as false |
| Proxy.Proxy.ModifyRequest | proxy.go:202-249 | A request for the proxy itself or for a callback is not logged; any other goes out as its rewriting without br, the filters having left no trace, and exactly one transaction is queued, with their verdict in a fresh bool and without response |
| Proxy.OutgoingOffersNoBr | proxy.go:242-246 | Whatever match-replace made of a request, what is sent does not offer br, and differs from the rewriting's result in that header only |
| Proxy.OutgoingIsRewritten | proxy.go:242-246 | When every expression succeeds, what is sent is the parse of the last text, but for the one header |
| Proxy.ReturnedIsRewritten | proxy.go:301-305 | Without expressions the response is returned as filtered; when every expression succeeds it is the parse of the last text, without a body if that is incomplete; when one fails it is as filtered |
| Proxy.Proxy.HijacksOnly | proxy.go:215-218 | The proxy serves its own pages for proxify, proxify:443, proxify:80 and its listen address, in any case of letters, and for no other host |
| Proxy.Proxy.ModifyResponse | proxy.go:259-318 | Without a callback exactly one transaction is queued with the joined verdict; the verdicts of what is already queued stay as they were; header and body are those match-replace leaves of what the filters saw; the connection is to be closed after a redirect that leads away |
| Proxy.Proxy.ResponseMatch | proxy.go:293-300 | The verdict after the response filters is a fresh bool holding the conjunction, or the old pointer when there are no filters |
| ApiHeap.NewSchema | pkg/swaggergen/schema.go:15-56 | The reader is read to its end once; there is no schema iff it breaks or does not decode; the type is object, array, string, number, boolean or notfound as the decoded value is an object, array, string, number, boolean or null, and an object has one property per member with the type of its value |
| ApiHeap.NewParameters | pkg/swaggergen/parameter.go:15-42 | The parameters are, as a set and without duplicates, the body's if it decodes, first, and one per query key described by its first value; the body is read once |
| ApiSpec.ParametersSpelled | pkg/swaggergen/parameter.go:17-40 | Every parameter is required; each query key has one with its first value as description and a string schema; a body that has a schema has one named body with that schema |
| ApiHeap.NewContent | pkg/swaggergen/content.go:11-19 | A fresh content object holds the schema of the body, or none is made without a body |
| ApiHeap.Content.UpdateContent | pkg/swaggergen/content.go:22-26 | The schema is replaced in place by that of the body, if there is a body |
| ApiHeap.NewResponse | pkg/swaggergen/response.go:12-22 | A fresh response owns the content of its type; without header there is none and the body is not read |
| ApiHeap.Response.UpdateResponse | pkg/swaggergen/response.go:25-33 | The content of one type is created or updated in place as the value-level update says, the contents of other types stay as they were, and ownership is kept |
| ApiHeap.NewMethod | pkg/swaggergen/method.go:11-22 | A fresh method owns the parameters and the first response of the entry, whose readers are read once |
| ApiHeap.Method.UpdateMethod | pkg/swaggergen/method.go:25-34 | The response of one status is created or updated in place and the parameters are replaced, as the value-level update says; the objects of other statuses stay as they were |
| ApiHeap.NewPath | pkg/swaggergen/path.go:11-15 | A fresh path holds one method under the lower-cased verb |
| ApiSpec.Verb | pkg/swaggergen/path.go:11-24 | The key of a method is its name with each capital letter in lower case |
| ApiHeap.PathItem.UpdatePath | pkg/swaggergen/path.go:18-24 | One method is created or updated in place as the value-level update says; the other methods and the objects they own stay as they were |
| ApiHeap.Spec.constructor | pkg/swaggergen/spec.go:14-21 | A new specification has the log directory as title, the api as its server and no paths |
| ApiHeap.Spec.UpdateSpec | pkg/swaggergen/spec.go:24-33 | The title grows by the log directory, and the api is appended to the servers unless it is there |
| ApiHeap.Spec.AddPath | pkg/swaggergen/spec.go:36-43 | The tree of objects afterwards stands for the value-level addition of the entry to what it stood for; every object stays owned by one key path; each reader the entry owes is read to its end exactly once and no other |
| ApiLaws.SpecOfLog | pkg/swaggergen/spec.go:36-43 | After folding any log the keys at each level are exactly the paths, lower-cased verbs, statuses and content types seen, the parameters are those of the last request of the path and verb, and a schema is that of the last body of path, verb, status and type |
| ApiLaws.FoldKeys | pkg/swaggergen/spec.go:36-43 | The same key sets over any starting specification |
| ApiLaws.FoldValues | pkg/swaggergen/spec.go:36-43 | The same last-writer values over any starting specification |
| ApiLaws.AddKeys | pkg/swaggergen/path.go:18-24 | One entry adds its path and verb only, sets the parameters there, and leaves every other method equal |
| ApiLaws.AddStatus | pkg/swaggergen/method.go:25-34 | One entry adds its status and type only, and sets the schema only where it has a body |
| ApiLaws.ReadLogsAreSafe | pkg/swaggergen/response.go:25-33 | From a specification without nils, no log of parsed responses can dereference a nil, and none appears |
| ApiLaws.EntriesCommute | pkg/swaggergen/path.go:18-24 | Entries for different path and verb pairs can be added in either order with the same result |
| ApiLaws.FoldAppend | cmd/swaggergen/swaggergen.go:122-127 | Folding a concatenation is folding its parts in a row, including where it panics |
| ApiLaws.SplitLaw | cmd/swaggergen/swaggergen.go:101-129 | Folding a log, saving, reloading and folding another panics iff a verb never answered in the first log gains a response, and otherwise saves the same specification as folding both at once |
| ApiLaws.SplitPanics | cmd/swaggergen/swaggergen.go:101-129 | A request logged alone in one run and with its response in the next panics, though both together are safe |
| ApiLaws.IncrementalRuns | cmd/swaggergen/swaggergen.go:101-129 | With files saved and loaded whole, any number of incremental runs complete iff none adds a response to a method the runs before it saw but never answered, and then save what one run over all their logs saves |
| ApiFiles.FilesOfRuns | cmd/swaggergen/swaggergen.go:73-129 | Any number of runs on one file that is overwritten without truncation: after each of them it holds exactly what one run over all the logs so far writes, iff no run adds a late response and no run has a shorter text than one before it |
| ApiFiles.FinalFile | cmd/swaggergen/swaggergen.go:73-129 | Under those two conditions the final file is the encoding of the fold of all logs, with the joined title and the distinct servers |
| ApiFiles.OneMoreRun | cmd/swaggergen/swaggergen.go:73-129 | On an exact file a run panics iff it answers late; otherwise its text is that of one run over all logs, and the file holds exactly that iff it held nothing longer |
| ApiFiles.ShrinkingLeavesTail | cmd/swaggergen/swaggergen.go:87-98 | On an exact file a shorter text leaves the end of the previous one behind it |
| ApiFiles.DroppedQuery | cmd/swaggergen/swaggergen.go:87-129 | A method whose query key is absent from the second run loses the parameter, and where that text is shorter the old end stays |
| ApiLaws.SimilarRun | pkg/swaggergen/method.go:6 | Two specifications that differ only in empty and nil response maps stay so over any log, and the nil one panics iff the log writes to one of its nil maps |
| ApiLaws.NilIffNeverAnswered | pkg/swaggergen/method.go:6 | A reloaded method has a nil response map iff the log saw the method and never with a response |
| ApiLaws.ServersDistinct | pkg/swaggergen/spec.go:24-33 | Over any series of runs the server URLs are the hosts given, without duplicates, in first-seen order |
| ApiRun.AddAll | cmd/swaggergen/swaggergen.go:122-127 | The loop leaves the tree standing for the fold of the api host's entries in order; their readers are read exactly once and those of other hosts never |
| ApiSpec.ForHostSelects | cmd/swaggergen/swaggergen.go:122-127 | Exactly the entries of the api host are added, as often as they were logged |
| ApiSpec.ForHostAppend | cmd/swaggergen/swaggergen.go:122-127 | Entries are selected one by one, in their order |
| ApiRun.Generator.CreateSpec | cmd/swaggergen/swaggergen.go:101-129 | The specification is the fold over an empty or the loaded one, with the servers and the title extended, and every logged body read at most once |
| ApiRun.Generator.WriteSpec | cmd/swaggergen/swaggergen.go:87-98 | The file starts with the new text; it is exactly that iff there was no file or none longer, else the old tail stays |
| ApiRun.Generator.Keep | cmd/swaggergen/swaggergen.go:161-173 | The parsed pairs are kept in order, with readers that are unread and shared by no two entries |
| ApiRun.Generator.Generate | cmd/swaggergen/swaggergen.go:73-84 | Reading, extending and writing do to the output file what one run of the file model says; it fails, leaving the file alone, iff some log file has neither part or the old file does not load |
| ApiRun.ReadLog | cmd/swaggergen/swaggergen.go:132-176 | One entry per file in order, parsed from the file and from the part after its leftmost status line; an error iff neither parses for some file |
| EndToEnd.Exchange | proxy.go:202-318 | Both modifiers on one exchange queue two entries after those queued before; the transactions they stand for are a pair with the verdicts of the filters as evaluated on the request and on the answer |
| EndToEnd.ReadRequest | pkg/logger/logger.go:139-142 | The consumer's dump and extraction give the logged form of the request and leave the request as it reads |
| EndToEnd.OneLineIffAllFiltersHeld | pkg/logger/logger.go:131-228 | In every reachable state with whole lines, and among any other traffic, an exchange begun while the writer was open contributes to the structured output, at its place, exactly its own line iff every request and response filter held, vacuously without filters, and nothing otherwise |
| EndToEnd.ExchangeLogged | pkg/logger/logger.go:131-228 | The same of the two transactions that an exchange through the modifiers queued |
| EndToEnd.FinishedOutput | pkg/logger/logger.go:131-228 | After a run whose Close came when everything was begun and no newline was pending, the output is all lines sent, with the exchange's own line iff every filter held |
| EndToEnd.LoggedPairReadBack | pkg/logger/logger.go:131-228 | After any complete run of the logger, under any interleaving and with any other traffic, the file of a pair holds both requests and the response, and swaggergen reads the response back exactly under the round-trip condition |
| EndToEnd.MatchedPairSplit | pkg/logger/logger.go:270-274 | With a verdict of true the response is alone in the .match file after any complete run, and is read back from there iff it starts like a status line |
| EndToEnd.FinishedContent | pkg/logger/logger.go:131-228 | After any complete run a file holds what the sequence sent says it holds |

## Left out

- Go's memory model: the steps of the relay are sequentially consistent; `erred` and the two counters are unsynchronised in the source, and the log line of `fullduplex` that reads the counters is not part of the state.
- Callbacks and DSL expressions of the relay are pure functions of the chunk; a callback that keeps a reference to the reused read buffer is not modelled, nor is a DSL result that is not a byte string (the source panics).
- Timeouts and deadlines appear only as read and write failures; dialling, TLS, listeners and the early returns of `Proxy` before the pipes start are not modelled.
- SocketConn.Endpoint: a connection follows a script of arrivals and accepted writes; a write after the other side closed is modelled in `RelayMachine` instead.
- Logger.Logger.LogRequest: a blocked call returns instead of waiting; `LoggerRuns` models the wait as a step that is not enabled.
- Logger.Logger.LogResponse: as for LogRequest.
- Logger.Logger.AsyncWrite: drains what is queued when it runs alone; the concurrent producers and `Close` are in `LoggerRuns`.
- A logged transaction carries its verdict as a value; that the pointers of queued transactions never change is proved in `Proxy.Proxy.ModifyResponse`.
- A logged request is taken as dumped when it was logged; the source queues a pointer, so a later modification of the same message can reach the file.
- The draining of a request body by the debug output at the highest verbosity (pkg/logger/logger.go:231-240); everything here is for lower verbosity.
- Logger.FileStore.Save: opening and appending to a file always succeed; the single output file of the file store, which nothing configures, and the Kafka, Elasticsearch and YAML writers are left out.
- File names are plain strings: path cleaning of names with separators is not modelled.
- LogNames.ParseName: models the name parser of the replay tool; its HTTP exchange and the table of pending responses are single reads and writes of a map.
- Library behaviour is taken from its documentation: truncation keeps a prefix of at most the given size, pruning removes equal elements, lower-casing is of ASCII letters.
- Proxy.Proxy.ModifyRequest: what the proxy's own pages and a library user's callback do to the message is not modelled; the session's store of the user data is the returned value.
- Proxy.Proxy.ModifyResponse: what a callback does is not modelled, nor a filter result that is not a boolean (the source panics).
- Filters.RequestToMap: the order of the headers in `all_headers`, and which of several headers of one variable name wins, are those of map iteration and left open.
- Filters.ResponseToMap: as for RequestToMap.
- ApiHeap.NewParameters: the order of query parameters depends on map order; the parameters are specified as a set without duplicates.
- ApiRun.Generator.Generate: a logged file of which only the response parses panics in the source and is excluded, as is a late response; the tree the YAML decoder builds is a parameter. In `ApiFiles` a codec is assumed to load what it encoded, up to the one change `ApiLaws.Reloaded` states, and to encode that alike; nothing is assumed of other texts.
- Go shares one empty body among all messages without one; here each is an empty reader of its own.
- ApiLaws.SplitLaw: saves and loads without a file; `ApiFiles.FilesOfRuns` is the law on files.
- ApiLaws.IncrementalRuns: as for SplitLaw.
- The version, the OpenAPI number, summaries and descriptions of a specification are constants and are not modelled.
