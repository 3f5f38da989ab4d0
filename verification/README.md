# A model of the ACME client inside nginx

This project models, in Dafny, the parts of the autocert module that are state
machines or incremental algorithms, and proves what each of them is for. Every
file is one module; `dafny verify dfyconfig.toml` checks the whole.

| files | what they model |
|---|---|
| Bytes | byte strings and what all parts need of them |
| HttpFraming, HttpRequest, ChunkedGrammar, ResponseGrammar | the response reader: the one-shot meaning of a byte stream, the incremental client proved equal to it, the chunked coding as a grammar, and what a response on the wire means, head and body |
| CertStore | the certificate store on disk: names, inodes, links, and a commit that can fail or stop at any step |
| OrderFlow | one ACME order against any CA: polls, recoveries, hooks, the nonce resend |
| Keygen | the key generation slot shared with a thread that cannot be stopped |
| LoadCap | the handshake budget with its reserve, and the fairness it buys |
| JsonGrammar, JsonParser, JsonReader, JsonPrinter | JSON texts as a grammar, the parse as a function, the cursor-driven reader, a printer |
| CommandLine | quoting of a command line and the splitter it has to survive |
| HostName, ServeGate | names, their normal form, their directories, and which names a handshake is served for |
| Registry | the bounded tree of runtime requests as a map |
| RateCap, Driver, Sweep | rate caps, the runtime side of the driver, the renewal sweep |

Bytes are `char`s and byte strings are `string`s. Where the source updates an
object or a buffer, the model is a class or a method over an array, tied by its
contract to a function whose properties are proved beside it. What the source
cannot control is arbitrary: how reads split a stream, which system call or
allocation fails, what the CA and the hooks answer, when a thread runs, how a
tree is rebalanced, what the hash is. Such choices appear as parameters or as
nondeterministic choices. Sizes and times are unbounded integers; the places
where the source guards a machine word (chunk sizes, JSON integers) have the
guard and its limit in the model. The crypto code is an uninterpreted source of
keys, chains and failures, and ngx_http_autocert_crypto.c is not part of this
model.

What the proofs found:

- The runtime marker is written into the live directory but is not among the
  names the store removes from staging. `CertStore.MarkerBlocksRenewal` shows
  that the first renewal after it commits and that no later one can, however
  often it is tried.
- The JSON reader refuses texts that RFC 8259 derives: a string with an unpaired
  surrogate escape, as in "\ud800" (`JsonParser.LoneSurrogateRefused`). Apart
  from the depth limit these are the only ones (`JsonParser.ParseGrammar`).
- It does not check that the bytes of a string are UTF-8
  (`JsonParser.IllFormedUtf8Accepted`).
- The failure count of a runtime host is never reset, not even by a success: a
  renewal that fails once backs off as if all its failures had come in a row
  (`Registry.FailuresAdd`).
- The chunk decoder accepts more than section 4.1 of RFC 7230 derives
  (`ChunkedGrammar.Looser`); what it accepts is stated by its own grammar.
- The documented bound of the load budget, fewer than (G + 2R) / n names, does
  not give the promised service when n does not divide the pools
  (`LoadCap.DocumentedThresholdFails`); `LoadCap.FairExactly` gives the exact
  bound.
- The hold "oldest + window + 1" is one second longer than needed: the cap is
  already open at oldest + window (`RateCap.HoldIsSafe`). The comment beside it
  gives the strict comparison as the reason for the extra second.

Where the source and its comments disagree the model follows the source: a
chunk-size line that starts with ";" is rejected, not read as 0
(src/ngx_autocert_acme.c:1483); eviction takes PENDING requests too once they
are idle (src/ngx_autocert_requests.c:709-738), which the driver's comment denies;
a slot of the failure table is reused only when free or aged out, never as the
least recently used (src/ngx_autocert_driver.c:1769).

Hypotheses the theorems carry, each visible in the source: directories hold
only listed names, for a later store to clear staging; each name is tried at
most once a second, for the fairness of the load budget; the zone carries the
active stamp and one driver runs, for the registry's claims; the clock does not
run backwards and is never 0, for the rate caps; configured names and the
server name are lower case, for the serve gate; every request, timer and hook
of an order completes, for its termination.

## Model

| member | source | states |
|---|---|---|
| HttpRequest.Exchange | src/ngx_autocert_acme.c:1066-1220 | for every byte stream and every way its bytes arrive in readable events and in reads, followed by close, the client ends with the verdict, status, headers and body that one parse of the whole stream gives, which ResponseGrammar states from the text alone; the comparisons made at trailer offsets, over all reads, stay within the length of the stream |
| HttpRequest.Request.ReadHandler | src/ngx_autocert_acme.c:1087-1213 | one readable event, in any split into reads that fit the buffer: wait only with all bytes consumed and the 256K cap not reached, and otherwise the verdict of the whole stream; the trailer comparisons stay within the bytes received after the zero chunk |
| HttpRequest.Request.Close | src/ngx_autocert_acme.c:1160-1199 | at end of stream a complete response is delivered, a body without length ends there, and everything else is an error |
| HttpRequest.Request.Reserve | src/ngx_autocert_acme.c:1089-1124 | a full buffer grows once from 16K to 256K and then refuses; the bytes received survive the move |
| HttpRequest.Request.ParseResponse | src/ngx_autocert_acme.c:1278-1469 | an incremental step from saved cursors gives the verdict of a one-shot parse of all bytes received so far, with the same bound on the trailer comparisons |
| HttpRequest.FindHeaderEnd | src/ngx_autocert_acme.c:1285-1310 | the header-end search resumed three bytes before the old end finds what a search from the start would |
| HttpRequest.Memmem | src/ngx_autocert_acme.c:1222-1239 | the first occurrence of a byte pattern in a length-counted range, or none |
| HttpRequest.ParseChunkSize | src/ngx_autocert_acme.c:1482-1520 | the value of the hexadecimal size token exactly when it is one, is properly ended and does not overflow |
| HttpRequest.Request.Dechunk | src/ngx_autocert_acme.c:1532-1681 | the resumable decoder gives the verdict and body of the recursive reading of the whole buffer; over all calls, the one that completes the body included, the comparisons at trailer offsets never outnumber the bytes after the zero chunk |
| HttpRequest.WalkTrailers | src/ngx_autocert_acme.c:1600-1632 | done only at a genuinely empty line; the comparisons made at trailer bytes never outnumber the bytes passed, over all calls |
| HttpRequest.CopyBody | src/ngx_autocert_acme.c:1656-1680 | the second pass fills a buffer of the size the first pass counted, exactly, with the chunk data |
| HttpFraming.ParseExtend | src/ngx_autocert_acme.c:1278-1469 | a verdict other than "read more" is not changed by any bytes that follow |
| HttpFraming.OutcomeSettled | src/ngx_autocert_acme.c:1201-1213 | the response is settled by the first prefix that has a verdict |
| HttpFraming.OutcomeCapped | src/ngx_autocert_acme.c:1091-1111 | a response that fills the cap without a verdict is an error |
| ResponseGrammar.SizedBody | src/ngx_autocert_acme.c:1405-1423 | a response whose head is a well-formed status line and header lines with one length, spelt by Content-Length lines in any letter case: its first so many body bytes, the three digits as status and the named, blank-trimmed headers in order, if they came within the cap; otherwise an error |
| ResponseGrammar.ChunkedBody | src/ngx_autocert_acme.c:1425-1453 | one that names the chunked coding and no length: delivered with the data of a chunked message exactly when one stands at the front of the body and ends within the cap, and an error otherwise |
| ResponseGrammar.OpenBody | src/ngx_autocert_acme.c:1455-1472 | one with neither: everything up to the close, below the cap |
| ResponseGrammar.RefusedHead | src/ngx_autocert_acme.c:1318-1447 | a status line out of shape or range, a misspelt length or coding, two different lengths, or a length beside a coding: an error, whatever follows |
| ResponseGrammar.NoHead | src/ngx_autocert_acme.c:1297-1306 | without an empty line there is no response |
| ResponseGrammar.HeadFound | src/ngx_autocert_acme.c:1318-1447 | every text with an empty line is such a head and a body, so these cases are all there are |
| ChunkedGrammar.DecodeWire | src/ngx_autocert_acme.c:1533-1681 | every message of a class that contains the chunked messages of section 4.1 of RFC 7230, trailers included, is decoded to its data and ends where the message ends |
| ChunkedGrammar.StandardTaken | src/ngx_autocert_acme.c:1481-1681 | every message that section 4.1 of RFC 7230 derives, with its extensions, quoted values, header fields and folded lines, belongs to the class, as long as its sizes fit the word |
| ChunkedGrammar.Looser | src/ngx_autocert_acme.c:1600-1632 | the class is larger: a trailer line without a colon, which the standard does not derive, is accepted |
| ChunkedGrammar.SizeToken | src/ngx_autocert_acme.c:1482-1520 | a size is over at the end of the line, at a semicolon or a blank; any other byte behind its digits refuses it, and so does a missing digit |
| ChunkedGrammar.DecodeSound | src/ngx_autocert_acme.c:1533-1681 | whatever the decoder accepts is a message of that class with that data: done means size lines with a size, the zero chunk, non-empty trailer lines and an empty line were there; the class is larger than the standard's, since any bytes may follow ";" or a blank in a size line and any non-empty line is a trailer |
| CertStore.Disk.Store | src/ngx_autocert_order.c:3104-3444 | at every step, whatever call fails, the live directory is exactly the old generation or exactly the new one; success means the new one, the other key type unchanged, single links; without faults success is an if-and-only-if; a staging directory that cannot be cleared makes it fail, whatever else happens, and stays so |
| CertStore.CrashThenStore | src/ngx_autocert_order.c:3104-3444 | a store stopped after any number of steps leaves the old or the new generation, and the next one clears staging and commits, if the directories held only listed names |
| CertStore.Renewals | src/ngx_autocert_order.c:3060-3075 | a renewal and any number of further ones without faults: the first commits, the others succeed exactly when the directory it replaced held only listed names, and otherwise its generation stays live through all of them |
| CertStore.StuckStores | src/ngx_autocert_order.c:3060-3075 | a staging directory that cannot be cleared fails every one of any number of later stores, whatever faults they meet, and the live directory and all contents stay |
| CertStore.FreeStores | src/ngx_autocert_order.c:3104-3444 | with listed names only and no faults every later store succeeds |
| CertStore.MarkerBlocksRenewal | src/ngx_autocert_driver.c:2228-2300 | with the runtime marker in the live directory one renewal commits and all later ones fail, its generation staying live |
| CertStore.Disk.SeedStaging | src/ngx_autocert_order.c:3558-3632 | the other key type's files are carried over by hard link, all of them or the store fails |
| CertStore.Disk.LinkStaged | src/ngx_autocert_order.c:3559-3632 | one link into staging leaves the live generation and every content alone |
| CertStore.Disk.WriteTmp | src/ngx_autocert_order.c:3871-3979 | one file of the new generation is in staging, on an inode no live name reaches |
| CertStore.Disk.RmStaging | src/ngx_autocert_order.c:3491-3521 | without faults staging is removed exactly when it holds only listed names; a staging directory that is not clearable stays so under any faults; the live directory and all contents stay |
| CertStore.Disk.Publish | src/ngx_autocert_order.c:3641-3672 | one rename makes staging live and the old live directory staging, or fails and changes nothing |
| CertStore.SplitChain | src/ngx_autocert_order.c:3008-3045 | leaf and rest are the downloaded chain byte for byte, cut behind the first certificate |
| CertStore.NewGenFiles | src/ngx_autocert_order.c:3076-3103 | under which names a new generation has the key, the chain and, in the certbot layout, the leaf and the rest, which together are the chain; the other key type's names have what the live directory had |
| CertStore.SingleLinks | src/ngx_autocert_order.c:3558-3632 | once staging is gone every live file has exactly one link |
| OrderFlow.RunOrder | src/ngx_autocert_order.c:1781-2894 | against any CA, hooks and local faults the order ends; its handler is called exactly once, successfully only after a downloaded certificate; at most 180 authorization polls, 360 order polls, 2 finalizes, 2 downloads, 2 hooks; every POST was called for and sent at most twice; the first POST is newOrder and no later one is; no challenge answer is left published; it gives up only with a reason |
| OrderFlow.Order.Step | src/ngx_autocert_order.c:1781-1896 | whatever the order waits for, its arrival strictly lowers the termination measure and keeps the invariant; from the time the challenge answer is up until validation ends exactly the configured challenge has its flag up, and neither before nor after does any |
| OrderFlow.Order.DirectoryDone | src/ngx_autocert_order.c:377-419 | a usable directory sends newOrder and waits for its answer, anything else ends the order |
| OrderFlow.Order.NewOrderDone | src/ngx_autocert_order.c:492-567 | an order that was created sends the authorization request, anything else ends the order |
| OrderFlow.Order.AuthzDone | src/ngx_autocert_order.c:584-776 | a valid authorization goes straight to finalize; a pending one with the wanted challenge has its answer put up for exactly the configured challenge, by field, and is then sent, or its hook started; any other reply ends the order |
| OrderFlow.Order.RespondDone | src/ngx_autocert_order.c:1719-1778 | an accepted answer waits for the poll timer and sends nothing, any other reply ends the order |
| OrderFlow.Order.PollDone | src/ngx_autocert_order.c:1807-1896 | valid takes the answer down, through the remove hook when a record is out, and goes on to finalize; pending waits for the poll timer and sends nothing; any other reply ends the order |
| OrderFlow.Order.PollTimerFires | src/ngx_autocert_order.c:1781-1804 | one more poll of the authorization, counted; with the budget spent the order ends |
| OrderFlow.Order.FinalizeDone | src/ngx_autocert_order.c:2322-2394 | an accepted finalize waits for the order poll; one that was rejected as too early does the same unless the recovery was used before, and then ends the order |
| OrderFlow.Order.PollOrderDone | src/ngx_autocert_order.c:2424-2555 | valid sends the download; ready finalizes with a fresh key and marks the recovery, or ends the order when it was marked before; pending and transient replies wait for the timer and send nothing; invalid ends the order |
| OrderFlow.Order.OrderTimerFires | src/ngx_autocert_order.c:2398-2421 | one more poll of the order, counted; with the budget spent the order ends |
| OrderFlow.Order.DownloadDone | src/ngx_autocert_order.c:2794-2894 | a failed download goes back to the order poll and marks the recovery, or ends the order when it was marked before; a good one ends the order successfully exactly when it was validated and stored |
| OrderFlow.Order.AddHookDone | src/ngx_autocert_order.c:1333-1362 | a good exit of the add hook starts the propagation delay, a bad one ends the order |
| OrderFlow.Order.DelayOver | src/ngx_autocert_order.c:1688-1700 | after the delay the challenge answer is sent |
| OrderFlow.Order.KeygenDone | src/ngx_autocert_order.c:2268-2319 | with the key the finalize goes out; without it the order ends |
| OrderFlow.Order.PostDone | src/ngx_autocert_account.c:1426-1508 | a first badNonce reply (section 6.5 of RFC 8555) waits for a nonce and is not seen by the order; every other reply is, with its own meaning; a nonce request that cannot start is seen as a failure |
| OrderFlow.Order.RenonceDone | src/ngx_autocert_account.c:1511-1535 | with a fresh nonce the same POST waits for its answer again, marked as resent, and no other POST was sent; without one the order sees a failure |
| OrderFlow.FailureMeans | src/ngx_autocert_account.c:1384-1424 | a request that could not be made at all ends the order, except that an order poll is repeated and a download recovered |
| OrderFlow.Order.RemoveHookDone | src/ngx_autocert_order.c:1333-1362 | the remove hook, however it exits, leads on to finalize when validation is over, and otherwise to one call of the handler with the result the order was holding back |
| OrderFlow.Order.Finish | src/ngx_autocert_order.c:4014-4055 | with a record out and a remove hook configured the hook goes first and the handler waits for it, unless it cannot be spawned; otherwise the answer is taken down and the handler is called once with the result |
| OrderFlow.Order.Submit | src/ngx_autocert_account.c:1147-1235 | a POST goes out, waits for its answer and is counted; when it cannot be sent the order ends |
| Keygen.Run | src/ngx_autocert_order.c:1959-2201 | over every interleaving of post, thread run, completion, order end and next order: at most one task in flight, and every key generated is with the live order, in the slot, or freed once; with no order and no task, all are freed exactly once |
| Keygen.Generator.Completion | src/ngx_autocert_order.c:1982-2018 | the completion looks at an order only if it is alive, frees a key nobody waits for, and frees the slot before the order goes on |
| Keygen.Generator.Post | src/ngx_autocert_order.c:2045-2201 | the task is handed to the pool exactly when the slot is free, there is a pool and a task object, and the queue takes it; a task in flight is never touched; every other path generates on the event loop and leaves a slot that can post again |
| Keygen.Generator.FreeOrder | src/ngx_autocert_order.c:4334-4399 | freeing an order at any moment detaches its task and frees its key once; what the thread uses is left alone |
| Keygen.Generator.Abandon | src/ngx_autocert_order.c:1959-1965 | only the slot of that very order is detached |
| Keygen.Generator.RunTask | src/ngx_autocert_order.c:1969-1978 | the thread writes the key and the failure flag and nothing else |
| Keygen.Generator.Finalize | src/ngx_autocert_order.c:2210-2259 | an earlier key is freed before a new one is asked for; an RSA order waits for the thread exactly when the task could be posted, every other gets the next new key at once or ends |
| Keygen.Released | src/ngx_autocert_order.c:4369-4382 | moving a key to the freed ones keeps every key in exactly one place |
| LoadCap.Budget.AdmitRetryN | src/ngx_autocert_loadcap.h:181-237 | all or nothing, general pool first, reserve for retries only, and an oversized request once a second; the counters stay within the pools |
| LoadCap.Reserve | src/ngx_autocert_loadcap.h:132-140 | at least one unit and never the whole budget once there are two units to split |
| LoadCap.UnitsBounded | src/ngx_autocert_loadcap.h:137-237 | for any mix of requests of at most the limit, one second admits at most the limit |
| LoadCap.IdleAdmits | src/ngx_autocert_loadcap.h:89-99 | in every run of requests of a fresh worker a request of any size, retry or not, is denied only when the same second admitted another one before |
| LoadCap.ServeCache.Handshake | src/ngx_autocert_serve.c:1072-1114 | a handshake refreshes when the budget allows and otherwise notes the denial for a later second |
| LoadCap.ThirdAttempt | src/ngx_autocert_serve.c:1072-1114 | with at most floor(G/n) + 2 floor(R/n) cache entries, each tried at most once a second, a name tried in three seconds is refreshed by the third |
| LoadCap.FairExactly | src/ngx_autocert_loadcap.h:66-77 | that guarantee holds in every run exactly when the cache has at most that many entries |
| LoadCap.Starvation | src/ngx_autocert_loadcap.h:74-77 | with one entry more, a standing queue never refreshes its last name, for any number of seconds |
| LoadCap.DocumentedThresholdFails | src/ngx_autocert_loadcap.h:71-73 | the documented threshold, fewer than (G + 2R) / n names, is not enough: limit 4, n 2, two names |
| LoadCap.DocumentedThreshold | src/ngx_autocert_loadcap.h:71-73 | it is enough when n divides both pools |
| LoadCap.TwicePerSecondStarves | src/ngx_autocert_serve.c:1107-1110 | "once per second" is needed: a name that tries twice in every second starves another one for ever |
| JsonReader.ParseDocument | src/ngx_autocert_json.c:76-114 | the reader accepts and returns what the parsing function says, and its string buffers take at most as many bytes as the document has |
| JsonParser.ParseExactly | src/ngx_autocert_json.c:76-115 | a document is accepted with a value exactly when the grammar of RFC 8259 derives it, nested at most 32 deep and with every surrogate escape paired, with that value; bytes from 0x80 on are taken as they are |
| JsonParser.ParseGrammar | src/ngx_autocert_json.c:76-115 | a document of the grammar has its value exactly when it nests at most 32 deep and pairs its surrogate escapes, and is rejected otherwise |
| JsonParser.ValueRead | src/ngx_autocert_json.c:117-156 | every written value is read back to what it denotes exactly when it nests within the depth limit and pairs its surrogate escapes |
| JsonParser.ValueTaken | src/ngx_autocert_json.c:117-156 | whatever is read is a written value within the depth limit, with its surrogate escapes paired, that denotes the result |
| JsonParser.NumberRead | src/ngx_autocert_json.c:476-539 | every numeral of section 6 of RFC 8259 is read to its end |
| JsonParser.NumberTaken | src/ngx_autocert_json.c:476-539 | whatever is read as a number is such a numeral |
| JsonParser.StringRead | src/ngx_autocert_json.c:373-473 | a string of section 7 of RFC 8259, any four digits after \u included, is decoded to its bytes exactly when every surrogate escape in it is paired |
| JsonParser.StringTaken | src/ngx_autocert_json.c:373-473 | whatever is decoded is such a string with its surrogate escapes paired |
| JsonParser.LoneSurrogateRefused | src/ngx_autocert_json.c:439-467 | the document that is one string of one half of a surrogate pair is derived by the grammar and refused |
| JsonParser.IllFormedUtf8Accepted | src/ngx_autocert_json.c:415-422 | a string with a byte that starts no UTF-8 sequence is accepted |
| JsonReader.Reader.StringRaw | src/ngx_autocert_json.c:373-473 | the decoded bytes, or refusal, exactly; every byte written lies in a buffer of the scanned span, also on paths that fail later |
| JsonReader.InStep | src/ngx_autocert_json.c:373-473 | the scan ahead and the decoder pass over the same bytes, character by character |
| JsonReader.ScanAgrees | src/ngx_autocert_json.c:373-473 | an accepted string ends at the quote the scan found |
| JsonReader.Reader.DecodeItem | src/ngx_autocert_json.c:397-470 | one character: its bytes are appended, or nothing is written |
| JsonReader.Reader.ReadHex | src/ngx_autocert_json.c:320-348 | four hexadecimal digits and their value, or refusal |
| JsonReader.Reader.PutUtf8 | src/ngx_autocert_json.c:293-316 | appends exactly the encoding of the code point |
| JsonGrammar.ShortEscapes | src/ngx_autocert_json.c:429-438 | the eight short escapes of section 7 of RFC 8259 stand for their codes, and there are no others |
| JsonGrammar.SurrogatePair | src/ngx_autocert_json.c:444-459 | a surrogate pair stands for the code point whose two halves of ten bits it spells |
| JsonGrammar.Blanks | src/ngx_autocert_json.c:47-60 | white space is the four blanks of section 2 of RFC 8259 |
| JsonGrammar.Utf8RoundTrip | src/ngx_autocert_json.c:293-316 | the encoding is the well-formed, shortest UTF-8 of section 3 of RFC 3629: an independent decoder gives the code point back |
| JsonReader.Reader.ReadOne | src/ngx_autocert_json.c:117-156 | the value at the cursor, the cursor behind it and the depth restored, as the parsing function says |
| JsonReader.Reader.ReadObjectRaw | src/ngx_autocert_json.c:159-228 | the same for an object |
| JsonReader.Reader.ReadArrayRaw | src/ngx_autocert_json.c:231-289 | the same for an array |
| JsonReader.Reader.NumberRaw | src/ngx_autocert_json.c:476-539 | the same for a number |
| JsonReader.Reader.Literal | src/ngx_autocert_json.c:542-574 | the same for true, false and null |
| JsonReader.NumberInt | src/ngx_autocert_json.c:676-709 | an integer exactly when the text is all digits and the value fits the word |
| JsonReader.ObjectGet | src/ngx_autocert_json.c:584-605 | the first member of that name, or none when there is none |
| JsonPrinter.PrintParse | src/ngx_autocert_json.c:76-115 | parsing a printed value gives the value back, for every value nested at most 32 deep |
| CommandLine.QuoteArg | src/ngx_autocert_shared.h:768-840 | refuses exactly when its bound exceeds the capacity, writing nothing; else writes the quoted argument and a NUL and leaves every other byte alone |
| CommandLine.SplitQuoted | src/ngx_autocert_shared.h:743-770 | splitting the joined quoted arguments by the backslash-and-quote rules gives back exactly the list |
| CommandLine.BuildCommandLine | src/ngx_autocert_order.c:960-978 | what the child splits the buffer into is what was passed, for all NUL-free arguments that fit |
| HostName.DnsNameValid | src/ngx_autocert_ident.h:111-168 | accepts exactly dot-separated LDH labels of 1 to 63 bytes without edge hyphens, 253 bytes in all, a leading "*." allowed |
| HostName.Normalize | src/ngx_autocert_requests.c:89-159 | writes the lower-case key inside the buffer, or refuses, as the key function says |
| HostName.IsIpv4 | src/ngx_autocert_requests.c:42-77 | accepts exactly four decimal parts of at most three digits and 255 |
| HostName.NormalAccepts | src/ngx_autocert_requests.c:42-159 | the registry takes exactly the config-valid names without "*." that are not dotted quads |
| HostName.NormalTwice | src/ngx_autocert_requests.c:78-89 | normalization is idempotent |
| HostName.NormalSame | src/ngx_autocert_requests.c:78-89 | two accepted hosts share a key exactly when they differ in letter case alone |
| HostName.IdentifierSafe | src/ngx_autocert_order.c:2903-2956 | an order takes IP literals and lower-case names of the safe character set, and nothing else |
| HostName.NormalIsSafe | src/ngx_autocert_order.c:2903-2956 | every registry key passes that check |
| ServeGate.FsSegment | src/ngx_autocert_ident.h:193-236 | writes the segment when it fits the capacity and returns 0 when it does not; nothing past the capacity changes |
| ServeGate.SegmentSpells | src/ngx_autocert_ident.h:193-236 | a wildcard's segment is "_wildcard_" and the name behind its star, an IPv6 address's is "_ip6_" and eight groups of four hexadecimal digits that spell its bytes in order, and any other name stands for itself |
| ServeGate.SegmentInjective | src/ngx_autocert_ident.h:24-52 | two issuable names share a directory exactly when they are equal or the same IPv6 address |
| ServeGate.SegmentSafe | src/ngx_autocert_ident.h:54-57 | every segment fits the callers' buffer and is one safe path component |
| ServeGate.CoversMeans | src/ngx_autocert_ratecap.h:83-120 | a wildcard covers exactly one non-empty label more than its base, in any letter case |
| ServeGate.NameMatch | src/ngx_autocert_serve.c:570-591 | whether the name is configured |
| ServeGate.Gate | src/ngx_autocert_serve.c:907-982 | the exact name, else its wildcard parent, else the registry's word decides; the key is that name's segment |
| ServeGate.GateServesCovered | src/ngx_autocert_serve.c:927-982 | a concrete lower-case host is served exactly when a configured name covers it or the registry issued it, from the segment of a covering name, the exact one first |
| Registry.Descend | src/ngx_autocert_requests.c:318-354 | the descent by hash, length and bytes agrees with linear search, under any hash |
| Registry.InsertSplits | src/ngx_autocert_requests.c:162-196 | insertion adds one node at its place in the order and moves nothing else |
| Registry.LessTotal | src/ngx_autocert_requests.c:168-182 | the order is total under any hash, so different hosts are never confused |
| Registry.Zone.Lookup | src/ngx_autocert_requests.c:318-354 | the request filed under a host, or none |
| Registry.Zone.Ensure | src/ngx_autocert_requests.c:357-439 | known hosts are kept alive, new ones added below the cap, others denied; the tree stays a map of at most 64 hosts |
| Registry.Zone.StateOf | src/ngx_autocert_requests.c:442-478 | the state of a known host under an active stamp, unknown otherwise |
| Registry.Zone.SetState | src/ngx_autocert_requests.c:783-862 | the outcome is recorded on a known host, with the doubled delay on failure; an absent host stays absent |
| Registry.Zone.Drain | src/ngx_autocert_requests.c:481-571 | claims eligible hosts in key order, each once, passing none over, and no other; short of its maximum and of memory it leaves none |
| Registry.Zone.ListIssued | src/ngx_autocert_requests.c:574-648 | lists issued hosts, each once, all of them when nothing limits it, and changes nothing |
| Registry.Zone.Gc | src/ngx_autocert_requests.c:651-780 | evicts idle hosts only, all of them when memory allows, and nothing else |
| Registry.Zone.Collect | src/ngx_autocert_requests.c:700-738 | the array of victims always suffices for all idle hosts |
| Registry.Zone.Init | src/ngx_autocert_requests.c:215-296 | only the stamp of a proven current layout changes; an unknown layout is never relabelled |
| Registry.ClaimedOnce | src/ngx_autocert_requests.c:481-571 | in every run a host drained twice was released by an outcome or evicted in between |
| Registry.Perform | src/ngx_autocert_requests.c:215-862 | each operation of the zone that writes is the step of those runs that its arguments and its result describe |
| Registry.PerformAll | src/ngx_autocert_requests.c:215-862 | any calls on a zone in any state are such a run, so a host that two drains of the zone handed out was released in between |
| Registry.RunKeeps | src/ngx_autocert_requests.c:357-440 | in every run at most 64 hosts, each filed under its own key |
| Registry.HandedSafe | src/ngx_autocert_requests.c:530-560 | a drained host is its own key and passes the order's identifier check |
| Registry.KeptAlive | src/ngx_autocert_requests.c:357-440 | asking for a host refreshes it, so that it is not evicted until it was idle for longer than the limit since; nothing else of a known host changes, and a new one can be drained at once |
| Registry.GcExactly | src/ngx_autocert_requests.c:651-780 | with memory eviction keeps exactly the hosts seen within the limit, unchanged |
| Registry.FailuresAdd | src/ngx_autocert_requests.c:783-862 | over any reports failures add up and are never taken back, a success included; the last report decides state, activity and the time the host is looked at next, and other hosts are left alone |
| Registry.TakenAgain | src/ngx_autocert_requests.c:482-571 | after an outcome a drain takes the host again at once or when its hold is over if it is requested, after its delay if it failed, and otherwise never |
| Registry.Doubled | src/ngx_autocert_requests.c:825-842 | the delay is the base doubled once per further failure, at most a day |
| Registry.BackoffGrows | src/ngx_autocert_requests.c:22-25 | the delay never shrinks with more failures and reaches a day at the tenth |
| RateCap.Ring.WindowCount | src/ngx_autocert_ratecap.h:27-40 | the number of in-window timestamps among the last n logged |
| RateCap.Ring.WindowOldest | src/ngx_autocert_ratecap.h:48-64 | the oldest in-window timestamp, or 0 exactly when there is none |
| RateCap.Ring.Push | src/ngx_autocert_ratecap.h:68-74 | the ring goes on standing for the log with the new timestamp appended |
| RateCap.RingCounts | src/ngx_autocert_ratecap.h:27-40 | the ring's count is that of an unbounded log, up to the ring's size |
| RateCap.HoldIsSafe | src/ngx_autocert_driver.c:1934-1952 | the hold oldest + window + 1 is never before the cap opens, and one second after it does |
| RateCap.CapOpens | src/ngx_autocert_driver.c:1934-1952 | with nothing new logged the cap opens exactly at oldest + window |
| RateCap.ThreeHours | src/ngx_autocert_driver.c:1683-1714 | in every run no three hours see more than 300 counted orders, although the gate is tested at launch and the count made at newOrder |
| RateCap.FailTable.Record | src/ngx_autocert_driver.c:1768-1806 | a failure is noted for its host, or every slot is busy with other hosts; only a host without failures in the window can lose its slot |
| RateCap.FailTable.FailAtCap | src/ngx_autocert_driver.c:1743-1754 | full exactly when five failures of that host lie in the window; an unknown host never |
| RateCap.FailTable.FailOldest | src/ngx_autocert_driver.c:1956-1962 | the oldest counted failure of a host |
| RateCap.StaysCapped | src/ngx_autocert_driver.c:1757-1766 | over any run of recorded failures, of any hosts: a host at its cap keeps its slot, its log only grows by its own failures, and it stays at its cap until its oldest counted failure is as old as the window |
| RateCap.RecordAll | src/ngx_autocert_driver.c:1768-1806 | failures recorded on the table in the order of time are such a run |
| Driver.Serve | src/ngx_autocert_driver.c:1826-1993 | over any run of requests, pumps, counts, completions, config orders and teardown under an active stamp, a request is PENDING between events only if its order is in flight; and the 300-per-three-hours bound holds on the real ring |
| Driver.Runtime.PumpRuntime | src/ngx_autocert_driver.c:1826-2071 | the backlog is served, due renewals are re-queued and idle hosts evicted, each by its own rule: with memory every eligible host is launched or put aside as its gates say, an order is launched whenever a host has nothing against it, and the one launched is the first such host in key order |
| Driver.Runtime.ServeAll | src/ngx_autocert_driver.c:1869-1993 | the loop ends, since the number of eligible hosts strictly falls; every host it changed was eligible and was put aside as its gates say or launched, and without a launch and with memory every eligible one was |
| Driver.Runtime.ServedLaunches | src/ngx_autocert_driver.c:1869-1993 | a backlog that was served leaves no host behind that could have been launched, unless an order is in flight |
| Driver.Runtime.ServeOne | src/ngx_autocert_driver.c:1869-1993 | the first eligible host in key order is claimed and launched behind both caps, or put aside so that fewer are eligible; no other host is touched |
| Driver.Disposed | src/ngx_autocert_driver.c:1880-1993 | settling a drained host as ISSUED, held or FAILED takes it off the eligible ones |
| Driver.Runtime.Dispose | src/ngx_autocert_driver.c:1884-1992 | a launch exactly for an unconfigured host under both caps whose start succeeds; otherwise ISSUED when covered and present, held when covered and due or capped, FAILED when the start fails |
| Driver.Runtime.Held | src/ngx_autocert_driver.c:1930-1970 | held exactly when a cap is full, until one second after the cap opens and no longer |
| Driver.Runtime.Renewals | src/ngx_autocert_driver.c:1995-2035 | exactly the issued, uncovered hosts whose certificate is due are asked for again; nothing else changes |
| Driver.Runtime.Evict | src/ngx_autocert_driver.c:2037-2074 | idle hosts are dropped, by the registry's own rule, and only when idling is limited |
| Driver.Runtime.Complete | src/ngx_autocert_driver.c:2079-2172 | the outcome is recorded on the host of a runtime order, a failure counts against that host, and the slot is free |
| Driver.Runtime.NoteFailure | src/ngx_autocert_driver.c:2110-2114 | a runtime failure counts against its own host only |
| Driver.Runtime.Counted | src/ngx_autocert_driver.c:1707-1714 | the newOrder request is logged once |
| Driver.Runtime.DropOrder | src/ngx_autocert_driver.c:3310-3344 | teardown gives the claimed host back before freeing its order |
| Driver.Runtime.ThreeHours | src/ngx_autocert_driver.c:866-881 | between events no three hours of the log hold more than 300 orders |
| Sweep.Run | src/ngx_autocert_driver.c:955-979 | over any run of ticks, completions and requests until retirement an armed scheduler has an order in flight or its timer set, never two orders, and every completed sweep offered each live (CA, name, key type) slot exactly once |
| Sweep.AllOnce | src/ngx_autocert_driver.c:1080-1145 | the slots of a sweep are exactly those of live CAs, each once |
| Sweep.Scheduler.Pump | src/ngx_autocert_driver.c:1040-1233 | from the cursor on the first slot that is past its backoff, due and starts is launched, and failures to start before it are recorded; if there is none the sweep is complete, the backlog is served, and unless that launched an order the timer is set for the delay; without configuration the sweep is given up; nothing is touched while an order is in flight or the worker retires |
| Sweep.Scheduler.Scan | src/ngx_autocert_driver.c:1080-1145 | the nested loops launch exactly the first slot ahead of the cursor that wants an order which starts, and find none when there is none; the slots passed over have a failure recorded exactly when they were due, unheld and did not start |
| Sweep.Scheduler.Offer | src/ngx_autocert_driver.c:1106-1139 | a slot is launched exactly when it is past its backoff, due and its order starts; a failure to start is recorded on it, and no other backoff entry changes |
| Sweep.Scheduler.TimerFires | src/ngx_autocert_driver.c:955-979 | a tick starts a sweep from the first slot and pumps; with an order in flight it only sets the timer again, and a retiring worker does nothing |
| Sweep.Scheduler.Complete | src/ngx_autocert_driver.c:2135-2172 | a completion records the outcome on the slot or the runtime host it was for, and then pumps from the cursor on |
| Sweep.Scheduler.Settle | src/ngx_autocert_driver.c:2135-2160 | only the in-flight slot has its backoff changed, cleared or grown and held until Retry-After; a runtime order changes its host and its failure log instead |
| Sweep.Scheduler.Arm | src/ngx_autocert_driver.c:924-948 | arming twice changes nothing |
| Sweep.Scheduler.SweepsWhole | src/ngx_autocert_driver.c:1035-1145 | each completed sweep offered every live slot once |
| Sweep.Scheduler.TearDown | src/ngx_autocert_driver.c:3283-3341 | teardown returns the claimed host, frees the order and disarms |
| Sweep.Interval | src/ngx_autocert_driver.c:1163-1230 | the delay is the least of twelve hours and the limits that apply, but no less than the floor |
| Sweep.FlattenHas | src/ngx_autocert_driver.c:1201-1213 | the soonest hold is looked for among the slots of all CAs |
| Sweep.FirstSpec | src/ngx_autocert_driver.c:1080-1145 | the slot a scan launches is due, past its backoff and starts, and none before it is all three |
| Sweep.DelayGrows | src/ngx_autocert_driver.c:1242-1279 | the backoff is a minute after the first failure, doubles with each further one up to its hour, and reaches it exactly at the seventh |
| Sweep.FlatInjective | src/ngx_autocert_driver.c:1108-1111 | no two (name, key type) pairs share a backoff slot |

## Left out

- Sockets, TLS, DNS, deadlines, the pointer to the request in flight and read errors: the event loop around the reader.
- Allocation failures inside the response reader and the JSON reader, where the source just gives up.
- Power loss before data reaches the disk: a crash in CertStore stops between two system calls, and fsync is a call that can fail.
- The Windows store, which publishes file by file, and the rest of the Windows code except quoting.
- OpenSSL: key generation, signing, certificate checks and X.509 parsing are outcomes that can go either way.
- nginx's red-black rebalancing and the slab: `Registry.Zone` holds its tree as a value and any tree of the same order may replace it, so node identity in shared memory is not captured.
- Locks around the registry: each operation of `Registry.Zone` is one step, as its mutex makes it.
- Registry.InsertSplits: insertion is by recursion where the source walks down in a loop, because the tree is a value.
- Drains, evictions and lists copy hosts by an allocator that may fail at any of them; the pools themselves are not modelled.
- Orders that end inside the call that starts them (a CA on a literal address that refuses at once): completion is always a later event.
- Driver.Runtime.Complete: the release after a refused registry write is not modelled, because under an active stamp the write is never refused.
- Driver.Runtime: a zone that turns inactive while an order is in flight; what the registry does then is in `Registry.Zone`.
- The renewal decision itself (reading the stored pair, dates, key family): one arbitrary answer per name.
- Lazily sized backoff arrays and their allocation failure: `Sweep.Scheduler` has its arrays from the start, and the set of live CAs does not change during a run.
- ServeGate.Segment: nginx's address parsers are not in the repository; they are parameters with their character sets as hypothesis.
- CommandLine.QuoteArg: sizes do not wrap around; the bound is computed on unbounded integers.
- CommandLine.BuildCommandLine: takes any number of arguments where the source passes three.
- UTF-8 well-formedness of JSON strings: bytes from 0x80 on are taken as they are, as in the source.
- JSON accessors other than the first-wins lookup and the integer reader; they only read.
- The HTTP-01 token store and the TLS-ALPN certificate store: the registry's tree with simpler values.
- Config copying, logging, account keys on disk, the startup seed walk, orphaned hooks, the driver's lock file.
- RateCap.FailTable: each host's small ring is represented by the log it stands for; `RateCap.Ring` shows that a ring holds it.
- Sweep.Run: the newOrder count is not among its events; `Driver.Serve` has it.
