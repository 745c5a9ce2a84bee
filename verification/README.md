# The backend's protocols, codecs and stores, in Dafny

This project models the parts of the Rust backend that are written by hand because the server uses
no crates, and proves what they are for:

- `HranaProtocol`, `HranaInvariant`, `HranaTheorems`: the remote transaction protocol as a state
  machine of many sessions, one server and a network that may delay or lose every request and reply.
  `HranaSession` ties the real documents and the real session object to it, and
  `HranaTransaction` runs a whole transaction on it whatever the server answers, and `HranaRefinement`
  shows that this is what a session of the protocol does.
- `Pool`: the connection pool under every interleaving of its callers.
- `HttpHead`, `HttpFraming`, `HttpReader`: HTTP/1.1 request framing, as rules over the remaining
  bytes and as the buffered reader that carries them out. `HttpWire` and `HttpRoundTrip` write
  requests and read them back; `HttpSafety` is about arbitrary bytes, and `HttpAnswers` about bad
  requests and their statuses. `HttpSyntax` has the grammar of RFC 7230 that framing needs;
  `HttpStrict` says which bytes are framed as it requires, and `HttpPersist` which connections are
  kept open as it requires.
- `JsonValue`, `JsonGrammar`, `JsonParser`, `JsonCorrect`, `JsonSound`, `JsonPrinter`: the grammar of
  RFC 8259 as syntax trees, the parser, its soundness and completeness, and the printer.
  `JsonEscapes` and `JsonErrors` tell what escapes stand for and where a text is refused.
- `Eviction`, `Lockout`, `RateLimit`: the bounded in-memory stores; `Crowding` fills them.
- `Sha256`, `Hmac`, `ScryptSpec`, `Scrypt`, `PasswordHash`: hashes, key derivation and the stored
  form of passwords. `Sha256Vectors`, `Sha256Constants` and `ScryptVectors` hold published values and
  the origin of the constants.
- `Calendar`, `IsoText`, `Base64`, `Hex`, `Float64`, `Token`, `Percent`: calendar arithmetic, number
  reading and encodings.
- `Bytes`, `Alphabet`, `Utf8`, `Unicode`, `Numerals`, `Trim`, `Splitting`, `Division`: what the others
  share.

A byte is a `char` below U+0100, so that literals can be written as the server writes them; a Rust
string is such a sequence that is valid UTF-8. SHA-256 and scrypt work on bit vectors, whose addition
wraps. Code that changes state in place is a class or a method over arrays, proved against functions
on values; the theorems are about those functions and about runs of the state machines. What the
code gets from outside (clocks, salts, socket reads, replies, which lock is taken next, the order of
a hash map) is a parameter or a free choice.

Assumptions that the code needs and the model states:

- The server of the transaction protocol answers as the intended one does. Without that a session can
  keep a baton after a failed BEGIN: `HranaSession.FailedBeginKeepsBaton` says exactly when.
- A transaction's closure stops at its first failing statement, as every closure of the backend does,
  and sends no BEGIN, COMMIT or ROLLBACK of its own.
- Clocks do not go back between two operations on the same store.
- The reading of numerals with a fraction or an exponent as f64 is a parameter, `other`, of token
  verification; integers of any length are rounded as `str::parse` rounds them.

Where the code does not quite do what its comments promise, the model follows the code:

- `Pool::transaction` says that a connection never returns to the pool with a transaction open, and
  that an error means a rollback. `HranaTransaction.Transaction` and
  `HranaTheorems.LostCommitReply` give the exceptions.
- `LockoutStore::evict` ranks live locks last so that flooding cannot clear a lock.
  `Lockout.LocksSurviveFlooding` proves that for up to 49,999 live locks, and
  `Crowding.FloodDropsALock` is a run in which it fails with one more.
- The rate limit admits 20 requests of an address in 15 minutes. Eviction lifts it:
  `RateLimit.SparedExactly` says when, and `Crowding.CrowdPassesLimit` is a run.
- `read_body` says that it follows section 3.3.3 of RFC 7230 (`http.rs:994-1040`). It looks at the first
  Transfer-Encoding only, trims all Unicode white space, and takes signed lengths; chunk sizes may be
  signed and padded, extensions and trailers may be any text, and lines may end in a bare line feed.
  `HttpStrict.RequestFramedExactly` says exactly when the two agree.
- The test for `Connection: close` (`http.rs:921-931`) sees the first Connection field only, and removes
  all Unicode white space around the words: `HttpPersist.SecondConnectionIsIgnored`,
  `HttpPersist.PersistsExactly`.
- The cap on stored hashes (`kdf.rs:40-47`) promises a working set of 256 MiB whatever a row claims;
  it bounds the table only: `PasswordHash.WorkingSetBound`. `scrypt` and `verify_password` promise
  never to panic (`kdf.rs:330-331`, `kdf.rs:456`); on 32 bits they do for one accepted triple:
  `PasswordHash.AcceptedTripleRuns`, `PasswordHash.VerifyPanics`.
- `parse_target` accepts absolute-form targets. One with a query but no path loses the query, and what
  follows the first '/' in the query is routed as the path: `HttpRoundTrip.EmptyPathTarget`,
  `HttpRoundTrip.QueryBecomesPath`.

Run `dafny verify dfyconfig.toml` in this directory.

## Model

| member | source | states |
|---|---|---|
| HranaInvariant.StepInv | backend/src/hrana.rs:58-133 | Whatever a session, the server or the network does next, each baton stays in one place (one unsent reply, one session, or one sent request), an unsent baton is the newest of its live stream, and a stream holds exactly the writes its transaction issued |
| HranaInvariant.ServeInv | backend/src/hrana.rs:612-686 | The server's own step keeps all of that: it runs a request on the stream of its newest baton, refuses a stale one, and issues a fresh one unless the stream closes |
| HranaInvariant.ServeCommits | backend/src/db.rs:772-784 | Serving a request makes an attempt durable only if that request is the one message that may commit it, and then with all of its writes |
| HranaInvariant.SendStepInv | backend/src/db.rs:772-784 | Sending BEGIN, a statement, COMMIT or ROLLBACK keeps the invariant |
| HranaTheorems.RunInv | backend/src/hrana.rs:58-133 | The invariant holds in every state of every run, for any number of sessions and any loss or delay |
| HranaTheorems.InvHonest | backend/src/db.rs:772-784 | At most one durable record per call, holding every write of its closure; Ok means durable; Err with a durable record means the COMMIT ran and its answer was not heard |
| HranaTheorems.AllOrNothing | backend/src/db.rs:772-784 | From the moment `transaction` returns and for ever after: Ok means every write is durable in one record; Err means none is, now or later, unless its COMMIT was sent and its answer never came, and then all or none; never a strict part |
| HranaTheorems.LostCommitReply | backend/src/db.rs:753-784 | The exception is real: a run in which the call returns Err although its only write is durable |
| HranaTheorems.SentOnce | backend/src/hrana.rs:58-92 | A baton about to be sent was never sent before and is the newest of its stream if that stream lives |
| HranaTheorems.StepSentOnce | backend/src/hrana.rs:115-133 | A baton once sent is never sent again |
| HranaTheorems.RollbackIsFresh | backend/src/db.rs:843-860 | After a failed statement the guard's ROLLBACK carries the unsent baton that came with the failure |
| HranaTheorems.IdleHoldsNoBaton | backend/src/db.rs:648-666 | In every run a session that is back in the pool holds no baton, so nothing it does joins an old stream |
| HranaSession.Session.Execute | backend/src/hrana.rs:58-92 | For every statement, argument list and response text: the body sent, the baton kept and the outcome, against the document-level rules |
| HranaSession.Session.Drop | backend/src/hrana.rs:135-156 | A dropped session empties its slot and sends a close exactly when it still held a baton |
| HranaSession.RequestArrives | backend/src/hrana.rs:187-222 | Any baton, SQL text and arguments survive printing and parsing: the receiver reads exactly the baton, the statement, every argument with its type, and the close the session meant |
| HranaSession.CloseArrives | backend/src/hrana.rs:135-156 | The document of a dropped session is read as its baton, no statement and a close |
| HranaSession.ExecuteFollowsProtocol | backend/src/hrana.rs:77-133 | On the documents of the intended server, and on no response, `execute` keeps the baton and succeeds exactly as the protocol model's session does |
| HranaSession.ExecuteGivesResult | backend/src/hrana.rs:77-113 | For every statement, close and baton, with any other answers before and after it in the results, a result object is returned as it came; only a BEGIN left without a baton fails in spite of it |
| HranaSession.ExecuteReportsError | backend/src/hrana.rs:77-113 | Wherever the first error item stands, the outcome is an error with its message, whatever results there are |
| HranaSession.ExecuteWithoutResult | backend/src/hrana.rs:77-113 | On no response, on a document without a result list, and on results without an execute item: the error or the empty outcome of each |
| HranaSession.ResponseExactly | backend/src/hrana.rs:77-92 | Only a text that the JSON grammar derives counts as a response, and as the document it stands for |
| HranaSession.ClosesFollowsProtocol | backend/src/hrana.rs:65-69 | The close flag of the code is that of the protocol model |
| HranaSession.FailedBeginKeepsBaton | backend/src/hrana.rs:77-90 | A BEGIN that failed leaves a baton in the slot if and only if the response names a baton, reports no error and has no usable result |
| HranaSession.BatonWithoutResults | backend/src/hrana.rs:77-90 | Such a response exists |
| HranaSession.StatementExactly | backend/src/hrana.rs:171-184 | For every SQL text: BEGIN, COMMIT or ROLLBACK at its start, after white space and in any letter case, decides the kind, and everything else is a plain statement |
| HranaSession.PoolStatements | backend/src/hrana.rs:171-184 | The statements that `transaction` and its guard send are recognised in any letter case after any white space |
| HranaTransaction.Transaction | backend/src/db.rs:772-860 | Whatever the server answers and whatever the closure does, the statements sent with their batons and outcomes, the result and the slot are those of the trace; the slot is empty afterwards if and only if BEGIN did not get a response that names a baton, reports no error and has no usable result |
| HranaTransaction.TransactionShape | backend/src/db.rs:772-860 | The trace: BEGIN alone if it fails; else the closure's statements, COMMIT if the closure returned Ok, and ROLLBACK unless that succeeded; Ok exactly when BEGIN, the closure and COMMIT succeeded |
| HranaRefinement.TransactionFollowsProtocol | backend/src/db.rs:772-860 | From every protocol state in which a session is idle, for every closure and all answers that render protocol replies, the session's own actions send what `transaction` sends, with the same batons, in the same order, and return the same result with the same slot, having issued the closure's statements |
| HranaRefinement.OthersLeaveSession | backend/src/hrana.rs:58-133 | What other sessions, the server and the network do in between changes nothing about a session and its attempt, so the same holds in every interleaving |
| HranaTransaction.RunClosure | backend/src/db.rs:772-784 | The statements of any closure, each chosen from the outcomes before it, leave the trace and the baton of the document-level rules |
| Pool.PoolState.TryCheckout | backend/src/db.rs:800-817 | One turn under the lock: refused when closed, else the last idle connection leaves the list, else wait |
| Pool.PoolState.GiveBack | backend/src/db.rs:648-666 | A returned connection goes back to the list and is notified, or stays out once the pool is closed |
| Pool.PoolState.CloseAll | backend/src/db.rs:790-797 | Closing sets the flag and takes every idle connection out |
| Pool.StepInv | backend/src/db.rs:790-817 | Under every interleaving of checkout, return, wakeups (spurious ones too) and close: each connection in exactly one place, none dropped while open, idle connections never outnumber the notifications under way while someone sleeps |
| Pool.RunInv | backend/src/db.rs:790-817 | That holds in every state of every run |
| Pool.NeverHandedOutTwice | backend/src/db.rs:800-817 | Two callers never hold the same connection, and what is held is not idle |
| Pool.SleepersHaveReason | backend/src/db.rs:648-666 | No lost wakeup: with no notification under way a thread sleeps only when nothing is idle |
| Pool.NeverStuck | backend/src/db.rs:786-817 | Whoever is not asleep, refused or outside has a step of its own; a sleeper in a closed pool is about to be woken; idle connections come with a thread that is awake |
| Pool.ClosedForGood | backend/src/db.rs:786-805 | After `close_all` no checkout succeeds and every waiter that wakes is refused, for ever |
| Pool.ReleasedForGood | backend/src/db.rs:786-797 | After its `notify_all` nobody sleeps, then or later |
| HttpReader.Reader.FillBuf | backend/src/http.rs:1181-1190 | The buffer is refilled from the socket without losing or reordering a byte, and is empty only at end of file |
| HttpReader.Reader.ReadLineLimited | backend/src/http.rs:1170-1211 | The line, the end of file or the error that the remaining bytes alone determine, with the count of consumed bytes, however the reads cut the line |
| HttpReader.Reader.ReadExact | backend/src/http.rs:1146-1160 | Exactly the next `n` bytes, or a silent close when fewer remain |
| HttpReader.Reader.ReadTrailerLines | backend/src/http.rs:1076-1096 | Trailers are discarded up to the empty line, and count against the header limit |
| HttpReader.Reader.ReadChunked | backend/src/http.rs:1046-1120 | The decoded body, or the error, of the chunk sequence in the remaining bytes |
| HttpReader.Reader.ReadRequestBody | backend/src/http.rs:1002-1040 | The body that the fields announce, or 400, 413, 501 or a close |
| HttpReader.Reader.ReadHeaderBlock | backend/src/http.rs:889-920 | The fields up to the empty line, or the error of the first bad line |
| HttpReader.Reader.ReadRequestLine | backend/src/http.rs:846-867 | Stray blank lines are skipped but counted; a clean close is told from a truncated one |
| HttpReader.Reader.ReadOne | backend/src/http.rs:840-956 | One request, and whether it keeps the connection, from the remaining bytes alone |
| HttpReader.HandleConnection | backend/src/http.rs:768-830 | The requests given to the handler, in order, and the reason the connection ends, as a function of the concatenated bytes: the split into socket reads does not matter |
| HttpHead.FirstOfAll | backend/src/http.rs:42-57 | `Headers::get` is the first of `Headers::get_all` |
| HttpAnswers.TokensExactly | backend/src/http.rs:1226-1250 | The token characters are the letters, the digits and the fifteen signs of section 3.2.6 of RFC 7230 |
| HttpAnswers.StartExactly | backend/src/http.rs:869-885 | A line of a token, a target and a version between single spaces is answered 505 unless the version is 1.1 or 1.0, and otherwise 400 exactly when its target is bad |
| HttpAnswers.NoStart | backend/src/http.rs:869-885 | Every other first line is answered 400 |
| HttpAnswers.SafeExactly | backend/src/http.rs:984-991 | A path is routed if and only if it has no NUL and nowhere two dots as a whole segment |
| HttpAnswers.FieldExactly | backend/src/http.rs:902-919 | A field line is read as a name and a value if and only if it is text that begins with a token and a colon, and the value is what follows, trimmed; any other is answered 400 |
| HttpAnswers.LineExactly | backend/src/http.rs:1170-1211 | A line that does not end within the limit is answered 431 exactly when bytes beyond the limit are there; one that just stops is closed without an answer |
| HttpAnswers.BodyExactly | backend/src/http.rs:1002-1040 | Two framings, or lengths that differ or do not parse, are answered 400, an unknown coding 501, a body above the limit 413, and one that stops is closed |
| HttpAnswers.ChunkExactly | backend/src/http.rs:1046-1120 | After a chunk line: 400 for a size that does not parse or data without CRLF, 413 above the limit, a close when bytes are missing, and otherwise the data |
| HttpAnswers.LongChunkLine | backend/src/http.rs:1046-1060 | A chunk line of more than 1024 bytes is answered 431 |
| HttpRoundTrip.TargetBack | backend/src/http.rs:966-992 | Origin-form, absolute-form and asterisk-form targets are read back as path, raw path and query |
| HttpRoundTrip.EmptyPathTarget | backend/src/http.rs:966-992 | An absolute target with an empty path and a query without '/' is the root without a query; from its first '/' on the query is taken for the path and what follows it |
| HttpRoundTrip.EmptyPathLosesQuery | backend/src/http.rs:970-981 | So it keeps its query if and only if that is empty |
| HttpRoundTrip.QueryBecomesPath | backend/src/http.rs:966-992 | Every safe path at the end of such a query is routed as the path of the request, as `/y` in `http://h?x/y` |
| HttpRoundTrip.StartBack | backend/src/http.rs:869-885 | A written request line is read back as its method, target and version |
| HttpRoundTrip.BlanksBack | backend/src/http.rs:850-867 | Any number of blank lines before a request is skipped if and only if the limit allows them and the request line |
| HttpRoundTrip.FieldsBack | backend/src/http.rs:889-920 | Written fields are read back in order, names as sent and values trimmed, or 431 exactly when their bytes exceed the limit |
| HttpRoundTrip.ChunksBack | backend/src/http.rs:1046-1120 | Chunks of any sizes, spellings and extensions decode to their data, or 413 when the data is too long, or 431 when the trailers are |
| HttpRoundTrip.BodyBack | backend/src/http.rs:1002-1040 | A body with Content-Length, chunked or absent is read back as announced, or gets the error of the limit it breaks |
| HttpRoundTrip.RequestBack | backend/src/http.rs:840-956 | Reading any well-formed request gives its meaning and leaves what follows, or gives exactly 431 or 413 for the first limit it breaks |
| HttpRoundTrip.ReadBackExactly | backend/src/http.rs:840-956 | A well-formed request is read back if and only if it is within the limits; chunked bodies need the two bytes of their last line spare |
| HttpRoundTrip.ServeBack | backend/src/http.rs:768-830 | Requests that keep the connection are consumed one after another, and then whatever follows |
| HttpRoundTrip.KeepAliveFraming | backend/src/http.rs:768-830 | For every list of well-formed requests within the limits that keep the connection, their concatenated encodings are read back as exactly those requests, and the connection ends cleanly |
| HttpRoundTrip.LastRequestEnds | backend/src/http.rs:768-830 | After a request that does not keep the connection, or breaks a limit, nothing is ever read as a request |
| HttpSafety.GotIsClean | backend/src/http.rs:994-1040 | Whatever the bytes, a request that is read has token field names, a safe path, a body within the limit, never a length beside a transfer coding, a first transfer coding of chunked if any, and equal lengths that are the body's; what the standard asks beyond that is the matter of HttpStrict |
| HttpSafety.ServedAreClean | backend/src/http.rs:768-830 | So has every request of every connection |
| HttpSafety.LaterBytesDoNotMatter | backend/src/http.rs:840-956 | A request that has arrived is read the same whatever follows it, and what follows is left untouched |
| HttpStrict.RequestFramedExactly | backend/src/http.rs:889-1120 | Of all the requests that are read, exactly these have the framing, and so the body, that sections 3.3.3 and 4.1 of RFC 7230 give their field values as sent: lengths without a sign; around lengths and the first Transfer-Encoding no white space but spaces and tabs; further Transfer-Encodings without an element; chunks with bare sizes, extensions and trailers of the grammar, and CRLF at every line end |
| HttpStrict.BodyFramedExactly | backend/src/http.rs:1002-1040 | The same of every body that `read_body` reads, for any field values as sent and any bytes |
| HttpStrict.ChunkedExactly | backend/src/http.rs:1046-1120 | A chunked body that is read is one that the grammar of section 4.1 derives, with the data and the rest it derives, if and only if a scan finds bare hexadecimal sizes, extensions of tokens and quoted strings, header fields as trailers, and CRLF at every line end |
| HttpStrict.StrictIsUnique | backend/src/http.rs:994-1120 | The standard gives the field values and bytes of a request at most one body and one rest |
| HttpStrict.SecondCodingIsIgnored | backend/src/http.rs:1009-1022 | With `chunked` and then any second Transfer-Encoding the body is read as chunked; the standard agrees if and only if the second has no element |
| HttpStrict.LastOnlyExactly | backend/src/http.rs:1046-1120 | Any text is read as the extension of a last chunk and any lines as its trailers; the standard derives such a body if and only if it derives the extension and the lines are header fields |
| HttpStrict.OddChunksAreRead | backend/src/http.rs:1046-1120 | An extension and a trailer that are read and that it does not derive |
| HttpStrict.LengthIsRead | backend/src/http.rs:1024-1039 | A single length that trims and parses to 1 is read as one byte; the standard agrees if and only if it has no sign and no other white space than spaces and tabs |
| HttpStrict.SignedLengthIsRead | backend/src/http.rs:1024-1039 | An input of that family: `+1` |
| HttpStrict.OddSpaceIsTrimmed | backend/src/http.rs:1024-1039 | Another: a no-break space before `1` |
| HttpPersist.KeepsExactly | backend/src/http.rs:921-931 | For every field list as sent: the connection is kept if and only if the first Connection list does not name `close` and the version is 1.1 or the list names `keep-alive`, in any case and with any white space around the names |
| HttpPersist.PersistsExactly | backend/src/http.rs:921-931 | That is what section 6.3 of RFC 7230 says of that list if and only if other white space than spaces and tabs around an element does not decide |
| HttpPersist.ServedToTheFirstClose | backend/src/http.rs:768-830 | Of written requests exactly those up to the first that the standard does not keep are served |
| HttpPersist.SecondConnectionIsIgnored | backend/src/http.rs:921-931 | A `close` in a second Connection field is not seen, although the standard reads the fields as one list |
| Percent.PercentDecode | backend/src/http.rs:352-379 | Percent decoding of every text, malformed escapes and bytes that are not UTF-8 included |
| Percent.DecodedExactly | backend/src/http.rs:352-379 | A percent sign with two hexadecimal digits of a table in either case is their byte; any other byte stays, a stray percent sign too, but for a plus sign where that means a space |
| Percent.PercentEncode | backend/src/stripe.rs:178-192 | The encoder's loop writes the encoding of its input |
| Percent.EncodedExactly | backend/src/stripe.rs:178-200 | The unreserved characters of section 2.3 of RFC 3986, listed, stay; every other byte becomes an escape with upper-case digits |
| Percent.FormEncode | backend/src/stripe.rs:207-218 | The form writer separates pairs by '&' and keys from values by '=' |
| Percent.FindParam | backend/src/http.rs:136-147 | The first parameter whose decoded name matches |
| Percent.DecodeEncoded | backend/src/stripe.rs:178-192 | Decoding undoes encoding byte for byte, with '+' as a space or not |
| Percent.FormRoundTrip | backend/src/http.rs:136-147 | `query_param` on `form_encode(pairs)` is the value of the first pair with that key, or None when no pair has it, for every list of pairs and every name |
| JsonParser.ParseDocument | backend/src/json.rs:163-174 | The cursor-driven parser terminates on every byte string with the value, or the position and message of the error, of its recursive description |
| JsonParser.Parser.ValueAt | backend/src/json.rs:215-238 | The dispatch on the first byte and the depth limit |
| JsonParser.Parser.ReadArray | backend/src/json.rs:240-261 | Arrays, with the error of the first bad byte |
| JsonParser.Parser.ReadObject | backend/src/json.rs:263-295 | Objects; a repeated key replaces the earlier value |
| JsonParser.Parser.ReadString | backend/src/json.rs:297-345 | Strings, with UTF-8 checked scalar by scalar |
| JsonParser.Parser.ReadUnicodeEscape | backend/src/json.rs:347-367 | Surrogate pairs, and U+FFFD for a surrogate without its partner |
| JsonParser.Parser.ReadHex4 | backend/src/json.rs:369-386 | Four hexadecimal digits |
| JsonParser.Parser.ReadNumber | backend/src/json.rs:388-431 | The number grammar, and the integer an integral numeral below 2^53 stands for |
| JsonSound.ParseIsGrammar | backend/src/json.rs:163-431 | `parse` gives `v` if and only if the text is a JSON text of sections 2 to 7 of RFC 8259 for `v`, in UTF-8, nested at most 128 levels below its top |
| JsonSound.DerivedParses | backend/src/json.rs:163-238 | Every text that the grammar derives parses to its value when shallow enough, and is an error otherwise |
| JsonSound.GrammarIsUnambiguous | backend/src/json.rs:163-431 | A text stands for at most one value |
| JsonSound.ParsedIsProper | backend/src/json.rs:163-174 | A parsed document has valid UTF-8 in every string and strictly ordered keys in every object |
| JsonEscapes.PairParses | backend/src/json.rs:347-366 | For every code point from U+10000 on, its two surrogates in hexadecimal, in any case of the digits, parse to a string whose UTF-8 decodes to it |
| JsonEscapes.UnitParses | backend/src/json.rs:347-384 | So does every code point below that is no surrogate, from one escape |
| JsonEscapes.LoneSurrogateParses | backend/src/json.rs:347-366 | A surrogate alone stands for U+FFFD |
| JsonEscapes.BrokenPairParses | backend/src/json.rs:347-366 | A high surrogate that no low one follows stands for U+FFFD, and what follows it is read by itself |
| JsonEscapes.EscapeParses | backend/src/json.rs:312-328 | The eight two-character escapes stand for the characters of a table, and no other byte may follow a backslash but `u` |
| JsonEscapes.EncodedIsRead | backend/src/json.rs:361-366 | Every code point written as UTF-8 is read back by a decoder made of the bit patterns |
| JsonEscapes.ScalarIsEncoded | backend/src/json.rs:329-344 | Every scalar that is accepted as UTF-8 is the encoding of its code point |
| JsonErrors.BlankIsRefused | backend/src/json.rs:163-238 | White space alone is refused at its end |
| JsonErrors.OtherIsRefused | backend/src/json.rs:191-238 | A text that begins with a character that begins no value is refused there |
| JsonErrors.HalfWordIsRefused | backend/src/json.rs:191-238 | So is anything that begins like null, true or false and is none of them |
| JsonErrors.MoreIsRefused | backend/src/json.rs:163-174 | After any derived value and white space, whatever else comes is refused where it begins |
| Unicode.SpaceExactly | backend/src/json.rs:163-174 | What is trimmed from text is, by code point, the White_Space property of Unicode |
| Unicode.TrimExactly | backend/src/http.rs:913-919 | Trimming takes white space off both ends, all of it, and nothing else |
| Unicode.BadExactly | backend/src/http.rs:352-379 | What a lossy decoding replaces at once is the longest run that begins some scalar, or one byte |
| JsonGrammar.DuplicatesKeepLast | backend/src/json.rs:263-295 | Of members with the same key the last one counts |
| JsonGrammar.DenoteChrsIsUtf8 | backend/src/json.rs:297-367 | Every sequence of characters and escapes, lone surrogates included, stands for valid UTF-8 |
| JsonPrinter.Stringify | backend/src/json.rs:446-450 | The printer's loops write the canonical text of every document of integers |
| JsonPrinter.Writer.WriteString | backend/src/json.rs:488-506 | Escaping of any string, appended to what was written before |
| JsonPrinter.Writer.WriteValue | backend/src/json.rs:452-486 | Any document, appended to what was written before |
| JsonPrinter.CstOfMeaning | backend/src/json.rs:452-532 | The printed text is itself derived by the grammar, stands for the document, and is as deep as it |
| JsonPrinter.NumericOfMeaning | backend/src/json.rs:513-532 | A printed integer is a numeral of the grammar, and reads back as itself exactly below 2^53 in magnitude |
| JsonPrinter.RoundTrip | backend/src/json.rs:446-532 | `parse(stringify(v))` is `v` if and only if nothing in `v` is deeper than 128 levels, and is an error otherwise |
| JsonPrinter.PrintedIsCanonical | backend/src/json.rs:446-532 | Printing a parsed text is a fixed point of parsing and printing |
| Eviction.SiftUp | backend/src/stores.rs:63-73 | Restores the heap order after the last slot changed, and keeps the multiset of entries |
| Eviction.SiftDown | backend/src/stores.rs:75-94 | Restores the heap order after one slot got older, and keeps the multiset of entries |
| Eviction.RootIsNewest | backend/src/stores.rs:41-53 | Nothing in a heap is newer than its root |
| Eviction.Select | backend/src/stores.rs:41-53 | For every order of the walk, the heap ends with exactly the entries to drop: as many as exceed the limit, none newer than an entry it leaves out |
| Eviction.EvictOldest | backend/src/stores.rs:32-61 | Leaves min(n, max) entries, all original and unchanged, none of them older than an entry that was dropped |
| Lockout.LockoutStore.IsLocked | backend/src/stores.rs:215-234 | The status, and the forgetting of an expired lock |
| Lockout.LockoutStore.RecordFailure | backend/src/stores.rs:241-267 | The new record of the pair, with room made first when the map is full |
| Lockout.LockoutStore.Clear | backend/src/stores.rs:271-273 | The pair is forgotten and nothing else changes |
| Lockout.LockoutStore.Cleanup | backend/src/stores.rs:290-300 | Expired locks and stale counters go, and the rest is evicted to the capacity |
| Lockout.NeverOverCapacity | backend/src/stores.rs:241-314 | In every run the map holds at most 50,000 entries |
| Lockout.LockoutRefinesHistory | backend/src/routes.rs:466-488 | With sign-in's order of check and record, and events that are safe for the pair up to that moment, each check answers and each failure reports a lock as the pair's plain failure history does, whatever other pairs and clean-ups do in between |
| Lockout.FifthFailureLocks | backend/src/stores.rs:16-25 | The fifth of five failures, each within 15 minutes of the one before, locks for 900 seconds, and the next failure is a first one again |
| Lockout.FewerLeaveOpen | backend/src/stores.rs:241-267 | Fewer than five lock nothing, and neither does a streak broken by more than 15 minutes |
| Lockout.RemainingIsExact | backend/src/stores.rs:215-234 | When the seconds told are over the pair is open, and one second earlier it is still locked |
| Lockout.SparedExactly | backend/src/stores.rs:241-327 | Before the event: whatever eviction picks, a record that still matters is spared if and only if the event needs no room or is of that pair, or some record ranks lower |
| Lockout.RunTracks | backend/src/stores.rs:215-300 | At every moment a missing record says no more than that its history no longer matters, and a present one is what the history calls for |
| Lockout.EvictionSpares | backend/src/stores.rs:316-327 | Eviction drops no live lock while the live locks fit |
| Lockout.LocksSurviveFlooding | backend/src/stores.rs:241-327 | A lock is reported at every time before it expires, however the map is flooded, unless the pair signs in or a new pair fails while more than 49,999 locks are live |
| Lockout.LocksSparedExactly | backend/src/stores.rs:241-327 | Whatever eviction picks, a step spares every live lock if and only if it is not a failure of a new pair that finds 50,000 live locks |
| Lockout.FullOfLocksDropsOne | backend/src/stores.rs:241-327 | The bound is exact: from any full map of live locks the next new pair drops one |
| Crowding.FloodDropsALock | backend/src/stores.rs:241-327 | Such a map is reached: a run of 250,000 failed sign-ins by 50,000 pairs within the window, each of which checks before it records, ends with 50,000 live locks, and one more failure of another pair drops one of them |
| RateLimit.RateLimitStore.CheckAndRecord | backend/src/stores.rs:375-399 | The answer and the new window of the address; a refused request is not recorded |
| RateLimit.RateLimitStore.Cleanup | backend/src/stores.rs:401-417 | Empty windows go and the capacity is kept |
| RateLimit.NeverOverCapacity | backend/src/stores.rs:375-417 | In every run the map holds at most 50,000 entries |
| RateLimit.SparedExactly | backend/src/stores.rs:375-417 | Before the event: whatever eviction picks, an address with a request in its window keeps its entry if and only if the event needs no room or is its own, or some entry is older than its own |
| RateLimit.SafeRunsSpare | backend/src/stores.rs:375-417 | So the three results below hold of every run whose events meet that condition |
| RateLimit.AnswersMatch | backend/src/stores.rs:375-399 | Each answer is the one that the admissions so far call for, whatever clean-ups ran |
| RateLimit.WindowBound | backend/src/stores.rs:375-399 | Over every run any half-open window of 15 minutes holds at most 20 admitted requests of an address whose entry is not evicted |
| RateLimit.RefusedExactly | backend/src/stores.rs:375-399 | A request is refused if and only if 20 admissions of its address lie less than 15 minutes back |
| RateLimit.RetryAfterIsExact | backend/src/stores.rs:384-392 | A refused caller that waits exactly as told is admitted, and one second less is refused |
| Crowding.CrowdPassesLimit | backend/src/stores.rs:375-399 | Without the condition the limit fails: a run of 20 requests of one address and one of each of 50,000 others, after which every eviction drops the first address, and a 21st request of it in the same window is admitted |
| Sha256.Compress | backend/src/crypto.rs:151-201 | The in-place compression is the one of section 6.2.2 of FIPS 180-4 |
| Sha256.Hasher.Update | backend/src/crypto.rs:87-119 | Absorbs a chunk of any length: the chaining value covers the whole blocks of everything absorbed and the buffer holds the rest |
| Sha256.Hasher.Finalize | backend/src/crypto.rs:124-148 | The digest of everything absorbed, padded to a whole number of blocks |
| Sha256.HashChunks | backend/src/crypto.rs:43-49 | Every way of cutting a message into `update` calls gives the digest of the message |
| Sha256.Hash | backend/src/crypto.rs:203-216 | One-shot hashing |
| Sha256.PadLength | backend/src/crypto.rs:127-138 | The padding of the code fills a whole number of blocks, with the number of zeros that section 5.1.1 of FIPS 180-4 asks for |
| Sha256.LengthIsExact | backend/src/crypto.rs:124-138 | Below 2^61 bytes the length field is the exact bit count |
| Sha256.FoldConcat | backend/src/crypto.rs:107-112 | Folding over whole blocks and then the rest is folding over all |
| Sha256.LengthIsSpelled | backend/src/crypto.rs:124-145 | The eight octets of the length field spell the length, the most significant first |
| Sha256Vectors.AbcDigest | backend/src/crypto.rs:151-216 | The digest of `abc` is the one that FIPS 180-4 publishes, computed through every word of the schedule and every round |
| Sha256Constants.ConstantsAreCubeRoots | backend/src/crypto.rs:20-30 | Every round constant is the first 32 bits of the fraction of the cube root of its prime, as an inequality of integers |
| Sha256Constants.InitIsSquareRoots | backend/src/crypto.rs:32-36 | The initial hash value is the same of the square roots of the first eight primes |
| Sha256Constants.PrimesAreListed | backend/src/crypto.rs:20-30 | The primes in question are all the primes up to 311 |
| Hmac.HmacSha256 | backend/src/crypto.rs:236-260 | HMAC of section 2 of RFC 2104, for keys and messages of any length |
| Hmac.MacExactly | backend/src/crypto.rs:236-260 | The two digests are of the key under 0x36 and under 0x5c, octet by octet, filled to 64 octets |
| Hmac.LongKey | backend/src/crypto.rs:236-248 | A key of more than 64 octets stands for its digest |
| Hmac.TwoBlocks | backend/src/kdf.rs:154-179 | The first 64 octets of one iteration are the MACs of the salt with the big-endian indexes 1 and 2 |
| Hmac.ThreeIterations | backend/src/kdf.rs:154-179 | Three iterations are the exclusive or of three chained MACs |
| Hmac.Pbkdf2 | backend/src/kdf.rs:154-179 | The first octets of the blocks of section 5.2 of RFC 2898 |
| Hmac.DerivedPrefix | backend/src/kdf.rs:154-179 | A shorter derived key is the beginning of a longer one |
| ScryptSpec.MaskIsIntegerify | backend/src/kdf.rs:302-304 | Masking the first word of the last block is Integerify of section 5 of RFC 7914 modulo N, for every power of two N up to 2^32 |
| ScryptSpec.MaskIsRemainder | backend/src/kdf.rs:302-304 | Masking with a power of two less one is the remainder |
| ScryptVectors.SalsaVector | backend/src/kdf.rs:218-262 | Salsa20/8 gives the output that section 8 of RFC 7914 publishes for its input |
| ScryptVectors.MixedFour | backend/src/kdf.rs:273-288 | Four blocks: each is mixed with the one before it, the first with the last, and the even results come before the odd ones |
| ScryptVectors.RoMixedTwo | backend/src/kdf.rs:293-312 | With N = 2 the parity of one word picks which of two vectors is mixed in, twice |
| ScryptVectors.ScryptedTwo | backend/src/kdf.rs:362-383 | Two lanes are mixed apart between two derivations of one iteration |
| ScryptVectors.WordsAreLittle | backend/src/kdf.rs:363-367 | Words are read from octets with the least significant first |
| ScryptVectors.OctetsAreLittle | backend/src/kdf.rs:378-381 | Writing words back undoes reading them |
| Scrypt.SalsaInPlace | backend/src/kdf.rs:218-265 | Salsa20/8 in place is four double rounds of quarter rounds added to the input |
| Scrypt.BlockMix | backend/src/kdf.rs:273-287 | The flattened, shuffled output is scryptBlockMix of section 4 of RFC 7914 |
| Scrypt.RoMix | backend/src/kdf.rs:293-311 | The in-place mixing is scryptROMix of section 5, touches nothing else, and does not depend on what the table and the scratch block held |
| Scrypt.MixLanes | backend/src/kdf.rs:366-376 | Sharing one table and one scratch block over the lanes mixes each lane by itself |
| Scrypt.ScryptKey | backend/src/kdf.rs:328-384 | scrypt of section 6, with the error of each bad parameter and of each size that `usize` cannot hold, and a panic exactly when some buffer would exceed `isize::MAX` bytes |
| Scrypt.ScryptOutcome | backend/src/kdf.rs:332-384 | Which error, which panic and which key: exactly when the lanes, the table, the key or the salt are too much for `usize` or for a `Vec` |
| Calendar.Epoch | backend/src/config.rs:557-568 | Day 0 is 1970-01-01 |
| Calendar.CivilSuccessor | backend/src/config.rs:557-568 | For every integer day, the next day is the Gregorian successor, leap years and month lengths included |
| Calendar.CivilIsDate | backend/src/config.rs:557-568 | The result is always a valid date, and counting its days gives the day back |
| Calendar.DateIsCivil | backend/src/config.rs:557-568 | Every valid date is the date of its day: a bijection |
| Calendar.CopiesAgree | backend/src/http.rs:1387-1398 | Both copies of the function agree on every day |
| Calendar.CivilOrder | backend/src/config.rs:557-568 | Days are in order exactly when their dates are |
| IsoText.IsoOrder | backend/src/config.rs:531-546 | For years 0 to 9999 byte order of the text is order of the instants, in both directions |
| IsoText.FourDigitYears | backend/src/config.rs:531-546 | Exactly which instants those are |
| IsoText.IsoExactly | backend/src/config.rs:531-546 | Every instant is written as year, month, day, hour, minute, second and millisecond, two or three digits each, with the separators of ISO 8601, and the parts add up to it |
| IsoText.YearExactly | backend/src/config.rs:531-546 | Years take four places or more, one of them for the sign before year 0 |
| Base64.Encode64 | backend/src/crypto.rs:336-358 | Base64 of every byte string, either alphabet, padded or not |
| Base64.Decode64 | backend/src/crypto.rs:379-397 | The bytes that the groups spell, or None |
| Base64.DecodeEncoded64 | backend/src/crypto.rs:336-397 | Decoding undoes encoding for either alphabet, padded or not |
| Base64.AcceptedTexts | backend/src/crypto.rs:374-397 | Decoding accepts exactly alphabet characters, trailing '='s apart, in every length an encoder can produce |
| Base64.Alphabets | backend/src/crypto.rs:329-333 | The two alphabets of RFC 4648, character by character |
| Base64.ValuesExactly | backend/src/crypto.rs:363-373 | A character has the value of its place in either alphabet, and no other character has one |
| Base64.GroupExactly | backend/src/crypto.rs:336-358 | Three bytes are cut into four fields of six bits from the left, shorter ends are filled with zero bits, and padding is exact |
| Base64.EncodedLacks | backend/src/crypto.rs:329-332 | Encoded text never contains a character outside the alphabet, '.' and '$' among them |
| Hex.HexEncode | backend/src/crypto.rs:280-287 | Two lower-case digits for each byte |
| Hex.HexDecode | backend/src/crypto.rs:301-313 | The bytes spelled, or None for an odd length or a bad digit |
| Hex.DecodeEncoded | backend/src/crypto.rs:280-313 | Decoding undoes encoding |
| Hex.DecodesExactly | backend/src/crypto.rs:289-313 | A text decodes to some bytes if and only if it spells them, in either case |
| Numerals.DigitTable | backend/src/crypto.rs:267-324 | The hexadecimal digits by a table, in either case for reading and in one case for writing |
| Token.TokenRoundTrip | backend/src/auth.rs:53-119 | For every user id, every integer `exp` and every MAC, verifying a signed token has one of three outcomes: Malformed exactly when `exp` is 2^53 or more in magnitude, else Expired exactly when it is not zero and past, else the payload itself |
| Token.AcceptedExactly | backend/src/auth.rs:80-119 | Verification gives a payload for exactly these tokens, signed here or not: three segments that are not empty, the third the encoded MAC of the first two, and the second the encoding of a JSON text of the grammar with that user id and expiry, the expiry absent, null, or a whole number below 2^53 in magnitude that is zero or not past |
| Token.HeaderParses | backend/src/auth.rs:53-66 | The constant first segment parses to an object with the algorithm HS256 and the type JWT |
| Token.ExpIsRead | backend/src/auth.rs:101-108 | The claim of an integer is read as that integer below 2^53 in magnitude, and malformed from there on, rounding included |
| Float64.RoundingKeepsRange | backend/src/json.rs:425-430 | Reading an integer as f64 is exact below 2^53, and leads from no other integer to below 2^53 |
| Float64.RoundsExactly | backend/src/json.rs:425-430 | The rounded value is the one multiple of the distance between neighbours that is at most half of it away, and the even one of two |
| Float64.UlpIsPower | backend/src/json.rs:425-430 | That distance is a power of two which leaves 53 significant bits |
| Float64.IntegerIsRead | backend/src/json.rs:425-430 | An integer numeral has its sign and its rounded magnitude, and is infinite from 2^1024 on |
| Token.BodyParses | backend/src/auth.rs:53-66 | The hand-written payload parses as JSON to exactly the claims |
| Token.SignedIsRead | backend/src/auth.rs:80-100 | A signed token splits into its segments and passes the signature check |
| PasswordHash.HashRoundTrip | backend/src/kdf.rs:438-506 | A new hash is accepted for its own password, for another password exactly when it derives the same key, and is not due for a rehash |
| PasswordHash.HashTextParses | backend/src/kdf.rs:101-135 | The string of any acceptable parameters, salt and key parses back to them |
| PasswordHash.AcceptedPasswords | backend/src/kdf.rs:452-490 | Over every stored text: a password is accepted if and only if the text spells acceptable parameters, a salt and a key in one of two forms and the password derives that key, or it begins with `$2` and bcrypt accepts it |
| PasswordHash.ParsedExactly | backend/src/kdf.rs:86-135 | Exactly those texts parse, and to those values |
| PasswordHash.RehashExactly | backend/src/kdf.rs:492-506 | A rehash is due if and only if the text is of neither form, or at other parameters than the current ones |
| PasswordHash.DeriveExactly | backend/src/kdf.rs:438-490 | The key is scrypt of the bytes of the password and of the salt, in that order, 64 bytes long |
| PasswordHash.NewHash | backend/src/kdf.rs:438-450 | A new hash is the text scrypt$16384$8$1$ with salt and key in URL-safe base64 |
| PasswordHash.WithinLimitsFits | backend/src/kdf.rs:40-83 | Accepted parameters need at most 256 MiB of table and overflow no product even on 32 bits; a lane buffer takes at most 2 GiB, and 2 GiB exactly for (2, 2^20, 16) |
| PasswordHash.WorkingSetBound | backend/src/kdf.rs:38-50 | The exact maximum of all buffers together over the accepted parameters: 33 times 256 MiB, 128 MiB and 68 bytes, in place of the 256 MiB that the comment promises |
| PasswordHash.AcceptedTripleRuns | backend/src/kdf.rs:328-384 | An accepted triple runs on 64 bits; on 32 bits it runs unless it is (2, 2^20, 16), equivalently unless 128*r*p reaches 2^31, and then the first derivation panics |
| PasswordHash.AcceptedHashesRun | backend/src/kdf.rs:101-135 | For every stored hash that parses, its own salt included: its key is derived on 64 bits, and on 32 bits if and only if it does not name (2, 2^20, 16) |
| PasswordHash.VerifyPanics | backend/src/kdf.rs:452-482 | On 32 bits `verify_password` panics if and only if the hash parses and names that triple |
| PasswordHash.LargestRowPanics | backend/src/kdf.rs:452-482 | Such a hash exists for every salt and key, so the promise never to panic fails on 32 bits |
| PasswordHash.HashingSucceeds | backend/src/kdf.rs:438-450 | Hashing with the compiled-in parameters and a salt of 16 bytes always succeeds, even on 32 bits |
| PasswordHash.LegacyRoundTrip | backend/src/kdf.rs:86-116 | The form without parameters verifies at the original cost, and is not flagged for a rehash while that cost is the current one |

## Left out

- Sockets, timeouts, 408 answers, threads, signals, the shutdown flag and failed writes: a connection is its bytes, and ends as `HttpFraming.End` says.
- Responses: status lines, `Date`, CORS and security headers, static files, cookies, 100 Continue.
- SQLite and libcurl calls, SQL text and schema: a statement is an abstract write that may fail.
- Row decoding in `first_execute` and `value_from_json`, and `Value::Real` arguments: the result object is handed over as it is.
- HranaSession.Session.Execute: the transport is the parameter `raw`, a 200 text or nothing; the reuse of the curl handle after a failure is not modelled, nor are `Value::Real` arguments and the decoding of rows and counts from the result object.
- HranaSession.RequestArrives: for arguments without `Value::Real`, whose text is Rust's shortest form of an f64.
- HranaTransaction.Transaction: on a remote session; a panic of the closure is an end that is not Ok.
- HranaTheorems.AllOrNothing: the network loses or delays messages but does not repeat them, as one HTTP request over TCP is not resent by the client.
- JsonPrinter.Stringify: for documents whose numbers are integers below 2^53 in magnitude, since Rust's shortest form of other f64 values is not part of this model.
- JsonPrinter.Writer.WriteValue: the same restriction on numbers.
- JsonPrinter.CstOfMeaning: the same restriction on numbers.
- JsonPrinter.PrintedIsCanonical: the same restriction on the numbers of the parsed document.
- JsonParser.Parser.ReadNumber: numerals other than integers below 2^53 in magnitude keep their text; `Float64.ValueOf` reads the integers among them as f64.
- JsonPrinter.RoundTrip: numbers are integers below 2^53 in magnitude; fractions, exponents and larger numbers are kept as the text they were read from, because Rust's shortest form of an f64 is not part of this model.
- Pool.PoolState.TryCheckout: a poisoned lock is recovered by the code and has no counterpart here.
- RateLimit.WindowBound: eviction for capacity starts a new window for the address, so the bound is for an address whose entry survives, as `RateLimit.SparedExactly` tells in advance.
- Lockout.LockoutRefinesHistory: eviction for capacity can forget a counter that still matters, so it is for runs in which no event can, as `Lockout.SparedExactly` tells in advance.
- Sha256.LengthIsExact: longer messages get the length modulo 2^64, which the digest here reproduces.
- Scrypt.ScryptKey: an allocation above `isize::MAX` bytes panics, as `Vec` does; one below it that the machine has no memory for aborts the server, and is not modelled.
- PasswordHash.HashRoundTrip: bcrypt is a parameter, and its key schedule, tables and base64 variant are not modelled; comparison in constant time is equality.
- Token.TokenRoundTrip: the MAC is any function with a tag that is not empty; `Hmac.HmacSha256` is the one in use. An `exp` is any integer here and an `i64` in the code.
- HttpStrict.RequestFramedExactly: transfer codings other than chunked and lengths given as a list do not occur, since requests with them are not read; framing by the close of the connection is for responses. Bare line feeds are told apart in chunked bodies only, as section 3.5 of RFC 7230 lets a recipient take them at the ends of header lines.
- The CSRF store, which evicts through the same function and otherwise stamps and expires entries.
- Header parsing of webhooks, Stripe calls, retries, and database writes behind the routes.
- `http_date` and the weekday: one table lookup on top of the calendar.
- The quota window of the usage route, booking totals and field validation.
- Cryptographic strength and randomness.
- The React client, the updater scripts and the configuration loaders.
