# Gungnir, verified

Gungnir is a C++23 web framework. This project models its state machines and codecs in Dafny and
proves what they promise over every input, every run and every interleaving.

Each component has the same shape. A datatype holds the state and pure functions give one step and
whole runs. Lemmas prove invariants of every run and, from them, the theorems a user relies on. A class
with the source's fields and loops then does the same work imperatively, and each of its methods is
proved equal to the specification function it implements. `dafny verify dfyconfig.toml` checks
everything.

| files | component |
|---|---|
| Driver, Scopes, ScopeRefinement, ScopeOutcomes, ScopeHistory, ScopeTokens, Connection, Transaction, TransactionOutcomes | nested transactions on SQL savepoints |
| Framing, HeaderFields, RequestParser, RequestEncoding, Chunked, Http1, Http1Order, Http1Answers, Http1Served, Http1Refused, Http1Progress, Http1Connection | HTTP/1 framing, parsing, pipelining and streaming |
| WebSocketWire, WebSocketFrames, WebSocketText, WebSocket, WebSocketOrder, WebSocketOutput, WebSocketFailure, WebSocketProgress, WebSocketConnection | WebSocket frames and message reassembly |
| Pool, PoolOutcomes, Timer, TimerFires, Executor, ExecutorDrains | resources shared between threads; a critical section is one step |
| JsonText, JsonRoundTrip, JsonLexis, JsonGrammar, JsonAccepted, JsonParser | JSON printer and parser |
| Multipart, MultipartParameters, MultipartExact, Utf8Text, MultipartRoundTrip, MultipartForms, MultipartVerdicts | multipart/form-data |
| LspPositions, LspCodePoints, LspDocument | language server positions and incremental edits |
| Http2Body, Http2Requests, Http2Assembly | HTTP/2 response bodies and request budgets |
| RateLimit | fixed-window quotas, in Redis and in process |
| Text, CodePoints | numerals, concatenation and UTF-8, shared |

Text is a `string` with one char per byte. Numbers are unbounded except where a width decides a branch:
content lengths and chunk sizes, JSON integers, WebSocket lengths, the timer's 64-bit pump token.

## Where the code is weaker than one might expect

- Destroying an outer transaction before its inner one leaves the outer scope open: the destructor's
  rollback is rejected and the error swallowed. `Transactions.DestroyEnds` gives the exact condition.
- Scope tokens are plain values, validated by id, depth and root flag but not by savepoint name. A token with
  another scope's name passes and rolls back to that scope (`ScopeTokens.ForgedNameRestoresOuter`);
  `ScopeTokens.NameOfValidToken` gives the exact condition. The refinement is therefore stated for tokens that
  begin_scope issued, which `Transactions.ObjectsAreHonest` shows of every history of transaction objects.
- An editor position on a line with an earlier carriage return does not come back to the same offset
  (`LspPositions.CarriageReturnLosesOffset`); `LspPositions.RoundTrip` gives the exact condition.
- HTTP/2 trailer fields are charged without looking at the body, so header bytes and body together can exceed
  the request limit (`Http2Requests.TrailersExceed`); `Http2Requests.RunFits` and `Http2Requests.SizesDecide`
  give the exact conditions.
- The WebSocket guard against oversized input is unreachable.

## Model

| member | source | states |
|---|---|---|
| ScopeRefinement.RunRefines | src/database/connection.cpp:462-748 | For every run of operations whose tokens came from begin_scope, at any depth and on every savepoint backend, contents, open scopes and callbacks are those of an ideal nested transaction that keeps a full snapshot per scope and knows no savepoints |
| ScopeRefinement.FreshRunRefines | src/database/connection.cpp:462-748 | The same from a fresh connection, with no assumption left but where the tokens came from |
| ScopeRefinement.StepRefines | src/database/connection.cpp:439-748 | Each single operation, failing driver calls included, is the ideal operation it claims to be, or none |
| ScopeRefinement.NestedBeginRefines | src/database/connection.cpp:522-592 | A nested begin that succeeds, and ScopeOutcomes.BeginSucceeds says exactly when, pushes a savepoint that no leftover of an earlier scope can shadow |
| ScopeRefinement.NestedEndRefines | src/database/connection.cpp:629-748 | Ending the innermost nested scope always finds its own savepoint among leftovers, and both commit and rollback do to the session what the ideal scope does |
| ScopeRefinement.RootRefines | src/database/connection.cpp:522-748 | Beginning, committing and rolling back the root transaction agree with the ideal |
| ScopeRefinement.SaveFresh | src/database/connection.cpp:750-758 | Savepoint names are never reused, so on every backend a save puts exactly one new savepoint on top |
| ScopeRefinement.StepRecognised | src/database/connection.cpp:594-627 | A token accepted by validation is, among all tokens ever issued, the one of the innermost scope |
| ScopeOutcomes.FreshRunForeseen | src/database/connection.cpp:439-748 | From a fresh connection, which operations begin, commit, roll back, register or do nothing follows from the ideal transaction, the driver and the requests alone: the connection neither refuses what the ideal allows nor allows what it refuses |
| ScopeOutcomes.RunForeseen | src/database/connection.cpp:439-748 | The same from any refining state |
| ScopeOutcomes.BeginSucceeds | src/database/connection.cpp:522-592 | A begin succeeds if and only if the driver works and it is a root scope or SQLite, PostgreSQL, MySQL or SQL Server with savepoints; the token is one deeper, has the next id and a name no savepoint has; otherwise the fault says why |
| ScopeOutcomes.CommitSucceeds | src/database/connection.cpp:629-707 | A commit succeeds if and only if the token is the innermost scope's and the driver, where asked, works; the root reports the first callback that throws; PostgreSQL, MySQL and SQLite forget the savepoint, SQL Server keeps it; otherwise nothing changes and the fault says why |
| ScopeOutcomes.RollbackSucceeds | src/database/connection.cpp:709-748 | The same for rollback, which restores the scope's snapshot and keeps its own savepoint |
| ScopeOutcomes.PlainSucceeds | src/database/connection.cpp:462-520 | The plain operations succeed exactly on a lone root scope, with their refusals |
| ScopeOutcomes.RunReports | src/database/connection.cpp:654-674 | A commit reports the first callback that throws, and none if none does |
| ScopeOutcomes.CallbackReported | src/database/connection.cpp:439-460 | An empty callback is refused, one inside a transaction held, one outside run and reported |
| ScopeHistory.RollbackRestores | src/database/connection.cpp:522-748 | Begin, any balanced work, rollback: contents, open scopes, waiting and executed callbacks are exactly those at the scope's own begin |
| ScopeHistory.ScopeRolledBack | src/database/connection.cpp:709-748 | A rolled-back scope with any balanced work inside is the identity on the ideal state |
| ScopeHistory.ScopeCommitted | src/database/connection.cpp:629-707 | A committed scope keeps what its body wrote and leaves every enclosing snapshot as it was |
| ScopeHistory.InsideUntouched | src/database/connection.cpp:522-748 | Nothing done inside a scope reaches the frames around it, and no callback runs while it is open |
| ScopeHistory.CallbacksRun | src/database/connection.cpp:439-748 | Over every history the callbacks run are exactly those whose own and all enclosing scopes committed, each once, in registration order; those held are exactly the undecided ones |
| ScopeHistory.RunFates | src/database/connection.cpp:636-748 | The same for the ideal machine, from any state: executed and waiting callbacks are determined by scanning the future once |
| ScopeHistory.TokenEndsOnlyItsScope | src/database/connection.cpp:594-748 | Any token, forged ones included: unless it names the innermost scope nothing changes; if a scope ends it is that one |
| ScopeHistory.EndedOnce | src/database/connection.cpp:594-748 | No run, with tokens in any order, ends a scope twice |
| ScopeHistory.StepIds | src/database/connection.cpp:522-748 | Scope ids stay ascending, new ones are larger than any seen, and an ended id is gone |
| ScopeTokens.NameOfValidToken | src/database/connection.cpp:594-748 | A token that passes validation for a nested scope rolls back as the scope's own token does if and only if it carries the savepoint name issued with it; likewise for commit where the backend releases savepoints, and never otherwise |
| ScopeTokens.NameDecides | src/database/connection.cpp:676-748 | Among distinct savepoints, going back to and releasing a name do what they do for one of them if and only if it is that one's name |
| ScopeTokens.ForgedNameRestoresOuter | src/database/connection.cpp:594-627 | The input: three scopes deep, a token with the innermost id and depth and the outer scope's name passes validation, and rolling back with it restores the outer snapshot |
| ScopeTokens.ForgedNameBreaksRefinement | src/database/connection.cpp:709-748 | That run, from a fresh connection, refines the ideal up to the forged rollback and no longer after it |
| ConnectionObject.Connection.BeginScope | src/database/connection.cpp:522-592 | The object does one step of the machine above, error paths included |
| ConnectionObject.Connection.CommitScope | src/database/connection.cpp:629-707 | As above; callbacks are gathered for the parent, or all run at the root even when some throw |
| ConnectionObject.Connection.RunCallbacks | src/database/connection.cpp:654-674 | The loop runs every callback in order, and reports the first that threw |
| ConnectionObject.Connection.RollbackScope | src/database/connection.cpp:709-748 | As above; exactly the subtree's callbacks are discarded |
| ConnectionObject.Connection.AfterCommit | src/database/connection.cpp:439-460 | Runs at once outside a transaction, is held by the innermost scope inside one |
| ConnectionObject.Connection.Begin | src/database/connection.cpp:462-472 | The plain begin is a root scope only when none is open |
| ConnectionObject.Connection.Commit | src/database/connection.cpp:474-496 | The plain commit ends the root scope only when nothing is nested in it |
| ConnectionObject.Connection.Rollback | src/database/connection.cpp:498-520 | The plain rollback likewise |
| Transactions.ObjectsAreHonest | src/database/transaction.cpp:8-208 | Transaction objects only present tokens they were handed, so the refinement holds of every history of objects |
| Transactions.ObjectsOwnScopes | src/database/transaction.cpp:26-83 | In every history of objects finished or destroyed in any order, a scope is open exactly while one object is active on it |
| Transactions.ObjectHistory | src/database/transaction.cpp:8-83 | Ownership, refinement and callback order together, for every history of objects |
| Transactions.EndThrough | src/database/transaction.cpp:48-83 | A commit or rollback through an object either ends its own innermost scope or leaves the connection unchanged |
| Transactions.DestroyEnds | src/database/transaction.cpp:26-36 | A destructor ends its scope if and only if that scope is the innermost one; otherwise connection and object stay as they were |
| TransactionOutcomes.OpensExactly | src/database/transaction.cpp:8-124 | In every history, a transaction opens if and only if its timeout is positive or absent, the driver works and the backend can nest; its deadline is the opening plus the timeout; a refused opening leaves scopes and objects alone |
| TransactionOutcomes.CommitsExactly | src/database/transaction.cpp:148-208 | In every history, a commit ends the object's own scope if and only if it comes before the deadline, for the innermost scope, with a working driver or a nested scope on SQL Server; otherwise connection and objects stay as they were |
| TransactionOutcomes.RollsBackExactly | src/database/transaction.cpp:26-83 | The same for rollback and destruction, which have no deadline |
| Transactions.InnermostEnds | src/database/transaction.cpp:72-83 | With a working driver, rolling back through the innermost scope's token always succeeds |
| Transactions.OutOfOrderDestructionLeaks | src/database/transaction.cpp:26-36 | Two nested transactions destroyed outermost first leave the connection inside the outer one: the counterexample to "destruction always ends the scope" |
| Transactions.ExpiredNeverCommits | src/database/transaction.cpp:148-208 | If every commit of a transaction is attempted at its deadline or later, no commit ever ends its scope, whatever else happens on the connection |
| Transactions.Transaction.Commit | src/database/transaction.cpp:148-172 | The object follows the specification, the expiry check before anything else |
| Transactions.Transaction.Rollback | src/database/transaction.cpp:72-83 | The object follows the specification; inactive objects do nothing |
| Transactions.Transaction.Destroy | src/database/transaction.cpp:26-36 | The destructor swallows the error and leaves what the failed rollback left |
| Framing.FramingIsStable | src/http/server.cpp:1047-1123 | A framing result, good or bad, is unchanged by any bytes appended later |
| Framing.PrefixIsIncomplete | src/http/server.cpp:1047-1123 | Every proper beginning of a framed request is waited for, never refused |
| Framing.CutIsFramed | src/http/server.cpp:1047-1123 | The bytes cut out are framed as a whole, alone |
| Framing.RequestContentLength | src/http/server.cpp:914-1045 | The cursor loop computes the specified length, with the same refusals |
| Framing.FindFirst | src/http/server.cpp:914-1123 | The search used throughout returns an occurrence with none before it |
| RequestParser.Parse | src/http/message.cpp:95-258 | The header loop computes the specified request or the same error |
| RequestParser.LengthsAgree | src/http/message.cpp:95-258 | Whatever request parse_request accepts, request_content_length reads the same length from it |
| RequestParser.ParsersAgree | src/http/message.cpp:95-258 | When framing and parsing both accept, the body is exactly the bytes after the header block and both lengths are its length (section 6 of RFC 9112) |
| RequestEncoding.RequestReads | src/http/message.cpp:95-258 | Of all a client can write on the lines of a request, however spelt, the parser takes exactly those section 3 of RFC 9112 allows: a known version and path, tokens and text, at most one host and one numeric length, no transfer encoding, a host in HTTP/1.1, the whole body; and reads from them what was meant |
| RequestEncoding.RequestLineReads | src/http/message.cpp:30-150 | A request line is taken if and only if it has one of the seven methods, a path and a version of HTTP/1 |
| RequestEncoding.RequestFrames | src/http/server.cpp:914-1123 | A written request is refused by the framing exactly when its head is too long, something leaves its length in doubt, or it is too large as a whole; otherwise it ends where its length says, or is awaited |
| RequestEncoding.EncodedIsAcceptable | src/http/server.cpp:1047-1123 | Within the limits the framing cuts out exactly the request |
| HeaderFields.NameIsToken | src/security/security.cpp:179-207 | The name check accepts exactly the tokens of section 5.6.2 of RFC 9110 |
| HeaderFields.ValueIsText | src/security/security.cpp:209-232 | The value check accepts exactly visible characters, blanks and bytes outside ASCII |
| HeaderFields.TrimBetween | src/http/message.cpp:17-27 | Trimming takes the blanks around a text and nothing else |
| HeaderFields.LowerFolds | src/http/message.cpp:177-182 | Lower case changes A to Z, character by character, and nothing else |
| Http1Refused.RefusedAnswered | src/http/server.cpp:5198-5313 | Whatever a stream begins with that is no request, and however it arrives: no handler runs, at most one answer is given, the error page of the right status, nothing else is written, and the connection closes behind it |
| Http1Refused.ClientRefused | src/http/server.cpp:5277-5312 | Whatever a client writes as a whole request is refused exactly for the reasons of the standard and the limits, with 431, 413 or 400 saying which |
| Http1Progress.NeverStuck | src/http/server.cpp:5198-5982 | Wherever a run over good requests has led, events without failures or lost peers exist that bring the connection to rest, with all it took answered in full |
| RequestEncoding.ClientStream | src/http/server.cpp:5198-5313 | So any list of such requests is a stream the pipelining theorems speak of |
| Http1Order.Pipelining | src/http/server.cpp:5198-5982 | For any good requests, any split into reads, partial writes, handler and producer completions: the slices handed to the parser are a prefix of the requests sent, and the bytes written a prefix of the answers to them in that order (section 9.3.2 of RFC 9112); at most one of handler, stream chunk and output is under way |
| Http1Served.AllServed | src/http/server.cpp:5198-5982 | A connection at rest, idle after all input or closed by the server in a run neither peer, socket nor producer cut short, has answered every request it took and every answer has left whole; idle, it took them all; closed, it stopped after the first answer that ends the connection |
| Http1Served.ClosesExactly | src/http/server.cpp:5506-5982 | In every run nothing is answered after an answer that ends the connection; in an undisturbed run the server has closed if and only if such an answer is out completely |
| Http1Served.RunCloses | src/http/server.cpp:5198-5982 | The invariant behind both, over every run |
| Http1Answers.RepliesAnswerRequests | src/http/server.cpp:5506-5820 | In every run reply k is the rendering, for request k, of what the k-th handler returned (or the overload answer), its body omitted if and only if that request is HEAD, its keep-alive directive and its closing determined by that request, its number and the handler's outcome |
| Http1Answers.StreamedBodies | src/http/server.cpp:5315-5504 | In every run, from the bytes sent after the head of a finished streaming reply the peer decodes exactly the chunks the events gave its producer, empty ones included, and what follows are the next answers |
| Http1Answers.RunRecords | src/http/server.cpp:5378-5504 | A finished reply holds exactly what its producer was asked for and gave, whatever happened between |
| Http1Order.FramesNext | src/http/server.cpp:5198-5313 | The input buffer against the stream it begins: framing waits for, then cuts, exactly the next request |
| Http1Order.StepInv | src/http/server.cpp:5198-5982 | Every event keeps: one activity, answers match dispatched requests, received bytes are dispatched requests plus the buffer, and no whole request is forgotten |
| Http1Order.RunInv | src/http/server.cpp:5198-5982 | The same over whole runs from any such state |
| Http1Connection.Connection.ReadReady | src/http/server.cpp:5198-5313 | The object's read path does the machine's step, errors queued as in the source |
| Http1Connection.Connection.Receive | src/http/server.cpp:5214-5276 | The receive loop stops at a complete or refused request and otherwise keeps everything received |
| Http1Connection.Connection.PrepareResponse | src/http/server.cpp:5693-5820 | Takes the next framed request out of the buffer, or marks the overload and error answers |
| Http1Connection.Connection.CompleteHandler | src/http/server.cpp:5506-5665 | A finished handler becomes a queued answer, a stream or an error |
| Http1Connection.Connection.CompleteStream | src/http/server.cpp:5378-5504 | A produced chunk is queued, an empty one asks for the next, the end queues the terminal chunk |
| Http1Connection.Connection.RequestStreamChunk | src/http/server.cpp:5315-5376 | Asks the producer for one more chunk |
| Http1Connection.Connection.WriteReady | src/http/server.cpp:5822-5982 | The write path does the machine's step |
| Http1Connection.Connection.Send | src/http/server.cpp:5822-5868 | The send loop takes bytes from the output in order, as many as the peer accepts |
| Http1Connection.Connection.QueueError | src/http/server.cpp:5984-6055 | An error answer replaces everything pending and closes after it |
| Chunked.StreamDecodes | src/http/message.cpp:385-412 | For every sequence of producer chunks, empty ones included, decoding by section 7.1 of RFC 9112 yields exactly their concatenation and stops right after the terminal chunk |
| Chunked.UnfinishedStream | src/http/message.cpp:385-412 | Cut anywhere before its end, the encoded stream is never taken for a finished body |
| Chunked.DecodeAppend | src/http/message.cpp:385-412 | A finished body is unchanged by what follows it |
| WebSocketWire.FrameRoundTrip | src/http/websocket.cpp:778-1035 | The server reads back exactly the frame a client wrote, whatever follows (section 5.2 of RFC 6455) |
| WebSocketFrames.TakesExactly | src/http/websocket.cpp:778-1035 | A frame is taken off the bytes if and only if they begin with it as a client may write it (section 5.2 of RFC 6455): masked, no reserved bits, shortest length, control frames short and whole |
| WebSocketFrames.RefusesExactly | src/http/websocket.cpp:778-1035 | Bytes are refused as invalid only if no frame can begin with them, as too big only if every frame they can be is over the limit, and awaited, once ten are there, only if a frame within it can |
| WebSocketFrames.MaskFlips | src/http/websocket.cpp:1007-1028 | Unmasking flips a bit exactly where the mask byte, counted modulo four, has one |
| WebSocketText.Utf8Exactly | src/http/websocket.cpp:1152-1253 | A message is accepted as text if and only if it is the UTF-8 encoding of code points |
| WebSocketText.CheckUtf8 | src/http/websocket.cpp:1152-1253 | The two loops decide that |
| WebSocketText.CloseCodesExactly | src/http/websocket.cpp:1255-1282 | The close codes allowed are those of section 7.4 of RFC 6455 that may be sent |
| WebSocketWire.ParseAppend | src/http/websocket.cpp:778-1035 | A frame or a violation, once recognised, is the same however many bytes follow |
| WebSocketWire.UnmaskTwice | src/http/websocket.cpp:1007-1028 | Masking is its own inverse (section 5.3 of RFC 6455) |
| WebSocketOrder.Reassembly | src/http/server.cpp:3093-3740 | For every byte stream and every interleaving of reads, writes and handlers, lost sockets and failing handlers included, the handler is given one at a time and in order a prefix of the messages the frames make up (section 5.4 of RFC 6455), none over the limit |
| WebSocketOrder.AllDelivered | src/http/server.cpp:3093-3740 | When the peer's own frames ended the session, by a close frame or the first violation, or when all bytes arrived and the open session idles, exactly the messages of the stream were delivered; only a lost socket or a handler that ends the session can cut them short |
| WebSocketOutput.Conversation | src/http/server.cpp:3211-3740 | In every run what was written and waits to be is, in the order of the peer's frames, one pong with its payload per ping and one answer per message replied to, then at most one close frame with its reason and nothing after it; unless the socket is lost the session closes only once that frame is written (section 5.5 of RFC 6455) |
| WebSocketOutput.AllAnswered | src/http/server.cpp:3211-3740 | When all bytes arrived and the open session idles, every ping of the stream has had its pong and every message its turn with the handler, whose answers have all been written |
| WebSocketFailure.FailsForCause | src/http/server.cpp:3022-3740 | In every run a session that fails says why: 1011 for its handler, 1002 for frames or bytes against the protocol, 1007 for text that is none, 1009 for what is too big, each found by looking at the frames, results and bytes alone |
| WebSocketFailure.OverForGood | src/http/server.cpp:3525-3582 | A lost socket ends the session, and nothing changes an ended one |
| WebSocketProgress.NeverStuck | src/http/server.cpp:3211-3740 | Wherever a run has led, events with a peer that stays and handlers that return exist that close the session with its last word written or leave it idle with every byte looked at |
| WebSocketOrder.DecidedForGood | src/http/server.cpp:3211-3523 | After a close frame or a group that can no longer become a message, no further frames add a message |
| WebSocketOrder.HandleDecides | src/http/server.cpp:3252-3523 | Whenever a frame makes the session fail or close, the messages of the stream are settled by the frames so far |
| WebSocketOrder.FramesOfClient | src/http/server.cpp:3211-3523 | The frames read from an encoded frame sequence, each masked with its own key, are those frames |
| WebSocketOrder.ControlStep | src/http/server.cpp:3211-3523 | Interleaved control frames leave the message being collected alone |
| WebSocketOrder.OneMore | src/http/server.cpp:3372-3475 | How one more data frame changes the messages of a frame sequence: lengthens, completes or invalidates the open group |
| WebSocketOrder.NeverOverfull | src/http/server.cpp:3228-3245 | The guard against input beyond limit plus 14 bytes is never reached: a frame within the limit is complete before |
| WebSocketOrder.ProcessInv | src/http/server.cpp:3211-3523 | The frame loop keeps the assembly invariant and stops only when busy, over or out of whole frames |
| WebSocketOrder.RunInv | src/http/server.cpp:3211-3740 | The same over every run of events |
| WebSocketConnection.Session.ProcessBuffer | src/http/server.cpp:3211-3523 | The object's frame loop does what the machine specifies |
| WebSocketConnection.Session.HandleFrame | src/http/server.cpp:3252-3523 | One frame: control replies, fragments, violations with their close codes |
| WebSocketConnection.Session.DispatchMessage | src/http/server.cpp:3093-3209 | One message to the handler, text checked first |
| WebSocketConnection.Session.Fail | src/http/server.cpp:3022-3091 | A violation drops the fragment and queues one close frame |
| WebSocketConnection.Session.CompleteReady | src/http/server.cpp:3584-3740 | A finished handler frees the session and the buffer is processed on |
| Pool.Exclusive | src/database/pool.cpp:277-438 | In every interleaving of acquire, release, cancel, timeout, failed reconnect and validate_idle: leased exactly when one thread holds the entry, no two holders share entry or connection, leased entries equal holders |
| Pool.HeldConnectionStays | src/database/pool.cpp:39-74 | While a thread holds a lease nothing other threads do takes it or replaces its connection |
| Pool.OnlyHolderReplaces | src/database/pool.cpp:141-214 | A step replaces at most one connection, by a new one, and only in the hands of its holder |
| Pool.SleepsOnlyWhenFull | src/database/pool.cpp:301-365 | A thread waits exactly when its scan in the same critical section finds every entry leased, and otherwise leaves with an entry |
| Pool.ScanIsComplete | src/database/pool.cpp:305-332 | The round-robin scan visits every entry: empty-handed if and only if all are leased |
| PoolOutcomes.AcquireEnds | src/database/pool.cpp:317-332 | From its reservation on, with any steps of others between: an acquisition ends with the entry it reserved, on a fresh connection exactly if the old one was replaced, or, cancelled early or late or left without a connection, with no lease |
| PoolOutcomes.AcquireTakes | src/database/pool.cpp:301-332 | It reserves the first free entry counted round from next, which then stands behind it; a cancelled one takes nothing |
| PoolOutcomes.WaitEnds | src/database/pool.cpp:335-364 | A waiter leaves at its deadline without a lease, counted unless cancelled |
| PoolOutcomes.SweepEntry | src/database/pool.cpp:417-438 | A sweep checks each free entry and gives it back, passes over leased ones, and ends early only on one that cannot be revived |
| PoolOutcomes.MadeConserved | src/database/pool.cpp:141-214 | Over every run, every connection ever made was there from the start or replaced a dead one |
| Pool.StepInv | src/database/pool.cpp:141-438 | Every critical section keeps the lease invariant |
| Pool.CountHolders | src/database/pool.cpp:386-415 | The leased count is the number of lease-holding threads |
| Pool.ConnectionPool.AcquireRound | src/database/pool.cpp:301-365 | One locked round of acquire is the specified step: the scan loop reserves the first free entry in cyclic order and moves next behind it, or the thread sleeps |
| Pool.ConnectionPool.SweepRound | src/database/pool.cpp:417-438 | One locked entry of validate_idle is the specified step |
| Pool.ConnectionPool.TimedOut | src/database/pool.cpp:343-364 | A timeout is counted unless cancellation wins |
| Pool.ConnectionPool.ReleaseEntry | src/database/pool.cpp:52-58 | Destroying a lease is the specified release: exactly that entry becomes free |
| Pool.ConnectionPool.EnsureHealthy | src/database/pool.cpp:141-214 | The ping and the reconnection loop are the specified step: replaced exactly when due, unhealthy and some attempt succeeds; otherwise the lease is dropped |
| Pool.ConnectionPool.Stats | src/database/pool.cpp:386-415 | Leased and available add up to the size; the counters are reported as they are |
| Timer.CollectionOrder | src/core/timer.cpp:68-408 | Over every run with a monotone clock: the whole collection log of pump and fallback together is sorted by deadline and then by scheduling order, and every scheduled entry is collected once or pending once |
| TimerFires.FiresRequests | src/core/timer.cpp:68-408 | Against the requests read off the events: whatever fired is one of them, at or after the clock at its request plus its duration, and each request has fired once or waits |
| TimerFires.FiresAtOnce | src/core/timer.cpp:255-408 | Whenever the pump, or the fallback without one, looks at the clock it takes exactly the requests that are due; nothing else ever fires any, and nothing fires after a stop |
| TimerFires.RunKeepsTo | src/core/timer.cpp:68-190 | After any events the scheduler holds exactly the requests made before a stop, each due at its own time; the k-th pump attached has token k mod (2^64 - 1) + 1, and only its own token detaches it |
| Timer.CollectExactly | src/core/timer.cpp:311-326 | A collection takes exactly the entries that are due |
| Timer.InsertKeeps | src/core/timer.cpp:68-110 | The queue stays sorted and gains exactly the new entry |
| Timer.RunInv | src/core/timer.cpp:68-408 | The invariant behind the order, over every run |
| Timer.TimerScheduler.Push | src/core/timer.cpp:68-110 | Scheduling inserts in place, or refuses while stopping |
| Timer.TimerScheduler.CollectDue | src/core/timer.cpp:311-326 | The collection loop moves the due entries to the log in order |
| Timer.TimerScheduler.DispatchDueTimers | src/core/timer.cpp:255-280 | Collects only while a pump is attached |
| Timer.TimerScheduler.FallbackRound | src/core/timer.cpp:340-408 | Collects only without a pump and when the first entry is due |
| Timer.TimerScheduler.AttachPump | src/core/timer.cpp:112-160 | Hands out a non-zero token when no pump is attached |
| Timer.TimerScheduler.DetachPump | src/core/timer.cpp:162-190 | Only the current token detaches |
| Executor.Order | src/core/executor.cpp:15-100 | In every interleaving: accepted tasks are those taken, in FIFO order, followed by the queue, which never exceeds capacity; none runs twice; the failure kept is the first recorded |
| Executor.JoinedMeansDone | src/core/executor.cpp:36-46 | When join can return on an executor that had a worker, every accepted task has run exactly once, whatever others threw |
| ExecutorDrains.WorkerDrains | src/core/executor.cpp:89-102 | Any idle worker left to itself runs everything queued, in order, then leaves if and only if the executor is stopping |
| ExecutorDrains.StartMeans | src/core/executor.cpp:15-34 | A start brings up exactly so many idle workers and takes posts while there is room; a failed one takes none; a running executor does not notice |
| ExecutorDrains.ThrowsKept | src/core/executor.cpp:98-100 | A throwing task leaves its worker ready, and the first exception is the one kept |
| ExecutorDrains.JoinMeans | src/core/executor.cpp:41-46 | A join returns exactly when every worker has left, and then the executor can be started again |
| Executor.StepInv | src/core/executor.cpp:15-100 | Every critical section keeps: a taken task is in the hands of exactly one worker or has run once |
| Executor.BoundedExecutor.PostWork | src/core/executor.cpp:48-79 | Refused exactly while stopping or full, otherwise queued last |
| Executor.BoundedExecutor.TakeWork | src/core/executor.cpp:89-97 | Takes the oldest task, or exits only when stopping with an empty queue |
| Executor.BoundedExecutor.FinishWork | src/core/executor.cpp:98-100 | Only the first exception is kept |
| Executor.BoundedExecutor.StartWorkers | src/core/executor.cpp:15-34 | The start loop brings up the workers, or stops at once when one fails |
| JsonRoundTrip.RoundTrip | src/http/json.cpp:102-544 | parse(space + dump(v) + space) is v for every well-formed tree, up to an unsigned that fits a signed integer |
| JsonRoundTrip.ReparseIsStable | src/http/json.cpp:102-544 | Whatever text the parser accepts, printing and parsing again changes nothing |
| JsonAccepted.GrammarExactly | src/http/json.cpp:102-489 | A text is parsed to a value if and only if it is a text of the grammar of RFC 8259, with any space, any spelling of strings and numbers and repeated keys, and means that value |
| JsonAccepted.EntryParses | src/http/json.cpp:102-489 | Every document of the grammar is parsed to its meaning; the only error it can meet is a number the library cannot read |
| JsonGrammar.DocRead | src/http/json.cpp:142-489 | The same for a document followed by anything that cannot continue it |
| JsonGrammar.AssignFinds | src/http/json.cpp:307-307 | Of a key given twice the later value is found, every other key is left alone |
| JsonLexis.Utf8Exactly | src/http/json.cpp:85-101 | The bytes appended for a code are the shortest that decode to it by their payload bits, and the only ones of that length |
| JsonLexis.FigureScans | src/http/json.cpp:367-440 | Every number of the grammar is scanned as one, floating exactly with a fraction or an exponent |
| JsonLexis.AmountReads | src/http/json.cpp:440-489 | A whole number that fits sixty-four bits stays one, signed if it can be; any other is a double |
| JsonRoundTrip.ValueRoundTrip | src/http/json.cpp:142-544 | The same for a value followed by anything that cannot continue it |
| JsonRoundTrip.StringRoundTrip | src/http/json.cpp:38-82 | Every byte string, control bytes, quotes and backslashes included, survives escaping and parsing |
| JsonRoundTrip.DecimalReads | src/http/json.cpp:367-489 | A printed integer is one number token of that value |
| JsonRoundTrip.NumberBefore | src/http/json.cpp:367-489 | A number is scanned the same whatever delimiter follows |
| JsonRoundTrip.ParsedSettled | src/http/json.cpp:142-489 | Parsed values are canonical: object keys distinct, unsigned integers only where a signed one does not fit |
| JsonParser.Parser.Parse | src/http/json.cpp:106-117 | The cursor parser computes the specified value or error, cursor in bounds, every call terminating |
| JsonParser.Parser.ParseValue | src/http/json.cpp:142-180 | As above for one value |
| JsonParser.Parser.ParseString | src/http/json.cpp:182-274 | As above for strings, escapes and their errors |
| JsonParser.Parser.ParseObject | src/http/json.cpp:276-329 | As above for objects; a repeated key overwrites |
| JsonParser.Parser.ParseArray | src/http/json.cpp:331-365 | As above for arrays |
| JsonParser.Parser.ParseMemberList | src/http/json.cpp:285-329 | The member loop computes the specification |
| JsonParser.Parser.ParseItemList | src/http/json.cpp:340-365 | The item loop computes the specification |
| JsonParser.Parser.ParseNumber | src/http/json.cpp:367-489 | As above for numbers; integers that fit neither 64-bit type are read as doubles |
| JsonParser.DumpJson | src/http/json.cpp:491-544 | The printing loops build the specified text |
| JsonParser.EscapeString | src/http/json.cpp:38-82 | The byte loop builds the specified escape |
| Multipart.FindDelimiter | src/http/uploads.cpp:79-93 | Jumping by whole markers still returns the first delimiter line at or after the start |
| Multipart.NoneInside | src/http/uploads.cpp:79-93 | Why nothing is missed: a delimiter cannot begin inside a marker |
| MultipartForms.FormRoundTrip | src/http/uploads.cpp:228-287 | Parsing the encoding of any acceptable parts, contents free of delimiter lines, returns exactly their fields and files, files in order under their base names (section 5.1 of RFC 2046, RFC 7578) |
| MultipartVerdicts.FormExactly | src/http/uploads.cpp:228-287 | For any parts a client sends, behind any preamble: the form is accepted if and only if each part is fine after those before it, and holds exactly their fields and files; otherwise the first that is not decides between malformed and too large |
| MultipartForms.FormReadBehind | src/http/uploads.cpp:228-287 | The same as one fold over the parts, for every spelling of the content type |
| MultipartForms.FormRefused | src/http/uploads.cpp:229-237 | A body over the limit is too large; one without a good boundary or without a delimiter is malformed |
| MultipartExact.HeadExactly | src/http/uploads.cpp:246-262 | However its lines are spelt and ordered, a part's head is taken if and only if each line is a field, none comes twice, nothing is transfer-encoded and the disposition is form data with a good name |
| MultipartExact.DelimiterExactly | src/http/uploads.cpp:79-93 | There is a delimiter exactly where a line begins with the marker, two dashes if it is the last, blanks and a line end, or the end of the body for the last |
| MultipartParameters.ParametersExactly | src/http/uploads.cpp:29-72 | A field is read as a word and its parameters if and only if the grammar of section 5.6.6 of RFC 9110 writes it so: blanks, letter case, tokens or quoted strings, needless escapes |
| MultipartExact.BaseNameExactly | src/http/uploads.cpp:272-273 | The stored file name is the longest end of the file name without a slash of either kind |
| MultipartExact.MediaTypeExactly | src/http/uploads.cpp:275-277 | A declared type is taken, in small letters and without parameters, exactly when it is a type and a subtype; without one the file is a stream of octets |
| MultipartExact.NameExactly | src/http/uploads.cpp:73-73 | A part's name is a plain key, or a plain key and brackets |
| MultipartExact.BoundaryExactly | src/http/uploads.cpp:234-234 | A boundary is one to seventy characters of section 5.1.1 of RFC 2046, no blank last |
| Utf8Text.TextExactly | src/http/uploads.cpp:213-225 | The text check accepts exactly the UTF-8 encodings of text |
| Utf8Text.SafeNameExactly | src/http/uploads.cpp:75-77 | A safe name is one to 255 bytes of UTF-8 without control characters |
| MultipartForms.FormRead | src/http/uploads.cpp:228-287 | For any sendable parts, acceptable or not, the parser's verdict on the encoded body is that of folding the parts: same form or same refusal |
| MultipartForms.FieldHasContent | src/http/uploads.cpp:279-283 | With distinct names each field keeps its own content |
| MultipartForms.PartsRead | src/http/uploads.cpp:240-285 | The same from any delimiter in the middle of a body |
| MultipartForms.MarkedAppend | src/http/uploads.cpp:79-93 | Whether a line is a delimiter is settled by the time it ends |
| MultipartRoundTrip.ParametersRoundTrip | src/http/uploads.cpp:29-72 | Any list of distinct attributes, quotes and backslashes in their values included, is read back as written |
| MultipartRoundTrip.HeadReads | src/http/uploads.cpp:246-262 | A part's header lines are read as its name, file name and content type, or refused for the name alone |
| Multipart.FormsDisjoint | src/http/uploads.cpp:267-283 | Whatever the body, no key of an accepted form is both a field and a file |
| Multipart.ReadForm | src/http/uploads.cpp:228-287 | The part loop computes the specification; it terminates because the cursor advances |
| Multipart.ReadParameters | src/http/uploads.cpp:29-72 | The parameter loop computes the specification |
| Multipart.ReadQuoted | src/http/uploads.cpp:43-58 | The quoted-string loop computes value and rest |
| Multipart.ReadHeaders | src/http/uploads.cpp:246-255 | The header loop computes the specified map, refusing repeats |
| LspPositions.RoundTrip | src/cli/lsp.cpp:48-60 | For every boundary of every UTF-8 text, offset(position(o)) = o if and only if no carriage return precedes it on its line; the position is the newline count and the UTF-16 units since |
| LspPositions.CarriageReturnLosesOffset | src/cli/lsp.cpp:54-60 | The input for the failing half: a lone carriage return, and the offset behind it comes back as the one before |
| LspPositions.OffsetMeans | src/cli/lsp.cpp:54-60 | Every editor position: a missing line is the end of the text; else an error exactly inside a surrogate pair, else a boundary at that column or at the line's end |
| LspPositions.PositionMeans | src/cli/lsp.cpp:49-53 | The loop counts newlines bytewise and code units since the last |
| LspCodePoints.PositionOfCodes | src/cli/lsp.cpp:48-53 | In a text of any code points the position between two of them is the number of newlines before and of UTF-16 code units since the last |
| LspCodePoints.OffsetOfCodes | src/cli/lsp.cpp:54-61 | That position leads back to the same place if and only if no carriage return stands earlier on its line |
| LspCodePoints.EditOfCodes | src/cli/lsp.cpp:162-168 | Replacing any code points by any others, reported by lines and UTF-16 columns, gives the server exactly the editor's new text |
| LspPositions.LineStartMeans | src/cli/lsp.cpp:54-57 | Skipping that many newlines finds the beginning of the line |
| LspPositions.ColumnFinds | src/cli/lsp.cpp:58-60 | The column loop reaches an offset of the line if and only if no carriage return stops it |
| LspPositions.ColumnFails | src/cli/lsp.cpp:58-60 | The error is raised exactly for positions inside a surrogate pair |
| LspPositions.ColumnLands | src/cli/lsp.cpp:58-60 | Otherwise the loop stops on a boundary, at the column asked for or the line's end |
| LspDocument.FollowsEdits | src/cli/lsp.cpp:162-170 | Any list of edits, each addressed in the text left by the one before, is applied to exactly those bytes and the text stays UTF-8 |
| LspDocument.SessionInStep | src/cli/lsp.cpp:162-170 | A server that starts with the editor's text has the editor's text and version after any session of notifications computed by the editor, with any rising versions and stale ones between |
| LspDocument.ChangeIsExact | src/cli/lsp.cpp:165-168 | One reported range replaces exactly the bytes meant |
| LspDocument.RangeResolves | src/cli/lsp.cpp:61-61 | The reported ends resolve to themselves if and only if neither has a carriage return earlier on its line |
| LspDocument.WindowsLineEnds | src/cli/lsp.cpp:54-60 | With CRLF line ends only the boundary inside a line end fails |
| LspDocument.EditKeepsUtf8 | src/cli/lsp.cpp:165-168 | Edits between boundaries keep the text UTF-8 |
| LspDocument.ComputePosition | src/cli/lsp.cpp:49-53 | The loop computes the specification |
| LspDocument.ComputeOffset | src/cli/lsp.cpp:54-60 | The two loops compute the specification, error included |
| LspDocument.Document.Update | src/cli/lsp.cpp:162-170 | Stale versions ignored; a failing list of changes leaves text and version alone |
| Http2Body.FifoBytes | src/http/http2_session.cpp:637-716 | After any interleaving of pushes, finish and reads, bytes sent are a prefix of bytes pushed and the rest is pending |
| Http2Body.EndIsComplete | src/http/http2_session.cpp:666-712 | With no push after finish, the end is flagged only after finish and only when every byte is out (section 6.1 of RFC 9113) |
| Http2Body.Drains | src/http/http2_session.cpp:637-716 | A finished body goes out completely within as many positive-size reads as it has bytes |
| Http2Body.ReadMeans | src/http/http2_session.cpp:637-716 | A read takes from the front, defers exactly when nothing is pending and unfinished, flags the end exactly on the last byte of a finished body |
| Http2Body.PushAppends | src/http/http2_session.cpp:1161-1207 | A push extends what is pending at its end; an empty chunk changes nothing |
| Http2Body.ResponseBodies.ReadResponseBody | src/http/http2_session.cpp:637-716 | Touches one stream's body as specified |
| Http2Body.ResponseBodies.PushStreamChunk | src/http/http2_session.cpp:1161-1207 | Throws exactly for a non-empty chunk on a missing stream |
| Http2Body.ResponseBodies.FinishStream | src/http/http2_session.cpp:1209-1244 | Marks the end; a missing stream is ignored |
| Http2Requests.RunInv | src/http/http2_session.cpp:271-609 | Over every sequence of callbacks: header bytes within the list limit, bodies within the request limit, requests handed on well formed, within both limits, without connection-specific or pseudo fields |
| Http2Requests.ChunkFits | src/http/http2_session.cpp:451-507 | A chunk is accepted if and only if capped header bytes, body and chunk fit the request limit together |
| Http2Requests.RunFits | src/http/http2_session.cpp:304-507 | Over every run capped header bytes and body stay within the request limit after every event if and only if every field that reached a stream with a body fitted beside it |
| Http2Requests.WithoutTrailers | src/http/http2_session.cpp:304-609 | On streams without trailers the sum is within the limit after every event, and so is every request handed on, headers and body together |
| Http2Requests.SizesDecide | src/http/http2_session.cpp:304-507 | A stream whose callbacks were all accepted is within the limit if and only if it has no body or the field and body bytes sent on it add up to no more |
| Http2Requests.TrailersExceed | src/http/http2_session.cpp:304-449 | The input: a GET with all its pseudo fields, four body bytes and one trailer, every callback accepting, ends over a limit of forty-four |
| Http2Requests.AtMostOne | src/http/http2_session.cpp:509-609 | No run hands on more requests for a stream than it was opened times |
| Http2Assembly.RequestIsWhole | src/http/http2_session.cpp:271-609 | A stream that sends what it may, among any others, hands on exactly the last method, the last path, the regular fields in order with the authority as host, and the concatenated chunks, or nothing without a known method and a path |
| Http2Assembly.AcceptedExactly | src/http/http2_session.cpp:304-507 | The callbacks of a stream are all accepted if and only if what they carry is within the two limits and no field is one HTTP/2 forbids |
| Http2Assembly.NothingAfterEnd | src/http/http2_session.cpp:509-609 | Once a stream has ended, nothing is handed on for it until it is opened again |
| Http2Requests.Http2Session.OnHeaderField | src/http/http2_session.cpp:304-449 | The callback follows the specification, charging before it refuses |
| Http2Requests.Http2Session.OnDataChunk | src/http/http2_session.cpp:451-507 | The callback follows the specification without underflow |
| Http2Requests.Http2Session.OnFrameReceived | src/http/http2_session.cpp:509-609 | The callback follows the specification |
| RateLimit.Quota | src/http/redis_rate_limit.cpp:10-50 | Over any calls sharing a key: call k is admitted exactly when fewer than the limit of its window came before; it is told exactly how many are left and the fewest whole seconds until its window is over; no error is ever raised |
| RateLimit.AtMostTwice | src/http/redis_rate_limit.cpp:10-25 | Any half-open interval one window long admits at most twice the limit |
| RateLimit.ScriptCounts | src/http/redis_rate_limit.cpp:10-25 | The stored counter is the number of calls in the window, capped at the limit |
| RateLimit.RunsAgree | include/gungnir/http/rate_limit.hpp:40-64 | For any keys, limits and windows the in-process store decides as the Redis store on the same requests, its refusals for want of room excepted |
| RateLimit.EvictionUnseen | include/gungnir/http/rate_limit.hpp:51-54 | Dropping expired buckets never changes a decision |
| RateLimit.RoomExactly | include/gungnir/http/rate_limit.hpp:51-56 | A request is refused for want of room if and only if its client is unknown and as many others as the table holds have open windows; the table never outgrows its capacity, and no open window is lost |
| RateLimit.RecordChecked | src/http/redis_rate_limit.cpp:17-22 | The script reports exactly the live records that are no count or have no end, and leaves them alone |
| RateLimit.ReplyChecked | src/http/redis_rate_limit.cpp:39-50 | A decision is made exactly of a sensible reply |
| RateLimit.StaysExact | include/gungnir/http/rate_limit.hpp:20-30 | Within the accepted range every number stays one Redis holds exactly |
| RateLimit.RedisStore.Consume | src/http/redis_rate_limit.cpp:33-50 | Refuses exactly an empty key and values out of range, otherwise script and reply checks as specified |
| RateLimit.MemoryStore.Consume | include/gungnir/http/rate_limit.hpp:45-64 | Refuses exactly an empty key and values out of range, otherwise eviction, refusal and counting as specified |

## Left out

- TLS, sockets, poll and wake-up plumbing, metrics and tracing: reads, writes and completions are nondeterministic events.
- HTTP/2 framing and header compression: the callbacks of the frame decoder are the events; that a stream id is opened once is the decoder's promise.
- Response serialisation, routing, middleware and keep-alive header logic: a handler's answer is a non-empty text and a flag to close.
- A malformed request behind good ones: the pipelining theorems are for streams of requests the framing accepts, the refusals for a stream that begins with something else.
- Errors raised while a body producer is started are treated like errors of its first chunk.
- The WebSocket handshake and shutdown of running sessions; the session theorems hold for any validators of text and close codes, those of the source among them.
- Driver failures: a failing driver call is taken to have no effect, and user statements to contain no savepoint commands.
- Callbacks that use the connection they were registered on: callbacks only return or throw.
- Wrap-around of the 64-bit scope and savepoint counters: the counters are unbounded.
- Liveness and fairness of condition variables in pool, timer and executor: only what every interleaving guarantees.
- The order in which a thread resumes the timers it has collected, and exceptions from resumed work: the log records collection.
- Clock arithmetic overflow in the timer and the nanosecond clock of the in-process quota store: times are unbounded integers, in milliseconds for quotas.
- JsonRoundTrip.RoundTrip: the double printer and reader are parameters assumed inverse, because their digits are the C++ library's.
- JsonParser.Parser.ParseString: makes no claim about surrogate pairs; each \u escape is decoded by itself, as in the source.
- RateLimit.RedisStore.Consume: Redis is one atomic script call with an expiring key, and what is left of the process's own clock is an input.
- Http1Connection.Connection.CompleteHandler: an accepted upgrade to WebSocket is not part of this model, because the connection then leaves HTTP/1; the WebSocket model starts after it.
- RateLimit.RunsAgree: compares the stores for keys that are gone at the instant they expire; the quota theorems cover keys that linger for that instant too.
- Multipart.ReadForm: parts are read and stored through specification functions; the image, PDF and text sniffing of uploads.cpp is not part of this model.
- LspDocument.Document.Update: decoding the JSON parameters and republishing diagnostics are not modelled.
- Executor.BoundedExecutor.PostWork: posting an empty function, which the source ignores, is not modelled; tasks are numbers and carry no execution context.
- Http2Requests.Http2Session.OnFrameReceived: strings the source has moved into the finished request are taken to be empty afterwards.
- Executor.JoinedMeansDone: says nothing of an executor that never had a worker; tasks posted to one stay queued.
- Database adapters, migration SQL, command line scaffolding, auth, mail, jobs and views.
