# Verified models of the PostgreSQL/Kingbase client

This project models the protocol engine and the wire codecs of the client in Dafny and
proves properties of them. Every file is one component; `dafny verify dfyconfig.toml`
checks all of them together.

| files | what they model |
|---|---|
| `Bytes`, `Slots`, `Sequences`, `Wrappers`, `Decimals`, `Scanning` | byte buffers, big-endian integers, length-prefixed nullable values, and the list facts and text scanners the others share |
| `Backend`, `ServerMessages`, `Codec`, `Chunking` | server frames and messages, the formats a server writes them in, the decoder that cuts the byte stream into asynchronous messages and batches, and its runs over any chunking |
| `Connection`, `Answers`, `Pipelining`, `Progress`, `StreamEnd`, `WireOrder`, `Responses` | the connection task as a class, the split of a server's stream into answers, the whole-run invariants of its read and its write side, what every poll achieves, the end of the server's stream, and what a client reads out of its channel |
| `Startup` | reading the session's parameters until the server is ready, and the hand-over to the connection task |
| `CopyIn`, `BinaryCopy` | the two halves of a COPY IN, and the binary COPY writer and reader |
| `Sessions`, `Transactions` | the server's savepoint stack, the transaction handles, and the refinement of a plain stack of snapshots |
| `Types`, `MysqlTypes`, `TypeResolution` | server types, the MySQL codec aliases, and type lookup through a shared cache |
| `Frontend`, `Handshake`, `Query` | the messages the client writes, in a session and before it, with reference parsers, and the encoding of a request with its parameters |
| `Arrays`, `Ranges`, `Hstore`, `Values`, `Timestamps` | the value codecs, among them the derived encoders and decoders for nested composites, domains, enums, `Option` and `Vec` |
| `Scram` | the client's side of SCRAM-SHA-256, a server after RFC 5802, and the run between them |
| `Escape`, `ConfigParser` | SQL escaping against a model of the server's lexer, and the key-value connection strings |

Code that updates state in place is a class or a method over a buffer, proved equal to a
function of the old state; the theorems are about that function and about runs of it.
Channels are bounded queues, and a poll, an arrival of bytes, a client action or a server
action is a step that may happen in any order. Clocks, sockets and random numbers are
parameters; HMAC, SHA-256, base64 and saslprep are function values with the laws that are
needed.

Where the code does not do what is asked of it, the code is kept and the exact condition is
proved:

- A nested value reads back as itself exactly when no `Some` and no domain wraps something
  that travels as NULL (`Values.RoundTrip`; two values that do not are in
  `Values.NullIsNotRestored`).
- A savepoint name is safe exactly when every live level of that name still sees the state
  it began with (`Transactions.SafeNames`); distinct names always are. An automatic name need
  not be (`Transactions.AutomaticNameBreaks`).
- A binary COPY of 32768 or more columns is not read back, and counts that wrap to 65535
  look like the end of the data (`BinaryCopy.CopyBack`, `BinaryCopy.WrappedRowEnds`). With
  object identifiers the count itself overflows at 32767 (`BinaryCopy.OidTupleBack`).
- An escaped identifier reads back exactly when it is not empty (`Escape.IdentifierBack`).
- The least timestamp is the only one that does not survive decode and encode when overflow
  is checked (`Timestamps.DecodeEncode`).
- A stray equals sign where a key should start ends a connection string without an error and
  hides everything after it (`ConfigParser.EndsQuietly`).
- A `start_send` of COPY IN that fails drops the buffer, so data survive a call exactly if
  nothing was buffered or the call can be seen to succeed (`CopyIn.SendConserves`), and a run
  exactly if all its calls are so (`CopyIn.Conservation`; a run that loses data is in
  `CopyIn.GoneReceiverLoses`). Callers that wait for readiness lose nothing
  (`CopyIn.ContractConserves`).
- A server that closes its stream while the client is still connected makes a poll fail;
  exactly when, is `StreamEnd.FailsExactlyAtEnd`, and `StreamEnd.ClosingServerFails` is such a
  run.
- A startup message reads back exactly when no parameter has an empty name
  (`Handshake.OpeningBack`).

## Model

| member | source | states |
|---|---|---|
| Backend.ParseMessage | postgres-protocol/src/message/backend.rs:112-280 | one message leaves the buffer or, if it has not arrived completely, nothing does; a bad body still consumes its frame |
| Backend.ParseEncoded | postgres-protocol/src/message/backend.rs:112-150 | a well-formed frame at the front of any buffer is cut out exactly, whatever follows it |
| ServerMessages.SaysExactly | postgres-protocol/src/message/backend.rs:139-280 | a frame means a message if and only if it is the one the protocol's message formats give for it, for every kind of message |
| ServerMessages.WrittenBack | postgres-protocol/src/message/backend.rs:112-280 | every message a server can write is parsed back as itself, and what follows is left alone |
| Backend.CutFrames | postgres-protocol/src/message/backend.rs:43-61 | every cut of a frame stream is some whole frames and a proper prefix of the next one |
| Codec.Decode | tokio-postgres/src/codec.rs:57-97 | the loop computes the decoding function: an asynchronous message, the longest run of complete ordinary frames, nothing, or an error |
| Codec.NextBatchIsMaximal | tokio-postgres/src/codec.rs:61-96 | a batch has no asynchronous frame, contains ReadyForQuery only as its last frame, and stops only there or where it must |
| Codec.ScanFrames | tokio-postgres/src/codec.rs:61-96 | scanning encoded frames and a partial one finds exactly the next batch, flagged complete exactly if it ends in ReadyForQuery |
| Codec.DecodeFrames | tokio-postgres/src/codec.rs:57-97 | decoding bytes is decoding frames: the outcome and the bytes left are those of the frame-level function |
| Codec.DecodeNext | tokio-postgres/src/codec.rs:57-97 | of a stream still arriving, a decode takes whole frames off the front, and none only if none has arrived completely |
| Codec.BadLengthFails | tokio-postgres/src/codec.rs:61-75 | a length that does not count itself fails the decoder, also behind an incomplete batch, whose frames are not given out |
| Chunking.RunKeepsInv | tokio-postgres/src/codec.rs:57-97 | over every chunking and any polls no call fails, the messages out are those of a prefix of the frames, and output and leftover bytes make up the input |
| Chunking.StuckBuffer | tokio-postgres/src/codec.rs:65-75 | a buffer nothing is decoded from holds less than one frame |
| Chunking.SameBytesSameMessages | tokio-postgres/src/codec.rs:57-97 | two runs over the same bytes, cut and polled in any two ways, give the same messages and leave the same bytes |
| Connection.Connection.NextResponse | tokio-postgres/src/connection.rs:81-93 | a message put aside comes before the stream |
| Connection.Connection.Deliver | tokio-postgres/src/connection.rs:138-168 | a batch goes to the oldest request, is put aside when its channel is full, and is dropped when its client is gone |
| Connection.Connection.Read | tokio-postgres/src/connection.rs:95-170 | the read loop computes the read function on the whole state, of which `Progress.PollReadsOn` says how far it gets |
| Connection.Connection.NextRequest | tokio-postgres/src/connection.rs:172-193 | the copy in progress comes before the queue, and a request taken joins the outstanding ones |
| Connection.Connection.SendMessages | tokio-postgres/src/connection.rs:233-261 | a single message is sent whole; a copy sends one message and stays pending |
| Connection.Connection.Write | tokio-postgres/src/connection.rs:195-263 | the write loop computes the write function on the whole state, of which `Progress.WritePollGoesOn` says how far it gets and when it asks for a flush |
| Connection.Connection.Poll | tokio-postgres/src/connection.rs:301-325 | one poll of the connection task: read, write, then shut down |
| Answers.BatchIsOneAnswer | tokio-postgres/src/connection.rs:138-168 | a batch belongs to one answer and completes it exactly if it ends in ReadyForQuery |
| Pipelining.StepKeepsInv | tokio-postgres/src/connection.rs:81-170 | every step of the server, the network, the client and the connection task keeps the read invariant, in which `pending_responses` holds leftover notices or one batch somebody waits for |
| Pipelining.RunKeepsInv | tokio-postgres/src/connection.rs:81-170 | the invariant holds in every reachable state |
| Pipelining.HowFarIsUnique | tokio-postgres/src/connection.rs:81-118 | what the connection has processed, put aside and not yet decoded is determined by its state, the frames sent and the bytes in flight |
| Pipelining.PipeliningSafety | tokio-postgres/src/connection.rs:95-170 | in every reachable state request i has been given an in-order prefix of exactly the i-th answer, and, if its client still listens, exactly the part of it in the frames the connection has processed |
| Pipelining.NothingLost | tokio-postgres/src/connection.rs:81-118 | processed frames, the batch put aside, buffered bytes and bytes in flight are everything the server sent; notices surface in order after the startup's |
| Pipelining.FailsOnlyAtEnd | tokio-postgres/src/connection.rs:95-118 | a poll fails only after the server closed and every frame that arrived whole was processed, with an error that tells whether a frame was cut; clients that listen then have all of their answer that arrived |
| Progress.PollReadsOn | tokio-postgres/src/connection.rs:95-170 | in every reachable active state a poll that does not fail returns the first notice or notification not surfaced yet, having processed everything up to it, or stops with a batch that finds no room at a listening client or with less than a whole frame left |
| Progress.WritePollGoesOn | tokio-postgres/src/connection.rs:195-263 | a write poll asks for a flush exactly if it stops for want of anything to write: no queued request, or a copy waiting for data; otherwise it closes or makes as many turns as the socket allows |
| Progress.PollWritesOn | tokio-postgres/src/connection.rs:195-263 | in every reachable state a poll that does not fail writes until nothing is left to write or the connection closes, within a bound counted from queue and copies, and finishes exactly when closing on a shut socket without a message |
| Progress.QueuedSinglesAreWritten | tokio-postgres/src/connection.rs:195-263 | queued single messages are all accepted and on the wire in order after one poll the socket keeps up with, and Terminate behind them exactly if the client is gone and nothing is outstanding |
| StreamEnd.FailsExactlyAtEnd | tokio-postgres/src/connection.rs:95-170 | in every reachable state a poll fails if and only if the connection is active, the stream has ended, no notice or notification is left to surface, and each listening client's channel has room for all batches left for it |
| StreamEnd.DrainsIfRoom | tokio-postgres/src/connection.rs:95-170 | frames are read without a stop if and only if all their asynchronous ones are parameters and every batch of every answer finds its place |
| StreamEnd.ClosingServerFails | tokio-postgres/src/connection.rs:101-109 | a server that closes on an idle client makes the next poll fail |
| WireOrder.WireIsRequestsInOrder | tokio-postgres/src/connection.rs:172-263 | in every reachable state the wire is the accepted requests' messages in queue order, each copy's messages together, and then Terminate exactly when closing |
| WireOrder.TerminateIsLast | tokio-postgres/src/connection.rs:211-219 | Terminate is written only after the client channel is closed and empty, no request is outstanding, and the frames the connection has processed hold every accepted request's ReadyForQuery |
| WireOrder.NothingAfterTerminate | tokio-postgres/src/connection.rs:196-200 | once closing, no run writes anything more |
| WireOrder.StepExtendsWire | tokio-postgres/src/connection.rs:195-263 | no step takes anything back from the wire or from the accepted requests |
| Responses.Responses.Poll | tokio-postgres/src/client.rs:47-60 | the loop takes messages out of the batch and batches out of the channel as the polling function says |
| Responses.ClientReadsItsAnswer | tokio-postgres/src/client.rs:47-60 | over every run, what the client of request i gets by polling is an in-order prefix of the messages of the i-th answer, the server's errors as errors; the next poll gives the next one, and only when it has all that was processed does it find nothing, or the end once the connection let go |
| Startup.StartupStream.NextMessage | tokio-postgres/src/connect_raw.rs:61-80 | the startup stream gives the frames one by one, batched ones first; nothing only if no whole frame has arrived, the end only where the server's stream ends, an error if that is inside a frame; after ReadyForQuery its buffer is empty |
| Startup.StartupStream.ReadInfo | tokio-postgres/src/connect_raw.rs:336-368 | the loop has the outcome of reading the frames in order, waiting for more or failing where the stream ends, and when done leaves the buffer empty and the rest of the stream whole |
| Startup.GatheredInOrder | tokio-postgres/src/connect_raw.rs:346-366 | when done, exactly the frames up to the first ReadyForQuery were read, their notices delayed in order, their parameters recorded, and process id and key are those of the last BackendKeyData |
| Startup.FirstOtherDecides | tokio-postgres/src/connect_raw.rs:346-366 | the first frame that is no key, parameter or notice decides: success at ReadyForQuery, the server's error, an unexpected message, or a frame that does not parse |
| Startup.HandOver | tokio-postgres/src/connect_raw.rs:112-124 | a connection built from the framed stream and the delayed notices starts as the pipelining theorems need, with no frame and no notice lost, also when the stream is in the middle of a frame |
| Startup.ConnectRaw | tokio-postgres/src/connect_raw.rs:114-126 | reading the parameters either ends as the frames say or leaves a new connection in exactly the state runs start from |
| Startup.WholeSession | tokio-postgres/src/connect_raw.rs:114-126 | over startup and every run after it: the startup reads up to the first ReadyForQuery, request i is given a prefix of the answer after it at its place and all of it processed, and parameters and surfaced notices are those of all frames processed since the first |
| CopyIn.CopyInReceiver.PollNext | tokio-postgres/src/copy_in.rs:38-64 | each poll emits one queued message, the end pair, the failure pair, or nothing, as the receiver function says |
| CopyIn.CopyInSink.Send | tokio-postgres/src/copy_in.rs:146-168 | small items gather in the buffer, large ones take the buffer with them |
| CopyIn.CopyInSink.Flush | tokio-postgres/src/copy_in.rs:170-184 | a flush sends the buffer when the channel is ready |
| CopyIn.CopyInSink.Finish | tokio-postgres/src/copy_in.rs:93-126 | finishing flushes, marks the end and closes the channel, then reads the server's answer, one state after the other |
| CopyIn.SendFails | tokio-postgres/src/copy_in.rs:146-168 | a send fails exactly when its data must leave the buffer and cannot be framed, or the channel is full or its receiver gone |
| CopyIn.SendConserves | tokio-postgres/src/copy_in.rs:146-168 | a send keeps the data, and adds the item if it reports success, if and only if it was guarded: nothing buffered, or the item can be framed with the buffer and still fits in it or the channel can take it |
| CopyIn.Conservation | tokio-postgres/src/copy_in.rs:93-184 | in every legal run, whatever calls fail and whoever goes away, the data sent and the sink's buffer are the accepted items concatenated if and only if every send was guarded; the end mark enters once, last, with an empty buffer |
| CopyIn.ContractConserves | tokio-postgres/src/copy_in.rs:139-168 | a caller that sends only while `poll_ready` gives readiness, items that can be framed, loses nothing |
| CopyIn.GoneReceiverLoses | tokio-postgres/src/copy_in.rs:146-168 | a run in which the connection goes away and an accepted item is lost |
| CopyIn.EmittedInOrder | tokio-postgres/src/copy_in.rs:38-64 | in every legal run the receiver has emitted the first messages that entered the channel, in order, the request first |
| CopyIn.TerminalPair | tokio-postgres/src/copy_in.rs:43-61 | in every legal run a finished receiver emitted all messages that entered and exactly one terminal pair: CopyDone and Sync if the end mark came, CopyFail and Sync if it did not; the data are all accepted exactly if every send was guarded |
| CopyIn.ServerReadsTheCopy | tokio-postgres/src/copy_in.rs:38-64 | in every legal run what a finished receiver emitted behind the request is read by the server as the data messages in order and one end, CopyDone and Sync or CopyFail and Sync |
| CopyIn.FinishCompletes | tokio-postgres/src/copy_in.rs:93-126 | finishing a sink whose channel has room sends the buffer and the end mark, closes the channel and gives the server's answer |
| CopyIn.NothingAfterTerminal | tokio-postgres/src/copy_in.rs:41-45 | after the terminal pair no run emits anything |
| Transactions.ExactlyOneClose | tokio-postgres/src/transaction.rs:33-75 | over any life, cancelled at any point, a handle sends exactly one close: the commit if a commit future was polled, else the rollback |
| Transactions.Transaction.PollClose | tokio-postgres/src/transaction.rs:53-75 | the first poll sets `done` and sends the close |
| Transactions.Transaction.Drop | tokio-postgres/src/transaction.rs:33-42 | a drop sends a rollback exactly if nothing was sent before |
| Transactions.Transaction.Nest | tokio-postgres/src/transaction.rs:331-342 | a nested level sends one SAVEPOINT and yields a handle one deeper only on success |
| Transactions.Start | tokio-postgres/src/transaction_builder.rs:65-139 | every START TRANSACTION that yields no handle is followed at once by a ROLLBACK |
| Transactions.StartQuery | tokio-postgres/src/transaction_builder.rs:66-107 | the text is the chosen modes joined by commas, and a server reads the chosen options out of it |
| Transactions.StartIsUnderstood | tokio-postgres/src/transaction_builder.rs:66-107 | a reader of the grammar of transaction modes, word by word, recovers the options |
| Transactions.StartReadsBack | tokio-postgres/src/transaction_builder.rs:66-107 | splitting the text gives back the modes, and the modes determine the options |
| Transactions.StepKeeps | tokio-postgres/src/transaction.rs:33-75 | every begin, nest, commit, rollback, drop, cancellation and failing statement keeps server and plain stack in agreement |
| Transactions.RefinesPlainStack | tokio-postgres/src/transaction.rs:33-75 | every run from an idle session behaves as a plain stack of snapshots, despite stale savepoints of the same name |
| Transactions.SafeNames | tokio-postgres/src/transaction.rs:331-342 | a chosen savepoint name is safe over all continuations if and only if every live level of that name is unchanged since it began |
| Transactions.AutomaticNamesRefine | tokio-postgres/src/transaction.rs:332-333 | with automatic names alone the refinement holds without any condition |
| Transactions.AutomaticNameBreaks | tokio-postgres/src/transaction.rs:331-342 | a run of legal actions after which the next automatic name equals one the user chose and leads to a wrong rollback |
| TypeResolution.InnerClient.GetType | tokio-postgres/src/prepare.rs:171-230 | the lookup ends, in any mode, with exactly the type the catalog describes under the OID or its error, whatever other lookups and clears do to the cache at every wait, and keeps the cache coherent |
| TypeResolution.DenotesWhatIsDescribed | tokio-postgres/src/prepare.rs:171-230 | a lookup gives a type if and only if the finished type tree has, node by node, the name, schema and kind its row calls for: labels, base, element, attributes in order, subtype |
| TypeResolution.InnerClient.GetCompositeFields | tokio-postgres/src/prepare.rs:283-300 | the fields in attribute order, up to the first that cannot be resolved |
| TypeResolution.InnerClient.SetType | tokio-postgres/src/client.rs:177-187 | the only store into the cache is of a type its OID denotes |
| TypeResolution.InnerClient.Prepare | tokio-postgres/src/prepare.rs:68-146 | a prepared statement's parameter and column types are those the catalog describes, with the codec aliases in MySQL mode only |
| TypeResolution.DenotationIsUnique | tokio-postgres/src/prepare.rs:171-230 | the denotation does not depend on the ranking that bounds the recursion |
| TypeResolution.FailsExactlyWhenDangling | tokio-postgres/src/prepare.rs:185-189 | a lookup fails if and only if a chain of references leads to a missing row |
| MysqlTypes.DomainAliasIsBase | tokio-postgres/src/kingbase/mysql_types.rs:118-180 | a domain's parameter alias is the type the domain ultimately stands for |
| MysqlTypes.SimpleAliasIsMeaning | tokio-postgres/src/kingbase/mysql_types.rs:73-180 | a simple type is read and written under the type its name means |
| Frontend.FinishBody | postgres-protocol/src/message/frontend.rs:13-26 | the patched length counts the body, or the message is too large |
| Frontend.WriteCounted | postgres-protocol/src/message/frontend.rs:95-112 | the patched count is the number of items, or there are too many |
| Frontend.WriteBind | postgres-protocol/src/message/frontend.rs:48-93 | a Bind is appended exactly when it is encodable |
| Frontend.MessageBack | postgres-protocol/src/message/frontend.rs:48-290 | every encodable message of a session (those with a tag, other than the replies to an authentication request) is read back as itself by a parser of the protocol's formats |
| Frontend.StreamBack | postgres-protocol/src/message/frontend.rs:48-290 | a stream of those messages is read back as exactly those messages |
| Handshake.WriteStartup | postgres-protocol/src/message/frontend.rs:257-271 | a startup message is appended exactly when no name or value holds a NUL and the length fits |
| Handshake.OpeningBack | postgres-protocol/src/message/frontend.rs:248-271 | the untagged openings (startup, cancel request, SSL request) are read back as themselves, whatever follows, if and only if no startup parameter has an empty name |
| Handshake.ReplyBack | postgres-protocol/src/message/frontend.rs:215-245 | password, SASL initial and SASL responses are read back as themselves by a server that asked for them |
| Query.InnerClient.EncodeParams | tokio-postgres/src/query.rs:419-462 | each parameter travels under its own type if that encodes it, under its alias only after a wrong type, and the first that can do neither is reported |
| Query.InnerClient.EncodeRequest | tokio-postgres/src/query.rs:314-326 | a request reads back as a Bind with each parameter's format and value chosen by that rule, Execute and Sync; it is refused as the rule tells; the shared buffer is empty either way |
| Query.InnerClient.EncodePrepare | tokio-postgres/src/prepare.rs:156-169 | Parse, Describe, Sync, with the buffer empty afterwards |
| Query.InnerClient.EncodeQuery | tokio-postgres/src/simple_query.rs:64-69 | one Query message, with the buffer empty afterwards |
| Slots.WriteNullable | postgres-protocol/src/lib.rs:39-53 | a value behind its patched length, or -1 for NULL, or a failure when it is too long |
| Slots.ReadSlotBack | postgres-types/src/private.rs:5-33 | a slot at the front of any bytes is read back with the bytes after it |
| Slots.ReadSlotExactly | postgres-types/src/private.rs:5-33 | a slot is read exactly where the bytes begin with it, any negative length being NULL |
| Arrays.ArrayToSql | postgres-protocol/src/types/mod.rs:460-505 | the array's wire form with patched count and null flag, exactly when everything fits |
| Arrays.ArrayFromSql | postgres-protocol/src/types/mod.rs:509-542 | the header loop computes the header function |
| Arrays.ArrayValues.Next | postgres-protocol/src/types/mod.rs:624-651 | each element given is the first of what was left |
| Arrays.CollectExactly | postgres-protocol/src/types/mod.rs:624-651 | the elements are read if and only if the bytes are exactly so many of them |
| Arrays.ViewInRange | postgres-protocol/src/types/mod.rs:551-582 | after any successful header, dimensions and values slice in range and the values are exactly as many as counted, or an error |
| Arrays.ArrayBack | postgres-protocol/src/types/mod.rs:460-542 | an array decodes to its dimensions, flag, type and elements if and only if the leading products of its dimensions fit |
| Ranges.RangeToSql | postgres-protocol/src/types/mod.rs:666-732 | the flags and the bounds there are, with a bound found missing cut off again |
| Ranges.RangeBack | postgres-protocol/src/types/mod.rs:666-784 | every range with every kind of bound, NULL bounds included, decodes as itself |
| Ranges.RangeExactly | postgres-protocol/src/types/mod.rs:735-784 | bytes are read as a range if and only if they hold it and nothing else |
| Hstore.HstoreToSql | postgres-protocol/src/types/mod.rs:195-230 | the patched count and the entries, exactly when everything fits |
| Hstore.HstoreEntries.Next | postgres-protocol/src/types/mod.rs:254-292 | each entry given is the first of what was left |
| Hstore.HstoreBack | postgres-protocol/src/types/mod.rs:195-292 | every list of keys and optional values decodes as itself |
| Hstore.HstoreExactly | postgres-protocol/src/types/mod.rs:233-292 | bytes are read as entries if and only if they are their count, these entries and nothing else |
| Values.ReadsWhatItWrites | postgres-derive/src/accepts.rs:17-101 | a type accepted for writing is accepted for reading |
| Values.ToSql | postgres-derive/src/tosql.rs:143-212 | the recursive encoder appends exactly the value's bytes, or tells NULL and appends nothing, and never touches the bytes before |
| Values.FieldsToSql | postgres-derive/src/tosql.rs:183-208 | each field in the server's order is found by name and put behind its OID and patched length |
| Values.VecToSql | postgres-types/src/lib.rs:1001-1030 | a one-dimensional array with the lower bound its type asks for |
| Values.VecIsOneDimensional | postgres-types/src/lib.rs:1001-1030 | a `Vec` travels as one dimension of its length, even when empty, from index 1, or 0 for the two vector types |
| Values.FromSql | postgres-derive/src/fromsql.rs:147-237 | the recursive decoder computes the decoding function, panics included |
| Values.CompositeFromSql | postgres-derive/src/fromsql.rs:195-235 | the cursor and the temporaries give the composite that the decoding function gives |
| Values.UnwrapNeverFails | postgres-derive/src/fromsql.rs:206-235 | once all fields decoded, the final unwraps succeed if and only if the server's field names are distinct |
| Values.NeverPanics | postgres-derive/src/fromsql.rs:147-237 | under an accepted type, whatever bytes arrive, decoding gives a value or an error |
| Values.DecodedIsTyped | postgres-derive/src/fromsql.rs:195-235 | what decodes has the length, label or, for composites, the field count and the OID of every field that its type asks for |
| Values.RoundTrip | postgres-derive/src/tosql.rs:143-212 | any value of any nested type that encodes is decoded as itself if and only if it is null-faithful |
| Values.NullIsNotRestored | postgres-derive/src/tosql.rs:143-212 | `Some(None)` of a nullable nullable reads back as `None`, and a domain over NULL as an error |
| Timestamps.FromSql | postgres-types/src/lib.rs:794-813 | the instant lies exactly so many microseconds from the day, before or after |
| Timestamps.ToSql | postgres-types/src/lib.rs:1241-1255 | whole microseconds towards the day, with the code's wrapping and overflow |
| Timestamps.DecodeEncode | postgres-types/src/lib.rs:794-813 | decode then encode is the identity if and only if the count is not the least one |
| Timestamps.EncodeTruncates | postgres-types/src/lib.rs:1241-1255 | encoding truncates towards the day if and only if the truncated count fits |
| Timestamps.TruncationIsClose | postgres-types/src/lib.rs:1241-1255 | truncation loses less than a microsecond and stays on its side of the day |
| Timestamps.EncodeIsMonotone | postgres-types/src/lib.rs:1241-1255 | later instants never get earlier timestamps |
| BinaryCopy.BinaryCopyInWriter.WriteRaw | tokio-postgres/src/binary_copy.rs:61-99 | a row is added to what was written, flushed or not; a row that fails leaves only its own beginning behind |
| BinaryCopy.BinaryCopyInWriter.Finish | tokio-postgres/src/binary_copy.rs:104-110 | the chunks sent concatenate to the file whatever the flush points were |
| BinaryCopy.BinaryCopyOutStream.PollNext | tokio-postgres/src/binary_copy.rs:141-212 | each chunk is read as the chunk function says |
| BinaryCopy.RowInBounds | tokio-postgres/src/binary_copy.rs:189-206 | whatever chunk arrives, a row's ranges lie in it, disjoint and increasing |
| BinaryCopy.ColumnsOnly | tokio-postgres/src/binary_copy.rs:189-206 | columns that are read are values written one after the other, NULL only as -1 |
| BinaryCopy.CopyBack | tokio-postgres/src/binary_copy.rs:61-212 | every list of rows is read back as itself if and only if the column count fits in an i16 or there are no rows |
| BinaryCopy.WrappedRowEnds | tokio-postgres/src/binary_copy.rs:175-179 | a count that wraps to -1 reads as the end |
| BinaryCopy.OidTupleBack | tokio-postgres/src/binary_copy.rs:175-189 | a tuple with an object identifier in front is read back if and only if its fields, the identifier included, fit in an i16, with overflow checked or not |
| BinaryCopy.ChunksAreTheFile | tokio-postgres/src/binary_copy.rs:34-110 | the chunks read are the writer's file cut in another way |
| Scram.ComputeHi | postgres-protocol/src/authentication/sasl.rs:38-58 | the loop computes Hi of RFC 5802 section 2.2, with at least one round |
| Scram.ScramSha256.Update | postgres-protocol/src/authentication/sasl.rs:175-244 | the first state answers as RFC 5802 asks or fails; the state is used up either way |
| Scram.ScramSha256.Finish | postgres-protocol/src/authentication/sasl.rs:249-286 | accepts exactly the base64 of the server signature over the exchange |
| Scram.ServerFirstMessage | postgres-protocol/src/authentication/sasl.rs:378-391 | the parser computes the reading function of the server's first message |
| Scram.ScramSha256Salt | postgres-protocol/src/password/mod.rs:39-90 | prints the verifier of the secret that RFC 5802 derives from the password |
| Scram.HonestRun | postgres-protocol/src/authentication/sasl.rs:175-286 | for every password, salt, count, binding and extended nonce, the server accepts the proof and the client accepts the signature |
| Scram.HonestRunFromVerifier | postgres-protocol/src/password/mod.rs:39-90 | the same with the secret read out of the printed verifier |
| Scram.AnswersOnlyItsNonce | postgres-protocol/src/authentication/sasl.rs:186-199 | the client answers a server if and only if its message is well-formed, extends the client's nonce and has a base64 salt, and repeats that nonce |
| Scram.AcceptsOnlyTheSignature | postgres-protocol/src/authentication/sasl.rs:249-286 | authentication ends well if and only if the last message is the base64 of the server signature |
| Scram.FinishOnlyAfterUpdate | postgres-protocol/src/authentication/sasl.rs:249-257 | authentication succeeds only as the second call, right after one successful update |
| Escape.EscapeInternal | postgres-protocol/src/escape/mod.rs:34-93 | both paths give the escaped text, whose UTF-8 length is the computed size minus one |
| Escape.NothingDoubled | postgres-protocol/src/escape/mod.rs:79-88 | the fast path is the doubling path |
| Escape.LiteralBack | postgres-protocol/src/escape/mod.rs:16-18 | lexing a literal gives the input and stops at its end, under both settings, if and only if the text after it does not continue the constant |
| Escape.IdentifierBack | postgres-protocol/src/escape/mod.rs:21-23 | the same for identifiers, which must not be empty |
| ConfigParser.Parse | tokio-postgres/src/config.rs:831-845 | the loop ends and returns the pairs the reading function gives, up to the first error of the text or of `Config::param` |
| ConfigParser.Parameter | tokio-postgres/src/config.rs:963-976 | one parameter: key, equals sign, bare or quoted value, with white space between |
| ConfigParser.ParseBack | tokio-postgres/src/config.rs:831-976 | every list of pairs, printed quoted or bare with any white space, parses back as that list if `Config::param` accepts each pair, and is rejected if it does not |
| ConfigParser.Malformed | tokio-postgres/src/config.rs:852-976 | a missing value, a missing or misplaced equals sign and an unclosed quote are refused with their errors |
| ConfigParser.EndsQuietly | tokio-postgres/src/config.rs:893-901 | a string ends without error exactly at its end or where an equals sign stands in place of a key |

## Left out

- Sockets, TLS, name lookup, timeouts, wakers and scheduling: a poll is a step that may happen at any time, and the socket takes a budgeted number of messages for each poll.
- Contents of error and notice messages, and UTF-8 checks on text: kept as the bytes that travel; text values are assumed to be what they decode to.
- Channels between the client and the connection task: held as values in its state, not as shared heap objects.
- A COPY IN that the server rejects before it starts: two Syncs then travel for one request, and the answers no longer match by position.
- The cursor that walks one message body: the remaining bytes are passed along instead.
- Replies that interpret rows, tags and portals (`RowStream`, `extract_row_affected`, the query methods of `Client`): they read the messages that `Responses` delivers.
- Authentication other than SCRAM, and the choice of its mechanism: straight-line exchanges.
- Contents of the `e=` error of a SCRAM server: only that `finish` then fails.
- Savepoint names are compared as written; the server's folding of unquoted identifiers and names it rejects are not modelled.
- A transaction handle that is leaked rather than dropped sends nothing.
- Statements that cannot be encoded (a NUL inside, or too long for a message): the transaction model takes names that can be.
- Connection.Connection.Read: does not model the errors of parsing what is inside a notice or a notification, because those contents are kept as bytes.
- Connection.Connection.Write: does not model a socket that fails: it only stops taking messages.
- Connection.Connection.Poll: the same for flushing and closing the socket; a poll that fails on the socket is the last one, and the theorems hold of the run before it.
- TypeResolution.InnerClient.GetType: does not model catalog queries that fail, nor the fallback queries for servers without range types or enum order, which read the same catalog.
- TypeResolution.InnerClient.Prepare: does not model unexpected messages in the exchange, which fail the call before anything is resolved.
- Hstore.HstoreEntries.Next: does not model the UTF-8 errors of keys and values, which are any bytes here.
- Leaf types other than `int4`, text and `bytea`, and arrays of fixed length: fixed-width copies of the same pattern.
- `#[postgres(transparent)]` derives: they delegate to the type they wrap.
- Values.RoundTrip: text is any bytes, so the UTF-8 error of text decoding is not modelled.
- Timestamps: the eight bytes of the count itself are a plain big-endian copy and left out.
- BinaryCopy.BinaryCopyInWriter.Finish: does not model a sink that fails, nor the answer its own finish reads (`CopyIn.CopyInSink.Finish` does).
- BinaryCopy.BinaryCopyInWriter.WriteRaw: does not model a sink that fails; after a failed row the buffer holds its beginning, and a caller that goes on anyway sends it; the file theorem covers runs without a failed row.
- Numeric escapes and comments between continued constants in the server's lexer: an escaped text contains neither.
- The URL form of connection strings, and which keys and values `Config` accepts: a parameter.
- Varbit, path, inet, geometric and third-party values: fixed layouts without nesting.
