# Verified core of an HTTP mock server

A Dafny model of the parts of an asynchronous HTTP/1 and HTTP/2 mock server where most of its state, branching
and arithmetic is, with proofs of what they promise:

- **The protobuf core**: the coalesced-chain hash table (`HashTable.dfy`), varints (`Varint.dfy`), skipping of
  nested wire values (`Wire.dfy`) and the name table with its cache (`NameTable.dfy`).
- **The connection** as a step machine over read and write completions, posted calls and responses that arrive
  between them: what `on_write` takes (`Handlers.dfy`), the machine (`Protocol.dfy`), theorems over all runs
  (`Runs.dfy`), what comes in and what is delivered (`Offers.dfy`), the classes that implement the steps (`Connection.dfy`), and a response's own life
  (`Responses.dfy`).
- **The best-fit matcher**: ordered sets (`OrderedSets.dfy`), the two orders (`Rules.dfy`), numbering, memory and
  choice (`Matcher.dfy`), the classes (`MatchServer.dfy`) and the weighted choice of a response (`Selection.dfy`).
- **Paths and routing**: cleaning against section 5.2.4 of RFC 3986 (`Paths.dfy`), the same in its buffer
  (`PathJoin.dfy`), percent-encoding (`Percent.dfy`) and the multiplexer (`Mux.dfy`).
- **Storage and parsing**: chunked byte queues over a recycling pool (`ChunkLists.dfy`, `Memchunks.dfy`), the block
  allocator (`Regions.dfy`, `BlockAllocator.dfy`) and the URL parser: its machines (`UrlGrammar.dfy`), its scans
  (`UrlScans.dfy`), what the machines read as texts (`UrlOutlines.dfy`, `ServerOutlines.dfy`), the forms of a URL
  (`UrlForms.dfy`) and the whole (`UrlParser.dfy`).

Code that changes state in place is modelled by classes and methods, each proved against a function on values; the
theorems are about those functions. `dafny verify dfyconfig.toml` checks the project.

What is outside comes in as parameters: memory the system grants (`limit`, `base`), the chunks an HTTP/2 session
produces and the moment it fails, the answers of `should_stop`, regular expressions and JSON lookups, the order in
which a map is visited, random draws.

Some promises turn out to hold only under a condition. Each of these has a lemma or contract with the
condition, exact but for the choice of a service, and one at a concrete input:

- Key 0 appears in the hash table with the first rehash: `HashTable.StandsZero`, `HashTable.KeyZeroAppears`.
- Cleaning a path twice can differ from cleaning it once: `Paths.CleanTwice`, `Paths.CleanNotIdempotent`.
- So a redirect can be followed by a second one: `Mux.RedirectedAgain`, `Mux.RedirectedTwice`.
- Rules whose concatenated keys coincide share an answer: `Matcher.MemoExact`, `Matcher.WrongAnswer`. A message can
  then be given no service although one matches: `Matcher.PickedIsChosen`, `Matcher.WrongChoice`.
- Closing a stream without a response can strand the next one: `Runs.CloseAwake`, `Runs.StrandedByClose`.
- A handler registered in place of an implicit redirect is reported as accepted but not installed:
  `Mux.ServeMux.Handle`, `Mux.OrderMatters`, `Mux.AcceptedNotInstalled`.
- `hex_to_uint` is documented to return 256 for every character that is not a hexadecimal digit, and does so only
  above `z`; the decoder asks it about digits only: `Percent.NotHexGets256`, `Percent.HexPromiseFails`.

## Model

| member | source | states |
|---|---|---|
| `HashTable.MaskedProduct` | pb.h:860-864 | the multiplicative hash, masked by the size and moved off slot 0 for nonzero keys, lies in 1..size-1; the proofs use no more of a hash than that |
| `HashTable.PlacedLinked` | pb.h:866-895 | putting a key in its empty main slot keeps every chain acyclic, complete and unforked |
| `HashTable.DisplacedLinked` | pb.h:879-883 | moving a foreign entry out of a main slot and relinking its predecessor keeps every chain acyclic, complete and unforked |
| `HashTable.AppendedLinked` | pb.h:884-889 | linking a key directly behind its main slot keeps every chain acyclic, complete and unforked |
| `HashTable.DisplacedContents` | pb.h:879-894 | the displacement changes no other key's payload and adds exactly the new key |
| `HashTable.Table.Get` | pb.h:920-931 | a nonzero key is found exactly when it is in the table, with its payload; key 0 exactly when the flag is set; the chain walk terminates |
| `HashTable.Table.FindFree` | pb.h:873-878 | the downward cursor gives a free slot, or shows that every slot but slot 0 is in use |
| `HashTable.Table.Predecessor` | pb.h:880 | the walk from the displaced entry's own main slot reaches its predecessor |
| `HashTable.Table.Displace` | pb.h:879-883 | the slots after the displacement stand for the old pairs and the new key |
| `HashTable.Table.Append` | pb.h:884-889 | the slots after the append stand for the old pairs and the new key |
| `HashTable.Table.NewKey` | pb.h:866-895 | insertion adds the key with a zero payload and keeps all others; it fails only when the table can grow no further, and with room left it neither fails nor rehashes, so the recursion through the rehash is bounded |
| `HashTable.Table.Resize` | pb.h:897-918 | a rehash keeps all pairs, gives the doubled size, and sets the zero flag of a table that was not empty; 0 means the limit or the allocator forbids it |
| `HashTable.Table.Rehashed` | pb.h:909-914 | re-inserting every slot in order, empty ones as key 0, never runs out of free slots |
| `HashTable.Table.Set` | pb.h:933-938 | the slot of the key, inserted if new; every other pair is unchanged. It fails only for a key that is not there, when every slot but slot 0 is in use or there are none, and the next size is not to be had; a table that grows exactly doubles |
| `HashTable.Table.Insert` | pb.h:933-938 | a table that stands for a map stands for the updated map after a `pb_settable` and a payload write, and for the same map when that is refused, which happens only in a full table that cannot double |
| `HashTable.StandsZero` | pb.h:909-914 | key 0 is found exactly when it was inserted or at least eight other keys are present, because the first rehash brings it in |
| `HashTable.InsertAll` | pb.h:854-938 | after any sequence of insertions the nonzero keys are exactly the inserted ones with their last payloads, across displacement, relinking and doubling. None is refused exactly when some size that is to be had exceeds the number of nonzero keys; the size is at most twice that number; the exact condition for key 0 |
| `HashTable.GrowsTo` | pb.h:897-908 | exactly when a table cannot grow, and that otherwise it doubles |
| `HashTable.KeyZeroAppears` | pb.h:909-914 | a table in which the keys 1 to 8 have been inserted, and no other, has its zero flag set, and a lookup finds key 0 in slot 0 |
| `Varint.ReadEncoded` | pb.h:688-715 | the encoding of a value below 2^64, followed by any bytes, reads back as the value with its exact length, at most 10 bytes (5 below 2^32) |
| `Varint.EncodeShape` | pb.h:688-715 | an encoding has continuation bits on all bytes but the last, and its base-128 value is the number |
| `Varint.ReadSlow` | pb.h:409-423 | the bounds-checked loop computes the arithmetic value modulo 2^64 and moves the cursor by the exact length, or fails with the cursor restored |
| `Varint.Quad` | pb.h:425-444 | four unrolled lines with their subtract-later trick compute the value of up to four bytes without wrapping |
| `Varint.Unrolled32` | pb.h:425-444 | the unrolled 32-bit reader agrees with the arithmetic definition modulo 2^32 and reads no byte past the end |
| `Varint.Unrolled64` | pb.h:446-464 | the three-accumulator 64-bit reader agrees with the arithmetic definition modulo 2^64 and reads no byte past the end |
| `Varint.ReadVarint32` | pb.h:473-483 | fast path, unrolled path and slow path all give the arithmetic value modulo 2^32 |
| `Varint.ReadVarint64` | pb.h:485-491 | fast path, unrolled path and slow path all give the arithmetic value modulo 2^64 |
| `Varint.Write32` | pb.h:688-698 | writes exactly the encoding and no other byte |
| `Varint.Write64` | pb.h:700-715 | writes exactly the encoding and no other byte |
| `Wire.SkipComplete` | pb.h:565-579 | every well-formed value, with groups nested to any depth, is skipped exactly, whatever follows it |
| `Wire.SkippedKinds` | pb.h:565-579 | the low three bits of the key decide: 0 a varint, 1 eight bytes, 2 a length and its bytes, 3 a group, 5 four bytes, the others nothing |
| `Wire.GroupComplete` | pb.h:545-563 | the fields of a group and its matching end key are consumed exactly |
| `Wire.SkipSound` | pb.h:565-579 | whatever is skipped is the encoding of a well-formed value for the key |
| `Wire.GroupSound` | pb.h:545-563 | whatever is read as a group is a sequence of well-formed fields and an end key with the group's number |
| `Wire.SkipVarint` | pb.h:581-587 | advances over one varint or leaves the cursor |
| `Wire.SkipBytes` | pb.h:589-599 | advances over a length and that many bytes, or restores the cursor |
| `Wire.SkipSlice` | pb.h:601-605 | advances inside the slice or leaves the cursor |
| `Wire.SkipValue` | pb.h:565-579 | advances by the length the grammar gives, or restores the cursor; the mutual recursion terminates |
| `Wire.ReadGroup` | pb.h:545-563 | advances over the whole group and returns where its closing key begins, or restores the cursor |
| `NameTable.NewNames` | pb.h:961-989 | an empty table under the library's own string hash |
| `NameTable.Names.Get` | pb.h:1050-1061 | finds an entry exactly when the name is interned and the given hash is its hash |
| `NameTable.Names.Lookup` | pb.h:1088-1108 | whatever the two-way cache holds, including hashes of strings that used to be at the address, the answer is that of an uncached lookup; the cache then has the right hash and no other row changes |
| `NameTable.Names.Resize` | pb.h:991-1014 | moving all entries into the larger table keeps every name and count; it fails exactly when the size limit or the allocator forbids that size |
| `NameTable.Names.Add` | pb.h:1016-1033 | adds exactly one name with no references, exactly when its memory is granted and there are fewer names than buckets or the table can double; otherwise no name changes |
| `NameTable.Names.Use` | pb.h:964-965 | one more reference below 65535, counted in 16 bits; nothing else changes |
| `NameTable.Names.Intern` | pb.h:1071-1086 | succeeds exactly when the name is there or can be added; then a new name has one reference and another one more, below 65535; otherwise nothing changed |
| `NameTable.Names.Delete` | pb.h:1035-1069 | one reference less; with the last one exactly this name disappears |
| `ChunkLists.ReusedThreaded` | memchunk.h:93-108 | taking the first free chunk and linking it behind a queue keeps the partition of the chunks into the free list and the queues, with correct links |
| `ChunkLists.MadeThreaded` | memchunk.h:104-107 | so does making a new chunk |
| `ChunkLists.RecycledThreaded` | memchunk.h:109-114 | so does returning the first chunk of a queue to the free list |
| `ChunkLists.SplicedThreaded` | memchunk.h:319-346 | so does linking one queue's chunks behind another's |
| `Memchunks.Store.Extend` | memchunk.h:93-108 | `Pool::get` and the linking of the chunk: contents, counts and all other queues are unchanged |
| `Memchunks.Store.Append` | memchunk.h:190-221 | the queue's bytes are the old ones followed by the data; other queues keep their chunks and bytes; no linked chunk is empty |
| `Memchunks.Store.Release` | memchunk.h:109-114 | recycling an empty first chunk keeps all contents and the exact pool and free-list sizes |
| `Memchunks.Store.Remove` | memchunk.h:248-283 | the bytes returned are the longest prefix of at most count bytes, and the queue loses exactly those |
| `Memchunks.Store.RemoveTo` | memchunk.h:284-318 | at most count bytes move from the front of one queue to the end of another, in order |
| `Memchunks.Store.Splice` | memchunk.h:319-346 | all bytes move to the end of the other queue by relinking, and the length is returned |
| `Memchunks.Store.Copy` | memchunk.h:238-247 | the other queue gains all bytes of this one, which is unchanged |
| `Memchunks.Store.Drain` | memchunk.h:347-372 | the queue loses the first count bytes, or all it has, and the number lost is returned |
| `Paths.WalkFollowsRfc` | http2.cc:1958-2000 | from any place in the path, the loop gives what section 5.2.4 of RFC 3986 gives for the rest of the path without the slashes that the loop skips |
| `Paths.CleanFollowsRfc` | http2.cc:1903-2008 | for every path, the result with an empty base is remove_dot_segments of the path without the skipped slashes |
| `Paths.CleanIsRfc` | http2.cc:1903-2008 | for every path without adjacent slashes, the result is remove_dot_segments of the rooted path itself |
| `Paths.CleanTidy` | http2.cc:1903-2008 | every result begins with a slash, has no dot segment, and is at most one byte longer than the path |
| `Paths.CleanAdjacent` | http2.cc:1958-2000 | adjacent slashes are left in the result exactly when an empty segment directly after a dot segment is not removed by a later double-dot segment |
| `Paths.FixedPoint` | http2.cc:1903-2008 | a rooted path without dot segments is left unchanged exactly when it has no adjacent slashes |
| `Paths.CleanTwice` | http2.cc:1903-2008 | cleaning twice is cleaning once exactly when no such empty segment is left |
| `Paths.CleanIdempotent` | http2.cc:1903-2008 | in particular for every path without adjacent slashes, whose result has none either |
| `Paths.CleanNotIdempotent` | http2.cc:1966-1982 | `/.//a` is cleaned to `//a`, and that to `/a` |
| `PathJoin.EatFile` | http2.cc:1861-1886 | moves the cursor back behind the last slash, or leaves a single slash |
| `PathJoin.EatDirectory` | http2.cc:1891-1900 | drops the last segment as section 5.2.4 does, keeping the slash; the assertion holds |
| `PathJoin.JoinLoop` | http2.cc:1958-2000 | the loop on the buffer computes its specification and the cursor stays within the room left for the rest of the path |
| `PathJoin.Run` | http2.cc:1903-2008 | for every base, path and queries, the buffer of the size computed in advance holds the joined path and its terminator |
| `PathJoin.JoinCleans` | http2.cc:1903-2008 | with an empty base the joined path is the cleaned relative path followed by the query |
| `PathJoin.JoinMerges` | http2.cc:1903-2008 | with a base path and a relative path that is not rooted, section 5.2.4 of RFC 3986 is applied to the relative path, without the skipped slashes, behind the folder of the base; a relative path of dots only leaves the base as it is |
| `PathJoin.JoinOthers` | http2.cc:1903-2008 | a rooted relative path replaces the base path; an empty one leaves it, with the base query unless there is a relative one |
| `Percent.RoundTrip` | util.cc:156-173 | decoding an encoded path gives the path back, for all bytes |
| `Percent.EncodedBytes` | util.cc:156-173 | every byte of an encoding is unreserved, a sub-delimiter or a slash, or a percent sign with two upper-case hexadecimal digits behind it; the encoding is at most three times as long |
| `Percent.KeptBytes` | util.cc:112-127 | exactly the letters, digits, the slash and the characters that RFC 3986 calls unreserved or sub-delimiters stay as they are |
| `Percent.NotHexGets256` | util.cc:217-232 | a character that is not a hexadecimal digit gets the documented 256 exactly when it is above `z`, whether `char` is signed or not |
| `Percent.HexPromiseFails` | util.h:105-108 | `G` gets 16 and `[` gets 4 |
| `Percent.EncodeInjective` | util.cc:156-173 | different paths have different encodings |
| `Percent.EncodePath` | util.cc:156-173 | the loop computes the encoding |
| `Percent.DecodePath` | util.h:117-143 | the loop computes the decoding in a buffer of the input's size, leaving malformed percent signs as they are |
| `Percent.DecodeSpelling` | util.h:117-143 | a byte is decoded from each of its two-digit spellings, in upper, lower or mixed case |
| `Mux.SplitPath` | asio_common.h:49-61 | splits at the first question mark and decodes the path part only |
| `Mux.SplitTarget` | asio_common.h:49-61 | a path without a question mark and a query, joined by one, are split again, and only the path is decoded |
| `Mux.SplitLocation` | asio_server_serve_mux.cc:82-87 | splitting a redirect target gives back the cleaned path and the raw query it was made from |
| `Mux.RedirectedAgain` | asio_server_serve_mux.cc:77-92 | a redirected HTTP/2 request is redirected again exactly when cleaning left an empty segment behind |
| `Mux.RedirectSettles` | asio_server_serve_mux.cc:77-92 | a redirect is never followed by another when the decoded path has no adjacent slashes |
| `Mux.AtMostTwoRedirects` | asio_server_serve_mux.cc:77-92 | for every request, two redirects are never followed by a third |
| `Mux.RedirectedTwice` | asio_server_serve_mux.cc:77-92 | the target `/.//a` is redirected to `//a`, and that to `/a`, which is not redirected |
| `Mux.LongestUnique` | asio_server_serve_mux.cc:107-132 | two matching patterns of the greatest length are the same |
| `Mux.MatchMeans` | asio_server_serve_mux.cc:107-112 | a pattern matches a path when the path is the pattern with something behind it, which is nothing unless the pattern ends in a slash |
| `Mux.LongestMeans` | asio_server_serve_mux.cc:115-132 | the longest match is such a pattern, and no other such pattern is longer |
| `Mux.RootMatches` | asio_server_serve_mux.cc:107-132 | with `/` registered, every path that begins with a slash is matched |
| `Mux.PathPartOf` | asio_server_serve_mux.cc:38-75 | the implicit redirect of a pattern with a host leads to its path |
| `Mux.ServeMux.Handle` | asio_server_serve_mux.cc:38-75 | no user entry is ever replaced; an accepted handler is installed exactly when no implicit redirect stands in its place |
| `Mux.OrderMatters` | asio_server_serve_mux.cc:38-75 | for every new pattern and the one with a slash behind it: both are accepted in either order; both are installed when the shorter comes first, and when it comes second it still leads to the implicit redirect |
| `Mux.AcceptedNotInstalled` | asio_server_serve_mux.cc:38-75 | registering `/a/` and then `/a` with an empty multiplexer: both are accepted, and the entry of `/a` is the implicit redirect |
| `Mux.ServeMux.Match` | asio_server_serve_mux.cc:115-132 | in whatever order the entries are visited: there is a callback exactly when the path is a pattern or begins with one that ends in a slash, and it is that of the longest such pattern |
| `Mux.ServeMux.Handler` | asio_server_serve_mux.cc:77-104 | redirect for an unclean path unless the method is CONNECT, else the longest match with the host, else without it, else 404; with `/` registered no path that begins with a slash gets 404 |
| `Handlers.FillConserves` | asio_server_http2_handler.h:94-132 | one `on_write` loses, repeats and reorders nothing: buffer, held-back chunk and session together are what they were |
| `Handlers.FillProgress` | asio_server_http2_handler.h:94-132 | something is written exactly when there was something to write |
| `Handlers.RunIsHead` | asio_server_http1_handler.cc:315-330 | the consecutive ready ids taken are the first open streams, in order |
| `Handlers.AtHeadMeans` | asio_server_http1_handler.cc:315-347 | a stream is at the head when it and every open stream before it is ready |
| `Handlers.DrainsHead` | asio_server_http1_handler.cc:315-347 | repeated `on_write` calls write exactly the ready streams at the head, across ids closed without a response |
| `Runs.StepKeeps` | asio_server_connection.h:152-257 | every step of the connection keeps the invariant: flags, buffer, bytes, order and wakeup |
| `Runs.OneOfEach` | asio_server_base_handler.cc:118-153 | over every run the callback assertions hold and at most one read, one write and one posted call are outstanding |
| `Runs.BufferUntouched` | asio_server_connection.h:191-242 | over every run the output buffer is not written while a write refers to it: completed writes took out exactly what was handed to them |
| `Runs.BytesConserved` | asio_server_http2_handler.h:94-132 | until the connection stops, bytes handed to writes, the held-back chunk and the session's remainder are the bytes produced, in order |
| `Runs.ResponsesInOrder` | asio_server_http1_handler.cc:332-347 | over every run the written stream ids strictly increase and no open stream precedes a written one, as section 6.3.2 of RFC 7230 requires |
| `Runs.NothingStranded` | asio_server_connection.h:191-242 | over every run, what could be written has a write in flight or a posted call, except the settings frame of a handler to which nothing has happened before the first read |
| `Runs.Settles` | asio_server_connection.h:191-242 | from every state of a run where what could be written is on its way, there is a row of completions until none is left |
| `Runs.EveryRowSettles` | asio_server_connection.h:191-242 | every such row, in whatever order, delivers everything that could be written, in a bounded number of completions |
| `Runs.TargetMeans` | asio_server_http1_handler.cc:315-347 | everything is all bytes produced over HTTP/2, and every response at the head over HTTP/1 |
| `Runs.CloseAwake` | asio_util.cc:66-70 | closing a stream without a response loses a wakeup exactly when the stream was all that held back a started response and nothing is on its way |
| `Runs.StrandedByClose` | asio_util.cc:66-70 | a run in which that happens |
| `Offers.OfferedConserved` | asio_server_http2_handler.cc:380-434 | until the connection stops, bytes handed to writes, the held-back chunk and the remainder of the session are the settings followed by every chunk that came in with a read, an application or an `on_write`, in order |
| `Offers.EverythingArrives` | asio_server_connection.h:191-242 | after any run in which a read has completed, completions in any order until none is left deliver exactly those bytes |
| `Offers.StartedAreKept` | asio_server_http1_handler.cc:260-267 | over every run, the streams that are ready or were handed to a write are exactly those whose response was started while they were open |
| `Offers.ResponsesArrive` | asio_server_http1_handler.cc:315-347 | after such completions a response has been delivered exactly when it was started and so were those of all streams before it that were not closed |
| `Offers.StopsExactly` | asio_server_connection.h:128-257 | a running connection is stopped by the deadline, an error, a failure, or a yes of `should_stop` where no write is in flight, and by nothing else |
| `Offers.DeadlineStops` | asio_server_connection.h:128-140 | after the deadline no read or write is begun and nothing is handed to a write, whatever happens |
| `Connection.ServerHandler.EnterCallback` | asio_server_base_handler.cc:118-122 | its assertion is a precondition that every caller is proved to meet |
| `Connection.ServerHandler.LeaveCallback` | asio_server_base_handler.cc:124-128 | its assertion is a precondition that every caller is proved to meet |
| `Connection.ServerHandler.SignalWrite` | asio_server_http2_handler.cc:409-415 | posts once, and only outside a callback |
| `Connection.ServerHandler.Submit` | asio_server_http2_handler.cc:380-434 | frames join the session and a write is signalled |
| `Connection.ServerHandler.MessageBegin` | asio_server_http1_handler.cc:27-32 | the new stream's id is not in use, so the assertion of `create_stream` holds |
| `Connection.ServerHandler.StartResponse` | asio_server_http1_handler.cc:260-267 | the id joins the ready ids and a write is signalled |
| `Connection.ServerHandler.CloseStream` | asio_server_base_handler.cc:102-105 | the stream is gone, every other is still there, and the ids stay in order |
| `Connection.ServerHandler.ConsecutiveIds` | asio_server_http1_handler.cc:315-330 | takes the longest gapless run from the front of the ready ids when it starts at the first open stream |
| `Connection.ServerHandler.OnWriteIds` | asio_server_http1_handler.cc:332-447 | the id loop finds every stream it asks for, and writes and closes the head run |
| `Connection.ServerHandler.OnWriteBytes` | asio_server_http2_handler.h:94-132 | copies the held-back chunk and then chunks until one does not fit, without overrunning the buffer |
| `Connection.ServerConnection.Stop` | asio_server_connection.h:244-257 | takes the stop step |
| `Connection.ServerConnection.DoWrite` | asio_server_connection.h:191-242 | takes the write step: nothing while stopped or writing, else one `on_write` and at most one new write |
| `Connection.ServerConnection.ReadCompletion` | asio_server_connection.h:152-189 | takes the step of a completed read |
| `Connection.ServerConnection.WriteCompletion` | asio_server_connection.h:224-236 | takes the step of a completed write |
| `Connection.ServerConnection.PostedWrite` | asio_server_http2_handler.cc:417-423 | takes the step of the posted `initiate_write` |
| `Connection.ServerConnection.ApplicationAct` | asio_server_http1_handler.cc:260-286 | takes the step of an application's response |
| `Responses.StartsAtMostOnce` | asio_server_response.cc:48-125 | in every order of calls, with `push_promise_sent` on pushed streams only, the handler is told to start at most once |
| `Responses.StepCounted` | asio_server_response.cc:163-172 | each call keeps the start count exact, except `push_promise_sent` on a stream that is not pushed and has its head |
| `Responses.HeadFixed` | asio_server_response.cc:48-91 | status and headers are those of the first `write_head`, or 200 and none if `end` comes first |
| `Responses.PayloadRead` | asio_common.cc:96-114 | reads of any sizes from a string body join to the payload, and the end flag comes exactly with its last byte |
| `Responses.DataRead` | asio_server_response.cc:65-91 | the reads after the first `end`, with any calls before it, between them and behind them, join to the data it was given; to nothing exactly when a head before it had closed the body |
| `Responses.Bodiless` | http2.cc:1484-1493 | there is no body for HEAD, 204, 304 and the informational statuses but 101 |
| `Responses.PayloadSize` | asio_server_response.cc:65-73 | the payload size is that of the last `end`, taken or not |
| `Responses.TrailersGiven` | asio_server_response.cc:93-109 | over every run nothing is submitted before a read has given the end; with the first such read the trailers set last are, and afterwards each that is set |
| `Responses.Response.SetHead` | asio_server_response.cc:48-63 | takes the step of `write_head` |
| `Responses.Response.Finish` | asio_server_response.cc:65-91 | takes the step of `end`, which `Responses.DataRead` is about |
| `Responses.Response.PushPromiseSent` | asio_server_response.cc:163-172 | takes the step of `push_promise_sent` |
| `Responses.Response.SetTrailer` | asio_server_response.cc:93-109 | trailers are given to the handler at once when the body is finished, else kept |
| `Responses.Response.Produce` | asio_common.cc:96-114 | the string generator copies the next bytes into the caller's buffer |
| `Responses.Response.ReadBody` | asio_server_response.cc:180-203 | takes the step of `call_read`, with the trailers submitted at the end |
| `Rules.RuleSame` | H2Server_Request.h:227-258 | two rules are equivalent exactly when both or neither are about a header and their unseparated keys are equal |
| `Rules.RuleOrder` | H2Server_Request.h:227-258 | `operator<` of rules is a strict weak order |
| `Rules.KindOrder` | H2Server_Request.h:227-258 | payload rules come before header rules, within each the other kinds before equality, and those in the order of their numbers |
| `Rules.RequestBefore` | H2Server_Request.h:296-328 | the iterator loop computes the order: fewer rules first, then from the greatest rule down |
| `Rules.RequestOrder` | H2Server_Request.h:296-328 | `operator<` of requests is a strict weak order |
| `Rules.RequestSame` | H2Server_Request.h:296-328 | requests are equivalent exactly when their rules are, one by one |
| `Rules.MatchText` | H2Server_Request.h:94-124 | the five kinds of match, by concatenation: equal, the input with something behind it, before it, around it, and the regular expression |
| `Rules.HeaderMeans` | H2Server_Request.h:136-173 | a header rule holds exactly when some header of its name has such a value |
| `Rules.PayloadMeans` | H2Server_Request.h:136-173 | a rule without a header holds exactly when the value its pointer leads to, or the payload, is such a value |
| `Matcher.IdsIdentify` | H2Server.h:170-191 | two rules of the services have the same number exactly when they are equivalent |
| `Matcher.MemoAgrees` | H2Server_Request.h:136-173 | when no two different rules share a key, every answer in every row of checks on a message is the direct evaluation |
| `Matcher.MemoDisagrees` | H2Server_Request.h:136-173 | two different header rules with one key get one answer on a message that tells them apart |
| `Matcher.MemoAgreesExactly` | H2Server_Request.h:136-173 | for header rules without regular expressions, in any given world, the memory is right for all messages and rows exactly when the keys differ |
| `Matcher.MemoExact` | H2Server_Request.h:136-173 | for rules of every kind, the memory is right whatever regular expressions and pointers mean, for all messages and rows, exactly when the keys differ |
| `Matcher.KeysCoincide` | H2Server_Request.h:247-256 | header `a` equal to `bc` and header `ab` equal to `c` are different rules with one key, told apart by a message |
| `Matcher.WrongAnswer` | H2Server_Request.h:136-173 | a configuration with these two rules, where a row of checks answers yes for a rule that does not hold |
| `Matcher.PickedIsChosen` | H2Server.h:208-228 | with different keys, the service picked through the memory is the best one, whatever rightful answers are remembered |
| `Matcher.WrongChoice` | H2Server.h:208-228 | in that configuration, a message that the first service matches is given no service |
| `Matcher.ChosenIsBest` | H2Server.h:208-228 | the chosen service matches and no matching service has more rules; none is chosen only if none matches |
| `Matcher.HeaderEqualityPreferred` | H2Server_Request.h:227-258 | of two matching services with equally many rules, one with a header-equality rule is preferred to one without |
| `Matcher.OrderDoesNotMatter` | H2Server.h:193-228 | with different keys, configurations with the same services in any order of services and rules choose the same set of rules for every message |
| `MatchServer.RequestMessage.DecodeJsonIfNotYet` | H2Server_Request_Message.h:53-60 | the payload is parsed once |
| `MatchServer.RequestMessage.MatchRule` | H2Server_Request.h:136-173 | answers from the memory or evaluates and remembers |
| `MatchServer.Server.constructor` | H2Server.h:193-201 | the services are the sorted, duplicate-free map of the configuration, with every rule numbered |
| `MatchServer.Server.BuildMatchRuleUniqueId` | H2Server.h:170-191 | every rule gets the place of its equivalent in the set of all rules |
| `MatchServer.Server.MatchRequest` | H2Server_Request.h:285-295 | checks the rules by their numbers from the greatest down, up to the first that is answered no; result and memory are those of that row of checks |
| `MatchServer.Server.GetMatchedRequest` | H2Server.h:208-228 | the service picked through the memory, for all rules and memories; with different keys, the best service |
| `Selection.SelectExactly` | H2Server.h:46-63 | a response is selected exactly by the draws of its share |
| `Selection.DrawsAreWeight` | H2Server.h:21-63 | each response is selected by exactly as many draws below the total as its weight |
| `Selection.NoWeight` | H2Server.h:46-63 | without any weight the first response is selected |
| `Selection.ResponseGroup.InitDistribution` | H2Server.h:21-34 | the distribution map has one entry for each nonzero weight at the running total |
| `Selection.ResponseGroup.SelectResponse` | H2Server.h:46-63 | the upper-bound search computes the selection |
| `Regions.AllocValid` | allocator.h:123-151 | every allocation keeps all regions, with their headers, inside their own blocks and pairwise disjoint, even when alignment puts `last` past the end |
| `Regions.AllocAllValid` | allocator.h:111-151 | so does every sequence of allocations |
| `Regions.AllocAllOnGrid` | allocator.h:139-151 | over every sequence of allocations each region begins 8 behind a multiple of 16, if the system's blocks begin at multiples of 16 |
| `BlockAllocator.Allocator.Alloc` | allocator.h:123-151 | writes only the new region's header, and every header still reads as its region's length |
| `BlockAllocator.Allocator.GetAllocLength` | allocator.h:155-159 | reads the length of the region |
| `BlockAllocator.Allocator.Realloc` | allocator.h:168-188 | keeps the region when it is long enough, else copies its contents to the front of one at least twice as long and longer than asked; memory outside the new region is untouched |
| `BlockAllocator.OthersKept` | allocator.h:168-188 | so no other region changes its contents |
| `BlockAllocator.Allocator.PerformAll` | allocator.h:123-188 | over every sequence of `alloc`, `realloc` and writes into regions, up to the first that is refused, every region keeps its address and length, and its contents unless it was written to; headers stay right and regions disjoint |
| `UrlGrammar.NeverBack` | third-party/url-parser/url_parser.c:214-360 | over any input the URL machine never goes back through scheme, server, path, query and fragment |
| `UrlGrammar.HostNeverBack` | third-party/url-parser/url_parser.c:362-442 | over any input the server machine never goes back through userinfo, host and port |
| `UrlOutlines.ReadsSome` | third-party/url-parser/url_parser.c:214-360 | whatever the URL machine reads is the text of an outline of the shape of its state, with its parts where the machine finds them |
| `UrlOutlines.ReadsEach` | third-party/url-parser/url_parser.c:214-360 | every such outline is read, into that state |
| `ServerOutlines.ReadsSomeServer` | third-party/url-parser/url_parser.c:362-442 | the same of the server machine |
| `ServerOutlines.ReadsEachServer` | third-party/url-parser/url_parser.c:362-442 | and every outline of a server part is read |
| `UrlScans.Scan` | third-party/url-parser/url_parser.c:531-602 | the scan succeeds exactly when the machine does not die; each part set is exactly the run of characters the machine assigns to it, in order |
| `UrlScans.ScanHost` | third-party/url-parser/url_parser.c:444-524 | the server part is accepted exactly when its machine ends well; userinfo, host and port are exactly the runs assigned to them |
| `UrlScans.PortValue` | third-party/url-parser/url_parser.c:624-649 | the value is the decimal value of the run, and it fails exactly above 65535 |
| `UrlParser.ParseUrl` | third-party/url-parser/url_parser.c:531-652 | success exactly for the texts put together in one of the forms of a URL, and then the parts set are the nonempty parts of the form, where they are in the text, and the port is the number of its digits; equivalently, both machines accept and the parts they assign are acceptable |
| `UrlForms.AcceptsForms` | third-party/url-parser/url_parser.c:531-652 | a URL is accepted exactly when it is a scheme, `://`, a site with optional userinfo and port and a host name or a bracketed address, a path, a query and a fragment of their own characters; or a path or star alone; or with CONNECT a host and port; with a port below 65536 |
| `UrlForms.PartsOfForm` | third-party/url-parser/url_parser.c:531-602 | the parts found in the text of a form are its parts, where they are |
| `UrlForms.PortOfForm` | third-party/url-parser/url_parser.c:624-649 | the port is the number of the digits of the form |
| `UrlForms.NumberNext` | third-party/url-parser/url_parser.c:635-642 | a digit more makes the number ten times as large and adds the digit |
| `UrlForms.CharacterSets` | third-party/url-parser/url_parser.c:176-199 | the characters of each part |
| `UrlScans.ParsedUnique` | third-party/url-parser/url_parser.c:531-652 | an input determines its server part and its parts |

## Left out

- NameTable.Names.Intern: names of 65536 bytes or more, whose 16-bit length field no longer is their length.
- NameTable.Names.Add: the same bound on names.
- UrlParser.ParseUrl: inputs longer than 65535 bytes, whose offsets do not fit the 16-bit fields; the HTTP/1 handler passes at most one 8 KiB read buffer.
- HashTable.Table.Set: entries are slots with an index, so byte offsets, entry sizes and tables beyond 4 GiB are not modelled; `malloc` is a limit on the number of slots.
- BlockAllocator.Allocator.Alloc: sizes below 2^64 only; the system's `new` is a place that overlaps no block; block bookkeeping fields are not part of the modelled memory.
- Memchunks.Store.RemoveTo: source and destination queues share a pool and are different; a chunk is known by its index rather than its address.
- Memchunks.Store.Copy: source and destination are different queues of one pool.
- Runs.BytesConserved: session chunks fit the 64 KiB output buffer; a larger one would be copied past its end.
- Runs.NothingStranded: an HTTP/1 stream is not closed once its response has started, and closing one outside a callback is allowed only where `Runs.CloseAwake` shows that nothing is stranded.
- Runs.ResponsesInOrder: a written response is its stream id; the bytes of HTTP/1 responses (asio_server_http1_handler.cc:353-441) are not modelled.
- Mux.RedirectedAgain: HTTP/2 request targets; the HTTP/1 handler does not decode its path.
- Matcher.MemoAgreesExactly: in one given world, only for header rules without regular expressions, since that world may not tell others apart; `Matcher.MemoExact` is for rules of every kind.
- Matcher.PickedIsChosen: one way only; when rules that share a key also imply one another, no message need tell the choices apart. `Matcher.MemoExact` has both directions, for rows of checks.
- Selection.DrawsAreWeight: draws are taken as given; a total above 2^31 does not fit the distribution's integer type.
- Paths.CleanIsRfc: relative to an empty base path; `PathJoin.JoinMerges` is for other bases, whose own dot segments stay.
- `pb_Table` deletion by zeroing a key in place, and iteration: not map-like as written.
- `Memchunks` single-character append, `reset`, `riovec`, move operations and `PeekMemchunks`.
- `realloc_concat_string_ref` and the other string builders over the allocator: copying only.
- Sockets, TLS, timers, threads, nghttp2 and llhttp: events and an abstract queue of chunks.
- Lua, JSON parsing, regular expressions, configuration, statistics, header tables and dates.
