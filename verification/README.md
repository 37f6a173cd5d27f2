# Verified models of snet

snet is a header-only network library built on epoll. This project models the parts of it that hold
algorithmic state, in Dafny, and proves what they are for. Bytes of text are Dafny characters, so every
claim about strings holds in particular for strings of bytes.

**The streaming HTTP parser** (`HttpChars`, `HttpParser`, `HttpInvariant`, `HttpTrace`, `HttpRun`, `HttpScan`,
`HttpExecute`, `HttpSegments`). The parser is modelled twice. `HttpParser.Dispatch` is the switch statement on
one byte; it lists the marks and callbacks that it asks for. `HttpRun.Run` reads a string with it as a
sequence of one-byte buffers, and `HttpRun.Reach` is the same without its callbacks. `HttpExecute.Execute` is the loop of `http_parser_execute` on a whole buffer, with
its marks as offsets, its fast scans over header names, header values and bodies, and its byte counter. The
loop is proved to refine the one-byte automaton; from that follow segmentation independence and that no C
assertion fails. `HttpMethods`, `HttpHeaders`, `HttpValues` and `HttpLength` show that the incremental matchers
recognise exactly the words and numbers they are for. `HttpWatch` and `HttpBody` put a reader of the callbacks
next to the parser and show that bodies are conserved; `HttpChunks` reads an encoded body back. `HttpLimit` shows that the
header limit keeps the byte counter from wrapping in everything the parser accepts.
`HttpParserUrl` is `http_parser_parse_url`.

**The pipe protocol over a connection** (`PipeFrames`, `TcpConnection`, `PipeNetwork`, `PipeWakeups`, `TcpLifecycle`). A
class with the read array and the send buffer; a transition system of writers, epoll threads, kernel and reader, in
which both ends are woken by edge-triggered events only; and the life cycle of a connection whose event handlers
call back into it, with its sockets.

**LoopBuffer** (`Words`, `LoopBuffer`, `RingQueue`, `RingObject`). The ring with wrapping 32-bit counters, as a transition
system in which every byte copied is a step, and as a class.

**HeapTimer over MinHeap** (`MinHeap`, `HeapTimer`, `TimerObject`). The array heap, runs of the scheduler with
handlers and other threads that start and stop timers, and the class whose `timer_loop` is one of those runs.

**HttpUrl** (`TextSplit`, `UrlCoding`, `UrlPath`, `UrlQuery`, `Ipv4`, `Ipv6`, `Ipv6Valid`, `Ipv6Normalize`, `HttpUrl`, `UrlCanon`,
`UrlObject`). Percent coding, path normalisation, queries, IPv6 normalisation over its two fixed arrays, and
parsing and building whole URLs.

**NetUrl** (`NetUrl`). The small address parser and printer. `Numerals` and `Sequences` hold digits, numbers and
prefixes for all of the above.

## Where the code is narrower than it looks

Each of these has a lemma with an input or a run, and one that says exactly when it happens.

- The `unhex` table has 256 entries and 128 initialisers, so in a chunk size every byte from 0x80 on counts as
  the digit 0: the line "1" followed by 0x80 is accepted as 16 (`HttpChunks.HighByteAccepted`). An accepted line is the
  hexadecimal number it shows exactly when no such byte stands among its digits (`HttpChunks.ReadsHexNumber`).
- `do_read` stops as soon as no part of a frame is pending, and sockets are registered edge-triggered. When recv
  ends at the end of a frame with more bytes in the kernel, those bytes wait until new ones come or the receiver is
  woken for another reason (`PipeWakeups.StrandedRun`, `PipeWakeups.StrandedExactly`); if recv returns all that fits, that
  is when frames fill the 8 MB read buffer to its last byte (`PipeWakeups.FullBufferStrands`, `PipeWakeups.FullBufferRun`).
- `close()` asks for EPOLLOUT so that the epoll thread finishes it. A `do_send` that `msend` still owed, and that finds
  the buffer empty, takes that registration back, and the connection stays in CLOSING (`PipeWakeups.MissedRun`,
  `PipeWakeups.MissedExactly`).
- `close()` tests the status and then assigns it. If another thread closes the connection in between, the
  assignment sets a closed connection back to closing and `EVT_DISCONNECT` is raised twice
  (`TcpLifecycle.CloseIsNotAtomic`); that can happen exactly when the connection is closed at the time of the
  assignment (`TcpLifecycle.LateClose`).
- A refused `do_connect` closes its socket and keeps the number; so does an `add_event` or `mod_event` that fails. A later
  `close()` closes that number again, through `notify_send` and `mod_event`, and `do_close` does so too
  (`TcpLifecycle.RefusedThenClosed`, `TcpLifecycle.StaleInClose`, `TcpLifecycle.StaleClose`); with reconnection it may happen
  any number of times (`TcpLifecycle.StaleWithoutBound`). `do_close` does not close the socket of a connection that will
  reconnect, which the next `do_connect` then forgets (`TcpLifecycle.ReconnectLeaks`).
- `start_timer` computes the expiry before it takes the lock. Called from another thread it may insert a node after a
  later one has fired; then, and only then, handlers can fire out of order (`HeapTimer.LateStart`).
- `timer_loop` tests `stopped` and then calls the handler. A `stop_timer` of another thread in between returns true and
  the handler is called all the same; that is the only way (`HeapTimer.LateStop`).
- `COUNT_HEADER_SIZE` adds in 32 bits after the fast scans: 2^32 bytes of a header name, which byte by byte are over the
  limit, are counted as none (`HttpLimit.LongNameWraps`). In everything that is accepted byte by byte this cannot happen
  (`HttpLimit.AcceptedIsShort`).
- An IPv6 address of eight zeros in any spelling other than `::` is printed by `normalize_IPv6` as a single colon,
  which is no address (`Ipv6.AllZeroBreaks`, `Ipv6.GapSpellsZeros`, `Ipv6.EightZerosText`), so that it has another normal
  form than `::` (`Ipv6.ZerosHaveTwoForms`, `Ipv6.EqualAddresses`); before a dotted quad, as in `::0.0.0.0`, zeros stay
  (`Ipv6.TailAfterGap`). A URL with such a host is built to a string that cannot
  be parsed again, for instance `//[0::0]` (`UrlCanon.ZeroHostExample`); every other URL in the model's domain is
  canonical after one pass (`UrlCanon.CanonicalExactly`).
- For sizes above 2^31 the ring size wraps to 0 (`LoopBuffer.BufferSizeWraps`).
- The largest Content-Length accepted is 2^64 - 7 and the largest chunk size 2^64 - 17, a little below what
  would still be distinguishable from "no length" (`HttpLength.RecognisesLength`, `HttpChunks.RecognisesSize`).
- `process_data` passes the length of everything in the read buffer to `handle_package`, not the length of what is left
  behind the frames already handed over, so `handle_package` may look at stale bytes.
  `PipeFrames.HandlePackageFrames` shows that the framing loop is right all the same.

## Model

| member | source | states |
|---|---|---|
| HttpInvariant.StepLegal | include/http/http_parser.h:1159-2722 | From every state with the invariant, with the marks it may hold, one byte breaks no C assertion, uses one mark at a time, and keeps the invariant |
| HttpExecute.ScanName | include/http/http_parser.h:1783-1935 | The fast scan over a header name reads exactly the token characters, and leaves the matcher where reading them one by one leaves it |
| HttpExecute.NameCase | include/http/http_parser.h:1783-1935 | With its byte count, the case for header names follows the one-byte run, also where the header limit is met |
| HttpExecute.ScanValue | include/http/http_parser.h:2038-2281 | The fast scan over a header value, with its jump to the line end, leaves the matcher where reading byte by byte leaves it |
| HttpExecute.ValueCase | include/http/http_parser.h:2038-2281 | With its byte count, the case for header values follows the one-byte run, also where the header limit is met |
| HttpExecute.BodyCase | include/http/http_parser.h:2516-2551 | Taking a whole piece of body at once is the same as its single bytes |
| HttpExecute.Execute | include/http/http_parser.h:1089-2738 | On a non-empty buffer the loop accepts exactly what the one-byte run accepts, with the same parser fields, the same count and the same callbacks up to the cutting of text |
| HttpExecute.LoopEnds | include/http/http_parser.h:2705-2738 | At the end of the buffer at most one mark is set, and flushing it completes the callbacks of the one-byte run |
| HttpSegments.ParseBuffer | include/http/http_parser.h:1089-2738 | The same for the parser's own switch, which obeys every law the loop needs |
| HttpSegments.FeedPieces | include/http/http_parser.h:1089-2738 | Calls on successive pieces are the one-byte run over their concatenation |
| HttpSegments.Segmentation | include/http/http_parser.h:1089-2738 | One call and any cut into non-empty pieces are accepted alike, with equal parser fields and equal callbacks up to the cutting of text |
| HttpSegments.SmallBuffer | include/http/http_parser.h:580-589 | In every buffer that stays below 2^32 bytes together with the header limit, no header line can make the byte counter wrap |
| HttpLimit.AcceptedIsShort | include/http/http_parser.h:580-589 | Nor can one in any stream, of any size, that is accepted byte by byte, if twice the header limit fits the counter |
| HttpLimit.ParseAccepted | include/http/http_parser.h:1089-2738 | Such a stream is read alike in one buffer and in any pieces: each is the one-byte run |
| HttpLimit.LongNameWraps | include/http/http_parser.h:1915-1924 | A header name of 2^32 bytes fails byte by byte, and leaves the counter of the fast scan where it was |
| HttpSegments.NoAssertionFails | include/http/http_parser.h:2717-2721 | From a new parser no input makes a C assertion fail |
| HttpMethods.RecognisesMethods | include/http/http_parser.h:1397-1532 | The candidate-patching automaton accepts exactly the 34 method names, each with its own code |
| HttpMethods.RecognisesEither | include/http/http_parser.h:1182-1225 | A parser for requests and responses accepts the same names as methods, HEAD by its own way; what else it accepts begins with "HT" and is a response |
| HttpHeaders.RecognisesHeaders | include/http/http_parser.h:1729-1935 | At the colon the header state says content-length, transfer-encoding, connection or upgrade exactly when the name is that word, ignoring case |
| HttpValues.RecognisesChunked | include/http/http_parser.h:1955-2329 | F_CHUNKED is added exactly when the value is "chunked", ignoring case, after leading blanks and followed by spaces only; with that flag the next line begins, whether the line ended with CR LF or LF |
| HttpLength.RecognisesLength | include/http/http_parser.h:2096-2138 | A Content-Length line is accepted exactly when it is the first and its value is a decimal number that fits, followed by spaces only; the number is kept exactly, below the sentinel, when the next line begins |
| HttpWatch.CanonSeen | include/http/http_parser.h:2516-2551 | How text is cut into callbacks makes no difference to a reader who counts the body |
| HttpBody.StepWatched | include/http/http_parser.h:1159-2722 | Every byte moves the reader of the callbacks to where the parser is |
| HttpBody.RunWatched | include/http/http_parser.h:1089-2738 | Over every run the reader and the parser stay in step, and the body text reported is exactly the bytes read in a body state |
| HttpBody.BodyConservation | include/http/http_parser.h:2378-2567 | For every accepted stream, each message begins and completes once, its body has the announced length by Content-Length or chunk by chunk, and never by both |
| HttpChunks.RecognisesSize | include/http/http_parser.h:2569-2637 | A chunk size is accepted exactly when it starts with digits of the unhex table, followed by nothing or parameters, and their value fits; that value is kept exactly |
| HttpChunks.ReadsHexNumber | include/http/http_parser.h:2569-2637 | Every hexadecimal size line that fits is accepted with its number; an accepted line is such a line, with its number, exactly when no byte from 0x80 on is among its digits |
| HttpChunks.HighByteAccepted | include/http/http_parser.h:648-649 | "1" followed by the byte 0x80 is no hexadecimal number, and is accepted as 16 |
| HttpChunks.ChunkedRoundTrip | include/http/http_parser.h:2569-2698 | A body sent in chunks is reported chunk by chunk as it was, followed by one message_complete |
| HttpChunks.TrailedRoundTrip | include/http/http_parser.h:2379-2390 | The same with any trailer fields that the parser takes, which are reported between the last chunk and message_complete |
| HttpChunks.IdentityRoundTrip | include/http/http_parser.h:2516-2567 | A body of Content-Length bytes is reported as it was, followed by one message_complete |
| HttpParserUrl.ScanUrl | include/http/http_parser.h:3042-3112 | The first loop rejects exactly when the automaton dies; the fields it keeps are exactly the bytes with their label |
| HttpParserUrl.ParseHost | include/http/http_parser.h:2935-3024 | http_parse_host accepts exactly when its automaton ends well; user info, host and port are exactly the bytes with their label |
| HttpParserUrl.ReadPort | include/http/http_parser.h:3136-3160 | The port is the exact decimal value, and is refused exactly above 65535 |
| HttpParserUrl.ParseUrl | include/http/http_parser.h:3032-3163 | A URL is accepted exactly when both automata accept it and the conditions on fields and port hold |
| HttpParserUrl.FieldsPartition | include/http/http_parser.h:3032-3163 | The fields of every accepted URL are not empty, in bounds, disjoint and in order; every byte outside them is a delimiter, and every byte inside is allowed in its field |
| PipeFrames.EncodeIsFrame | include/pipe/pipe_connection.h:17-23 | A head with the length of its body is a frame |
| PipeFrames.HandlePackageFrames | include/pipe/pipe_connection.h:34-47 | Passing the whole buffer's length instead of what is left finds the same frames |
| PipeFrames.CutIsExact | include/tcp/tcp_connection.h:376-407 | Cutting loses nothing, yields whole frames, and leaves no whole frame |
| PipeFrames.FramesArePrefix | include/tcp/tcp_connection.h:376-407 | Frames found in a prefix of a stream of frames are its first frames |
| TcpConnection.SendConserves | include/tcp/tcp_connection.h:292-335 | No locked section of do_send loses or reorders a byte |
| TcpConnection.AppendsFrame | include/tcp/tcp_connection.h:519-529 | mpush appends a head and its body together, whatever the buffer holds |
| TcpConnection.FeedTwice | include/tcp/tcp_connection.h:337-407 | How recv cuts the stream makes no difference to the packages |
| TcpConnection.Connection.Append | include/tcp/tcp_connection.h:120-142 | The locked section of msend appends what mpush appends, and says whether this caller must send |
| TcpConnection.Connection.DoSend | include/tcp/tcp_connection.h:292-335 | One locked section: the new send buffer, EPOLLOUT registration and status for each answer of the kernel |
| TcpConnection.Connection.ProcessData | include/tcp/tcp_connection.h:376-407 | The packages handed over and the bytes kept are those of cutting the pending bytes and the new ones; every array access is in bounds |
| TcpConnection.Connection.DoRead | include/tcp/tcp_connection.h:337-374 | Whatever recv answers, the reader has been fed exactly the bytes taken from the kernel |
| PipeNetwork.StepKeeps | include/tcp/tcp_connection.h:120-407 | Every step of writers, senders, kernel and reader conserves bytes and keeps the wakeup invariant |
| PipeNetwork.Delivery | include/tcp/tcp_connection.h:120-407 | In every run the packages handed to the receiver are the first frames appended, in lock order, whole and unchanged |
| PipeNetwork.SendsEverything | include/tcp/tcp_connection.h:292-335 | Bytes taken by the kernel and the send buffer are all that was appended; while bytes wait, a do_send is owed, EPOLLOUT is still to be reported, or the connection is closing |
| PipeNetwork.NeverFull | include/tcp/tcp_connection.h:337-374 | The read buffer never fills up, because every frame fits |
| PipeNetwork.Drained | include/tcp/tcp_connection.h:376-407 | Once send buffer and wire are empty, every frame has been handed over |
| PipeWakeups.StrandedExactly | include/tcp/tcp_connection.h:337-374 | In every run, bytes lie in the kernel with nothing to make the receiver fetch them exactly when some recv ended at a frame's end before the end of the bytes with no event outstanding, and nothing has come since |
| PipeWakeups.FullBufferStrands | include/tcp/tcp_connection.h:340-371 | If recv returns all there is or all that fits, that happens exactly when frames fill the read buffer to its last byte |
| PipeWakeups.StrandedRun | include/tcp/tcp_connection.h:365-371 | A run with any two messages whose second stays in the kernel |
| PipeWakeups.FullBufferRun | include/tcp/tcp_connection.h:59-64 | Such a run in which recv returns all that fits |
| PipeWakeups.MissedExactly | include/tcp/tcp_connection.h:292-302 | In every run, a closing connection is left with nobody to finish it exactly when a do_send took EPOLLOUT back after close while the epoll thread was away, and no other event has come since |
| PipeWakeups.MissedRun | include/tcp/tcp_connection.h:213-220 | Such a run, for any message, of a connection that do_connect has registered for EPOLLOUT |
| PipeWakeups.Progress | include/tcp/tcp_connection.h:292-374 | When nothing goes on of itself, an open connection has handed over every frame exactly if the receiver is not stranded, and a closing one is a missed one: there is no other deadlock |
| PipeWakeups.Delivers | include/tcp/tcp_connection.h:292-444 | What both ends do of themselves comes to an end after a bounded number of steps, and then every frame has been handed over, unless the receiver is stranded |
| TcpLifecycle.AtomicIsClean | include/tcp/tcp_connection.h:213-220 | If close() is one step throughout, no assignment lands on a closed connection |
| TcpLifecycle.ConnectsAlternate | include/tcp/tcp_connection.h:179-260 | In every run with handlers that call back, in which no assignment of close() lands on a closed connection, two EVT_CONNECT are separated by an EVT_DISCONNECT |
| TcpLifecycle.ClosesOnce | include/tcp/tcp_connection.h:213-260 | In such a run without reconnection each event is raised at most once and in order, do_close closes a descriptor at most once, and the removal is posted at most once |
| TcpLifecycle.ClosedIsFinal | include/tcp/tcp_connection.h:213-260 | Without a late assignment CLOSED is final |
| TcpLifecycle.CloseIsNotAtomic | include/tcp/tcp_connection.h:213-220 | A run in which close() is interrupted between test and assignment raises EVT_DISCONNECT twice |
| TcpLifecycle.LateClose | include/tcp/tcp_connection.h:213-220 | After the test of close(), the assignment makes a second EVT_DISCONNECT possible exactly when the connection is closed |
| TcpLifecycle.SocketsAccounted | include/tcp/tcp_connection.h:222-290 | In every run each socket opened has been closed, is held or was leaked, and a number is closed again only after a socket was closed and its number kept |
| TcpLifecycle.StaleInClose | include/tcp/tcp_connection.h:213-220 | close() closes a number that is closed already exactly when it goes from open to closing and conn_sd is such a number |
| TcpLifecycle.CloseSpoils | include/tcp/epoll_worker.h:78-98 | It closes a socket and keeps its number exactly when epoll does not watch that socket |
| TcpLifecycle.StaleClose | include/tcp/tcp_connection.h:243-249 | do_close itself closes a number that is closed already exactly when there is no reconnection and conn_sd is such a number after the handler |
| TcpLifecycle.RefusedThenClosed | include/tcp/tcp_connection.h:277-283 | A refused connect, close() and do_close close one number three times |
| TcpLifecycle.StaleWithoutBound | include/tcp/tcp_connection.h:235-239 | With reconnection there are runs in which a number is closed again any number of times |
| TcpLifecycle.ReconnectLeaks | include/tcp/tcp_connection.h:235-239 | With reconnection do_close keeps the socket, and the next do_connect leaks it |
| TcpLifecycle.Connection.FinishClose | include/tcp/tcp_connection.h:222-260 | do_close as a method, with the handler running inside it |
| TcpLifecycle.Connection.ProcessEvent | include/tcp/tcp_connection.h:409-444 | process_event as a method: ready, then work, then the check for closing |
| LoopBuffer.BufferSizeIsLeast | include/utils/loop_buffer.h:108-123 | The ring size is the least power of two that is at least the size asked for |
| LoopBuffer.BufferSizeWraps | include/utils/loop_buffer.h:108-123 | Above 2^31 the computation wraps to 0 |
| RingQueue.PositionIs | include/utils/loop_buffer.h:203-204 | Masking a wrapped counter gives the slot of the true count |
| RingQueue.StepKeeps | include/utils/loop_buffer.h:191-274 | Every step of producer and consumer keeps the ring's invariant, across the wrap of both counters |
| RingQueue.BeginPushKeeps | include/utils/loop_buffer.h:191-200 | A push is taken exactly when it fits between the bytes pushed and consumed |
| RingQueue.SizesFit | include/utils/loop_buffer.h:122-123 | Every size up to 2^31 gives a ring size that divides the range of the counters |
| RingQueue.CopiesGoOn | include/utils/loop_buffer.h:203-231 | Every index of a copy lies inside the array, so no copy is held up |
| RingQueue.FirstInFirstOut | include/utils/loop_buffer.h:191-274 | In every interleaving the consumed bytes are the first bytes pushed |
| RingQueue.NoSharedSlot | include/utils/loop_buffer.h:202-231 | In every interleaving the producer never writes a slot the consumer has been offered |
| RingObject.LoopBuffer.Push | include/utils/loop_buffer.h:191-218 | All of the data joins the end of the queue, or nothing |
| RingObject.LoopBuffer.Read | include/utils/loop_buffer.h:236-266 | A non-empty prefix of the queue, unless the queue is empty |
| RingObject.LoopBuffer.Commit | include/utils/loop_buffer.h:268-274 | The first bytes of the queue are gone |
| RingObject.LoopBuffer.Pop | include/utils/loop_buffer.h:220-233 | What was handed over and what is left are the queue as it was |
| MinHeap.RootIsLeast | include/utils/min_heap.h:80-89 | The root of a heap is a least element |
| MinHeap.Heap.Insert | include/utils/min_heap.h:35-43 | Heap order is kept and exactly the item is added |
| MinHeap.Heap.Top | include/utils/min_heap.h:80-89 | A least element, if there is one |
| MinHeap.Heap.Pop | include/utils/min_heap.h:55-67 | Heap order is kept and exactly the root is removed |
| HeapTimer.StepKeeps | include/utils/heap_timer.h:92-168 | Every step of the scheduler, of handlers and of the clock keeps the invariant |
| HeapTimer.TimerSafety | include/utils/heap_timer.h:92-168 | In every run, with starts and stops from other threads at any time, handlers never fire early, a one-shot fires at most once, and no node is in the heap twice |
| HeapTimer.StopsFor | include/utils/heap_timer.h:98-109 | In every run in which no stop falls between the test and the call of its handler, as none does from the loop's own thread, none fires after stop_timer returned true |
| HeapTimer.LateStop | include/utils/heap_timer.h:147-168 | A successful stop leaves a later firing possible exactly when the handler is about to be called |
| HeapTimer.FiresInOrder | include/utils/heap_timer.h:92-168 | In every run whose insertions come before anything that expires later has fired, as they do from the loop's own thread, handlers fire in order of expiry |
| HeapTimer.LateStart | include/utils/heap_timer.h:56-96 | An insertion makes firing out of order possible exactly when something that expires later has fired |
| TimerObject.Scheduler.StartTimer | include/utils/heap_timer.h:92-96 | The new node, its entry and its identifier |
| TimerObject.Scheduler.StopTimer | include/utils/heap_timer.h:98-109 | True exactly for a known identifier, which is then stopped and forgotten |
| TimerObject.Scheduler.FinishHandler | include/utils/heap_timer.h:127-144 | A loop that was not stopped is scheduled again; a handler that answers false ends its timer |
| TimerObject.Scheduler.TimerLoop | include/utils/heap_timer.h:147-168 | timer_loop is one of the runs, and leaves nothing that is due |
| UrlCoding.DecodeEncode | include/http/http_url.h:375-480 | decode inverts encode, and decode_plus both query encoders |
| UrlCoding.EncodedChars | include/http/http_url.h:407-480 | An encoder produces only what its mask allows and escapes, and the query encoders none of the query's delimiters |
| UrlCoding.DecodeLoop | include/http/http_url.h:375-405 | The decoding loops, with the malformed escapes they refuse |
| UrlCoding.EncodeLoop | include/http/http_url.h:407-480 | The three encoding loops |
| UrlPath.NormalizeTwice | include/http/http_url.h:338-373 | normalize_path is idempotent, keeps absoluteness, and never yields a leading "//" |
| UrlPath.NormalForm | include/http/http_url.h:338-373 | No "." or ".." segment is left, and no empty one except perhaps the last |
| UrlPath.Normalize | include/http/http_url.h:338-373 | The segment loop and the printing loop compute that path |
| UrlQuery.QueryRoundTrip | include/http/http_url.h:940-955 | A printed list of pairs is read back as that list, and contains no '#' |
| UrlQuery.QueryLoop | include/http/http_url.h:1096-1117 | The query loop reads the pairs that the text says, or refuses it |
| Ipv6Valid.IsValidIpv6 | include/http/http_url.h:171-214 | It accepts exactly "::" and the texts of at most 39 characters whose outer colons are double and which have eight groups of one to four digits, or six and a dotted quad, or fewer with one gap |
| Ipv6Normalize.FindTokens | include/http/http_url.h:226-243 | The token pointers stay within ten and are the starts of the tokens |
| Ipv6Normalize.FindTail | include/http/http_url.h:245-251 | The last token is taken for a dotted quad exactly when it is too long for a group |
| Ipv6Normalize.DecodeFields | include/http/http_url.h:253-266 | The fields stay within eight and are the values of the groups |
| Ipv6Normalize.Spread | include/http/http_url.h:267-278 | The groups behind the gap move to the end of the eight or six fields and zeros fill it |
| Ipv6Normalize.FindRun | include/http/http_url.h:280-302 | The first of the longest runs of zeros |
| Ipv6Normalize.Print | include/http/http_url.h:304-326 | The text of the fields, followed by the dotted quad as written |
| Ipv6Normalize.NormalizeAddress | include/http/http_url.h:220-328 | The whole function computes the normal form |
| Ipv6.NormalForm | include/http/http_url.h:220-328 | The normal form of an address that is not all zero denotes the same fields, keeps a dotted quad as written, is its own normal form, and leaves out the first longest run of at least two zeros |
| Ipv6.TailAfterGap | include/http/http_url.h:304-326 | Zeros left out before a dotted quad stay left out, whatever the quad |
| Ipv6.EqualAddresses | include/http/http_url.h:220-328 | Two spellings have the same fields and the same dotted quad exactly when they have one normal form, or both are eight zeros and just one of them is "::" |
| Ipv6.ZerosHaveTwoForms | include/http/http_url.h:220-225 | Every other spelling of zeros denotes what "::" denotes and has another normal form |
| Ipv6.GapSpellsZeros | include/http/http_url.h:304-308 | "0::0" is such a spelling |
| Ipv6.EightZerosText | include/http/http_url.h:304-308 | "0:0:0:0:0:0:0:0" is such a spelling |
| Ipv6.AllZeroBreaks | include/http/http_url.h:304-308 | The result is a lone colon exactly when the address has eight fields, all zero |
| UrlCanon.AcceptedIsModelled | include/http/http_url.h:171-214 | Every IPv6 host that is_valid_ipv6 accepts is in the domain of the results on URLs |
| UrlCanon.LeftOutIsRejected | include/http/http_url.h:1009-1035 | A bracketed host outside that domain is an IPvFuture host, or is_valid_ipv6 rejects it |
| UrlCanon.QuadHostStable | include/http/http_url.h:320-326 | A host of zeros left out and any dotted quad is accepted and is its own normal form |
| UrlCanon.ParsedWell | include/http/http_url.h:966-1131 | The parts that parsing leaves are well formed |
| UrlCanon.BuildParses | include/http/http_url.h:903-960 | Parsing what was built gives the parts back, up to a default port |
| UrlCanon.Canonicalisation | include/http/http_url.h:903-1131 | What is built from a parsed URL is parsed and built again to the same string |
| UrlCanon.CanonicalExactly | include/http/http_url.h:903-1131 | For every URL that parses to ASCII parts and builds to a string that is not too long, that string parses and builds to itself exactly when the URL's host is not a bracketed spelling of zeros other than "::" |
| UrlCanon.AllZeroHostFails | include/http/http_url.h:1085-1091 | With such a host, what is built cannot be parsed |
| UrlCanon.ZeroHostUrl | include/http/http_url.h:1085-1091 | Every URL that is such a host alone is parsed, is built to "//[:]", and that is refused |
| UrlCanon.ZeroHostExample | include/http/http_url.h:1085-1091 | "//[0::0]" is one |
| UrlObject.UrlHolder.Str | include/http/http_url.h:551-555 | str() gives what the parts build, however often it is called, and changes no part |
| UrlObject.UrlHolder.LazyParse | include/http/http_url.h:961-964 | Parsing on demand does not change what the object stands for |
| UrlObject.UrlHolder.SetPath | include/http/http_url.h:690-700 | Only the path changes, to its normal form |
| NetUrl.RoundTrip | include/utils/net_url.h:165-247 | parse(encode(u)) returns the same address for every order of the parameters |
| NetUrl.ReadsParam | include/utils/net_url.h:200-231 | A printed parameter is read back and the key flag is where it was |
| NetUrl.Address.Parse | include/utils/net_url.h:165-233 | parse as a method, with the missing separator and the port that is no number |
| NetUrl.Address.Print | include/utils/net_url.h:235-247 | encode as a method, for any order of the map |

## Left out

- Callbacks that fail or pause: every callback except on_headers_complete returns 0; on_headers_complete may answer anything.
- The call of http_parser_execute with length 0 at the end of the connection, and http_parser_pause.
- HttpSegments.ParseBuffer: from any point in a header line, fewer than 2^32 bytes less the header limit follow up to the next two line breaks in a row or the end, so that the 32-bit byte counter does not wrap; bodies may be of any size. HttpLimit.ParseAccepted needs no such condition.
- The error number of a rejected buffer: a whole buffer and its pieces are rejected alike, but the fast scans may count the header limit on another byte and report another error.
- HttpValues.RecognisesChunked: the next line is not folded; a folded line restarts the matcher.
- HttpLength.RecognisesLength: the next line is not folded.
- Connection header lists: a comma after a mismatch is swallowed by the token matchers.
- HttpParserUrl.ParseUrl: buffers of more than 65535 bytes, whose offsets are cut to 16 bits.
- Sockets, epoll registration calls, threads, logging, the decoder, request and response objects and routing: input and output, or thin glue.
- PipeNetwork.Delivery: framing across reconnects, and frames larger than the read buffer; the read and send buffers are not reset when a connection is opened again.
- The numeric result of msend, which is not the number of bytes added.
- PipeNetwork.StepKeeps: the assignment and the notify_send of close() are one step, and so are the is_open test of msend and its locked append; TcpLifecycle splits the test and the assignment of close().
- TcpLifecycle.SocketsAccounted: a number that was closed may meanwhile name another socket of the program.
- PipeWakeups.Delivers: says nothing of runs in which the kernel keeps refusing bytes, or in which the connection closes with bytes unsent.
- TcpLifecycle.ClosesOnce: no assignment of close() lands on a closed connection; LateClose says what happens when one does.
- HeapTimer.TimerSafety: identifiers do not reach 2^32; restart_timer, whose replacement keeps identifier 0.
- MinHeap.Heap.Pop: the value it returns, which is read through a reference after the removal; std::push_heap and std::pop_heap are modelled by sifting.
- RingQueue.FirstInFirstOut: steps are sequentially consistent; the memory barriers are not modelled.
- RingObject.LoopBuffer.Push: the form with an encrypter, which transforms each piece in place after copying it.
- Percent-encoding of bytes from 0x80 on, which shifts a signed value; the URL model builds from ASCII parts only.
- UrlCanon.Canonicalisation: the built string stays within 8000 characters; hosts of the form IPvFuture, and IPv6 hosts that is_valid_ipv6 rejects.
- Ipv6.EqualAddresses: a dotted quad and the two groups of the same value are different texts to normalize_IPv6, and count as different here.
- The setters of HttpUrl other than path and add_query: they follow the same pattern.
- NetUrl.RoundTrip: characters and ports are as in the printed form; the typed getters are library conversions.
