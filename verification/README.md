# php-quic: a verified model

php-quic gives PHP programs QUIC through OpenSSL's own engine: `Quic\Listener`, `Quic\Connection` and
`Quic\Stream` objects over native SSL handles, a `Quic\poll` over many of them at once, and a php_stream
view of a stream. This project models what the binding itself does, and what its example programs do on
top of it, and proves what they promise. Read it in this order.

**Objects and resources** (`ledger.dfy`, `lifetime.dfy`, `zend.dfy`). A php_stream refers to a Stream, a
Stream to its Connection, an accepted Connection to its Listener; each is counted by Zend and each owns
native handles: SSL, SSL_CTX, socket, ALPN buffer. `Lifetime` is a state machine over the heap, the
variables of the program and a ledger of every handle ever acquired. Its steps are all the operations a
program has, in any order. `Zend.ObjectStore` is the C code, step by step, with its cleanup paths, and
every method is proved to take exactly the step of the state machine. Over every run: a connection SSL is
freed only after the stream SSLs on it, no handle is freed twice, an object lives exactly as long as a
variable leads to it, and when the variables are gone every handle has been freed once.

**Reading** (`stream_read.dfy`). The engine is a class with an assumed contract; its bodies are one
nondeterministic engine that meets it. `Stream.Read` is the grow-and-drain loop. A php_stream reads ahead,
as PHP's stream layer does. Over any interleaving of `read()` and `fread()`, what the program has seen and
what is read ahead is together exactly what the engine handed out, each byte once; the order is the peer's,
and the end comes last, exactly under the condition given below.

**ALPN, poll, deadline, fingerprint** (`alpn.dfy`, `poll.dfy`, `connect_timed.dfy`, `fingerprint.dfy`).
The tokenizer and its wire encoding, the choice on wire bytes, the two passes over an ordered hash with
holes, the 64-bit and 32-bit arithmetic of the timed handshake, hexadecimal comparison.

**The example programs** (`replies.dfy`, `echo_server.dfy`, `fibers.dfy`, `multiplex.dfy`, `bits.dfy`,
`http3.dfy`, `dns.dfy`). The poll-driven server whose tables are keyed by object ids that are reused, the
fiber scheduler and the multiplexing client, all three over the streams of `stream_read.dfy`, and the HTTP/3
and DNS parsers against serializers written from RFC 9000, RFC 9114 and RFC 1035.

Nothing here depends on the repository's build; `dafny verify dfyconfig.toml` checks all of it.

## Where the code and the expectation part

- The socket number kept by an accepted connection is not cleared by `Listener::close()`. It is open
  exactly while the listener still has it (`Lifetime.BorrowedSocketOpenIff`); a run of four operations
  leaves it stale (`Lifetime.StaleBorrowHappens`). Sockets that a connection owns are always open.
- A php_stream made by `asStream()` is buffered: `fread()` fetches a chunk and keeps the rest, so a `read()`
  in between can give later bytes first, or report the end before the last bytes were seen
  (`StreamRead.EndComesEarly`). The peer's bytes are seen in order exactly when `read()` gives bytes only
  while nothing is read ahead (`StreamRead.InOrderIff`), and in order with the end last exactly when it gives
  bytes or the end only then (`StreamRead.ExactlyOnceIff`). A program can look: PHP reports the number of
  unread bytes of a stream.
- The wait of the timed handshake lies between 0 and the time left exactly when the engine's timer, cut to
  32 bits, is not negative (`ConnectTimed.WaitInRangeIff`); if it is so every time, the handshake returns in time.
- A domain name is encoded as the standard says exactly when no label is "0", which `array_filter` drops
  (`Dns.EncodedRightIff`, `Dns.ZeroLabelIsLost`). What `dns_name` builds of labels of up to 255 octets is
  skipped by `dns_skip` exactly when none reaches 192 (`Dns.SkipLandsIff`); of two labels of 257 octets one is
  skipped and the other is not, depending on their contents (`Dns.WrappingGoesEitherWay`).
- A pin in the array form is compared up to its first NUL, so what follows is not judged
  (`Fingerprint.NulHidesTheRest`). It is judged as a whole if and only if it has no NUL or what stands before
  the first one does not spell the certificate's digest (`Fingerprint.JudgedWholeIff`); whatever the
  certificate is, if and only if it has no NUL or what stands before the first one is not the hexadecimal form
  of any digest of that size (`Fingerprint.AlwaysJudgedWholeIff`). In the string form a NUL never matches. An
  empty array accepts.
- README.md:105 says that a pin's length may stand for MD5 or SHA-1. The code rejects both
  (src/quic_util.c:584-593), and so does the model.

## Model

| member | source | states |
|---|---|---|
| Ledgers.FreeKeepsChildrenFirst | src/quic_stream.c:155-175 | freeing a handle without held stream SSLs keeps "a connection SSL is freed only after every stream SSL on it" |
| Ledgers.FreeAllKeeps | src/quic_listener.c:49-72 | freeing a list of distinct held handles keeps each handle held once or freed once, and children before parents |
| Ledgers.FreeAllEffect | src/quic_listener.c:49-72 | exactly the listed handles leave the ledger, in order |
| Ledgers.BalancedKeeps | src/quic_connection.c:342-360 | code that gives back or keeps everything it took leaves the whole ledger conserved |
| Ledgers.OwesTaken | src/quic_connection.c:167-173 | a resource put into a C local is a new debt of the running constructor |
| Ledgers.OwesGiven | src/quic_connection.c:345-358 | a cleanup line settles exactly that debt |
| Ledgers.OwesKept | src/quic_connection.c:333-339 | storing a local in the object hands the debt to the field |
| Lifetime.HandlesAreHeld | src/quic_connection.c:69-99 | what an object frees is exactly what the ledger has under its name, without repetition |
| Lifetime.UnreferredHasNoChildren | src/quic_connection.c:73-81 | when no Stream refers to a Connection, no stream SSL on its SSL is still held |
| Lifetime.DestroyKeeps | src/quic_stream.c:155-175 | destroying an object whose last reference is gone keeps the invariant, with its own reference pending |
| Lifetime.ReleaseKeeps | src/quic_stream.c:169-172 | counting down a given-up reference restores exact counts and all of the invariant, however far the cascade goes |
| Lifetime.CopyKeeps | src/quic_stream.c:472-484 | another variable on an object keeps the invariant |
| Lifetime.DropKeeps | src/quic_stream.c:155-175 | so does giving one up |
| Lifetime.AcceptKeeps | src/quic_listener.c:244-262 | accept() keeps the invariant, with or without a connection to give |
| Lifetime.PutStreamKeeps | src/quic_stream.c:193-202 | a new stream SSL with its reference to the connection keeps the invariant |
| Lifetime.AsStreamKeeps | src/quic_stream.c:489-512 | asStream() keeps the invariant, also when the allocation fails |
| Lifetime.PutBareKeeps | src/quic_stream.c:140-153 | so does an object before its constructor runs |
| Lifetime.FcloseKeeps | src/quic_stream.c:76-89 | fclose(), once or again, keeps the invariant |
| Lifetime.CloseConnectionKeeps | src/quic_connection.c:418-441 | close() on a connection, once or again, keeps the invariant |
| Lifetime.ReleaseListenerKeeps | src/quic_listener.c:267-274 | close() on a listener, once or again, keeps the invariant although accepted connections live on |
| Lifetime.ConstructConnectionKeeps | src/quic_connection.c:153-360 | a Connection constructor, successful or not, on a fresh or an established object, keeps the invariant |
| Lifetime.ConstructListenerKeeps | src/quic_listener.c:105-239 | so does a Listener constructor, also after a failure or after close() |
| Lifetime.StepKeeps | src/quic_connection.c:69-146 | every operation a program can do next keeps the invariant |
| Lifetime.CreateGives | src/quic_stream.c:140-153 | a new object is empty, counted once, held by one more variable and by nothing else |
| Lifetime.CopyGives | src/quic_stream.c:482-483 | copying a variable is one more variable and one more reference on that object, and nothing else |
| Lifetime.AcceptGives | src/quic_listener.c:244-262 | accept(): with an SSL and a connection to give, a new Connection in a new variable that owns a new connection SSL, borrows the listener's socket number and refers to the listener, whose count is one more; otherwise nothing changes |
| Lifetime.OpenStreamGives | src/quic_connection.c:365-413 | openStream() and acceptStream(): with an SSL and a stream to give, a new Stream in a new variable that owns a new stream SSL on the connection's and refers to the connection, whose count is one more; otherwise nothing changes |
| Lifetime.ConstructStreamGives | src/quic_stream.c:521-554 | new Quic\Stream($conn): an empty Stream gets a new stream SSL on the connection's and refers to it, whose count is one more; an open stream, a closed connection or an engine failure changes nothing |
| Lifetime.AsStreamGives | src/quic_stream.c:489-512 | asStream(): a php_stream in a new variable that refers to the Stream, whose count is one more; a failed allocation changes nothing |
| Lifetime.GetConnectionGives | src/quic_stream.c:472-484 | getConnection(): one more variable on the stream's own connection, and its count is one more |
| Lifetime.FcloseGives | src/quic_stream.c:76-89 | fclose(): the php_stream refers to nothing any more and stays; the Stream is counted down by one, and when that was its last reference it is gone and its SSL freed; a second fclose changes nothing |
| Lifetime.CloseConnectionGives | src/quic_connection.c:418-441 | close(): an established connection is marked closed and keeps its SSL and socket; nothing else changes |
| Lifetime.CloseListenerGives | src/quic_listener.c:49-72 | close(): SSL, socket, CTX, ALPN buffer and callback data are freed in that order, the struct is empty, and no object goes |
| Lifetime.ConstructConnectionGives | src/quic_connection.c:333-360 | new Quic\Connection: either nothing is kept and the object is as it was, or it had no SSL and now owns a new SSL and a new socket, and nothing else is kept |
| Lifetime.ConstructListenerGives | src/quic_listener.c:213-239 | new Quic\Listener: the same, with an SSL, a CTX, a socket and callback data with its ALPN buffer |
| Lifetime.RunKeeps | src/quic_connection.c:69-146 | the invariant holds in every state of every run |
| Lifetime.RunLifetimes | src/quic_connection.c:73-81 | in every run: a held stream SSL has its connection SSL still held; each handle is freed at most once and parents after children; a Stream's Connection and an accepted Connection's Listener are alive, one class down, so there is no cycle |
| Lifetime.LiveIsReachable | src/quic_stream.c:155-202 | no object outlives the last path to it from a variable |
| Lifetime.DropCollectsExactly | src/quic_stream.c:155-202 | dropping a variable destroys exactly the objects that no remaining variable leads to |
| Lifetime.NoVariablesNothingHeld | src/quic_connection.c:69-99 | without variables there is no object, no held handle, and every handle was freed exactly once |
| Lifetime.ShutdownFreesAll | src/quic_listener.c:91-98 | giving up the variables in any order ends there |
| Lifetime.BorrowedSocketOpenIff | src/quic_listener.c:261 | the socket number of an accepted connection is open if and only if its listener still has it |
| Lifetime.CloseListenerStrandsBorrows | src/quic_listener.c:267-274 | closing the listener leaves its accepted connections alive, SSL and all, with a closed socket number |
| Lifetime.StaleBorrowFollows | src/quic_listener.c:244-274 | every run with a listening Listener extends to such a state |
| Lifetime.StaleBorrowHappens | src/quic_listener.c:244-274 | a concrete run of four operations that does |
| Lifetime.OwnedSocketOpen | src/quic_connection.c:83-91 | the socket that a client connection owns is open, and its own, as long as it lives |
| Zend.ReleaseBelow | src/quic_connection.c:93-97 | a release does not depend on, nor change, what refers to the released object |
| Zend.LateRemoval | src/quic_stream.c:169-174 | freeing the object's memory after releasing its reference comes to the same state as before it |
| Zend.ListenerOrder | src/quic_listener.c:49-72 | the four conditional frees, one after the other, free the listener's handles in that order |
| Zend.ConnectionOrder | src/quic_connection.c:78-91 | the SSL, then the socket if it is owned |
| Zend.ObjectStore.GiveBack | src/quic_listener.c:51-54 | a set field is freed and cleared, an unset one left alone |
| Zend.ObjectStore.ListenerRelease | src/quic_listener.c:49-72 | releases the SSL, the socket, the CTX and the callback data with its buffer, and clears the fields, as the lifetime model's close() does |
| Zend.ObjectStore.ConnectionFree | src/quic_connection.c:69-100 | ends in the lifetime model's state after the Connection is destroyed and its listener reference counted down |
| Zend.ObjectStore.StreamFree | src/quic_stream.c:155-175 | likewise for a Stream: its SSL goes before its connection reference |
| Zend.ObjectStore.ResourceFree | src/quic_stream.c:76-89 | likewise for a php_stream |
| Zend.ObjectStore.Release | src/quic_stream.c:169-172 | a reference less; at zero the free handlers cascade to the lifetime model's release |
| Zend.ObjectStore.DropVariable | src/quic_stream.c:155-175 | unset() of a variable is the lifetime model's step |
| Zend.ObjectStore.Accept | src/quic_listener.c:244-262 | accept() returns the new connection exactly when there are an SSL and a connection to give, which borrows the socket and keeps the listener alive; otherwise null, and nothing changes |
| Zend.ObjectStore.OpenStream | src/quic_connection.c:365-413 | with an SSL on the connection and a stream from the engine: returns a Stream that owns a new handle of kind stream SSL on the connection's, and the connection is counted once more; otherwise openStream() throws, acceptStream() gives null, and nothing changes |
| Zend.ObjectStore.ConstructStream | src/quic_stream.c:521-554 | succeeds exactly on an empty Stream with an established connection and a stream from the engine, and fills the SSL and the connection; otherwise throws and changes nothing |
| Zend.ObjectStore.AsStream | src/quic_stream.c:489-512 | returns a new php_stream exactly when there is an SSL and the allocation succeeds; the reference is taken first and given back when it fails |
| Zend.ObjectStore.Fclose | src/quic_stream.c:76-89 | releases the Stream once and forgets it: one reference less, and the Stream's SSL freed when it was the last |
| Zend.ObjectStore.CloseConnection | src/quic_connection.c:418-441 | the flag is set and the engine told exactly when the connection was established and not yet closed |
| Zend.ObjectStore.CloseListener | src/quic_listener.c:267-274 | is the lifetime model's close(): all five resources given back in the order of the code, the struct empty |
| Zend.ObjectStore.GetConnection | src/quic_stream.c:472-484 | throws without a connection, otherwise another reference to it |
| Zend.ObjectStore.FindSocket | src/quic_util.c:50-70 | the socket is that of the first usable candidate, those before it are closed; none is left open when no candidate is usable |
| Zend.ObjectStore.CopyPeer | src/quic_util.c:72-78 | the address is a copy of the chosen candidate's; when it cannot be copied the socket is closed |
| Zend.ObjectStore.UdpClient | src/quic_util.c:35-87 | succeeds exactly when lookup, some candidate and the copy succeed; the socket kept is that of a candidate which could be created, attached and made non-blocking, the first such; the address list is given back in every case |
| Zend.ObjectStore.UdpServer | src/quic_util.c:89-165 | succeeds exactly when lookup and some candidate succeed; the socket kept is that of the first candidate which could be created, bound (and its port shared if asked) and made non-blocking; the address list is given back in every case |
| Zend.ObjectStore.EngineSetup | src/quic_connection.c:231-328 | gets through exactly when every engine call does; what is set of ctx and ssl at a failure is what the cleanup finds |
| Zend.ObjectStore.Connect | src/quic_connection.c:217-359 | the constructor keeps exactly an SSL and a socket, or nothing |
| Zend.ObjectStore.ConstructConnection | src/quic_connection.c:153-360 | throws exactly when established already or a check or call fails, so also on a pin that does not match; only success fills the object, and every resource taken is given back exactly once or kept by a field |
| Zend.ObjectStore.ListenSetup | src/quic_listener.c:174-209 | gets through exactly when every engine call does; once the context is configured the callback data holds the buffer and the local is NULL, so that the buffer is in exactly one of the two |
| Zend.ObjectStore.ListenCleanup | src/quic_listener.c:221-237 | whatever is set at a failure is given back exactly once, the buffer by whichever of alpn and adata has it, the callback data after its buffer |
| Zend.ObjectStore.Listen | src/quic_listener.c:154-239 | the constructor keeps exactly an SSL, a CTX, a socket, the callback data and the ALPN buffer, or nothing |
| Zend.ObjectStore.ConstructListener | src/quic_listener.c:105-239 | throws exactly when listening already or a check or call fails; every resource taken is given back exactly once or kept by a field, the ALPN buffer through the callback data |
| Zend.ConnectSucceedsIff | src/quic_connection.c:177-328 | the exact list of answers under which new Quic\Connection succeeds: port, host, ALPN, lookup, a candidate created, attached and non-blocking, every engine call, the handshake, and the pin if one is given |
| Zend.ListenSucceedsIff | src/quic_listener.c:119-209 | the same for new Quic\Listener |
| Zend.ObjectStore.Perform | src/quic_connection.c:153-441 | whatever the program does next, the C code takes a step of the lifetime model and keeps its invariant |
| StreamRead.Engine.ReadEx | src/quic_stream.c:303-306 | the assumed contract of SSL_read_ex: between 1 and room of the next bytes, or nothing consumed and a reason |
| StreamRead.NextBuffer | src/quic_stream.c:318-321 | doubling or stopping at want gives min(want, 65536 * 2^n), strictly larger, at most twice what was read |
| StreamRead.Stream.Enlarge | src/quic_stream.c:320-321 | the bytes read so far survive a reallocation |
| StreamRead.Stream.ReadBehind | src/quic_stream.c:303-308 | a read into the non-empty rest of the buffer extends the delivered bytes without gap |
| StreamRead.Stream.Drain | src/quic_stream.c:295-325 | the loop delivers exactly the next bytes; blocking mode makes one engine read; against an engine that fills its room it delivers min(want, available), like one big read; total <= cap <= want, cap <= max(65536, 2 * total), and the n-th reallocation needs 65536 * 2^(n-1) < want |
| StreamRead.Stream.Read | src/quic_stream.c:261-363 | the same for read(), with its four outcomes fixed by the engine alone: "" for want of data; null for a clean end, a reset from either side or a closed connection; an exception for any other failure; an end met after data is left for the next read |
| StreamRead.PhpStream.OpRead | src/quic_stream.c:48-74 | at most count of the next bytes; eof exactly after an end; -1 exactly after a failure |
| StreamRead.PhpStream.Fread | src/quic_stream.c:489-512 | fread() over the op: what was read ahead first, one fetch only when that is used up; it gives all there is up to the count, and what it gives and what stays read ahead is exactly what was read ahead and what the fetch brought; a failure is reported exactly when there is nothing else, and eof exactly for an end |
| StreamRead.NothingLost | src/quic_stream.c:48-74 | what was seen and what is read ahead is together exactly the bytes the engine handed out, each once |
| StreamRead.InOrderIff | src/quic_stream.c:261-363 | the bytes are seen in the peer's order without gap if and only if read() gave bytes only while nothing was read ahead |
| StreamRead.EndAfterAllIff | src/quic_stream.c:341-344 | a clean end is seen after every byte if and only if nothing is read ahead then |
| StreamRead.ExactlyOnceIff | src/quic_stream.c:261-363 | both together hold exactly when read() gave bytes or the end only while nothing was read ahead |
| StreamRead.InOrderIsPrefix | src/quic_stream.c:261-363 | seen in order means: a prefix of what the peer sent |
| StreamRead.EndComesEarly | src/quic_stream.c:489-512 | after fread() of one byte of two, read() reports the end before the second is seen |
| StreamRead.CleanEndIsFinal | src/quic_stream.c:341-344 | after a clean end with nothing read ahead no call gives another byte |
| StreamRead.Perform | src/quic_stream.c:48-74 | each call delivers the next bytes of the one engine cursor or of the read-ahead, and reports a clean end exactly when the engine does |
| StreamRead.Drive | src/quic_stream.c:261-363 | any interleaving of read() and fread() with any lengths and chunks, in either mode, with anything arriving in between, is a log of the kind the results above are about; when it is prompt, what was seen and what is read ahead is the peer's bytes up to the cursor |
| StreamRead.ReadAll | examples/http3-get.php:36-41 | the blocking read-until-null loop returns all the peer sent after a clean end, and a prefix after a reset; it throws exactly when its last read() did |
| Common.JoinSplit | src/quic_util.c:283-302 | splitting at a separator loses nothing and leaves none in a piece |
| Alpn.EncodeRoundTrip | src/quic_util.c:251-264 | decoding an encoded list gives the list (section 3.1 of RFC 7301) |
| Alpn.EncodeFailsIff | src/quic_util.c:254-258 | encoding fails exactly on a protocol outside 1 to 255 bytes |
| Alpn.TextIsListOfTokens | src/quic_util.c:273-308 | the string form is the array form on its trimmed non-empty tokens; it fails exactly when there is none or one is too long; decoding gives the tokens |
| Alpn.TokensAreClean | src/quic_util.c:283-308 | whatever the text, a token has no space or tab (32, 9) at either end and no comma (44) inside |
| Alpn.PaddedTokensAreRead | src/quic_util.c:283-308 | clean tokens with any runs of spaces and tabs around them and any empty fields between, joined by commas, are read as exactly those tokens, and the wire list decodes to them |
| Alpn.WireFormat | src/quic_util.c:251-264 | each protocol is a length octet and that many octets, first to last |
| Alpn.Refused | src/quic_util.c:254-333 | an empty array, an option of another type, a string without a token and a protocol of 0 or more than 255 octets after good ones have each their own error |
| Alpn.Append | src/quic_util.c:251-264 | appends one length-prefixed protocol or refuses it |
| Alpn.TrimField | src/quic_util.c:285-288 | the two index loops leave the field without the blanks at its ends |
| Alpn.FromText | src/quic_util.c:273-308 | the tokenizer loop produces the encoding of the tokens, or the error of the first bad one; no protocol it sends has a space or tab at an end or a comma |
| Alpn.FromZval | src/quic_util.c:266-340 | every form of the option has its encoding or its error |
| Alpn.FirstCommon | src/quic_listener.c:32-47 | the first of the server's list that the client offers; none exactly when the lists are disjoint |
| Alpn.SelectNextProto | src/quic_listener.c:40-42 | the bytewise selector on wire lists finds the first common protocol of the decoded lists |
| Alpn.SelectCallback | src/quic_listener.c:32-47 | the callback answers that protocol, or the fatal alert |
| Alpn.Negotiate | src/quic_listener.c:32-47 | from both options through both encodings: the server's first protocol that the client also names, and the alert exactly when there is none (section 3.2 of RFC 7301) |
| EchoServer.EntryIsResult | examples/echo-server.php:95-100 | inside a batch the entry under a result's id is the result's own stream, or there is none, although ids are reused |
| EchoServer.ConnAdded | examples/echo-server.php:64-68 | an accepted connection gets a key of its own |
| EchoServer.StreamAdded | examples/echo-server.php:73-76 | an accepted stream gets a key of its own, with its own connection's id |
| EchoServer.DroppedOk | examples/echo-server.php:81-92 | matching by cid drops exactly the streams of the connection, and no other result of the batch is about it |
| EchoServer.NumberIsOnce | examples/echo-server.php:93-115 | no stream is in the table twice |
| EchoServer.ItemsOk | examples/echo-server.php:43-53 | the new $items keep every id unique |
| EchoServer.Server.AcceptAll | examples/echo-server.php:62-68 | every accepted connection is added, none replaced |
| EchoServer.Server.AcceptStreams | examples/echo-server.php:73-76 | every accepted stream is added empty, under its connection, none replaced |
| EchoServer.Server.UnsetStreams | examples/echo-server.php:85-91 | exactly the entries with that cid go |
| EchoServer.Server.DropConnection | examples/echo-server.php:81-92 | exactly the connection and its own streams go |
| EchoServer.Server.HandleConnection | examples/echo-server.php:69-92 | the invariant holds after the event, with error or without |
| EchoServer.Server.HandleStream | examples/echo-server.php:93-115 | a stale result reads and changes nothing; otherwise the stream is read once, the chunk goes to it alone, and null writes "echo: " and exactly its bytes, once |
| EchoServer.Server.BuildItems | examples/echo-server.php:43-53 | the listener first, then each connection and each stream once |
| EchoServer.Server.HandleResult | examples/echo-server.php:58-116 | each kind of result has its own effect and no other; the invariant and every earlier answer stay |
| EchoServer.Server.HandleNext | examples/echo-server.php:56-116 | one result is handled, and the program goes on exactly when no read() has thrown |
| EchoServer.Server.HandleAll | examples/echo-server.php:58-116 | every reported result is handled once, in any order; the loop stops early exactly when a read() threw, on a failure that is no end of the stream |
| EchoServer.Server.Round | examples/echo-server.php:38-127 | a whole turn keeps the invariant and handles exactly the results reported, whatever they are and in whatever order, unless a read() threw |
| EchoServer.Wires.Read | examples/echo-server.php:102 | reading one native stream leaves every other as it is; what was read of each stays a prefix of its peer's bytes; it throws only on a failure that is no end of the stream |
| EchoServer.Server.AnswersAreRight | examples/echo-server.php:104-110 | every answer is "echo: " and all that the peer sent on that stream, or what had come before a reset or close |
| EchoServer.Server.Run | examples/echo-server.php:38-127 | all the turns are made exactly when no read() throws; the tables are right and every answered stream was answered once, with all its peer sent after a clean end |
| Poll.ReadyByKey | src/quic_poll.c:149-161 | each key has exactly the events of its own item, and is left out when there are none |
| Poll.ReadyOnlyKeys | src/quic_poll.c:149-161 | the result has no other keys |
| Poll.Fill | src/quic_poll.c:78-117 | the first pass fills item i from entry i with no events reported yet, or reports the first malformed entry |
| Poll.Collect | src/quic_poll.c:149-161 | the second pass over the same hash, holes and all, stays aligned with the array |
| Poll.Poll | src/quic_poll.c:44-166 | one malformed item: no poll; otherwise one poll on the items in order, and each key gets the events that this poll left in its own item; the buffer is freed once exactly if it came from the heap, on every exit |
| Poll.Count | src/quic_poll.c:66 | holes are not counted |
| Poll.IndexFindIs | src/quic_poll.c:84-90 | an element is found by its key wherever it stands in the hash, and missed exactly when the key is not there |
| Poll.GoodPair | src/quic_poll.c:19-116 | an array, or a reference to one, with a live Connection, Listener or Stream under 0 and a number under 1 is the item of that object's SSL and that number |
| Poll.BadEntry | src/quic_poll.c:79-90 | a number, bool, null or object is no entry, nor is an array without an element 0 or 1 |
| Poll.NotLivePair | src/quic_poll.c:19-107 | an object of another class, one without an SSL and anything that is no object are reported as not live, with the entry's index |
| Poll.EventsAre | src/quic_poll.c:110-116 | null, false and an empty array ask for no event, true for event 1, a number for itself |
| ConnectTimed.RemainingIsExactIff | src/quic_util.c:215-216 | on a monotonic clock the mixed 64-bit arithmetic is the true time left if and only if less than 2^63 ms have passed |
| ConnectTimed.WaitInRangeIff | src/quic_util.c:222-230 | the wait lies in 0..remaining if and only if the timer cut to 32 bits is not negative |
| ConnectTimed.WaitIs | src/quic_util.c:222-230 | without an engine timer the wait is the time left, at most INT_MAX; with one, whatever its upper bits, the lower 32 bits decide |
| ConnectTimed.FittingTimerIsHonoured | src/quic_util.c:222-230 | a timer that fits in an int is honoured as it is |
| ConnectTimed.LongTimerGoesNegative | src/quic_util.c:226-229 | a timer of 2^31 ms makes the wait negative |
| ConnectTimed.Handshake.ConnectTimed | src/quic_util.c:189-246 | for every timeout: 1, 0 or -1 exactly as the last answer was done, failed or pending; -1 only when timeout_ms have passed; each earlier turn was pending with time left and waited accordingly; blocking mode is restored; it ends, and, when every timer was punctual, at most two calls after the deadline |
| Fingerprint.MatchIffDecodes | src/quic_util.c:608-612 | a string equals the hex encoding but for case if and only if it hex-decodes to the digest |
| Fingerprint.DigitsAre | src/quic_util.c:608-612 | 0-9, a-f and A-F are the digits with their values, the first of two counts for sixteen, and encoding is in lower case |
| Fingerprint.MdForHexlen | src/quic_util.c:582-594 | 64, 96 and 128 digits stand for SHA256, SHA384 and SHA512, any other length for none |
| Fingerprint.FpMatches | src/quic_util.c:596-613 | printing byte by byte into the buffer and comparing accepts exactly a C string that decodes to the digest |
| Fingerprint.PrintedIsEncoding | src/quic_util.c:608-610 | the printed buffer, up to its NUL, is the encoding |
| Fingerprint.TextAcceptedIff | src/quic_util.c:628-640 | in the string form the whole string must decode to the digest, NUL or not |
| Fingerprint.JudgedWholeIff | src/quic_util.c:677 | an array pin is judged as a whole if and only if it has no NUL or what stands before the first one does not spell the certificate's digest |
| Fingerprint.AlwaysJudgedWholeIff | src/quic_util.c:677 | for every certificate, if and only if it has no NUL or what stands before the first one does not decode to the algorithm's size |
| Fingerprint.NulHidesTheRest | src/quic_util.c:677 | with one, what follows it is not compared |
| Fingerprint.PeerCertificate.CheckFingerprint | src/quic_util.c:615-692 | the string form accepts exactly a decoding pin of a known length; the array form exactly when every entry names a digest of at least 32 bytes and matches, and reports the first that does not; the certificate reference is given back |
| Fingerprint.PeerCertificate.CheckEntry | src/quic_util.c:649-682 | one entry's error, none exactly when it matches |
| Fingerprint.EntryErrors | src/quic_util.c:649-682 | an entry without a name or value, an unknown algorithm, a digest under 32 bytes and a value that differs have each their own error, in that order of precedence; a matching one has none |
| Bits.OrBelow | examples/http3-get.php:55 | shift-or of a byte is multiply-and-add |
| Bits.AndMask | examples/http3-get.php:51 | masking the low bits is the remainder |
| Bits.TopTwoBits | examples/http3-get.php:50-51 | a byte's length code and value bits |
| Http3.NumberOfBigEndian | examples/http3-get.php:47-60 | octets spell the number they were made from |
| Http3.HeadTellsWidth | examples/http3-get.php:49-50 | the first octet of an encoding has the code of its width (section 16 of RFC 9000) |
| Http3.VarintRoundTrip | examples/http3-get.php:47-60 | every 1-, 2-, 4- or 8-octet encoding of v, at any offset in any bytes, has width and value v |
| Http3.EightOctetExample | examples/http3-get.php:47-60 | the eight-octet example of appendix A.1 of RFC 9000, octet by octet |
| Http3.FourOctetExample | examples/http3-get.php:47-60 | the four-octet one |
| Http3.ShortExamples | examples/http3-get.php:47-60 | those of two octets and of one |
| Http3.AccumulateNext | examples/http3-get.php:53-56 | one more octet shifts without overflow and adds |
| Http3.Varint | examples/http3-get.php:47-60 | reads that value, moves by that width, stays below 2^62 |
| Http3.FrameAt | examples/http3-get.php:65-75 | where a serialized frame's type, length, payload and successor are |
| Http3.ShortFrame | examples/http3-get.php:65-75 | type, length and payload octet by octet, and only type 0 adds to the body |
| Http3.CollectBody | examples/http3-get.php:62-75 | for every list of frames with any legal widths: the body is the DATA payloads in order, all else is skipped whole, and the offset grows to exactly the end (section 7.1 of RFC 9114) |
| Common.SplitJoin | examples/doq-query.php:19 | splitting at a separator undoes joining |
| Dns.DnsName | examples/doq-query.php:15-25 | the loop writes the kept labels, each with its length, and a zero octet |
| Dns.NameExample | examples/doq-query.php:15-25 | "ab.c" on the wire, octet by octet |
| Dns.EncodedRightIff | examples/doq-query.php:15-25 | the text of a name, with or without final dot, is encoded as section 3.1 of RFC 1035 says if and only if no label is "0" |
| Dns.ZeroLabelIsLost | examples/doq-query.php:19 | "0.a" is encoded as "a" |
| Dns.DnsSkip | examples/doq-query.php:27-39 | the loop gets to where the name ends |
| Dns.SkipInvertsName | examples/doq-query.php:27-39 | any legal name, plain or ending in a pointer, is skipped exactly in any context (section 4.1.4 of RFC 1035) |
| Dns.SkipLandsIff | examples/doq-query.php:27-39 | unless a label wraps around to a plain length, dns_name's output is skipped exactly if and only if no label reaches 192 octets |
| Dns.WrappingGoesEitherWay | examples/doq-query.php:21 | of two labels of 257 octets, whose length octet is 1, one is skipped exactly and the other is not |
| Dns.NameThenSkip | examples/doq-query.php:15-39 | dns_skip lands behind dns_name's output in any context, under the same condition |
| Dns.RecordAt | examples/doq-query.php:64-72 | where a record's fields, data and successor are |
| Dns.RecordOctets | examples/doq-query.php:64-72 | a record behind a pointer, octet by octet (sections 3.2.1 and 4.1.4 of RFC 1035), and only type 1 gives an address |
| Dns.AnswersAt | examples/doq-query.php:60 | the first record is behind the header and the question |
| Dns.Answer | examples/doq-query.php:64-72 | one turn moves past exactly one record, with its address if it is an A record |
| Dns.Answers | examples/doq-query.php:54-73 | on every well-formed one-question response the loop visits exactly the start of each record, and gives the response code (the low half of the header's fourth octet) and the addresses of the A records in order |
| Replies.ReadOne | src/quic_stream.c:261-363 | one read(65535) extends what was read of the stream to exactly what the engine handed out |
| Replies.ReadMore | examples/fibers.php:46-49 | what was read so far is a prefix of the peer's bytes, and null means it is all unless the stream failed |
| Replies.WholeUnlessFailed | examples/fibers.php:46-51 | a finished reply is the peer's whole data, or a prefix after a reset or close |
| Fibers.Fiber.Advance | examples/fibers.php:19-52 | a task that has not ended reads on until there is nothing, an end or an exception; it prints its reply when it ends and not before |
| Fibers.Scheduler.Advance | examples/fibers.php:62-63 | the other tasks stay as they are |
| Fibers.Scheduler.Start | examples/fibers.php:60-69 | $waiting holds exactly the suspended tasks, each with its stream, also when one ended at once |
| Fibers.Scheduler.Resume | examples/fibers.php:84-95 | the same after a resumption; only a suspended task is ever resumed |
| Fibers.Scheduler.ResumeAll | examples/fibers.php:84-95 | every reported task is resumed and reads again, in any order |
| Fibers.Scheduler.Round | examples/fibers.php:75-96 | a whole turn keeps this, whatever is reported and in whatever order |
| Fibers.Scheduler.AllPrinted | examples/fibers.php:75-96 | when all tasks have ended there is one line for each |
| Fibers.Scheduler.Run | examples/fibers.php:58-96 | for any number of tasks and turns; it stops early exactly when a task's read() threw; when nothing waits, every task has printed its own reply once, all of what its peer sent unless its stream failed |
| Multiplex.OpenedOk | examples/multiplex.php:19-26 | an opened stream gets a key of its own in both tables |
| Multiplex.ClosedOk | examples/multiplex.php:43-48 | printing and unsetting keeps the tables on the same keys and each stream either open or printed once |
| Multiplex.OwnEngine | examples/multiplex.php:41 | reading one stream touches no other |
| Multiplex.Client.Open | examples/multiplex.php:21-25 | the invariant holds with the new stream |
| Multiplex.Client.Read | examples/multiplex.php:41-53 | a chunk goes to its own stream's buffer |
| Multiplex.Client.Echo | examples/multiplex.php:45-46 | the line is the stream's own buffer, and both entries go |
| Multiplex.Client.Drain | examples/multiplex.php:39-54 | the inner loop reads this stream and no other until it gives "" or null, and no longer; only null removes it and prints its line; false exactly when read() threw |
| Multiplex.Client.DrainAll | examples/multiplex.php:37-55 | every reported stream is drained, in any order, unless a read() threw |
| Multiplex.Client.Round | examples/multiplex.php:28-56 | a whole turn keeps the invariant, whatever is reported |
| Multiplex.Client.Run | examples/multiplex.php:16-56 | it stops early exactly when a read() threw; when no stream is left, every stream's reply has been printed once |

## Left out

- The OpenSSL engine: packets, loss recovery, flow control, TLS. What the binding needs of it is the
  contract of `StreamRead.Engine` and the answers in `Zend.ConnectEnv` and `Zend.ListenEnv`.
- Zend.ObjectStore: one class holds the object store as a map from object numbers to structs and changes it
  in place; the C code has one struct per object and pointers between them, and calls free handlers
  through a table of function pointers. The cycle collector's buffers are not modelled: the references
  of the binding form no cycle.
- Zend.ObjectStore.ConstructConnection: the datagram BIO belongs to the SSL and is not in the ledger; the
  options that only configure the context, and the text of the exceptions, are not modelled.
- Zend.ObjectStore.UdpServer: the branch for platforms without SO_REUSEPORT is not modelled.
- `Stream::write`, `end`, `reset` and `getResetCode`: what they do beyond one check is the engine's, and its
  retry rules are not in the repository. In the example servers a write is one that succeeds in full.
- StreamRead.PhpStream.Fread: PHP's stream layer is not part of the repository; its reading is modelled as far
  as the op goes (chunks of any size, one fetch a call), without stream filters, line reading and `feof()`.
- StreamRead.Stream.Read: allocation failure is not modelled; lengths are not bounded by the address space.
- Alpn.SelectNextProto: SSL_select_next_proto is engine code; it is written here from its documented
  behaviour on well-formed lists, which are the only ones the encoder makes.
- Alpn.FromZval: array entries are taken after their conversion to string.
- Poll.Poll: the conversion of the timeout from a float is not modelled; `zval_get_long` is modelled for
  integers, booleans, null and arrays, not for strings and floats.
- ConnectTimed.Handshake.ConnectTimed: the monotonic clock counts milliseconds from boot below 2^63; a timeout
  that reaches beyond that range may see its end first (None). The clock advances while the loop waits, and a
  call of the engine, or waking up after a wait, takes at most `lag`; which socket events are waited for is the
  engine's choice.
- Fingerprint.PeerCertificate.CheckFingerprint: computing digests is the engine's; they are a parameter.
- EchoServer.Server.Run: the endless loop is any number of turns; an exception from read() ends it, one from
  write() or poll is not modelled; handleEvents() only drives the engine.
- Fibers.Scheduler.Run: any number of turns of the loop; `Fiber` is a class whose body goes on with the read
  it suspended in; requests are not modelled, only their replies; an exception from read() ends
  the run, with every line printed so far right.
- Multiplex.Client.Run: as above.
- Http3.CollectBody: truncated input is not modelled, because PHP's out-of-range string reads only warn;
  neither is the request.
- Dns.Answers: truncated or malformed input is not modelled, for the same reason; the query message, the
  questions' classes and the records' time to live are not read by the code.
- Dns.SkipLandsIff: labels of 256 octets or more whose length octet wraps around to 1 to 191 are left out,
  because their contents decide (`Dns.WrappingGoesEitherWay`).
- Name lookup, socket options, Windows branches, PEM and certificate introspection, `configure_ctx`,
  exception formatting and constants: plumbing without properties that span operations.
- The blocking example programs and the test suite: nothing beyond the members above.
