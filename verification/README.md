# Verified models of PuTTY components, k-means and elastic-net jobs

Dafny models of the parts of this repository with the most state, branching and arithmetic, and proofs of what they
promise. `dafny verify dfyconfig.toml` checks everything.

Most components come twice. A specification on values says what one call does to the whole state, and the theorems over
all runs are about it. A class with the source's fields, buffers and loops is proved to do exactly that, method by
method. Where the code keeps its own bookkeeping, the theorems compare it with something that does not: a grammar for a
byte stream, the byte sequence behind a linked list, the history of every typed byte, the value of an integer.

| file | what it models |
|---|---|
| `Bytes.dfy`, `DottedQuads.dfy` | bytes, C strings; dotted quads as a reader takes them |
| `SocksServer.dfy`, `PortForwarding.dfy` | the SOCKS4/4A/5 server of dynamic port forwarding: meaning of a stream, sessions, and the record with its handlers |
| `HttpConnect.dfy`, `HttpReplies.dfy` | line ends, status line and headers of an HTTP proxy's reply; well-formed replies by their text |
| `ProxySocket.dfy`, `ProxyHandlers.dfy` | the proxy socket and its negotiators, with a back end that may call back in from every callback |
| `ProxyReplies.dfy`, `ProxyFreeze.dfy` | which SOCKS replies grant the connection; what becomes of freeze requests |
| `SocksTunnel.dfy` | that client and that server joined by byte channels |
| `Bufchain.dfy`, `PlinkSteps.dfy`, `Plink.dfy` | the granule queue, and Plink's threads that read from it: as steps on values, and in memory |
| `KeyNumbers.dfy`, `KeyBlobs.dfy`, `Ber.dfy`, `OpenSshKey.dfy`, `SshComKey.dfy` | private key files in OpenSSH and ssh.com form |
| `DialogBox.dfy`, `DialogPanels.dfy` | the order of controlsets in a configuration box; what each panel shows |
| `LineDiscipline.dfy`, `LineTraffic.dfy` | local line editing; everything the back end gets from it, in order |
| `KMeans.dfy`, `ElasticNet.dfy`, `GlmJobs.dfy` | the map-reduce jobs, over exact reals |
| `Int64.dfy`, `Settings.dfy` | 64-bit numbers in halves; escaped lists in a setting |

Standards: SOCKS version 5 is RFC 1928 (sections 3, 4 and 6) with RFC 1929 (section 2) for passwords; BER identifier and
length octets, integers and sequences are ITU-T X.690 (sections 8.1.2, 8.1.3, 8.3 and 8.9); the canonical form of an integer in a blob is section 5 of RFC 4251.

Things the models take as given:

- Sockets are logs of bytes with a frozen flag; a frozen socket delivers nothing. The SSH layer confirms a channel once
  and throttles or feeds only confirmed channels, as `SSH.C:2223`, `3705`, `5738`, `5888-5895` and `6136` arrange.
- A callback's effect is an arbitrary list of calls back into the proxy socket, and the size of the piece at the head of
  its input queue is arbitrary; every theorem is for all of them.
- Names sent by the SOCKS5 client have at most 127 bytes, because `PROXY.C:1024-1025` keeps the length in a `char`; names
  and passwords are C strings of the configuration's sizes.
- Ciphers are pairs of inverse functions on whole blocks; random padding is a parameter; the two CRT exponents of the
  OpenSSH form are any byte strings.

Where the code does not do what one would expect, the proofs say exactly when it does:

- `Ber.RoundTrip`: tags above 30 come back only if the top bit of the first byte is set, since `IMPORT.C:160-168` tests
  that byte once more before reading on. The callers use tags 2 and 16.
- `KeyBlobs.AssertionCovers`: the assertion at `IMPORT.C:708` looks at `e` and `iqmp`, not at `n`. A blob without `n`
  passes it (`AssertionMissesModulus`), though no `public_blob` function makes one.
- `SshComKey.KeptAsIs`: `IMPORT.C:1362` writes the private exponent with `put_string`, so it comes back with its value
  but not always with its bytes.
- `ProxyReplies.GrantTaken`: `PROXY.C:1107-1111` leaves out the length byte of a name in a SOCKS5 reply. The client eats
  exactly the grant if and only if the reply carries no name; else the last byte of the reply becomes the first byte of
  the back end's data (`ReplyByteDelivered`).
- `ProxyReplies.ActiveExactly`: the negotiator deals with one message a read (`PROXY.C:1038-1039`), so a grant activates
  the client if and only if there has been a read for every message after each earlier one.
- `HttpReplies.ReplyDecides`: `get_line_end` looks one byte too far for a continuation line, at the second byte of the
  next line (`PROXY.C:494-496`); the theorem is for header lines whose second byte is neither a space nor a tab.
- `HttpConnect.ConclusiveExactly`: `sscanf` skips white space past the status line. A status line is judged alike in
  pieces and in one if and only if scanning it is decided by the bytes that must be there before `get_line_end` finds
  its end; for every other line `InconclusiveStatusDepends` gives a reply where the cut matters.
- `ProxyFreeze.FreezeInCallback`: a freeze asked for while buffered input is delivered is honoured if and only if input
  is left at that moment, the test at `PROXY.C:154`; during the last piece the outer call undoes it (`PROXY.C:180`, and
  `LastPieceFreezeLost`). Order and completeness of delivery hold nevertheless.
- `GlmJobs.StartJob`, `GlmJobs.UpdateJob`: `listSum` goes by the length of its first argument, so that a first mapper
  without rows silently empties the result, while a later one makes the job fail.
- `Int64.Decimal`: zero prints as the empty text.

## Model

| member | source | states |
|---|---|---|
| SocksServer.EverySession | putty_winscp_patches/putty-src/PORTFWD.C:105-343 | Over every run of a dynamic forward: replies, request or refusal are what the client's stream means by a grammar without states; the connection is closed if and only if the stream was refused, somebody hung up or no channel was to be had; and every byte after the request is in the channel or in the leftover buffer, once and in order, all of it in the channel after the confirmation |
| SocksServer.CutsDoNotMatter | putty_winscp_patches/putty-src/PORTFWD.C:105-343 | Two runs that have read the same stream, however cut, have written the same replies; if undisturbed (nobody hung up, every channel granted), or both open, they agree on being closed, on the request and on every byte after it |
| SocksServer.ConverseIsReference | putty_winscp_patches/putty-src/PORTFWD.C:108-302 | The byte loop gives up or completes exactly where the grammar says, having consumed exactly the bytes of the exchange |
| SocksServer.BufferInRange | putty_winscp_patches/putty-src/PORTFWD.C:114-126 | While the exchange goes on, the buffer index stays within the 264 bytes and `dynamic` is one of its five codes |
| SocksServer.AddressRequested | putty_winscp_patches/putty-src/PORTFWD.C:187-192 | Which connection is asked for, by the positions of the bytes in the stream: an IPv4 address becomes a text that reads, cut at its dots, as these four bytes in this order; the port is big-endian |
| SocksServer.FrozenExactly | putty_winscp_patches/putty-src/PORTFWD.C:305-343 | Over every run the socket is frozen exactly while the request is unanswered, a backlog has not drained, or an override is in force |
| SocksServer.Final | putty_winscp_patches/putty-src/PORTFWD.C:309-335 | A finished exchange means the same whatever follows it |
| SocksServer.EarlyOverrideLosesBytes | putty_winscp_patches/putty-src/PORTFWD.C:533-542 | Why runs allow overriding a throttle only after the confirmation: in that excluded step, what is read next is lost |
| PortForwarding.PortForward.Receive | putty_winscp_patches/putty-src/PORTFWD.C:105-343 | The handler with its buffer, loop and fields does what the session model says, for every state and every read; AddressRequested and EverySession are about that model |
| PortForwarding.PortForward.Exchange | putty_winscp_patches/putty-src/PORTFWD.C:108-302 | The loop over one read equals the specified exchange, and leaves exactly the unconsumed bytes |
| PortForwarding.PortForward.TakeByte | putty_winscp_patches/putty-src/PORTFWD.C:114-301 | One received byte: the overflow test, the buffer and its interpretation |
| PortForwarding.PortForward.Confirm | putty_winscp_patches/putty-src/PORTFWD.C:555-571 | Confirmation flushes the leftover buffer and unfreezes |
| PortForwarding.PortForward.constructor | putty_winscp_patches/putty-src/PORTFWD.C:407-458 | A dynamic listener's connection starts unfrozen at the first byte of the exchange |
| ProxySocket.EveryRun | putty_winscp_patches/putty-src/PROXY.C:27-240 | Over every run, whatever the back end does inside its callbacks: an active socket with buffered input keeps the sub-socket frozen; the back end has got the post-negotiation stream in order up to what is held; the wire carried the negotiation, the last urgent write, the ordinary writes after it, then every later write |
| ProxySocket.ActivateSound | putty_winscp_patches/putty-src/PROXY.C:27-75 | Activation from any sound state gives a sound active state, through all re-entrant calls |
| ProxySocket.NegotiationReaches | putty_winscp_patches/putty-src/PROXY.C:510-1169 | Every negotiator only consumes from the front of the input and writes to the wire, and activates at most once, at its end |
| ProxyReplies.EveryNegotiation | putty_winscp_patches/putty-src/PROXY.C:689-1169 | Over every run of a SOCKS client: activation, the bytes consumed, every error reported and everything said are what a grammar without states makes of the proxy's stream, one message a read |
| ProxyReplies.ActiveExactly | putty_winscp_patches/putty-src/PROXY.C:689-1169 | A client is active if and only if the stream begins with a complete grant and each earlier message was followed by a read for every message after it; it has then consumed that grant, said what the grant answers, and reported nothing |
| ProxyReplies.GrantTaken | putty_winscp_patches/putty-src/PROXY.C:1045-1116 | Every stream that begins with a whole SOCKS5 grant, in the words of the standard, is taken for one; exactly the grant is eaten if and only if the reply carries no name |
| ProxyReplies.OnlyGrantsTaken | putty_winscp_patches/putty-src/PROXY.C:1076-1116 | Nothing else is taken for a grant |
| ProxyReplies.ReplyByteDelivered | putty_winscp_patches/putty-src/PROXY.C:1104-1120 | After a reply with a name, the last byte of the reply is the first byte of data for the back end, in every run |
| ProxyReplies.GreetingOffers | putty_winscp_patches/putty-src/PROXY.C:860-876 | The greeting, read as a list of methods, offers none at all and, exactly with credentials, a password |
| ProxyReplies.PasswordReads | putty_winscp_patches/putty-src/PROXY.C:1135-1148 | The password message, read as two counted strings, is user name and password; an empty one arrives as a NUL |
| ProxyFreeze.FreezeInCallback | putty_winscp_patches/putty-src/PROXY.C:153-180 | A freeze that the back end asks for while a buffered piece is delivered, and does not take back in that callback, is honoured if and only if input is left when it asks; nothing more is delivered then |
| ProxyFreeze.FrozenIffLeft | putty_winscp_patches/putty-src/PROXY.C:153-180 | From any state and for any back end: with input in the queue, unbuffering leaves the sub-socket frozen if and only if input is left |
| ProxyFreeze.NextPiece | putty_winscp_patches/putty-src/PROXY.C:161-172 | After a piece that froze nothing the rest of the loop is a call for the rest of the input, so that the statement about callbacks covers every piece |
| ProxyFreeze.LastPieceFreezeLost | putty_winscp_patches/putty-src/PROXY.C:171-180 | The input where a freeze is lost: one buffered byte, and a back end that asks for the freeze on receiving it |
| ProxyFreeze.HeldOnlyOnRequest | putty_winscp_patches/putty-src/PROXY.C:27-181 | Over every run, whatever the back end does inside its callbacks: an active socket holds input back only while the last of all freeze requests was to freeze |
| ProxyHandlers.ProxyRecord.SetFrozenActive | putty_winscp_patches/putty-src/PROXY.C:144-181 | The unbuffering loop with its re-entrant callbacks does exactly the specified deliveries and ends with the specified freeze state, about which the ProxyFreeze theorems are |
| ProxyHandlers.ProxyRecord.ActivateNow | putty_winscp_patches/putty-src/PROXY.C:27-75 | proxy_activate on the record: state, freeze, output queues, notification, unfreeze |
| ProxyHandlers.ProxyRecord.SetFrozenByBackEnd | putty_winscp_patches/putty-src/PROXY.C:144-181 | The back end's freeze request in every state |
| ProxyHandlers.ProxyRecord.Socks4Negotiate | putty_winscp_patches/putty-src/PROXY.C:689-843 | SOCKS4 and 4A on the record: request, reply codes and errors as specified, and as EveryNegotiation reads the stream |
| ProxyHandlers.ProxyRecord.Socks5Negotiate | putty_winscp_patches/putty-src/PROXY.C:846-1169 | SOCKS5 on the record: the method does the specified step, about which EveryNegotiation says what it amounts to: greeting, method, user name and password, request, reply with every address type |
| ProxyHandlers.ProxyRecord.HttpNegotiate | putty_winscp_patches/putty-src/PROXY.C:577-677 | HTTP reply: status line, headers, activation |
| ProxyHandlers.ProxyRecord.Received | putty_winscp_patches/putty-src/PROXY.C:210-227 | Input is queued and negotiated on, or passed through |
| HttpConnect.GetLineEnd | putty_winscp_patches/putty-src/PROXY.C:476-508 | The scanning loop finds the specified line end or none |
| HttpConnect.LineEndStable | putty_winscp_patches/putty-src/PROXY.C:476-508 | A line end that was found stays where it is when data is appended |
| HttpConnect.CutsDoNotMatter | putty_winscp_patches/putty-src/PROXY.C:577-677 | For every reply whose status line is conclusive, activation, rejection and the number of bytes consumed do not depend on how the reply is cut, into any number of pieces |
| HttpConnect.HeaderBytesFollow | putty_winscp_patches/putty-src/PROXY.C:645-646 | The assertion after the status line: bytes are left whenever the headers are entered in the same call |
| HttpConnect.ScanStatusStable | putty_winscp_patches/putty-src/PROXY.C:608-616 | A scan of the status line decided within the data is not changed by what follows |
| HttpConnect.InconclusiveStatusDepends | putty_winscp_patches/putty-src/PROXY.C:602-631 | For every inconclusive status line, a reply that is rejected when the line comes first by itself and not rejected, but activating unless a newline follows the line at once, when all comes together |
| HttpConnect.ConclusiveExactly | putty_winscp_patches/putty-src/PROXY.C:602-631 | The exact condition: a status line and whatever follows it are judged alike in two pieces and in one if and only if scanning is decided within the line and the two bytes that end it |
| HttpReplies.ReplyDecides | putty_winscp_patches/putty-src/PROXY.C:476-677 | Every well-formed reply, whatever its version, code, reason and headers and whatever data follow: a code that begins with 2 activates the socket after exactly the reply, any other is rejected after the status line |
| HttpReplies.ReplyDecidesInPieces | putty_winscp_patches/putty-src/PROXY.C:577-677 | The same however the reply is cut |
| SocksTunnel.EveryRun | putty_winscp_patches/putty-src/PROXY.C:689-1169 | Client and server joined by byte channels with any cutting: no side ever fails, an active client is connected to exactly its target - the port, and the name or a text that reads as the address -, data passes both ways unchanged and in order, a negotiation under way can always go on, and it ends after at most as many deliveries as hello and welcome have bytes |
| SocksTunnel.GrantedIffServable | putty_winscp_patches/putty-src/PORTFWD.C:132-292 | The server grants a client's whole hello if and only if the configuration has no IPv6 target, no SOCKS4A name over 255 bytes and no SOCKS4 address 0.0.0.x, and then asks for the configured port and the configured name or a text that reads as the configured address |
| SocksTunnel.WantedMeets | putty_winscp_patches/putty-src/PORTFWD.C:187-192 | There is exactly one request for a configured target |
| SocksTunnel.AnswerUnderstood | putty_winscp_patches/putty-src/PORTFWD.C:132-292 | Whatever the server answers to a whole hello, the client understands: a grant calling for just that hello, a refusal with its reason, or, for 0.0.0.x, nothing yet |
| SocksTunnel.HelloUnderstood | putty_winscp_patches/putty-src/PROXY.C:691-745 | Every prefix of the client's hello is taken by the server for a prefix of what the client means |
| DottedQuads.DottedQuadInjective | putty_winscp_patches/putty-src/PORTFWD.C:187-192 | The printed form loses nothing: equal host texts come from equal IPv4 addresses |
| DottedQuads.DottedQuadReads | putty_winscp_patches/putty-src/PORTFWD.C:187-192 | A text is what is printed for an address if and only if it has four fields between dots, decimal numbers without leading zeros, with the four bytes as their values in order |
| SocksTunnel.NeverStuck | putty_winscp_patches/putty-src/PORTFWD.C:105-343 | While the client negotiates, a byte is in flight to a side that will read it |
| SocksTunnel.NegotiationEnds | putty_winscp_patches/putty-src/PROXY.C:689-1169 | The undelivered part of hello and welcome shrinks with every delivery, so that any run with enough deliveries has an active client |
| BufferChain.Bufchain.Add | putty_winscp_patches/putty-src/MISC.C:180-211 | Adding appends to the byte sequence, and what was in the chain is neither freed, moved nor overwritten |
| BufferChain.Bufchain.Consume | putty_winscp_patches/putty-src/MISC.C:213-233 | Consuming drops exactly that many bytes; no empty granule is ever met, so the loop ends |
| BufferChain.Bufchain.Prefix | putty_winscp_patches/putty-src/MISC.C:235-239 | The head region of a non-empty chain is a non-empty initial segment of its bytes |
| BufferChain.Bufchain.Fetch | putty_winscp_patches/putty-src/MISC.C:241-261 | Fetching copies a prefix out and leaves the chain alone |
| BufferChain.Bufchain.Clear | putty_winscp_patches/putty-src/MISC.C:163-173 | Clearing frees every granule and leaves an empty chain |
| BufferChain.Bufchain.Size | putty_winscp_patches/putty-src/MISC.C:175-178 | `buffersize` is the number of bytes in live granules |
| BufferChain.Bufchain.constructor | putty_winscp_patches/putty-src/MISC.C:157-161 | An empty chain |
| PlinkOutput.RunProgram | putty_winscp_patches/putty-src/PLINK.C:143-188 | Over every schedule of the main loop and both writer threads: the program in memory takes the specified steps; what the back end gave is the data of its steps at which the main thread was in its loop; what was written is that, up to what is queued, and all of it once the loop has been left, which only happens after the end of the connection |
| PlinkOutput.Stream.NothingLost | putty_winscp_patches/putty-src/PLINK.C:131-188 | Written bytes followed by queued bytes are the bytes given; an empty queue means all is written and no region is lent |
| PlinkOutput.Stream.WriteSome | putty_winscp_patches/putty-src/PLINK.C:143-145 | The writer copies from a granule that has not been freed and still holds the next bytes of the stream |
| PlinkOutput.Stream.FromBackend | putty_winscp_patches/putty-src/PLINK.C:171-183 | Appending while the region is lent leaves the region intact; with no data for an empty chain there is no head to look at, and the process ends |
| PlinkOutput.Stream.ConsumeWritten | putty_winscp_patches/putty-src/PLINK.C:725-727 | Consuming what was written, before the next try_output |
| PlinkOutput.Stream.TryOutput | putty_winscp_patches/putty-src/PLINK.C:155-169 | The region offered to the writer is the head of the chain, and only when none is lent |
| PlinkOutput.Plink.ExitTest | putty_winscp_patches/putty-src/PLINK.C:759-762 | The loop is left if and only if the connection is gone and both queues are empty |
| PlinkOutput.Plink.Take | putty_winscp_patches/putty-src/PLINK.C:719-762 | Every step of the program in memory is the specified step on values, for every state |
| PlinkSteps.LeftAfterDisconnect | putty_winscp_patches/putty-src/PLINK.C:759-762 | In every trace of steps, the loop is left only after the end of the connection, with both queues empty |
| KeyNumbers.LastFoundAllFound | putty_winscp_patches/putty-src/IMPORT.C:284-303 | A failed integer read makes every later one fail: reads find all integers if and only if the last is found |
| KeyNumbers.MpintsOfStrs | putty_winscp_patches/putty-src/IMPORT.C:255-303 | Reading counted strings back gives them, and ends where they end, whatever follows |
| KeyNumbers.StrsOfMpints | putty_winscp_patches/putty-src/IMPORT.C:284-303 | What was read stands in the blob verbatim |
| KeyNumbers.Put32Get32 | putty_winscp_patches/putty-src/IMPORT.C:255-262 | Storing and fetching a 32-bit length are inverse |
| KeyNumbers.ShiftsCountDigits | putty_winscp_patches/putty-src/IMPORT.C:242-243 | Counting shifts until nothing is left finds the number of digits |
| KeyNumbers.ShiftFindsDigit | putty_winscp_patches/putty-src/IMPORT.C:246-249 | Each shift finds its digit |
| KeyNumbers.SameNumberSameDigits | putty_winscp_patches/putty-src/IMPORT.C:264-279 | Integers without leading zero bytes are equal as numbers only if equal as bytes |
| KeyBlobs.AssertionCovers | putty_winscp_patches/putty-src/IMPORT.C:694-760 | What the writers' assertion covers: for DSA every integer, for RSA all but exactly the modulus |
| KeyBlobs.AssertionMissesModulus | putty_winscp_patches/putty-src/IMPORT.C:699-708 | A public blob, such as no public_blob function makes, that passes the RSA assertion without a modulus |
| KeyBlobs.IntegersOfRebuilt | putty_winscp_patches/putty-src/IMPORT.C:699-706 | The integers of a key can be told from the blobs made of them |
| KeyBlobs.SameIfTidy | putty_winscp_patches/putty-src/IMPORT.C:699-706 | Blobs rebuilt from their integers are the same blobs if and only if the name is right and nothing trails |
| KeyBlobs.PutString | putty_winscp_patches/putty-src/IMPORT.C:255-262 | A length and the data, behind what is there already |
| Ber.WriteIdLen | putty_winscp_patches/putty-src/IMPORT.C:200-253 | The sizing call and the writing call give the same length, and the bytes written are the specified header and nothing else |
| Ber.ReadIdLen | putty_winscp_patches/putty-src/IMPORT.C:151-192 | The walk over identifier and length octets finds what the specification finds, or fails with it |
| Ber.RoundTrip | putty_winscp_patches/putty-src/IMPORT.C:151-253 | A header is read back exactly, whatever follows, if and only if the tag is at most 30 or the top bit of its first byte is set |
| Ber.CountDigits | putty_winscp_patches/putty-src/IMPORT.C:242-243 | The counting loop |
| OpenSshKey.WriteThenRead | putty_winscp_patches/putty-src/IMPORT.C:546-830 | Any key, with or without passphrase, comes back with every integer in its place byte for byte despite the exchange of n and e and the two skipped integers; the blobs are the very same if and only if tidy; encrypted files are whole blocks |
| OpenSshKey.WriteBlob | putty_winscp_patches/putty-src/IMPORT.C:776-830 | Sizing pass and writing pass agree (`pos == len`), and the buffer is the padded sequence |
| OpenSshKey.PaddingComesOff | putty_winscp_patches/putty-src/IMPORT.C:810-830 | The last byte of the padded text tells how many bytes to drop, all with that value |
| OpenSshKey.Read | putty_winscp_patches/putty-src/IMPORT.C:546-633 | For every input, well-formed or not, the reading loop gives the specified blobs or failure, every write within `256+keyblob_len` |
| OpenSshKey.Write | putty_winscp_patches/putty-src/IMPORT.C:694-870 | The whole writer gives the specified file, whose contents FileContents states |
| OpenSshKey.FileContents | putty_winscp_patches/putty-src/IMPORT.C:730-830 | The decrypted file, read as BER, is a SEQUENCE of exactly 0, n, e, d, p, q, dmp1, dmq1, iqmp for RSA and 0, p, q, g, y, x for DSA, each by its place in the blobs; at most eight bytes of padding follow under a passphrase |
| OpenSshKey.ReadExactly | putty_winscp_patches/putty-src/IMPORT.C:546-633 | The reader accepts exactly a SEQUENCE that begins with enough INTEGERs, the first of them 0, and makes blobs of them by their places |
| OpenSshKey.IntegersBack | putty_winscp_patches/putty-src/IMPORT.C:578-633 | A run of encoded integers is read back, whatever follows |
| SshComKey.WriteThenRead | putty_winscp_patches/putty-src/IMPORT.C:1211-1584 | Any key comes back with every integer in its own slot (the exchanges of p and q cancel) and with its value; the blobs are the very same if and only if tidy, each rewritten integer canonical and the private exponent without a needless leading zero byte; for any random padding |
| SshComKey.PutMpint | putty_winscp_patches/putty-src/IMPORT.C:1174-1190 | The bit-by-bit search writes the bit count and the integer without leading zero bytes |
| SshComKey.BitCountIsLength | putty_winscp_patches/putty-src/IMPORT.C:1174-1190 | The bit count is the true bit length of every positive integer |
| SshComKey.ItemsBack | putty_winscp_patches/putty-src/IMPORT.C:1150-1190 | What sshcom_put_mpint wrote sshcom_read_mpint reads, whatever follows |
| SshComKey.AssembledIsRebuilt | putty_winscp_patches/putty-src/IMPORT.C:1342-1394 | The reader's order undoes the writer's order |
| SshComKey.KeptAsIs | putty_winscp_patches/putty-src/IMPORT.C:1362-1366 | When put_mp or put_string gives an integer its own bytes back, for every integer, zero included |
| SshComKey.Write | putty_winscp_patches/putty-src/IMPORT.C:1450-1584 | The writer with its fields filled in later: always `pos < outlen`, whole blocks under a passphrase, and the specified container |
| SshComKey.FileContents | putty_winscp_patches/putty-src/IMPORT.C:1450-1584 | The file by its parts: magic number, its own length, the type and cipher spelt out, and the payload that holds exactly e, d, n, iqmp, q, p for RSA and a zero word and p, g, q, y, x for DSA, each by its place in the blobs |
| SshComKey.AcceptedExactly | putty_winscp_patches/putty-src/IMPORT.C:1211-1422 | Exactly which files are read: magic number, type by its beginning, cipher by its name, whole blocks, and enough integers |
| SshComKey.Read | putty_winscp_patches/putty-src/IMPORT.C:1211-1422 | The reader, for every file: the specified result or failure |
| SshComKey.ReadIntegers | putty_winscp_patches/putty-src/IMPORT.C:1339-1394 | The payload's integers, assembled within `cipherlen + 256` bytes |
| DialogBox.PathCompare | putty_winscp_patches/putty-src/DIALOG.C:28-40 | The character loop counts the leading path elements that two paths share, or INT_MAX for equal paths |
| DialogBox.CommonByCharacters | putty_winscp_patches/putty-src/DIALOG.C:28-40 | Character by character agreement against agreement of element lists |
| DialogBox.InsertionKeepsGrouped | putty_winscp_patches/putty-src/DIALOG.C:87-107 | A path put where the search ends keeps all groups together |
| DialogBox.NoValley | putty_winscp_patches/putty-src/DIALOG.C:87-107 | Along the array, likeness to any path rises first and falls then |
| DialogBox.WalkMeetsAll | putty_winscp_patches/putty-src/DIALOG.C:113-124 | The find-path loop meets every set of a panel once, in order, and nothing else |
| DialogBox.EveryHistory | putty_winscp_patches/putty-src/DIALOG.C:127-181 | After every history of requests: every path prefix is one contiguous block, likeness to any path rises and then falls along the array, every walk is complete, and no panel has two boxes of one name |
| DialogPanels.EveryPanel | putty_winscp_patches/putty-src/DIALOG.C:127-181 | After every history, every panel is what its own requests make of it: later titles in front, new boxes behind, existing boxes left alone |
| DialogBox.FoundIfThere | putty_winscp_patches/putty-src/DIALOG.C:156-163 | A set is found if and only if the box has one of that path and name |
| DialogBox.ControlBox.FindSet | putty_winscp_patches/putty-src/DIALOG.C:87-107 | The search returns the first stop |
| DialogBox.ControlBox.FindPath | putty_winscp_patches/putty-src/DIALOG.C:113-124 | First and next set of a path |
| DialogBox.ControlBox.SetTitle | putty_winscp_patches/putty-src/DIALOG.C:127-149 | A title is inserted first in its panel, everything else keeps its order |
| DialogBox.ControlBox.GetSet | putty_winscp_patches/putty-src/DIALOG.C:152-181 | The existing set, or a new one at the end of its panel |
| LineDiscipline.EveryRun | putty_winscp_patches/putty-src/LDISC.C:132-272 | Over every run of keys: with echo the line ends with exactly the look of the buffer; without echo the screen is untouched; every byte typed was erased, sent once in order, or is still in the buffer |
| LineTraffic.EveryRun | putty_winscp_patches/putty-src/LDISC.C:138-271 | Over every run of keys, the whole traffic is the story of the run: the bytes sent, and between them, each after the bytes typed before it, the line ends and codes that the keys stand for under the configuration |
| LineTraffic.StepTold | putty_winscp_patches/putty-src/LDISC.C:185-259 | Every key adds to the traffic what a table of keys adds to the story: the code of ^U, ^C, ^Z, ^\ and ^D, and the line end of Return and ^J, after the text of the line |
| LineDiscipline.LookTells | putty_winscp_patches/putty-src/LDISC.C:29-53 | What is printed for a byte is read as that byte |
| LineDiscipline.StepShows | putty_winscp_patches/putty-src/LDISC.C:138-271 | Every key keeps screen and buffer in agreement, and keys that do not end or redraw the line leave what stands before the text |
| LineDiscipline.StepAccounts | putty_winscp_patches/putty-src/LDISC.C:138-271 | Every key does to buffer and traffic what it means for the history of typed bytes |
| LineDiscipline.FatesAreFinal | putty_winscp_patches/putty-src/LDISC.C:138-271 | A byte sent or erased stays so; a key adds at most its own byte |
| LineDiscipline.RubShortens | putty_winscp_patches/putty-src/LDISC.C:55-59 | Backspace-space-backspace n times takes n cells off the line and leaves blanks |
| LineDiscipline.LooksJoin | putty_winscp_patches/putty-src/LDISC.C:29-53 | The look of a text is the looks of its parts |
| LineDiscipline.Ldisc.Send | putty_winscp_patches/putty-src/LDISC.C:122-272 | The whole loop does the keys made of its argument, with flags for special strings and pasted returns; the EveryRun theorems are about those keys |
| LineDiscipline.Ldisc.TakeKey | putty_winscp_patches/putty-src/LDISC.C:138-271 | One key on the buffer, the screen and the back end, including ^J after a literal ^M in raw mode and specials configured off |
| LineDiscipline.Ldisc.DropWord | putty_winscp_patches/putty-src/LDISC.C:161-171 | ^W erases back to the last boundary between a space and a word |
| LineDiscipline.Ldisc.InsertByte | putty_winscp_patches/putty-src/LDISC.C:260-270 | The buffer grows by 256 and keeps its text |
| LineDiscipline.Ldisc.Redraw | putty_winscp_patches/putty-src/LDISC.C:196-203 | ^R starts a line and repeats the text |
| KMeans.Iterate | mlclass/kMeans3/mr_kMeansIterate.py:63-131 | A whole step over any split of any arrangement of the points: it succeeds if and only if no mapper and no cluster is empty, gives exact means, and does not increase the cost |
| KMeans.Descent | mlclass/kMeans3/mr_kMeansIterate.py:79-123 | Replacing centroids by the means of their clusters never increases the total squared distance to nearest centroids |
| KMeans.MeanIsBest | mlclass/kMeans3/mr_kMeansIterate.py:120-123 | A cluster's cost to any point is its cost to the mean plus count times the squared distance to the mean |
| KMeans.SamePoints | mlclass/kMeans3/mr_kMeansIterate.py:104-119 | The same points dealt out otherwise give the same sums and counts |
| KMeans.Reduce | mlclass/kMeans3/mr_kMeansIterate.py:97-123 | The reducer gives the mean of every cluster of all points, or fails on an empty mapper or cluster |
| KMeans.FindNearest | mlclass/kMeans3/mr_kMeansIterate.py:79-85 | The first nearest centroid |
| KMeans.Mapper.Map | mlclass/kMeans3/mr_kMeansIterate.py:63-89 | Sums and counts so far |
| ElasticNet.UpdateMinimisesLoss | mlclass/mr_glmReg/mr_glmRegIterate.py:148-156 | With the computed scale factors, every updated coefficient is the unique minimiser of the penalised mean squared error along its own axis |
| ElasticNet.UpdateMinimises | mlclass/mr_glmReg/mr_glmRegIterate.py:48-54 | The soft-threshold update is the unique minimiser of the elastic-net objective, with at least parabolic growth around it |
| ElasticNet.StartingLambdaIsLeast | mlclass/mr_glmReg/mr_glmRegInitialize2.py:119-129 | A penalty keeps every coefficient at zero if and only if it is at least the starting value |
| ElasticNet.VarianceIsMeanDeviation | mlclass/mr_glmReg/mr_glmRegInitialize.py:106-112 | Mean of squares minus square of mean is the mean squared deviation: never negative, zero exactly for constant columns |
| ElasticNet.Standardised | mlclass/mr_glmReg/mr_glmRegInitialize2.py:77-80 | The squares of a scaled column add up to the number of rows |
| GlmJobs.ScaleJob | mlclass/mr_glmReg/mr_glmRegInitialize.py:60-112 | From any split of any arrangement of the rows: the exact means and variances if and only if no mapper was without rows |
| GlmJobs.StartJob | mlclass/mr_glmReg/mr_glmRegInitialize2.py:68-129 | From any split: the starting penalty if every mapper had rows; else a zero or an IndexError, as the first mapper had none or some |
| GlmJobs.UpdateJob | mlclass/mr_glmReg/mr_glmRegIterate.py:95-156 | From any split: every new coefficient if every mapper had rows; else no coefficients or an IndexError, as the first mapper had none or some |
| GlmJobs.RowSumOfBag | mlclass/mr_glmReg/mr_glmRegIterate.py:131-145 | Sums over rows do not depend on their order |
| GlmJobs.ProductMapper.Map | mlclass/mr_glmReg/mr_glmRegIterate.py:95-124 | Sums of products so far |
| GlmJobs.MomentMapper.Map | mlclass/mr_glmReg/mr_glmRegInitialize.py:60-79 | Moments so far |
| Int64.Div10 | putty_winscp_patches/putty-src/INT64.C:12-31 | Quotient and remainder by ten; the sum in the low half stays below 2^32, so that no addition wraps round |
| Int64.LowHalfIsTight | putty_winscp_patches/putty-src/INT64.C:22-26 | The low half can reach exactly 2^32 - 1 |
| Int64.Decimal | putty_winscp_patches/putty-src/INT64.C:33-47 | At most twenty digits, no leading zero, and their value is the number; zero gives the empty text |
| Int64.Add | putty_winscp_patches/putty-src/INT64.C:57-62 | Sum modulo 2^64 |
| Int64.Compare | putty_winscp_patches/putty-src/INT64.C:72-79 | The order of the values |
| Settings.SaveThenLoad | putty_winscp_patches/putty-src/SETTINGS.C:199-217 | Every list of non-empty strings is loaded as it was saved |
| Settings.PlainEntry | putty_winscp_patches/putty-src/SETTINGS.C:199-217 | A name and a value with nothing to escape are stored as name=value, and the rest of the list |
| Settings.EscapedByte | putty_winscp_patches/putty-src/SETTINGS.C:199-217 | Comma, equals sign and backslash are stored behind a backslash |
| Settings.Save | putty_winscp_patches/putty-src/SETTINGS.C:199-217 | The escape loops, within a buffer twice the list's size |
| Settings.Load | putty_winscp_patches/putty-src/SETTINGS.C:451-470 | The unescape loops |
| Settings.FlatInjective | putty_winscp_patches/putty-src/SETTINGS.C:199-217 | A list can be told from its form in memory |

## Left out

- OpenSshKey.WriteThenRead: integers below 64 MB each, so that all lengths fit a C int; the source does not check.
- OpenSshKey.Read: lengths are natural numbers; the source's int lengths go negative from 2^31 on, and its shifts are only defined for lengths below 2^24.
- SshComKey.Read: a file shorter than its first eight bytes, which the source reads regardless, is refused; lengths are natural numbers.
- SshComKey.WriteThenRead: for an integer of no bytes the source's put_mp looks at the byte after it; the model takes that byte to be below 128.
- Settings.Load: a stored string that ends in a single backslash, where the source reads past the end, is excluded.
- LineDiscipline.EveryRun: the line is as wide as needed, so wrap-around at the right margin is not modelled; echo and character mode do not change during a run.
- KMeans.Iterate: exact reals in place of floating point, and squared distances in place of distances.
- GlmJobs.ScaleJob: gives variances; the square root is a parameter of the later jobs.
- SocksTunnel.EveryRun: channel allocation succeeds, nobody hangs up, and urgent octets travel beside the stream.
- sk_flush and `pending_flush`, closing and accepting callbacks, and the proxy's private pointers in `PROXY.C`.
- The text of the HTTP CONNECT request, its base64 authentication, the telnet proxy and the exclude list: the request is any byte string.
- SOCKS5 GSSAPI and CHAP authentication end in the error the source gives; the SOCKS server of `PORTFWD.C` never chooses user name and password.
- Ordinary (not dynamic) forwards and `pfd_newconnect`.
- The white space and number syntax of `sscanf` is modelled; "0x" without digits counts as a mismatch.
- Plink's standard input thread and agent callbacks.
- Header lines, base64 and comments of key files, key derivation, and createkey's own checks.
- Controls inside a controlset, freeing, and `ctrl_alloc`.
- The branch of ldisc_send for when editing is off, which erases without looking at echo.
- Convergence of k-means, file and JSON plumbing of the jobs, and an alpha of zero in the starting job, which divides by it.
- `misc/ref.cpp` (reference counting) and `SETTINGS.C`'s other settings would only add easier members.
- `misc/qsort.c` does not sort: its random pivot is never moved to the front (lines 10 and 23).
- `gprefs` in `SETTINGS.C:96-107` restarts its tokenizer for ever after an unrecognised first token.
- accountmanagerplugin, kab_proj, ajaxcrypt_proj, 3d-carousel, the ebtables patches and the user interface.
