# A verified model of the QTRP tunnel

QTRP forwards TCP connections from a server's public ports through one encrypted, multiplexed
connection to services beside a client. This project models the parts of it that the
repository implements itself, in Dafny, and proves what they promise. `dafny verify
dfyconfig.toml` checks everything.

What is modelled, from the wire upwards:

- **Byte streams** (`Bytes`, `Framing`, `Streams`). `io.ReadFull`, connections that return any
  number of bytes per read, recycled buffers, and one generic theorem about length-prefixed
  items on a stream that is cut after any byte.
- **The record layer** (`Records`, `ChaCha20`, `RecordPipe`). The frame format as functions; the
  connection object, which seals in place in pooled arrays and keeps leftover plaintext; and a
  small-step system in which writer, transport and reader interleave, which refines a plain
  byte pipe.
- **The control codec** (`Codec`, `SecureCodec`): messages on any stream, and on top of the
  record layer, end to end.
- **The relay** (`Relay`, `CopyBuffers`, `PooledRelay`, `TwoHop`): the copy loop as written; the
  two loops of a `Join`; any number of loops over one shared pool; and the chain
  user - server - stream - client - local service with all four loops running.
- **The server's registry** (`Registry`, `RegistrySteps`, `RegistryAgreement`, `Servers`): the shared
  maps as a machine whose steps are single accesses, so that handlers interleave anywhere, a
  clean-up between its `Close` and its `Delete` included; and each handler as written.
- **Authentication** (`Decimal`, `Auth`): decimal int64, wrapping time comparison, the nonce cache,
  and timed runs of calls and sweeps.
- **The gnet receive queue** (`Gnet`), **the client's reconnect loop and keepalive** (`Clients`), and
  **port ranges with their expanded names** (`PortRanges`, `ProxyNames`).

A class is used where the source has an object with fields it updates; each of its methods is
proved equal to a function on values, or to a run of a machine, and the theorems are about that
function or machine. Machines are used for concurrency: a step is one access to what other
goroutines can observe, and what happens under a mutex is one step only for those that take
the same mutex.

## Assumptions

- The AEAD is a pair of functions with two laws (section 2.8 of RFC 8439): the ciphertext is 16
  bytes longer than the plaintext, and opening under the same nonce gives the plaintext back.
  MessagePack is an encoder with non-empty output and its inverse. HMAC-SHA256 is any function.
  Nothing is claimed about secrecy or forgery.
- A multiplexed stream is an ordered lossless byte queue; TCP delivers in order until it fails.
- A read from a stream returns a clean end only after the peer has closed it and everything
  queued was read, and a read from a connection that was closed on this side fails with an
  error that is not a clean end. `TwoHop.EndToEnd` rests on both for its claim that nothing is
  missing after a clean end. The record layer below does not provide the first by itself: a
  session whose wire is cut at a frame boundary ends with `io.EOF` (`Records.Truncation`), and it
  is the multiplexer that must tell this from the close of a stream.
- `Conn.Write` does not keep the buffer after it returns. `Read` and `Write` of one encrypting
  connection are each under their own mutex, so each runs alone.
- Two sends on one control stream do not interleave: `Encode` does two unlocked writes
  (`pkg/protocol/codec.go:36-41`), and the source does not prevent it.
- One `Verify` call is one step; the source holds only a read lock between `Exists` and `Add`. Its
  two clock readings, for the timestamp and for the cache, are separate parameters. The clock
  does not go back, and the times are those of a clock from 1970 to far in the future.
- A `GnetConn` has one reader. `select` picks any ready case.
- `len` and counters do not overflow an `int64`.

## Findings

Where the code does less than its text suggests, the model follows the code and the exact
condition is proved.

- README.md of the repository says that nonces are cached for five minutes and so stop replays.
  `ReplayIff`: with expiry and tolerance equal, as deployed, a request stamped in the second of
  its acceptance or later can be accepted a second time once a sweep has removed its nonce.
  `DeployedReplay` gives the part that holds, `LongExpiryStopsReplay` an expiry for which no
  replay is possible.
- `TimeOkIff`: `abs(now-ts)` wraps, so that a timestamp exactly 2^63 seconds before now passes too.
- `DecodesIffFits`: `Encode` bounds nothing, so a message above `MaxMsgSize` is sent and then
  rejected, and its body stays in the stream (`OversizedRejected`).
- `DisciplineIsExact`: `s.proxies` and the clients' maps agree for good only if a registration uses
  a new name and a port that no other registration, no late runner and no clean-up is about to
  touch. `OverlapBreaksAgreement` and `ReuseBeforeDelete` are two ways to fail; in the second a
  clean-up has closed a proxy (`internal/server/server.go:639`), the runner has deleted the port,
  another client has registered it, and the clean-up's own deletion (line 640) removes that
  client's entry. Ports are listened on with `SO_REUSEPORT` on Linux (`pkg/pool/tcp_linux.go:18`),
  so `net.Listen` does not exclude a second listener.
- `StaleIffClosing`: between those two lines `s.proxies` holds a closed proxy, and at no other time.
- `EndIsEndIff`: `GnetConn.Read` may report the end while chunks are still queued.
- `NoneLostIff`: a single port named like an expanded name of a range, for example `web_0` beside a
  range named `web`, overwrites it.
- README.md of the repository speaks of tolerating three lost pongs; the third in a row is
  already the reason to reconnect (`ReconnectsExactly`).

## Model

| member | source | states |
|---|---|---|
| Framing.CutSplits | pkg/crypto/chacha_crypto.go:158-177 | any cut of a stream of length-prefixed items lies in exactly one place: after so many complete items, inside the next one |
| Framing.CutStream | pkg/crypto/chacha_crypto.go:158-188 | a reader of such a stream, cut after any byte, gets exactly the complete items, and the error tells where in an item the cut fell |
| Framing.DrainAfter | pkg/protocol/codec.go:56-80 | complete items are read first and do not disturb whatever bytes follow, well-formed or not |
| Bytes.Uint16OfPut | pkg/crypto/chacha_crypto.go:127-164 | reading the stored 16-bit length gives the length modulo 2^16 |
| Bytes.Uint32OfPut | pkg/protocol/codec.go:35-62 | reading the stored 32-bit length gives the length modulo 2^32 |
| Bytes.PutUint32Bytes | pkg/protocol/codec.go:35 | the four bytes of a length, most significant first |
| Streams.InStream.Read | pkg/crypto/chacha_crypto.go:161 | one read of a connection: between one byte and all that fit, in order; the error when all was delivered, perhaps with the last bytes |
| Streams.OutStream.Write | pkg/crypto/chacha_crypto.go:130 | one write of a connection: all of it, or a prefix and an error, which is counted |
| Streams.Random.Read | pkg/crypto/chacha_crypto.go:117-120 | a draw fills the given part of a buffer and nothing else, or fails, which is counted |
| Streams.InStream.ReadFull | pkg/protocol/codec.go:59-71 | reading in a loop, with any segmentation by the transport and errors early or late, gives what io.ReadFull promises, in place in the caller's array |
| Streams.SyncPool.Get | pkg/crypto/chacha_crypto.go:75-88 | a buffer of the pool's length, with stale contents, that nobody else can obtain until it is put back |
| Streams.SyncPool.Put | pkg/crypto/chacha_crypto.go:113 | the buffer can be handed out again, once |
| Records.ChunksExact | pkg/crypto/chacha_crypto.go:94-106 | chunking a write loses, adds and reorders nothing, no chunk is empty, all but the last have 65506 bytes, and there are ceil(L/65506) of them |
| Records.WriteSize | pkg/crypto/chacha_crypto.go:95-131 | a write of L bytes puts L + 30 * ceil(L/65506) bytes on the wire |
| Records.FrameFits | pkg/crypto/chacha_crypto.go:67-127 | every frame has at most 65536 bytes, its length of at most 65534 stands in the first two, the upper one first, and nonce and ciphertext are where the reader looks |
| Records.FrameRoundTrip | pkg/crypto/chacha_crypto.go:110-189 | reading a frame gives its payload back and leaves exactly what follows |
| Records.FrameCut | pkg/crypto/chacha_crypto.go:158-177 | a frame cut at any byte is an error: a clean end only before the first byte or right after the header |
| Records.ReadsLeftover | pkg/crypto/chacha_crypto.go:138-143 | a read with leftover plaintext takes as much of it as fits, and no byte of the wire |
| Records.ReadsNoFrame | pkg/crypto/chacha_crypto.go:158-177 | the error and the bytes consumed, in numbers, when there is no whole header, a length below 28, or no whole frame |
| Records.ReadsFrame | pkg/crypto/chacha_crypto.go:170-189 | with a whole frame on the wire, whatever its bytes: its plaintext is delivered if and only if the AEAD opens it, otherwise nothing and an error; exactly the frame is consumed |
| Records.DeliveredWasOpened | pkg/crypto/chacha_crypto.go:146-155 | bytes are delivered from the wire only as the front of what the AEAD opened a whole frame to |
| Records.Truncation | pkg/crypto/chacha_crypto.go:158-188 | if the wire is cut at any byte the receiver opens exactly the complete frames and then errors, with io.EOF only at a frame boundary or just after a length header |
| Records.PlainOfCut | pkg/crypto/chacha_crypto.go:134-189 | what is decrypted from a cut wire is a prefix of what was sent, and all of it from an uncut one |
| Records.FailedWriteReaches | pkg/crypto/chacha_crypto.go:102-107 | after a failed write the receiver gets the accepted bytes, and one further chunk exactly if its whole frame had gone out in spite of the error |
| Records.ReadTakesPrefix | pkg/crypto/chacha_crypto.go:134-156 | for any bytes on the wire, a read takes its bytes off the front of the pending plaintext and changes nothing else of it; an error comes only when nothing is pending, and is the one that ended the frames |
| Records.ReadProgress | pkg/crypto/chacha_crypto.go:138-155 | a successful read with a non-empty buffer delivers bytes or consumes part of the wire |
| Records.SessionsConserve | pkg/crypto/chacha_crypto.go:134-189 | for any number of reads with any buffer sizes, zero included: delivered bytes ++ pending bytes is the plaintext of the wire, and after an error nothing is missing |
| ChaCha20.Seal | pkg/crypto/chacha_crypto.go:123 | sealing stays in the destination exactly if its capacity suffices, and is in a new slice otherwise |
| ChaCha20.CopyInto | pkg/crypto/chacha_crypto.go:140 | as many bytes as fit are copied, and nothing else changes |
| ChaCha20.ChaCha20Conn.FillFrame | pkg/crypto/chacha_crypto.go:116-127 | whatever the recycled buffer held, its front is then exactly the frame of the nonce just drawn and the payload, within its capacity |
| ChaCha20.ChaCha20Conn.WriteFrame | pkg/crypto/chacha_crypto.go:110-132 | the wire grows by the frame of the payload, by a prefix of it on an error; there is an error exactly if the draw or the write failed; the buffer is back in the pool |
| ChaCha20.ChaCha20Conn.WriteNext | pkg/crypto/chacha_crypto.go:96-105 | one round of the loop carries on the specified chunking, or leaves the wire cut inside the next chunk's frame |
| ChaCha20.ChaCha20Conn.Write | pkg/crypto/chacha_crypto.go:90-108 | the wire grows by frames that carry exactly the accepted bytes, cut as specified, each with a nonce of its own draw; there is an error exactly if a draw or a write failed, the total is then that of the accepted frames and at most one more frame has reached the wire |
| ChaCha20.ChaCha20Conn.AllSent | pkg/crypto/chacha_crypto.go:94-107 | after a successful write the frames are exactly the chunks of the argument |
| ChaCha20.ChaCha20Conn.ReadHeader | pkg/crypto/chacha_crypto.go:160-168 | the length, or the error, and exactly the bytes consumed; lengths below 28 are rejected |
| ChaCha20.ChaCha20Conn.Open | pkg/crypto/chacha_crypto.go:180-188 | the plaintext is opened into new storage |
| ChaCha20.ChaCha20Conn.ReadFrame | pkg/crypto/chacha_crypto.go:158-189 | the next frame is parsed and opened into storage that is new and no pool's; every 16-bit length is within the pooled buffer; each error leaves the stream at its exact place |
| ChaCha20.ChaCha20Conn.ReadBody | pkg/crypto/chacha_crypto.go:171-188 | the body is read into the recycled buffer and opened out of it before it goes back |
| ChaCha20.ChaCha20Conn.Read | pkg/crypto/chacha_crypto.go:134-156 | the call does to leftover, wire and caller's array what one specified read does, and to nothing else; an error leaves the caller's array and the empty leftover alone |
| ChaCha20.OthersLeaveLeftover | pkg/crypto/chacha_crypto.go:171-188 | any other connection over the same pools may write and read without changing what this one has pending |
| RecordPipe.FetchedIsFrame | pkg/crypto/chacha_crypto.go:158-177 | what the reader has fetched is the front of the oldest frame, and it waits for exactly the rest of it |
| RecordPipe.StepKeeps | pkg/crypto/chacha_crypto.go:90-189 | every step of writer, transport and reader keeps: written = delivered ++ leftover ++ plaintext of the frames in transit |
| RecordPipe.RunKeeps | pkg/crypto/chacha_crypto.go:90-189 | the same over every run, from any state in which it holds |
| RecordPipe.PipeRefinement | pkg/crypto/chacha_crypto.go:90-189 | after any interleaving, with any buffer sizes and any segmentation: no error, written = delivered ++ leftover ++ decryption of what is in transit, and delivered = written once drained |
| RecordPipe.FinishIsRead | pkg/crypto/chacha_crypto.go:146-155 | the frame that the interrupted reader opens is the one that one uninterrupted read would have returned |
| RecordPipe.ReaderDrains | pkg/crypto/chacha_crypto.go:134-189 | from every reachable state the reader's own steps alone deliver everything written: it never gets stuck |
| Codec.Encoder.Encode | pkg/protocol/codec.go:27-43 | the stream grows by the encoding, and by a prefix of it exactly if a write failed |
| Codec.EncodedBytes | pkg/protocol/codec.go:33-41 | the encoding is the length in four bytes, most significant first, and then the data |
| Codec.Decoder.Decode | pkg/protocol/codec.go:56-80 | the result and the bytes consumed are those of the specified parser, in each error case too |
| Codec.DecodesAnnounced | pkg/protocol/codec.go:62-79 | for any bytes, in numbers: decoding succeeds exactly if the announced length is at most 1048576, so many bytes follow and they unmarshal, with that result and the rest left; each error case likewise |
| Codec.DecodesNoLength | pkg/protocol/codec.go:58-61 | with fewer than four bytes the error is that of the stream, or io.ErrUnexpectedEOF |
| Codec.HeaderOf | pkg/protocol/codec.go:34-66 | the header holds the length modulo 2^32, and that alone decides whether decoding goes on |
| Codec.MessageCut | pkg/protocol/codec.go:59-72 | a message cut at any byte is an error: a clean end only before the first byte or right after the length |
| Codec.DecodesIffFits | pkg/protocol/codec.go:27-80 | a message is given back with exactly its bytes consumed if and only if its encoding is at most MaxMsgSize, lengths that wrap included |
| Codec.OversizedRejected | pkg/protocol/codec.go:64-66 | an oversized length is rejected after consuming exactly four bytes |
| Codec.MessagesRoundTrip | pkg/protocol/codec.go:27-80 | any list of messages within the limit, cut at any byte, is decoded as exactly the complete ones in order; uncut, as all of them |
| Codec.StopsAtOversized | pkg/protocol/codec.go:64-66 | messages before the first oversized one are received, then the reader stops with io.ErrShortBuffer |
| SecureCodec.ReadSome | pkg/crypto/chacha_crypto.go:134-156 | seen from above the encrypting connection reads like a plain stream of its pending plaintext |
| SecureCodec.ReadFull | pkg/protocol/codec.go:59-71 | io.ReadFull over the encrypting connection gives what it gives on the plaintext stream itself |
| SecureCodec.ReadLoop | pkg/protocol/codec.go:59-71 | its loop takes exactly the front of the pending plaintext, or all of it and then its error |
| SecureCodec.SendMessage | pkg/protocol/codec.go:83-89 | the wire grows by one frame for the length and the frames of the data, written after it; there is an error exactly if a draw or a write below failed, and then by frames, and part of one more, that carry no more than its front |
| SecureCodec.WriteAll | pkg/protocol/codec.go:36-42 | each of the two writes is sent in full, or in part with an error |
| SecureCodec.RecvMessage | pkg/protocol/codec.go:92-94 | the result is that of decoding the pending plaintext; what follows the message stays pending, after a rejected message too |
| SecureCodec.RecvLength | pkg/protocol/codec.go:58-66 | the checked length is that read from the pending plaintext; after an oversized one the rest stays pending |
| SecureCodec.EndToEnd | pkg/protocol/codec.go:27-94 | messages encoded, re-chunked in any way and sealed, on a wire cut at any byte: the receiver gets exactly the messages that lie in the complete records, and all of them when nothing is cut |
| SecureCodec.SendAll | pkg/protocol/codec.go:83-89 | n successful sends and a failed one put whole frames on the wire that carry the n messages, and part of one more |
| SecureCodec.ReceiveAll | internal/client/client.go:426-434 | the receive loop returns exactly the messages that the pending plaintext decodes to, and the error after them |
| SecureCodec.Conversation | pkg/protocol/codec.go:83-94 | n successful sends and a failed one, a cut at any byte and the receive loop: a prefix of the messages arrives; with nothing cut, the n messages and at most the next one |
| Relay.LoopKeeps | internal/server/handler.go:57-87 | each step of a copy loop forwards in order and without gaps; a nil result means that all was forwarded |
| Relay.ReturnsIff | internal/server/handler.go:57-87 | a copy loop has returned a result exactly after a read without data and with an error, or a write that failed, was short, or forwarded data that came with an error, and it is the matching result |
| Relay.NextIs | internal/client/handler.go:56-83 | until then it reads when it has nothing to write, and otherwise writes what it read last |
| Relay.ReadIsBytesRead | internal/server/handler.go:57-62 | what a loop has read is what its reads returned |
| Relay.JoinSafe | internal/server/handler.go:26-49 | in every run of both loops, a destination closed after a clean end of its source has received every byte that was read |
| Relay.WindDown | internal/server/handler.go:30-48 | once either loop has closed its destination no run has more than three further steps, of which at most one is a write |
| Relay.StuckIffReturned | internal/server/handler.go:48 | Join comes to rest exactly when both connections are closed |
| TwoHop.LaneKeeps | internal/client/handler.go:25-84 | each step of either hop keeps: bytes accepted by the stream = bytes read from it ++ bytes in it, and an end is seen only after close and drain |
| TwoHop.EndToEnd | internal/server/handler.go:26-88 | in every run of the four loops, bytes accepted at the far end are a prefix of bytes read at the near end, in both directions, and equal to them when both loops ended cleanly |
| TwoHop.EndsAreJoins | internal/client/handler.go:25-48 | each step of the path is a step of the Join at one end, and none at the other |
| TwoHop.RunsAreJoins | internal/client/handler.go:25-48 | each run of the path is, at each end, a run of that end's Join, so what is proved of Join holds of both |
| TwoHop.EndWindsDown | internal/server/handler.go:30-48 | once a loop has closed its destination at one end, that end takes at most three further steps and one write, whatever the other does |
| TwoHop.PathWindsDown | internal/client/handler.go:29-47 | once one has at both ends, the whole path stops within six steps |
| TwoHop.CloseReachesFar | internal/client/handler.go:56-83 | from the close of a stream on, the loop that reads it ends within two steps per queued byte and three more |
| TwoHop.FarCanStep | internal/client/handler.go:56-83 | and it is not stuck before |
| CopyBuffers.BufferPool.Put | pkg/pool/buffer.go:32-36 | nil and buffers of another length are not pooled, all others are |
| CopyBuffers.BufferPool.Get | pkg/pool/buffer.go:27-29 | a buffer of the pool's length that nobody else can obtain |
| CopyBuffers.Stats.AddBytesIn | pkg/stats/stats.go:28-30 | this counter and no other grows |
| CopyBuffers.Stats.AddBytesOut | pkg/stats/stats.go:33-35 | this counter and no other grows |
| CopyBuffers.Forward | internal/server/handler.go:59-76 | BytesIn grows by what was read and BytesOut by what was accepted, for every short or failing write |
| CopyBuffers.CopyOnce | internal/server/handler.go:57-87 | one round of the loop is one or two steps of the copy loop machine, with the counters in step |
| CopyBuffers.CopyLoop | internal/server/handler.go:56-87 | the loop is a run of the copy loop machine up to its end, with total and counters in step, and ends when and as CopyBuffer says |
| CopyBuffers.CopyBuffer | internal/server/handler.go:52-88 | for any source, with errors that come with or without data, and any short or failing destination: it reads on up to the first error or refused write; with none refused, everything up to that error was forwarded and the result is that error, nil for EOF; otherwise it is the error of the refused write; total is what was accepted, BytesIn - BytesOut is the remainder, and the buffer is back in the pool |
| PooledRelay.StepRefines | pkg/pool/buffer.go:14-36 | a step of one loop over the shared pool is that step of a loop with private storage, and changes no other loop nor the bytes it has still to write |
| PooledRelay.InvKept | pkg/pool/buffer.go:27-36 | each buffer is in the pool once or held by exactly one loop, and has the pool's length |
| PooledRelay.GetAndPut | pkg/pool/buffer.go:27-36 | a loop gets a buffer of 512 KiB that is then not in the pool, and gives it back |
| PooledRelay.RunIsSafe | internal/server/handler.go:52-76 | the safety of every loop over the shared pool is kept by every run, from any safe state |
| PooledRelay.NoInterference | internal/server/handler.go:52-76 | with any number of loops started, interleaved and finished in any way, each forwards exactly the bytes that it read itself |
| PooledRelay.RunsIffPossible | pkg/pool/buffer.go:27-36 | the runs considered exclude no event that can happen |
| Registry.StaleIffClosing | internal/server/server.go:508-647 | in every run whatsoever, the entry of s.proxies under p has port p, and is a closed proxy if and only if the clean-up that closed it has not yet deleted the port |
| RegistrySteps.StepKeeps | internal/server/server.go:433-647 | every access of every handler keeps the invariant between s.proxies, the clients' maps, registrations and clean-ups in progress, and runners |
| RegistryAgreement.RunKeeps | internal/server/server.go:433-647 | the same over every disciplined run |
| RegistryAgreement.InvAgrees | internal/server/server.go:508-571 | the invariant implies that the two indexes agree |
| RegistryAgreement.AgreementOverRuns | internal/server/server.go:508-647 | after every interleaving of the single accesses of disciplined registrations, roll-backs, evictions, clean-ups and late runner exits, s.proxies is the port-indexed union of the live proxies of the clients' maps and of those just being deleted, and no two live proxies share a port |
| RegistryAgreement.DisciplineIsExact | internal/server/server.go:508-647 | with any other handlers in progress: after a registration the indexes agree in every further disciplined run if and only if the registration's name was new and no other registration, runner or clean-up was still to touch its port |
| RegistryAgreement.Undoing | internal/server/server.go:544-641 | for each kind of undisciplined registration, the steps of the other handler that undo it |
| RegistryAgreement.RegistrationRuns | internal/server/server.go:508-571 | an uninterrupted registration is a run of the machine, with its exact final state |
| RegistryAgreement.OverlapBreaksAgreement | internal/server/server.go:509-544 | two overlapping registrations of one port both succeed and leave two live proxies on it |
| RegistryAgreement.ReuseBeforeDelete | internal/server/server.go:574-641 | a disciplined run reaches a clean-up between its two accesses with the port already deleted by the runner; a registration of the port then goes through and loses its entry to the clean-up |
| Servers.Server.HandleNewProxy | internal/server/server.go:495-572 | for each of the five outcomes, the exact new maps, objects and runners; reached by a run of the registry machine |
| Servers.Server.StoreProxy | internal/server/server.go:536-571 | a failed response takes everything back, and the client's older entry of that name with it |
| Servers.Server.CloseOwned | internal/server/server.go:639-641 | one round of the clean-up loop is two steps of the registry machine, Close and Delete |
| Servers.Server.CloseEach | internal/server/server.go:638-642 | the loop closes exactly the client's proxies, in any order, and counts each down once |
| Servers.Server.CloseAll | internal/server/server.go:637-644 | the clean-up under the mutex, by a run of the registry machine |
| Servers.Server.CleanupClient | internal/server/server.go:636-647 | exactly the client's proxies are closed and their ports deleted, its map is emptied and its id deleted, by a run of the registry machine |
| Servers.CleanedExactly | internal/server/server.go:636-645 | what a clean-up leaves, entry by entry |
| Servers.CloseRun | internal/server/server.go:638-642 | one round of the clean-up loop, in any order of rounds, is a Close and a Delete that close one more proxy and delete one more port |
| Servers.LockRun | internal/server/server.go:637 | taking the client's mutex changes nothing else |
| Servers.UnlockRun | internal/server/server.go:643-644 | emptying the map after the loop gives the cleaned state |
| Servers.Server.RunProxyExit | internal/server/server.go:575-582 | a runner's exit deletes its port, whoever has it by then |
| Servers.Server.Register | internal/server/server.go:431-451 | a client with a known id takes over the id after the older one was cleaned up |
| Servers.RolledBackRun | internal/server/server.go:544-564 | a registration whose response fails is a run of the machine, and undoes its own entries |
| Servers.HandledRun | internal/server/server.go:536-571 | a registration that is stored is a run of the machine, whether its response is sent or not |
| Servers.ListenFailedRun | internal/server/server.go:524-533 | a failed listen is a run of the machine that changes nothing |
| Decimal.ParseOfFormat | pkg/auth/auth.go:51 | printing and parsing are inverse on all of int64, as server and client rely on |
| Decimal.ParseNatDigits | pkg/auth/auth.go:51-54 | a number is parsed exactly from the non-empty strings of digits |
| Decimal.Positional | pkg/auth/auth.go:51 | each digit counts ten times what the next one counts |
| Decimal.SignsAndLimits | pkg/config/config.go:98-114 | a sign is optional and the limits are those of int64 |
| Decimal.OnlyNumbers | pkg/config/config.go:98-114 | nothing but a sign and digits is a number |
| Decimal.DigitsInjective | pkg/config/config.go:176 | different numbers print differently |
| Auth.TimeOkIff | pkg/auth/auth.go:55-58 | the wrapping check accepts exactly the timestamps within the tolerance, and the one 2^63 seconds away |
| Auth.NonceCache.Sweep | pkg/auth/auth.go:129-138 | a sweep, in any order, deletes exactly the entries older than the expiry, and is the sweep of the timed runs |
| Auth.NonceCache.Add | pkg/auth/auth.go:110-114 | the nonce, and no other, is recorded with the time |
| Auth.NonceCache.Exists | pkg/auth/auth.go:117-122 | whether the nonce is recorded, however old |
| Auth.Authenticator.Verify | pkg/auth/auth.go:40-68 | the result and the new cache are those of the specified call, in which a wrong signature uses the nonce up |
| Auth.VerifiesExactly | pkg/auth/auth.go:40-68 | a call is accepted exactly if token, timestamp, nonce and signature are good, and records the nonce exactly if the first three are |
| Auth.CachedOnlyBy | pkg/auth/auth.go:44-64 | over timed runs, a nonce is cached only because a call with an allowed token, in time, recorded it then |
| Auth.FreshRequestAccepted | internal/client/client.go:343-354 | after any timed run a client's own request, allowed and in time, is accepted unless such a call has used its nonce: refused traffic uses none |
| Auth.SignCovers | pkg/auth/auth.go:71-76 | under an injective code a signature is good for exactly the same timestamp and nonce written together |
| Auth.NonceStays | pkg/auth/auth.go:110-139 | a cached nonce keeps its entry and its time until a sweep more than the expiry later |
| Auth.SweepBetween | pkg/auth/auth.go:60-64 | between two acceptances of one nonce there is a sweep more than the expiry after the first |
| Auth.ReplayRejected | pkg/auth/auth.go:40-139 | over every timed run, a request stamped before the bound is never accepted again |
| Auth.RejectedBefore | pkg/auth/auth.go:40-139 | if sweeps that can remove the nonce come no earlier than some time, requests too old by then are not accepted again |
| Auth.DeployedReplay | pkg/auth/auth.go:13-18 | with the repository's constants, 300 s each, none stamped before the whole second of its acceptance is ever accepted again |
| Auth.LongExpiryStopsReplay | pkg/auth/auth.go:13-18 | with an expiry of twice the tolerance and a second, none is ever accepted again |
| Auth.ReplayIff | pkg/auth/auth.go:13-139 | after any run that ends with an acceptance, some continuation accepts the request again if and only if it is stamped at or after the bound |
| Auth.TickedReplayIff | pkg/auth/auth.go:125-139 | the same when sweeps happen on the ticks of a one-minute ticker: the bound is then the first tick past the expiry |
| Auth.TickAfterIsFirst | pkg/auth/auth.go:126 | that tick comes within a minute after the expiry, and none comes before it |
| Auth.ClientAccepted | internal/client/client.go:343-354 | the client's own request is accepted if and only if its token is allowed, the clocks are within the tolerance and the nonce is not cached |
| Auth.WrongSignUsesNonce | pkg/auth/auth.go:61-67 | a wrong signature makes the genuine request with that nonce be rejected until a sweep after expiry |
| Gnet.StepKeeps | pkg/transport/gnet_transport.go:91-180 | each event keeps: delivered ++ leftover ++ queued = the chunks kept, in order; and the queue is at most 256 |
| Gnet.RunKeeps | pkg/transport/gnet_transport.go:91-180 | the same in every reachable state |
| Gnet.TakesWhatFits | pkg/transport/gnet_transport.go:161-180 | a read takes as much of the leftover, or else of the oldest chunk, as fits, and leaves the rest |
| Gnet.OpenReadIsForced | pkg/transport/gnet_transport.go:169-180 | on an open connection with something to read there is one thing a read can do |
| Gnet.ReadsDrain | pkg/transport/gnet_transport.go:161-180 | from every reachable state of an open connection, reads of any sizes but zero deliver everything kept |
| Gnet.FateOf | pkg/transport/gnet_transport.go:111-117 | a chunk is queued, refused or dropped exactly when the select statement allows it |
| Gnet.ArrivedAre | pkg/transport/gnet_transport.go:107-110 | the chunks accounted for are those that came |
| Gnet.LosslessIff | pkg/transport/gnet_transport.go:111-117 | on an open connection nothing is lost if and only if fewer than 256 chunks were waiting whenever one came |
| Gnet.LosslessPrefix | pkg/transport/gnet_transport.go:100-180 | then what is delivered is a prefix of what arrived and the rest is still there |
| Gnet.LostOnlyIf | pkg/transport/gnet_transport.go:111-117 | a chunk is lost only on arrival at a full queue or a closed connection |
| Gnet.EndIsEndIff | pkg/transport/gnet_transport.go:169-179 | the end is reported only after a close with nothing left over, and is the end of what was kept exactly if the queue is empty |
| Gnet.EndBeforeData | pkg/transport/gnet_transport.go:169-179 | a run on which the end is reported before the data |
| Gnet.GnetConn.OnTraffic | pkg/transport/gnet_transport.go:100-120 | on an open connection a copy is queued if fewer than 256 wait, and dropped otherwise; on a closed one it may be refused; no part of the event loop's buffer is kept |
| Gnet.GnetConn.Enqueue | pkg/transport/gnet_transport.go:109-112 | a new array with the same bytes joins the queue at its end |
| Gnet.GnetConn.OnClose | pkg/transport/gnet_transport.go:91-98 | closing is idempotent and leaves queue and leftover alone |
| Gnet.GnetConn.Read | pkg/transport/gnet_transport.go:161-180 | as many bytes of the leftover, or else of the oldest chunk, as fit the caller's array are put there, and the rest is the new leftover; an error means a closed connection and changes nothing |
| Gnet.GnetConn.TakeLeftover | pkg/transport/gnet_transport.go:163-167 | the front of the leftover goes to the caller and the rest stays |
| Gnet.GnetConn.TakeChunk | pkg/transport/gnet_transport.go:171-176 | the front of the oldest chunk goes to the caller and the rest becomes the leftover |
| Clients.Run | internal/client/client.go:92-132 | every delay is min(60, 2^(k-1)) s after the k-th failure in a row, and 1 s after a connection that had succeeded: twice the one before up to a minute, until the client is stopped |
| Clients.DelayDoubles | internal/client/client.go:106-111 | doubling with a cap gives the closed form |
| Clients.DelayAt | internal/client/client.go:102-115 | the closed form of the delay, attempt by attempt: a success and a first failure reset it to 1 s |
| Clients.TimeToRetry | internal/client/client.go:94-113 | the first k failures in a row wait 2^k - 1 s in all, and 63 + 60(k-6) s from the sixth on |
| Clients.Keepalive | internal/client/client.go:499-557 | the loop gives the connection up exactly when a ping cannot be sent or the third round in a row times out |
| Clients.OutcomeIs | internal/client/client.go:508-546 | what that means, round by round |
| Clients.ReconnectsExactly | internal/client/client.go:426-557 | the same whenever pongs arrive, over every interleaving of their delivery with the rounds |
| Clients.OneLatePong | internal/client/client.go:446-452 | from any point on, the answered rounds are at most the pongs that still arrive and one that was waiting |
| Clients.PongAnswers | internal/client/client.go:446-452 | a pong that is there when the ping is sent answers it, and the round cannot time out; one that comes during the round can answer it |
| Clients.PongWaits | internal/client/client.go:446-452 | a pong is waiting exactly if one has come since a round last took one |
| Clients.RoundsComplete | internal/client/client.go:512-546 | the next ping is sent, and each round can be answered or, without a pong, time out |
| Clients.StaysSound | internal/client/client.go:508-546 | a connection that is not given up has fewer than three timeouts in a row, and a pong that waited for the ping is still there |
| Clients.SilenceIsNoticed | internal/client/client.go:508-546 | without further pongs every completed round brings the reconnect nearer: at most four rounds from any tick |
| PortRanges.JoinSplits | pkg/config/config.go:96 | splitting at dashes undoes joining with them |
| PortRanges.SplitJoins | pkg/config/config.go:96 | joining with dashes undoes splitting, and no part has a dash |
| PortRanges.TrimPadded | pkg/config/config.go:91 | trimming removes exactly the space around a text |
| PortRanges.ParsesIff | pkg/config/config.go:90-127 | accepted are exactly one port, or two in order with a dash between, all within 1..65535, with space around but not inside |
| PortRanges.OnePortRead | pkg/config/config.go:97-106 | the result for a text without a dash, each error in the order of the checks |
| PortRanges.TwoPortsRead | pkg/config/config.go:108-124 | the result for a text with one dash, each error in the order of the checks |
| PortRanges.MoreDashesRejected | pkg/config/config.go:126 | a text with more dashes is rejected for its format |
| PortRanges.ParseOfSpell | pkg/config/config.go:88-127 | every valid range, written with any space around it, is read back |
| PortRanges.Ports | pkg/config/config.go:135-141 | exactly the ports of the range in order |
| PortRanges.Expand | pkg/config/config.go:153-188 | accepted exactly if the two texts denote valid ranges of one length; then the expansion, otherwise the first error that applies |
| PortRanges.AcceptedIff | pkg/config/config.go:153-167 | a configuration is accepted exactly if its texts denote valid ranges of one length, and otherwise which error it gets |
| PortRanges.ExpandsTo | pkg/config/config.go:169-187 | the entries of an accepted configuration: name, kind, local address, and the ports at one offset in both ranges |
| PortRanges.ExpansionPorts | pkg/config/config.go:171-185 | every expanded pair lies at one offset in both ranges, within 1..65535 |
| ProxyNames.SuffixInjective | pkg/config/config.go:175-178 | base name and index can be read off an expanded name, whatever underscores the base has |
| ProxyNames.OwnNamesDistinct | pkg/config/config.go:173-178 | the expanded names of one configuration are distinct |
| ProxyNames.ClashIff | pkg/config/config.go:173-178 | two configurations share an expanded name exactly if they clash |
| ProxyNames.DistinctIff | pkg/config/config.go:173-178 | all expanded names are distinct exactly if no two configurations clash |
| ProxyNames.StoredIff | internal/client/client.go:50-59 | the map keeps all entries exactly if their names are distinct |
| ProxyNames.StoreAll | internal/client/client.go:56-58 | the inner loop stores the expansion after everything before it |
| PortRanges.New | internal/client/client.go:50-59 | accepted exactly if every configuration is; then the loops store every expansion in order, otherwise the error is that of the first configuration rejected |
| PortRanges.NoneLostIff | internal/client/client.go:48-59 | the client keeps a proxy for every configured pair of ports if and only if no two configurations clash |

## Left out

- Servers.Server.RunProxyExit: counts down `ActiveProxies` as the source does, which counts a cleaned-up proxy down twice (`internal/server/server.go:580`, `internal/server/server.go:641`); nothing is claimed about the counter's meaning.
- Servers.Server.HandleNewProxy: the ways in which decoding, `net.Listen` and the response fail are parameters; the sockets themselves are not modelled.
- Servers.Server.Register: takes the client's id as a parameter; that the first eight characters of a token are its id, and that shorter tokens panic, is not modelled. A client is its identity, not an object.
- RegistryAgreement.AgreementOverRuns: `net.Listen` and the store that follows are one step, since listening changes no map; a runner's look at `closeCh` and its deletion are one step, since a closed proxy stays closed.
- RegistryAgreement.DisciplineIsExact: the registering client has no other registration and no clean-up in progress; a clean-up would hold its mutex, so its registration could not go through uninterrupted.
- CopyBuffers.CopyBuffer: a source is finite here; runs without end are in `Relay`, `PooledRelay` and `TwoHop`. Counters are integers, so their wrap-around at 64 bits is not modelled, and the counters of concurrent loops are not summed up.
- Codec.Encoder.Encode: a message that cannot be marshalled, which fails before anything is written, is not modelled.
- SecureCodec.RecvMessage: after an error of the transport, or a message that was cut short, nothing is said of the connection; the source gives it up then.
- ChaCha20.OthersLeaveLeftover: whole calls of one other connection; the buffers that the calls share are kept apart by the pools' footprints at every point in between, but those points are not steps.
- Relay.JoinSafe: full delivery in both directions after a half-close is not claimed, because `Join` closes the whole connection.
- Clients.Run: takes a finite list of attempts, and what `connect` does inside is its result only; delays are whole nanoseconds, where the source doubles a float64 that is exact in this range.
- Clients.Keepalive: takes a list of round results; ticker periods and the ten seconds of the timeout are not modelled, nor that a stale `keepalive` could see the channels of the next connection.
- Gnet.GnetConn.Read: a call that finds nothing takes effect when it can proceed; the wait itself is not modelled.
- Auth.ReplayIff: the sweep may come at any time; `TickedReplayIff` has it on the ticks. That a tick is handled late, so that its clock reading is after the tick, is covered only by the first.
- TwoHop.EndToEnd: which stream a user's connection is paired with is not modelled, since the server takes the next stream accepted and does not compare `ConnID`.
- That a connected client stays in `s.clients` after a reconnect is not claimed: the older handler's clean-up deletes by id.
- `Stop` of server and client, TLS, certificates, QUIC, smux and mtmux, TCP options: library or shutdown code.
- The dashboard, logging, signals, YAML loading and the `main` packages: plumbing.
- `ConnPool`, `CountingReader` and `CountingWriter`: not used by the code modelled here.
- `GnetConn.Write`, accepting connections, and addresses: they pass calls on.
