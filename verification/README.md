# WallERA: verified model of the wallet's protocol stack

WallERA is a hardware-wallet firmware. A host talks to it in 64-byte HID frames; frames are reassembled
into APDU messages, messages are routed to the Cosmos application, and that application runs a signing
session of its own that spans several messages. Keys live either in the process or behind a mailbox in
a TrustZone secure world.

This project models that stack and proves properties of it over every input and every run:

* **Transport** (`Frames`, `Transport`, `Response`, `Usb`): the session that reassembles frames, the
  splitter that produces them, and that each undoes the other for every length.
* **Receive handlers** (`Rx`, `HidHandlers`, `MessageLoop`, `Duplex`, `LinuxBuild`): the firmware and
  Linux handlers for an arbitrary application, their refinement of a message loop, and what a host
  reads back from the wire.
* **Application** (`Apdu`, `Router`, `Derivation`, `Tokens`, `Cosmos`, `CosmosObjects`, `Device`):
  registration and routing, path arithmetic and key chains, the Cosmos signing session, what every
  history of messages says about each signature, every reply as bytes, and exactly which inputs panic
  the device.
* **End to end** (`EndToEnd`, `Addresses`): a payload cut into packets, packets into noisy frames, and
  back out as frames that decode to the signature of exactly that payload under exactly the host's path,
  or to the bytes of the refusal; the same for addresses and the version.
* **Secure world** (`Mailbox`, `Monitor`, `MonitorRuns`, `TeeToken`, `TokenObjects`, `Wallet`, `Builds`):
  the mail and result boxes, the monitor that runs applets, its exact fault condition, the remote token
  as a refinement of the in-process one, and the whole wallet as objects from USB report to applet.

Code that works step by step is modelled as classes and loops (`Usb.Session`, `HidHandlers.*`,
`Router.Handler`, `CosmosObjects.CosmosObject`, `Tokens.DumbToken`, `Monitor.Context`,
`TeeToken.TEEToken`, `Wallet.WalletObject`, `Response.ChunkFunc`, `Response.FormatResponse`, `Derivation.KeyFromPath`), each proved against a
specification on values; the theorems are about those specifications.

## Reading the model

* Bytes, 16-bit and 32-bit words are bounded integers with wrap-around written out. The exclusive or of
  the path constructor is a top-bit flip; `Derivation.FlipTopBitIsXor` proves it is exclusive or.
* Library functions (APDU parsing, JSON validity, SHA-256, bech32, key derivation, signing) are
  function-valued fields of `Device.Device`, `Cosmos.Env` and `Tokens.KeyLibrary`. Every theorem holds
  for any choice of them. `EndToEnd` additionally assumes that the APDU parser accepts the well-formed
  short commands it builds (section 5.1 of ISO/IEC 7816-4:2005) and that a signature with its status
  word fits one message.
* A Go slice expression may reach past a slice's length up to its capacity. The init packet and the
  address request rely on this without checking lengths. A message therefore travels as a
  `Transport.Packet`, together with the tail that truncation left behind it, and `Cosmos.Backing` is the
  array a slice can reach. `Cosmos.ONE_FRAME_CAPACITY` is the 64 bytes that `bytes.Buffer` allocates
  first; behind a longer message the written bytes alone already cover every slice.
* The outbound channel is an append-only sequence. A panic is an absorbing fault state.
* One RPC of the non-secure world is taken to run atomically and to be followed by the dispatch before
  control returns. Whether an applet's fatal log on a failed dispatch exits quietly or stops the
  monitor is the parameter `fatalExits`; the theorems cover both.
* An applet is a function from request to response that serves the mail of its own ID, as the
  cryptography applet does for ID 42.

## Where code and documentation differ

The model follows the code.

* A session whose first index is so high that a needed index would wrap to 0 never completes: the error
  is dropped and the frame with it (`Transport.CompletableIff` gives the exact condition,
  `Transport.StallExample` an input).
* The Linux handler can never complete a message of more than one frame, although the repository's
  README describes a five-frame message; `LinuxBuild.LinuxServesIff` is the exact condition.
* A response written to a full result box destroys the waiting response as well as the new one.
* An init packet shorter than its path takes the rest of the path from the discarded end of its frame
  (`Cosmos.ShortInitReadsTail`), and a one-frame address request that announces a prefix of more than 38
  bytes panics the device (`Device.UsbFaultsIff`, `Device.FaultExample`).
* The remote token hashes the digest it is given once more, so the two firmware builds sign different
  digests: `Builds.BuildsAgreeIffFixedPoint` says exactly when their replies coincide.
* The README says that a last packet always carries fewer than 255 bytes. The code accepts any size,
  and `EndToEnd.SigningEndToEnd` holds for every way of cutting the payload.

## Model

| member | source | states |
|---|---|---|
| `Frames.MarshalRoundTrip` | usb/usb.go:81-120 | a written frame has channel, tag, index and length at bytes 0 to 6, big-endian, and its data after them; reading it gives every field back |
| `Frames.UnmarshalRoundTrip` | usb/usb.go:172-183 | every 64-byte report is read, in both layouts, by the byte positions of its fields, and writing the frame again gives the report |
| `Frames.OpeningLayout` | usb/usb.go:81-88 | seven header bytes and 57 bytes of data are, in both directions, the opening frame they spell big-endian |
| `Frames.NextLayout` | usb/usb.go:114-120 | five header bytes and 59 bytes of data are, in both directions, the continuation frame they spell |
| `Transport.FreshAcceptsIff` | usb/usb.go:147-170 | on raw bytes: a fresh session accepts a report if and only if it has 64 bytes, byte 2 is 0x05 and bytes 0 and 1 are not both zero |
| `Transport.OpenAcceptsIff` | usb/usb.go:220-240 | on raw bytes: an open session accepts exactly the 64-byte reports with tag 0x05 on its channel whose index is the successor modulo 2^16, while it wants more |
| `Transport.FeedCharacterisation` | usb/usb.go:199-276 | for every input stream, the inputs that took effect share one nonzero channel with consecutive unwrapped indices, and the session is the announced-length prefix of their concatenated payloads |
| `Transport.ChainIsAbsorbed` | usb/usb.go:199-276 | conversely every such chain of frames is absorbed whole |
| `Transport.FinishedIsFinal` | usb/usb.go:225-227 | a finished session never changes again, whatever it is fed |
| `Transport.WantingInvariant` | usb/usb.go:242-276 | while more is wanted the buffer holds 57 + 59 * (last index - first index) bytes, fewer than announced; at most 1111 frames are ever absorbed |
| `Transport.FinishedFrames` | usb/usb.go:252-272 | a finished session took exactly the frames its announced length needs, and what was written is the message plus the discarded tail of the last frame |
| `Transport.NoStallBelow` | usb/usb.go:233-246 | from a first index of at most 64425 the silently dropped error is unreachable |
| `Transport.CompletableIff` | usb/usb.go:220-276 | some input completes a session if and only if its first index plus the continuation frames it needs is at most 65535 |
| `Transport.StallExample` | usb/usb.go:233-246 | an opening frame of index 65535 and length 58: the successor of index 0 is accepted and dropped, and no input completes the session |
| `Response.ChunkFunc` | usb/usb.go:283-307 | the loop yields the ceiling number of chunks, each the next `size` bytes, with every slice bound legal; empty data gives one empty chunk for any size |
| `Response.Chunk` | usb/usb.go:295-304 | all chunks but the last have exactly the given size, the last at most that, and none is empty unless the data is |
| `Response.ChunksConcatenate` | usb/usb.go:283-307 | the chunks concatenate to the data |
| `Response.FormatResponse` | usb/usb.go:313-375 | the branches and loops produce the zero-padded data cut at 57, 116, 175, ... under wrapping 16-bit length and index fields |
| `Response.FormatNext` | usb/usb.go:359-372 | the loop over the remaining chunks yields continuation frames 1, 2, ... of that cut |
| `Response.FirstFrameBytes` | usb/usb.go:313-357 | the first reply frame byte by byte: channel, 05, index 0, length modulo 65536, then the first 57 bytes padded with zeros |
| `Response.NextFrameBytes` | usb/usb.go:359-372 | the k-th reply frame byte by byte: channel, 05, k modulo 65536, then the data from byte 57 + 59 * (k - 1) on, padded with zeros |
| `Response.ResponseRoundTrip` | usb/usb.go:313-375 | for every length a fresh session fed the frames ends with the data cut at its length modulo 65536, and wants more exactly before the last frame that length needs |
| `Usb.Session.NewSession` | usb/usb.go:382-396 | accepts exactly the valid first frames and starts the session they describe |
| `Usb.Session.ReadData` | usb/usb.go:199-217 | the code accepts exactly what the specification accepts and moves to its next state; a rejected input changes nothing |
| `Usb.Session.ReadFrame` | usb/usb.go:220-240 | for any frame, of either layout and validated or not: what is accepted, and the next state including the dropped error |
| `Usb.Session.Absorb` | usb/usb.go:242-276 | write-then-truncate equals appending and cutting at the announced length, keeping what was cut off; fails only on index 0 in an open session |
| `Usb.Session.FormatResponse` | usb/usb.go:313-375 | replies go out on the session's own channel |
| `HidHandlers.Port.Send` | firmware/wallera.go:78-80 | frames reach the channel in order, once each |
| `HidHandlers.Port.Receive` | firmware/wallera.go:34-55 | a report opens a session or goes to the open one; exactly the rejected reports of an open session are refused |
| `HidHandlers.Port.Answer` | firmware/wallera.go:69-83 | the reply, if any, goes out framed on the session's channel and the session ends |
| `HidHandlers.FirmwareHandler.Rx` | firmware/wallera.go:31-87 | the handler object refines the value-level step, session, outbound stream, application and fault together |
| `HidHandlers.LinuxHandler.Rx` | cmd/wallera-linux/main.go:161-204 | the same for the Linux handler |
| `Rx.RxLifecycle` | firmware/wallera.go:34-83 | from a session that is absent or still wants data every call does exactly one of: fault, one refusal, silent absorption, one application call answered and back to idle |
| `Rx.RunSettled` | firmware/wallera.go:34-83 | over every run, on entry to each call the session is absent or still wants data |
| `Rx.RunServes` | firmware/wallera.go:57-83 | over every run without a fault, the application is where the delivered messages alone put it |
| `Rx.DeliveredInMemory` | usb/usb.go:252-270 | for every input stream, the bytes behind a delivered message fill exactly the frames that carried it, and the tail past it is the end of the completing report |
| `Rx.HandlersAgreeIff` | cmd/wallera-linux/main.go:164-177 | firmware and Linux handlers do the same on a report if and only if no open session accepts it |
| `Rx.HandlersAgreeOnSingleFrames` | cmd/wallera-linux/main.go:161-204 | on every stream of single-frame messages the two handlers pass through equal states |
| `LinuxBuild.LinuxNeverFinishes` | cmd/wallera-linux/main.go:168-177 | once a longer message is opened, no input completes it: the application is never called and each report costs one refusal |
| `LinuxBuild.LinuxServesIff` | cmd/wallera-linux/main.go:161-204 | a framed message is treated as by the firmware if and only if it has at most 57 bytes |
| `MessageLoop.NoiseIsRefused` | firmware/wallera.go:39-48 | any number of reports that do not continue the open message get one 0x6986 frame each and change nothing else |
| `MessageLoop.TransmissionIsExchange` | firmware/wallera.go:31-87 | one framed message with arbitrary noise between its frames is one exchange: refusals for the noise, one application call on exactly the message, its framed reply |
| `MessageLoop.RxRefinesLoop` | firmware/wallera.go:31-87 | for every application and every list of noisy transmissions the handler equals the simple message loop |
| `MessageLoop.TransmissionsDeliver` | firmware/wallera.go:57-64 | however noisy, a list of transmissions hands the application exactly its messages, in order |
| `Duplex.HostReadsReplies` | usb/usb.go:313-375 | a host reading any list of framed replies recovers exactly that list |
| `Duplex.Conversation` | firmware/wallera.go:31-87 | for every application and list of noisy transmissions the host reads exactly the replies owed, in order, and the device is idle |
| `Duplex.RefusalBytes` | firmware/wallera.go:43-47 | a refusal is the reply 69 86, alone in one frame on the session's channel, given byte by byte |
| `Duplex.OneMessage` | firmware/wallera.go:31-87 | for any application, one message through any noise leaves the host with one 69 86 per refused report and then exactly the reply |
| `Duplex.OutboundIsLedger` | firmware/wallera.go:43-80 | for every input stream, up to and including a fault, the outbound stream is the frames of one refusal per rejected report and one reply per answered message |
| `Duplex.HostReadsLedger` | firmware/wallera.go:43-80 | and the host decodes exactly those replies |
| `Apdu.PackageInjective` | apps/apps.go:122-135 | a packaged reply determines its body and its status word |
| `Apdu.StatusBytes` | apps/apdu.go:6-17 | each status word as the two bytes that end a reply |
| `Router.Admitted` | apps/apps.go:59-80 | a registration call admits the longest prefix of its applications without an ID clash |
| `Router.Handler.Register` | apps/apps.go:59-80 | the nested loops install exactly the admitted applications and succeed if and only if no ID clashes |
| `Router.Handler.Admit` | apps/apps.go:68-75 | one application adds itself and exactly its listed commands |
| `Router.InstallAgrees` | apps/apps.go:59-80 | installing keeps the two indices in agreement, looks up each new application, and leaves the old ones alone |
| `Router.RegistrationsAgree` | apps/apps.go:59-80 | after any sequence of registration calls, failing ones included, the command index is exactly the pairs of registered applications |
| `Router.Handler.Handle` | apps/apps.go:96-120 | the object's routing equals the value-level routing, new state and reply |
| `Router.HandleReaches` | apps/apps.go:96-120 | a message reaches an application if and only if that application lists its command; otherwise the reply is 0x6E00 and no state changes; there is always a reply |
| `Derivation.FlipTopBitIsXor` | crypto/crypto.go:74-76 | the case split used for the path constructor is the bitwise exclusive or of the word with 0x80000000 |
| `Derivation.Uint32Bytes` | crypto/crypto.go:74-78 | both directions of the word encoding are little-endian on raw bytes; 2C 00 00 80 is 0x8000002C |
| `Derivation.HostWordsRoundTrip` | crypto/crypto.go:72-80 | five words written to 20 bytes stand there little-endian, byte by byte, and are read back as the same words |
| `Derivation.ChildIndicesAreHostWords` | crypto/crypto.go:72-80 | for every 20-byte host path the child indices used in derivation are exactly its five words, word i being bytes 4i to 4i+3, lowest first |
| `Derivation.HardenedIff` | crypto/crypto.go:111-122 | one of the first three levels is derived hardened if and only if its stored component is below 2^31 |
| `Derivation.KeyFromPath` | crypto/crypto.go:106-130 | the loop returns the last key of any six-key chain in which each key is the child of the one before at the next index, and an error whenever such a chain breaks at some level |
| `Derivation.DeriveFollows` | crypto/crypto.go:111-127 | derivation ends where a whole chain of intermediate keys ends, and fails where one breaks, for paths of any length |
| `Derivation.DeriveChain` | crypto/crypto.go:111-127 | exactly one of the two happens, and the intermediate keys can be given |
| `Tokens.HostKeyIsChain` | crypto/crypto_token.go:71-91 | with the master key of the host's coin type and five children k1 to k5 along the host's words, the token holds k5 |
| `Tokens.HostKeyDecides` | crypto/crypto_token.go:71-91 | conversely, a path with a key has such a chain, and a path without one has a first level that fails |
| `Tokens.HostKeyOfBytes` | crypto/crypto.go:72-130 | for every 20 host bytes the key is the one of the five words they spell |
| `Tokens.HostKeyIsKeyAt` | crypto/crypto.go:72-130 | the key at a written host path is the end of any whole chain of children along the host's words below the master key of its coin type; a missing master key or a broken chain gives none |
| `Tokens.DumbToken.Initialize` | crypto/crypto_token.go:71-91 | succeeds exactly when the path derives, and then holds that key; a failed master key leaves the stored key alone, a failed derivation clears it |
| `Tokens.DumbToken.Clone` | crypto/crypto_token.go:141-144 | a fresh object with the same contents |
| `TokenObjects.Token.Clone` | crypto/crypto.go:53-62 | a fresh token computing the same, sharing the monitor |
| `TokenObjects.Token.Initialize` | crypto/crypto.go:53-62 | either token is bound to the path exactly when its suite says so |
| `TokenObjects.Token.Sign` | crypto/crypto.go:53-62 | either bound token signs as its suite says, or stops the monitor exactly when that is a failure and failures are loud |
| `TokenObjects.Token.PublicKey` | crypto/crypto.go:53-62 | the same for the public key |
| `Cosmos.AddressRequestRoundTrip` | apps/cosmos/cosmos.go:217-260 | for every prefix of 1 to 83 bytes and every path, parsing the built request gives back that prefix and exactly that path, deriving exactly those words, within offset 109 |
| `Cosmos.InitPathWords` | apps/cosmos/cosmos.go:158-167 | the session path derives the five words at bytes 5 to 25 of the init packet, little-endian on the raw bytes, read on into the frame's tail when the packet is short |
| `Cosmos.ShortInitReadsTail` | apps/cosmos/cosmos.go:158-167 | equal five-byte init packets select whatever paths the tails of their frames spell |
| `CosmosObjects.CosmosObject.HandleCommand` | apps/cosmos/cosmos.go:84-102 | with either token, the object refines the value-level application while the monitor survives, the monitor stops if and only if failures are loud and the token cannot serve the request, and the base token never changes |
| `CosmosObjects.CosmosObject.HandleSignSecp256K1` | apps/cosmos/cosmos.go:142-208 | the object does what the value-level session machine does, with its deferred reset, token clone and every error status, or the monitor stops; it never panics. `Device.SignatureOutcome` and `Device.SignPacketReplies` give those replies as bytes |
| `CosmosObjects.CosmosObject.HandleGetAddrSecp256K1` | apps/cosmos/cosmos.go:266-306 | the object answers as the value-level application does, or the monitor stops, and changes no signature session. `Addresses.AddressOfBytes` and `Device.AddressRefused` give those replies as bytes |
| `CosmosObjects.UnservedByTee` | tee/cryptography_applet/token/client/tee_token.go:47-83 | with the remote token a request goes unserved exactly when it is a last packet of an open session with a JSON payload that the in-process token would not sign, or a readable address request whose public key it would not give |
| `Device.BootIsWith` | firmware/main.go:45-48 | booting registers the Cosmos application and its three commands, with no signature session |
| `Device.ServingIsStep` | apps/apps.go:96-120 | routing a message on the booted device is one step of the signature session |
| `Device.OpeningIff` | apps/cosmos/cosmos.go:148-156 | the open session belongs to position j if and only if j is an init packet with no init and no last packet after it |
| `Device.SessionIsHistory` | apps/cosmos/cosmos.go:142-182 | after every run of messages the session is the path of that init and the add payloads since, whatever else was interleaved |
| `Device.SignatureIsHistory` | apps/cosmos/cosmos.go:180-208 | after every run, a last packet is answered by the signature over exactly that history's payload plus its own, under that init's path, and closes the session; a whole init's path derives exactly the five words it carries |
| `Device.IsSignIff` | apps/cosmos/cosmos.go:84-102 | on raw bytes: a sign command is a parsed message of at least five bytes that begins 55 02, with its descriptor third |
| `Device.LastReplyBytes` | apps/cosmos/cosmos.go:180-208 | for any token, after every history: 64 00 without a session or a bound token, 69 84 for a payload that is not JSON, 64 00 for a failed signature, otherwise signature and 90 00 |
| `Device.SignatureOutcome` | apps/cosmos/cosmos.go:142-208 | in process, after every run: the reply to a last packet as bytes in each case, by the key at the path of the open session, and the session closed |
| `Device.SucceedsIff` | apps/cosmos/cosmos.go:180-208 | that reply ends in 90 00 if and only if a session is open, its path has a key, the payload is JSON and the key signs its hash |
| `Device.UnroutedReply` | apps/apps.go:96-120 | any message that is not a parsed 55 00, 55 02 or 55 04 is answered 6E 00 and changes nothing |
| `Device.ShortReply` | apps/cosmos/cosmos.go:84-89 | a routed message of fewer than five bytes is answered 67 00 and changes nothing |
| `Device.VersionReply` | apps/cosmos/cosmos.go:104-135 | a version request is answered 00 02 00 00 00 90 00 and changes nothing |
| `Device.SignPacketReplies` | apps/cosmos/cosmos.go:145-178 | init, add, unknown and session-less sign packets: the reply as bytes and the next session |
| `Device.AddressRefused` | apps/cosmos/cosmos.go:225-274 | an address request that is too short or has a header field out of range is answered 64 00 and changes nothing |
| `Device.UsbSigningHistory` | firmware/wallera.go:31-87 | the same over every raw stream of USB reports, the path deriving the words of the init packet's bytes 5 to 25 and its frame's tail |
| `Device.UsbSignatureOutcome` | firmware/wallera.go:31-87 | over every raw stream of reports that reply is given as bytes, by the key of the five words that the init packet's frames spell |
| `Device.AddressIgnoresHistory` | apps/cosmos/cosmos.go:266-306 | any two histories get the same answer to the same address request, and it changes no state |
| `Device.PanicsIff` | apps/cosmos/cosmos.go:245-260 | a message panics the application if and only if it is a valid address request whose prefix and path pass the array behind it; no init packet does |
| `Device.UsbPanicsIff` | apps/cosmos/cosmos.go:245-260 | with whole frames behind it, exactly when the request has at most 57 bytes and announces a prefix of more than 38 |
| `Device.UsbFaultsIff` | firmware/wallera.go:34-37 | after every run, a report faults the device if and only if it is a bad first frame or completes an address request of at most 57 bytes with a prefix of more than 38 |
| `Device.FaultExample` | apps/cosmos/cosmos.go:245-260 | one six-byte address request, framed as usual, faults a fresh device |
| `EndToEnd.SigningReplies` | apps/cosmos/cosmos.go:142-208 | every packet of a signing request but the last is answered 0x9000, the last by the signing result, errors included; `EndToEnd.SignReplyBytes` gives that result as bytes |
| `EndToEnd.PacketBytes` | README.md:100-109 | the packets a client sends, byte by byte |
| `EndToEnd.SignReplyBytes` | apps/cosmos/cosmos.go:184-207 | the result of a request in process: 64 00, 69 84, 64 00 or signature and 90 00, by the key of the host's words |
| `EndToEnd.TeeSignReplyBytes` | tee/cryptography_applet/token/client/tee_token.go:47-66 | the same for the remote token, which signs the hash of the hash and checks JSON before the key is ever looked for |
| `EndToEnd.OutcomeEndToEnd` | apps/cosmos/cosmos.go:142-208 | every outcome end to end: through any noise the host reads 90 00 for each packet but the last, then exactly the bytes of that outcome, and the device is idle without a session |
| `EndToEnd.NotJSONEndToEnd` | apps/cosmos/cosmos.go:196-198 | a payload that is not JSON, without noise: 90 00 for every earlier packet and then 69 84 |
| `EndToEnd.SigningEndToEnd` | README.md:107-118 | for every path, JSON payload, packet cut, channels and noise, and any half-finished session before, the host reads 0x9000 for each packet but the last and then the signature of exactly that payload's hash under the host's path |
| `EndToEnd.SignedEndToEnd` | firmware/wallera.go:31-87 | the same for any token: whatever signature it gives for the payload and path is what the host reads last |
| `EndToEnd.ReplyEndToEnd` | firmware/wallera.go:31-87 | for any token, whatever it answers to the request is what the host reads last |
| `EndToEnd.LedgerClientSigns` | README.md:107-118 | the documented client: 255-byte packets without noise read back one 0x9000 per earlier packet and then signature and 0x9000 |
| `Wallet.WalletObject.Handle` | apps/apps.go:96-120 | routing and the Cosmos object together equal the value-level device on every message while the monitor survives, with the exact condition under which it stops |
| `Wallet.WalletObject.Rx` | firmware/wallera.go:31-87 | one report, from USB down to the applet, is one value-level step; the monitor stops if and only if failures are loud and the report completes a message the token cannot serve |
| `Wallet.WalletObject.HandOver` | firmware/wallera.go:64-83 | a completed session is handed over once, answered, and cleared |
| `Wallet.WalletObject.RunAll` | firmware/wallera.go:31-87 | the same for every stream of reports |
| `EndToEnd.NextDelivery` | firmware/wallera.go:57-64 | any report of the transmissions that delivers anything delivers the next message, to an application that has served exactly those before it |
| `EndToEnd.SigningIsServed` | apps/cosmos/cosmos.go:142-208 | no report of a request that the token signs, or that is refused as not JSON, goes unserved, so the monitor survives it |
| `EndToEnd.WalletReplies` | firmware/main.go:37-56 | on the wallet's objects, with either token, the outbound channel holds what the host decodes to 0x9000s and the reply, signature or refusal |
| `EndToEnd.WalletSigns` | firmware/main.go:37-56 | on the wallet's objects, with either token, the outbound channel holds what the host decodes to 0x9000s and the signature, and the wallet is ready again |
| `EndToEnd.TeeSigningEndToEnd` | tee/cryptography_applet/token/client/tee_token.go:47-66 | the TEE build on the wallet's objects: through mailbox, monitor and applet the host reads the in-process signature over the hash of the payload's hash under its own path, and the monitor survives |
| `EndToEnd.TeeNotJSONEndToEnd` | apps/cosmos/cosmos.go:196-198 | the TEE build on the wallet's objects: a payload that is not JSON is refused by 69 84 under any path, and the monitor survives |
| `Addresses.AddressOfBytes` | apps/cosmos/cosmos.go:266-306 | in any state and either build, every valid request is answered by the public key at the words after its prefix, then the address under the prefix at byte 6, then 90 00; by 64 00 if key, public key or address is missing; the session is kept |
| `Addresses.AddressAnswered` | apps/cosmos/cosmos.go:210-306 | so a request built for a prefix and five words is answered for exactly those |
| `Addresses.AddressEndToEnd` | apps/cosmos/cosmos.go:302-305 | through any noise the host reads one 69 86 per refused report and then public key, address and 90 00 |
| `Addresses.VersionEndToEnd` | apps/cosmos/cosmos.go:123-135 | through any noise the host reads 00 02 00 00 00 90 00 in answer to a version request |
| `Addresses.AddressIsServed` | apps/cosmos/cosmos.go:284-293 | no report of an address request whose public key exists goes unserved |
| `Addresses.WalletGivesAddress` | firmware/main.go:37-56 | on the wallet's objects, with either token, the outbound channel holds what the host decodes to public key, address and 90 00 |
| `Mailbox.TakenIsFlow` | tee/trusted_os/tz/tz.go:100-154 | what an operation returns is what the flow accounting records |
| `Mailbox.Conservation` | tee/trusted_os/tz/tz.go:100-154 | over every operation sequence, per applet and in order: mail stored is mail retrieved then mail pending; results stored are results read or overrun then the one pending |
| `Monitor.Context.RetrieveMail` | tee/trusted_os/tz/tz.go:100-116 | takes the applet's mail out, or reports none |
| `Monitor.Context.WriteResponse` | tee/trusted_os/tz/tz.go:118-126 | stores into an empty box; a full box is emptied and the write fails |
| `Monitor.Context.ReadResponse` | tee/trusted_os/tz/tz.go:128-144 | takes the result out, or reports none |
| `Monitor.Context.SendMail` | tee/trusted_os/tz/tz.go:146-154 | stores into an empty box; a full box is left alone and the send fails |
| `Monitor.Context.RunApplet` | tee/cryptography_applet/main.go:46-73 | retrieve, dispatch, respond, exit; faults exactly when the applet is missing, its failure is not quiet, or its result box is full |
| `Monitor.Context.DispatchAppsCalls` | tee/trusted_os/tz/tz.go:240-256 | in whatever order applets run, it faults if and only if some applet would, and otherwise leaves no mail and one result per answered mail |
| `Monitor.Context.NonsecureSend` | tee/trusted_os/tz/tz.go:258-270 | a send is the box operation followed by a complete dispatch |
| `Monitor.Context.NonsecureRead` | tee/trusted_os/tz/tz.go:258-270 | a read is the box operation followed by a complete dispatch |
| `MonitorRuns.WaitingIff` | tee/trusted_os/tz/tz.go:118-144 | what is waiting for the non-secure world is the answer to an earlier send, with nothing since that read or replaced it |
| `MonitorRuns.SurvivesIffSafe` | tee/trusted_os/tz/tz.go:240-270 | every run of the non-secure world survives if and only if each send goes to a registered applet, is answered unless failures are quiet, and finds no unread answer; the mailbox is empty whenever it has control |
| `MonitorRuns.RepliesAreHistory` | tee/trusted_os/tz/tz.go:128-154 | in every surviving run a send never finds the mailbox full and a read returns exactly the waiting answer |
| `MonitorRuns.AlternatingClient` | tee/cryptography_applet/token/client/tee_token.go:113-139 | a client that reads each result before the next send never meets a full result box, gets each request's own answer, and leaves both boxes empty |
| `TeeToken.Dispatch` | tee/cryptography_applet/token/request.go:116-233 | the applet answers what an in-process token at the requested path would |
| `TeeToken.AppletAnswers` | tee/cryptography_applet/token/request.go:116-233 | those answers case by case: none at a path without a key or for zero random bytes, otherwise what the key library gives for that key |
| `TeeToken.TEEToken.DoRequest` | tee/cryptography_applet/token/client/tee_token.go:113-139 | a request through the monitor returns the applet's answer and restores the boxes, or fails as the applet failed |
| `TeeToken.TEEToken.Sign` | tee/cryptography_applet/token/client/tee_token.go:47-66 | returns the in-process signature over the hash of its argument |
| `TeeToken.TEEToken.PublicKey` | tee/cryptography_applet/token/client/tee_token.go:68-83 | returns what an in-process token initialised with the same path returns |
| `TeeToken.TEEToken.Mnemonic` | tee/cryptography_applet/token/client/tee_token.go:85-100 | returns what an in-process token initialised with the same path returns |
| `TeeToken.TEEToken.RandomBytes` | tee/cryptography_applet/token/client/tee_token.go:21-36 | returns what the in-process source gives for that amount; nothing for zero bytes |
| `TeeToken.CloneAndSign` | apps/cosmos/cosmos.go:184-201 | clone, bind and sign on a shared remote token give what the remote token suite says and leave the monitor ready; it stops if and only if the in-process signature fails and failures are loud |
| `TeeToken.CloneAndPublicKey` | apps/cosmos/cosmos.go:284-293 | the same for the public key of an address request |
| `Builds.BuildsAgreeOnAddresses` | firmware/tee_tee_enabled.go:50-52 | address replies are the same with the in-process and the remote token |
| `Builds.BuildsAgreeOnSignaturesIff` | tee/cryptography_applet/token/client/tee_token.go:47-66 | the signature replies of the two builds compared case by case, for any library |
| `Builds.BuildsAgreeIffFixedPoint` | tee/cryptography_applet/token/client/tee_token.go:47-66 | for a key that signs and tells digests apart, the builds agree if and only if the payload is not JSON or its digest is a fixed point of the hash |
| `Builds.BuildsDisagreeOnJSON` | tee/cryptography_applet/token/client/tee_token.go:47-66 | on every JSON payload whose digest the hash moves, both builds succeed with different signatures |
| `Builds.BuildsDisagree` | tee/cryptography_applet/token/client/tee_token.go:47-66 | a concrete library and payload for which the two builds sign different digests |

## Left out

- USB descriptors, endpoints and gadget set-up: device plumbing without protocol state.
- SHA-256, RIPEMD-160, bech32, BIP-39, HMAC, secp256k1 and extended-key arithmetic: external libraries, present as arbitrary functions.
- The JSON and base64 codecs and `net/rpc` of the secure-world wire: messages are values, so a codec failure is not modelled.
- Randomness: the random source is one arbitrary function of the amount, so two calls for the same amount agree. The remote `DeriveSecret` stub is unimplemented in the source.
- The signature algorithm argument: both tokens ignore it.
- The remainder of a panic after the fault state (reboot, LED and log output) and the monitor's exit-with-error payload.
- Concurrency of the receive and transmit goroutines: a send on the outbound channel is taken to complete.
- Floating-point rounding in the chunk count: taken as the exact integer ceiling.
- Buffer growth past the first allocation: only its lower bound, the bytes written, is used, and no slice reaches further.
- Framed messages of the conversation and end-to-end theorems end in zero padding, as the code's own splitter writes it; other tails are covered by the theorems over raw input.
- An applet image registered under an ID other than the one it asks mail for: the trusted OS registers one image, under its own ID.
