# cryptobox, modelled in Dafny

cryptobox keeps secret keys out of the host process. `init` clones a worker
process that owns a key vault and talks to it over a `SOCK_SEQPACKET` socket
pair. The host's `gen_keypair`, `seal` and `open` each send one request
datagram and read one reply. The worker hands back only public keys. The
public key also serves as the handle under which the worker stores the
secret key.

This project models three parts of that design:

- the wire codec (`wire.dfy`, module `Wire`): big-endian u64 length prefixes,
  sized byte strings, and fixed-width nonce, public-key and handle blocks.
  They are read through a `Cursor` class and written into a `BytesMut` class;
- the worker (`server.dfy`, module `Server`): the vault, the three vault
  operations, and the dispatch loop, as a `Worker` class;
- the host facade (`client.dfy`, module `Client`): the `Once`-guarded `init`,
  request encoding, reply decoding and the host's socket end, as a `Host`
  class.

`endtoend.dfy` (module `EndToEnd`) puts the two sides together. It proves:

- what the host writes, the worker reads field for field, and the reverse;
- a message sealed through the sandbox opens through it again;
- the library's own test succeeds.

`crypto.dfy` (module `Crypto`) stands in for the box primitive.
`Crypto.Primitive` is any triple of key-derivation, seal and open functions.
`Crypto.Sound` is the hypothesis the end-to-end results take: the ciphertext
is 16 octets longer than the plaintext, and open undoes seal for matching
key pairs. `Crypto.SoundIsSatisfiable` exhibits an instance, so the
hypothesis is not vacuous.

Every panic the model covers is an explicit `Abort(panic)` outcome. This covers
an `unwrap` on a failed read or lookup, `unimplemented!`, a `Buf` getter
running dry, and a `Once` that was poisoned. A panicking worker is dead, but
its end of the socket pair stays open: `spawn_process` (src/box_.rs:49-60)
clones without sharing the descriptor table and never closes the worker's
descriptor in the host. So no reply and no end of file ever arrive. The
host's `recv` waits forever, which the model writes as the call outcome
`Hangs` (of `Client.Call`), and every later send is still accepted and then waits too.

The fixed 8 KiB receive buffer of the worker (src/server.rs:35) has
consequences that are proved here:

- the worker reads a seal or open request whole if and only if its message
  has at most 8095 octets (`EndToEnd.WorkerReadsRequestIff`);
- a longer request that the socket still accepts arrives cut short, and
  reading it kills the worker and hangs the host (`EndToEnd.OversizedRequestKillsWorker`). A
  request beyond the socket's send limit fails at the host's `send` instead;
  that case is not modelled (see "## Left out");
- a message of 8080 to 8095 octets can be sealed, but opening its ciphertext
  kills the worker and hangs the host (`EndToEnd.SealedButNotOpenable`).

The host's reply buffers (input length + 2 KiB) never cut a reply short
under `Sound`.

The code's failure handling, which the model follows:

- an unknown command byte ends the worker (`unimplemented!`); it does not
  reply with a failure status;
- an unknown key handle ends the worker (`unwrap` on the lookup); it does not
  reply with a failure status;
- a short or malformed request ends the worker; it is not rejected with a
  failure reply;
- a receive error is logged and the loop goes on, whatever the error;
- a failed spawn panics inside `call_once`, and every later `init` panics on
  the poisoned `Once`. `init` never returns `Err`.

## Model

| member | source | states |
|---|---|---|
| Wire.AsI8 | src/server.rs:40 | the signed reading of an octet, as `get_i8` casts it: in -128..127, non-negative exactly for octets below 128 |
| Wire.FromI8 | src/box_.rs:79 | the octet `put_i8` writes for a signed value, which reads back as that value |
| Wire.U64BE | src/ipc.rs:42 | eight octets that decode back to the u64 written |
| Wire.BigEndianRoundTrip | src/ipc.rs:17 | decoding a big-endian encoding of a number of the right width gives the number back |
| Wire.BigEndianOfValue | src/ipc.rs:17 | encoding the value of any octet string at its width gives the string back |
| Wire.U64BEOfValue | src/ipc.rs:17 | any eight octets read by `get_u64_be` are the encoding of a u64 |
| Wire.SizedSlice | src/ipc.rs:41-44 | a sized slice is 8 + \|s\| octets: the length as big-endian u64, then `s` |
| Wire.ReadI8 | src/server.rs:40 | `get_i8` succeeds iff an octet remains, returns it read as signed and advances by one; otherwise BufferUnderflow |
| Wire.ReadU64BE | src/ipc.rs:17 | `get_u64_be` succeeds iff eight octets remain, returns their big-endian value and advances by eight; otherwise BufferUnderflow |
| Wire.ReadExactly | src/ipc.rs:18-19 | `read_exact` succeeds iff `len` octets remain, returns exactly them and advances by `len`; otherwise ShortRead |
| Wire.ReadSizedVec | src/ipc.rs:16-21 | `get_sized_vec` succeeds iff eight octets remain and the declared length fits the rest; it then consumes exactly a sized slice of the result and advances by 8 + L; the panic is BufferUnderflow with fewer than eight octets left, else ShortRead |
| Wire.ReadNonce | src/ipc.rs:23-27 | `get_nonce` succeeds iff 24 octets remain and returns them unchanged; otherwise ShortRead |
| Wire.ReadPublicKey | src/ipc.rs:29-33 | `get_public_key` succeeds iff 32 octets remain and returns them unchanged; otherwise ShortRead |
| Wire.Cursor.constructor | src/server.rs:39 | a cursor starts at position 0 over the received octets |
| Wire.Cursor.GetI8 | src/server.rs:40 | the cursor's result and new position are what `ReadI8` gives at the old position |
| Wire.Cursor.GetU64BE | src/ipc.rs:17 | the cursor's result and new position are what `ReadU64BE` gives |
| Wire.Cursor.ReadExact | src/ipc.rs:18-19 | the cursor's result and new position are what `ReadExactly` gives |
| Wire.Cursor.GetSizedVec | src/ipc.rs:16-21 | the cursor's result and new position are what `ReadSizedVec` gives |
| Wire.Cursor.GetNonce | src/ipc.rs:23-27 | the cursor's result and new position are what `ReadNonce` gives |
| Wire.Cursor.GetPublicKey | src/ipc.rs:29-33 | the cursor's result and new position are what `ReadPublicKey` gives |
| Wire.Cursor.GetSecretKeyHandle | src/ipc.rs:35-37 | a handle is read exactly as a public key is (`ReadPublicKey`) |
| Wire.BytesMut.WithCapacity | src/server.rs:63 | a new buffer is empty with the requested capacity |
| Wire.BytesMut.PutI8 | src/server.rs:99 | appends the one octet of a signed value; needs room for it |
| Wire.BytesMut.PutU64BE | src/ipc.rs:42 | appends the eight-octet big-endian encoding; needs room for it |
| Wire.BytesMut.Put | src/server.rs:64 | appends the octets unchanged; needs room for them |
| Wire.BytesMut.PutSizedSlice | src/ipc.rs:41-44 | appends exactly 8 + \|s\| octets, the sized slice of `s`, and leaves the earlier contents untouched |
| Wire.SizedSliceRoundTrip | src/ipc.rs:16-44 | `get_sized_vec` on a sized slice followed by anything returns the slice and stops at the start of what follows |
| Wire.FixedFieldsRoundTrip | src/ipc.rs:23-33 | a nonce or public key is read back unchanged whatever follows it, advancing by 24 or 32 |
| Server.CommandBytesDistinct | src/server.rs:20-22 | the command tags 1, 2, 3 are signed octets, survive the wire, and are three distinct octets |
| Server.Recv | src/server.rs:35-39 | a received datagram is a prefix of the one sent, of exactly its length when it fits and of exactly the buffer size otherwise |
| Server.BoxArgsBytes | src/box_.rs:80-83 | the request fields take 8 + \|m\| + 24 + 32 + 32 octets |
| Server.ParseBoxArgs | src/server.rs:72-75 | a seal or open request parses, in the order sized vec, nonce, public key, handle, into fields whose encoding is exactly the octets consumed; a failure is BufferUnderflow or ShortRead |
| Server.BoxArgsRoundTrip | src/server.rs:72-75 | the fields as the host lays them out are parsed back, equal, whatever precedes or follows them |
| Server.GenKeypairReply | src/server.rs:60-69 | the reply is the new public key; afterwards the vault maps it to the new secret key, holds exactly the old handles plus it, keeps every other entry, and stays consistent |
| Server.SealReply | src/server.rs:71-86 | succeeds iff the request parses and its handle is in the vault (an unknown handle is KeyNotFound); the reply is 8 + \|c\| octets and reads back with `get_sized_vec` as the ciphertext the primitive gives for the parsed fields and the stored key |
| Server.OpenReply | src/server.rs:88-109 | succeeds iff the request parses and its handle is known; the status octet is negative iff the primitive rejects, the reply is then exactly the one octet -1; otherwise the status octet is 0 and a sized plaintext follows that reads back as the primitive's plaintext |
| Server.Respond | src/server.rs:43-52 | a vault operation's result is sent as the reply iff it succeeded; a panic instead ends the worker; neither touches the vault or the entropy drawn |
| Server.Dispatch | src/server.rs:39-47 | routes on the command octet: key generation replies with 32 octets and adds exactly that vault entry; seal and open reply as `SealReply`/`OpenReply` or panic, leaving the vault as it was; any other octet panics with UnknownCommand; the worker dies iff it panicked; consistency is kept |
| Server.Step | src/server.rs:37-56 | one turn of the loop sends nothing iff the receive failed or was empty, and then changes nothing; the vault only grows and stays consistent |
| Server.Run | src/server.rs:36-57 | the loop over a run of receives sends at most one reply per receive and never gives entropy back; its partners `RunAfterCrash`, `RunPreservesVault` and `RunWithoutKeygenKeepsVault` state what it keeps, and `Worker.Serve` is proved equal to it |
| Server.RunAfterCrash | src/server.rs:36-57 | once the worker has panicked, later events change neither the replies sent nor its state |
| Server.RunPreservesVault | src/server.rs:36-57 | over any run, handles are never removed and the vault stays consistent |
| Server.RunWithoutKeygenKeepsVault | src/server.rs:71-109 | a run without key-generation requests leaves the vault and the entropy drawn exactly as they were |
| Server.Worker.constructor | src/server.rs:33 | a new worker has an empty vault and is alive |
| Server.Worker.GenKeypair | src/server.rs:60-69 | inserts into the vault field in place and replies as `GenKeypairReply` |
| Server.Worker.Seal | src/server.rs:71-86 | reads its fields through the cursor and replies as `SealReply` on the cursor's data |
| Server.Worker.Open | src/server.rs:88-109 | reads its fields through the cursor and replies as `OpenReply` |
| Server.Worker.HandleDatagram | src/server.rs:37-55 | one turn of the loop on the worker object has the outcome and new state of `Step` |
| Server.Worker.Serve | src/server.rs:36-57 | the loop over a run of receives sends exactly the replies of `Run` and reaches its state; it stops at the first panic |
| Client.GenKeypairRequest | src/box_.rs:64 | the key-generation request is the single command octet 1 |
| Client.BoxRequest | src/box_.rs:77-83 | a seal or open request is 1 + 8 + \|m\| + 24 + 32 + 32 octets, starts with the command octet, and the worker parses the same message, nonce, public key and handle from it |
| Client.EncodeBoxRequest | src/box_.rs:77-87 | the request built by successive puts into a buffer of the precomputed length fills it exactly and equals `BoxRequest` |
| Client.DecodeGenKeypairReply | src/box_.rs:67-73 | succeeds iff exactly 32 octets arrived, giving them as both public key and handle; otherwise InvalidKeyLength |
| Client.DecodeSealReply | src/box_.rs:91-94 | decodes iff eight octets arrived and the declared length fits what follows, returning exactly what the sized slice holds; fewer than eight octets is BufferUnderflow, a length past the end ShortRead |
| Client.DecodeOpenReply | src/box_.rs:113-121 | an empty reply panics (BufferUnderflow); the result is `Err(())` if and only if the status is negative; a plaintext is returned iff a non-negative status is followed by a well-formed sized slice, and it is what that slice holds; a short reply is BufferUnderflow, a length past the end ShortRead |
| Client.Delivered | src/box_.rs:89-91 | `recv` returns if and only if the worker replied, and then gives exactly the first `cap` octets of the reply (all of it when it fits); after a worker panic it never returns |
| Client.Transaction | src/box_.rs:85-91 | one request and reply over the socket: the host's `recv` never returns if and only if the worker died on the request, otherwise at most `cap` octets arrive; the vault only grows and stays consistent |
| Client.ClientGenKeypair | src/box_.rs:62-74 | key generation never kills the worker, always returns, and returns a key equal to its handle, which the vault then holds; `EndToEnd.GenKeypairRoundTrip` pins the key |
| Client.ClientSeal | src/box_.rs:76-95 | sealing never changes the vault; the worker survives only unchanged, and the call hangs if and only if the worker died; `EndToEnd.SealRoundTrip` gives the ciphertext |
| Client.ClientOpen | src/box_.rs:97-122 | opening never changes the vault; the worker survives only unchanged, and the call hangs if and only if the worker died; `EndToEnd.OpenRoundTrip` gives the plaintext |
| Client.Host.constructor | src/box_.rs:21-22 | before `init` the `Once` is incomplete and there is no socket |
| Client.Host.Init | src/box_.rs:29-38 | the first call spawns the worker with an empty vault, or panics and poisons the `Once`; a later call after success does nothing and succeeds, after a panic it panics again; at most one spawn ever happens |
| Client.Host.Transact | src/box_.rs:85-91 | sending a request and receiving into `cap` octets gives the worker's reply, or never returns, as `Transaction` states |
| Client.Host.GenKeypair | src/box_.rs:62-74 | panics without `init`; hangs, leaving the worker as it is, once the worker is dead; otherwise its result and the worker's new state are those of `ClientGenKeypair` |
| Client.Host.Seal | src/box_.rs:76-95 | panics without `init`; hangs, leaving the worker as it is, once the worker is dead; otherwise result and new state are those of `ClientSeal` |
| Client.Host.Open | src/box_.rs:97-122 | panics without `init`; hangs, leaving the worker as it is, once the worker is dead; otherwise result and new state are those of `ClientOpen` |
| EndToEnd.GenKeypairRoundTrip | src/box_.rs:62-74 | the host's key generation returns the worker's new public key as both key and handle, and the vault then maps it to the drawn secret key |
| EndToEnd.SealRoundTrip | src/box_.rs:76-95 | sealing with a handle the vault holds returns exactly the primitive's ciphertext and leaves the worker unchanged |
| EndToEnd.OpenRoundTrip | src/box_.rs:97-122 | opening with a handle the vault holds returns the primitive's plaintext, or `Err(())` exactly when it rejects, and leaves the worker unchanged |
| EndToEnd.SealThenOpen | src/lib.rs:21-24 | a message sealed from A's handle to B's public key opens with A's public key and B's handle to the same message |
| EndToEnd.WorkerReadsRequestIff | src/server.rs:35 | the worker reads a seal or open request whole iff its message has at most 8095 octets, and then reads exactly the fields sent |
| EndToEnd.ParsedBodyHasSentLength | src/box_.rs:80 | whatever the worker parses from a possibly cut request, the message length it reads is the one the host wrote |
| EndToEnd.UnknownHandleKillsWorker | src/server.rs:77 | a seal or open naming a handle the vault lacks kills the worker, and the host then waits in `recv` forever |
| EndToEnd.OversizedRequestKillsWorker | src/server.rs:35 | a seal or open whose message exceeds 8095 octets, and which the socket accepts, kills the worker, and the host then waits in `recv` forever |
| EndToEnd.SealedButNotOpenable | src/server.rs:35 | a message of 8080 to 8095 octets seals, but opening its ciphertext kills the worker and the host then waits in `recv` forever |
| EndToEnd.ItWorksScenario | src/lib.rs:11-24 | from a fresh worker, two key generations, a seal and an open give back the plaintext |
| EndToEnd.ItWorks | src/lib.rs:11-24 | the library's test on the host object returns the plaintext it sealed |

## Left out

- `src/seccomp.rs` and the call to it: the syscall filter is a library and kernel matter.
- `spawn_process` and `setup_ipc`: cloning and creating the socket pair are one boolean argument of `Host.Init`.
- The box primitive itself and `sodiumoxide::init`: the primitive is a parameter, and the end-to-end results assume `Crypto.Sound` of it.
- Randomness: the keys the worker generates come from an entropy stream parameter. `gen_nonce` is a local call to the primitive, so the nonce is a parameter.
- Logging with `println!` and `eprintln!`: it has no effect on state.
- The worker's endless loop: `Server.Worker.Serve` runs over a finite sequence of receive events.
- Concurrency: the host calls and the worker's turns are interleaved one request at a time, as the blocking socket forces. Two host threads sharing the socket are not modelled.
- Socket error kinds: a failing receive is a `RecvError` event. A send to a dead worker is accepted; once the socket's queue fills, later sends would block as well, which the model also writes as `Hangs`.
- Client.Host.Seal and Client.Host.Open: a request larger than the socket's send buffer allows (about 208 KiB with the default buffer) fails at `send` with EMSGSIZE, so the host panics at the `unwrap` and the worker keeps running. The model has every send to a live worker deliver the whole datagram, so it does not capture that failure, and `EndToEnd.OversizedRequestKillsWorker` holds only for requests the socket accepts.
- Wire.ReadSizedVec: a declared length too large to allocate aborts the real process on allocation failure; the model reports it as ShortRead, since both end the process.
- Wire.BytesMut: the capacity is the one requested. The real buffer may have more room (for example inline storage), so the model requires at least what the source needs, never less.
- The `unsafe` static-mut mechanics of `INIT_RESULT`: the global is a field of `Client.Host`.
