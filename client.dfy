/**
 * The host side of the sandbox (src/box_.rs): one-time initialisation that
 * spawns the worker, and the client calls that encode a request, send it
 * over the socket pair, receive exactly one reply and decode it.
 *
 * The socket pair is modelled by handing the request to the worker object,
 * which runs one turn of its loop; the host then receives the reply cut to
 * its buffer. The host never closes the worker's end of the pair (the worker
 * is cloned without sharing the descriptor table and the parent keeps the
 * descriptor), so a worker that panicked leaves the host's `recv` waiting
 * forever: the call never returns, and later sends are still accepted.
 */
module Client {
  import opened Wire
  import opened Crypto
  import opened Server

  /** A seal or open reply is received into the input's length plus 2 KiB. */
  const ReplySlack: nat := 2 * 1024

  /** Octets of a seal or open request besides the message itself. */
  const BoxRequestOverhead: nat := 1 + U64Bytes + NonceBytes + PublicKeyBytes + PublicKeyBytes

  /** The longest message whose seal or open request the worker receives whole. */
  const MaxBoxBody: nat := RecvBufferSize - BoxRequestOverhead

  /** The state of the `Once` that guards initialisation. */
  datatype OnceState = Incomplete | Complete | Poisoned

  /** Client `open`'s `Ok(m)` and `Err(())`. */
  datatype Opened = Opened(plaintext: seq<byte>) | NotOpened

  /** `gen_keypair` sends the command byte alone. */
  function GenKeypairRequest(): (r: seq<byte>)
    ensures |r| == 1 && AsI8(r[0]) == CmdGenKeypair
  {
    [FromI8(CmdGenKeypair)]
  }

  /**
   * `seal` and `open` send the command byte, the sized message, the nonce,
   * the public key and the handle; the worker reads back the same fields.
   */
  function BoxRequest(cmd: int, body: Vec, n: Nonce, pk: PublicKey, skh: SecretKeyHandle): (r: seq<byte>)
    requires cmd == CmdSeal || cmd == CmdOpen
    ensures |r| == BoxRequestOverhead + |body|
    ensures AsI8(r[0]) == cmd
    ensures ParseBoxArgs(r, 1) == Ok(BoxArgs(body, n, pk, skh))
  {
    var a := BoxArgs(body, n, pk, skh);
    BoxArgsRoundTrip([FromI8(cmd)], a, []);
    assert [FromI8(cmd)] + BoxArgsBytes(a) + [] == [FromI8(cmd)] + BoxArgsBytes(a);
    [FromI8(cmd)] + BoxArgsBytes(a)
  }

  /** Builds a seal or open request step by step, as `seal` and `open` do. */
  method EncodeBoxRequest(cmd: int, body: Vec, n: Nonce, pk: PublicKey, skh: SecretKeyHandle) returns (req: seq<byte>)
    requires cmd == CmdSeal || cmd == CmdOpen
    ensures req == BoxRequest(cmd, body, n, pk, skh)
  {
    var len := 1 + U64Bytes + |body| + NonceBytes + PublicKeyBytes + PublicKeyBytes;
    var buf := new BytesMut.WithCapacity(len);
    buf.PutI8(cmd);
    buf.PutSizedSlice(body);
    buf.Put(n);
    buf.Put(pk);
    buf.Put(skh);
    req := buf.bytes;
    // the number of octets sent is the length computed up front
    assert |req| == len;
    assert req == [FromI8(cmd)] + BoxArgsBytes(BoxArgs(body, n, pk, skh));
  }

  /** `gen_keypair` takes the 32 received octets as both public key and handle. */
  function DecodeGenKeypairReply(received: seq<byte>): (r: Result<(PublicKey, SecretKeyHandle)>)
    ensures r.Ok? <==> |received| == PublicKeyBytes
    ensures r.Ok? ==> r.value.0 == r.value.1 == received
    ensures r.Abort? ==> r.panic == InvalidKeyLength
  {
    if |received| == PublicKeyBytes then Ok((received, received)) else Abort(InvalidKeyLength)
  }

  /** `seal` reads the ciphertext as a sized vec. */
  function DecodeSealReply(received: seq<byte>): (r: Result<seq<byte>>)
    ensures r.Ok? <==> U64Bytes <= |received| && BigEndianValue(received[..U64Bytes]) <= |received| - U64Bytes
    ensures r.Ok? ==> |r.value| < U64Limit && |r.value| + U64Bytes <= |received| && received[..U64Bytes + |r.value|] == SizedSlice(r.value)
    ensures r.Abort? ==> r.panic == (if |received| < U64Bytes then BufferUnderflow else ShortRead)
  {
    match ReadSizedVec(received, 0)
    case Abort(p) => Abort(p)
    case Ok((c, _)) => Ok(c)
  }

  /** `open` reads a status byte; a negative one is `Err(())`, else a sized vec follows. */
  function DecodeOpenReply(received: seq<byte>): (r: Result<Opened>)
    ensures received == [] ==> r == Abort(BufferUnderflow)
    ensures r == Ok(NotOpened) <==> received != [] && AsI8(received[0]) < 0
    ensures r.Ok? && r.value.Opened? <==>
              && 1 + U64Bytes <= |received| && AsI8(received[0]) >= 0
              && BigEndianValue(received[1..1 + U64Bytes]) <= |received| - 1 - U64Bytes
    ensures r.Abort? ==> r.panic == (if |received| < 1 + U64Bytes then BufferUnderflow else ShortRead)
    ensures r.Ok? && r.value.Opened? ==>
              && AsI8(received[0]) >= 0
              && |r.value.plaintext| < U64Limit
              && 1 + U64Bytes + |r.value.plaintext| <= |received|
              && received[1..1 + U64Bytes + |r.value.plaintext|] == SizedSlice(r.value.plaintext)
  {
    match ReadI8(received, 0)
    case Abort(p) => Abort(p)
    case Ok((status, p)) =>
      if status < 0 then Ok(NotOpened)
      else
        match ReadSizedVec(received, p)
        case Abort(e) => Abort(e)
        case Ok((m, _)) => Ok(Opened(m))
  }

  /** How a client call ends: it returns its result, or it waits in `recv` forever. */
  datatype Call<+T> = Returns(result: Result<T>) | Hangs

  /**
   * What the host's `recv` into `cap` octets yields after the worker's turn:
   * the first `cap` octets of the reply, or `None` when the worker has
   * panicked, since then no datagram ever arrives and, with the host still
   * holding the worker's end of the pair, no end of file either.
   */
  function Delivered(out: Outcome, cap: nat): (r: Option<seq<byte>>)
    requires !out.NoReply?
    ensures r.Some? <==> out.Reply?
    ensures r.Some? ==> r.value <= out.bytes && |r.value| == if |out.bytes| <= cap then |out.bytes| else cap
  {
    if out.Reply? then Some(Recv(out.bytes, cap)) else None
  }

  /**
   * One request and its reply over the socket pair, with a live worker in
   * state `s`; `None` when the worker died on the request and the host's
   * `recv` never returns.
   */
  function Transaction(prim: Primitive, rng: Entropy, s: WorkerState, req: seq<byte>, cap: nat): (r: (Option<seq<byte>>, WorkerState))
    requires s.alive && req != []
    ensures r.0.None? <==> !r.1.alive
    ensures r.0.Some? ==> |r.0.value| <= cap
    ensures r.1.keys.Keys >= s.keys.Keys
    ensures VaultConsistent(prim, s.keys) ==> VaultConsistent(prim, r.1.keys)
  {
    var (out, s') := Step(prim, rng, s, Datagram(req));
    (Delivered(out, cap), s')
  }

  function ClientGenKeypair(prim: Primitive, rng: Entropy, s: WorkerState): (r: (Call<(PublicKey, SecretKeyHandle)>, WorkerState))
    requires s.alive
    ensures r.1.alive && r.0.Returns?
    ensures r.0.result.Ok? ==> r.0.result.value.0 == r.0.result.value.1 && r.0.result.value.1 in r.1.keys
  {
    var (received, s') := Transaction(prim, rng, s, GenKeypairRequest(), PublicKeyBytes);
    (if received.Some? then Returns(DecodeGenKeypairReply(received.value)) else Hangs, s')
  }

  function ClientSeal(prim: Primitive, rng: Entropy, s: WorkerState, m: Vec, n: Nonce, pk: PublicKey, skh: SecretKeyHandle)
    : (r: (Call<seq<byte>>, WorkerState))
    requires s.alive
    ensures r.1.keys == s.keys && r.1.draws == s.draws
    ensures r.1.alive ==> r.1 == s
    ensures r.0.Hangs? <==> !r.1.alive
  {
    var (received, s') := Transaction(prim, rng, s, BoxRequest(CmdSeal, m, n, pk, skh), |m| + ReplySlack);
    (if received.Some? then Returns(DecodeSealReply(received.value)) else Hangs, s')
  }

  function ClientOpen(prim: Primitive, rng: Entropy, s: WorkerState, c: Vec, n: Nonce, pk: PublicKey, skh: SecretKeyHandle)
    : (r: (Call<Opened>, WorkerState))
    requires s.alive
    ensures r.1.keys == s.keys && r.1.draws == s.draws
    ensures r.1.alive ==> r.1 == s
    ensures r.0.Hangs? <==> !r.1.alive
  {
    var (received, s') := Transaction(prim, rng, s, BoxRequest(CmdOpen, c, n, pk, skh), |c| + ReplySlack);
    (if received.Some? then Returns(DecodeOpenReply(received.value)) else Hangs, s')
  }

  /** The host process's view of the sandbox: the `Once`, and `INIT_RESULT`. */
  class Host {
    const prim: Primitive
    const rng: Entropy
    var once: OnceState
    /** The host end of the socket pair, with the worker behind it; null is `None`. */
    var worker: Worker?
    /** How many times a worker was spawned, or attempted to be. */
    ghost var spawns: nat

    ghost predicate Valid()
      reads this, worker
    {
      && (once == Incomplete ==> spawns == 0 && worker == null)
      && (once == Complete ==> spawns == 1 && worker != null && worker.Valid() && worker.prim == prim && worker.rng == rng)
      && (once == Poisoned ==> spawns == 1 && worker == null)
    }

    constructor (prim: Primitive, rng: Entropy)
      ensures Valid() && this.prim == prim && this.rng == rng
      ensures once == Incomplete && worker == null
    {
      this.prim := prim;
      this.rng := rng;
      once := Incomplete;
      worker := null;
      spawns := 0;
    }

    /**
     * `init`: the first call spawns the worker (`spawnOk` says whether the
     * socket pair and the clone succeeded); later calls do nothing, or panic
     * again if the first one panicked.
     */
    method Init(spawnOk: bool) returns (r: Result<()>)
      requires Valid()
      modifies this
      ensures Valid() && spawns <= 1
      ensures r.Ok? <==> once == Complete
      ensures old(once) == Complete ==> r == Ok(()) && worker == old(worker) && spawns == old(spawns)
      ensures old(once) == Poisoned ==> r == Abort(OncePoisoned) && once == Poisoned && spawns == old(spawns)
      ensures old(once) == Incomplete && spawnOk ==>
                r == Ok(()) && fresh(worker) && worker.State() == WorkerState(map[], 0, true)
      ensures old(once) == Incomplete && !spawnOk ==> r == Abort(SpawnFailed) && once == Poisoned
    {
      match once {
        case Complete =>
          r := Ok(());
        case Poisoned =>
          r := Abort(OncePoisoned);
        case Incomplete =>
          spawns := 1;
          if spawnOk {
            worker := new Worker(prim, rng);
            once := Complete;
            r := Ok(());
          } else {
            once := Poisoned;
            r := Abort(SpawnFailed);
          }
      }
    }

    /**
     * Sends one request to the live worker and receives into `cap` octets;
     * `None` when the worker died on it and the host's `recv` never returns.
     */
    method Transact(req: seq<byte>, cap: nat) returns (received: Option<seq<byte>>)
      requires Valid() && worker != null && worker.alive && req != []
      modifies worker
      ensures Valid()
      ensures (received, worker.State()) == Transaction(prim, rng, old(worker.State()), req, cap)
    {
      ghost var s0 := worker.State();
      var out := worker.HandleDatagram(req);
      assert (out, worker.State()) == Step(prim, rng, s0, Datagram(req));
      if out.Reply? {
        var n := if |out.bytes| <= cap then |out.bytes| else cap;
        received := Some(out.bytes[..n]);
        assert received.value == Recv(out.bytes, cap);
      } else {
        // the worker panicked; the host still holds its end, so no end of file comes
        received := None;
      }
    }

    /**
     * `gen_keypair`. With a dead worker the send is accepted and `recv`
     * waits forever; the same holds for `seal` and `open`.
     */
    method GenKeypair() returns (r: Call<(PublicKey, SecretKeyHandle)>)
      requires Valid()
      modifies worker
      ensures Valid()
      ensures worker == null ==> r == Returns(Abort(NotInitialised))
      ensures worker != null && !old(worker.alive) ==> r == Hangs && worker.State() == old(worker.State())
      ensures worker != null && old(worker.alive) ==>
                (r, worker.State()) == ClientGenKeypair(prim, rng, old(worker.State()))
    {
      if worker == null {
        return Returns(Abort(NotInitialised));
      }
      if !worker.alive {
        return Hangs;
      }
      var received := Transact(GenKeypairRequest(), PublicKeyBytes);
      if received.None? {
        return Hangs;
      }
      if |received.value| != PublicKeyBytes {
        return Returns(Abort(InvalidKeyLength));
      }
      var pk: PublicKey := received.value;
      var skh: SecretKeyHandle := received.value;
      r := Returns(Ok((pk, skh)));
    }

    method Seal(m: Vec, n: Nonce, pk: PublicKey, skh: SecretKeyHandle) returns (r: Call<seq<byte>>)
      requires Valid()
      modifies worker
      ensures Valid()
      ensures worker == null ==> r == Returns(Abort(NotInitialised))
      ensures worker != null && !old(worker.alive) ==> r == Hangs && worker.State() == old(worker.State())
      ensures worker != null && old(worker.alive) ==>
                (r, worker.State()) == ClientSeal(prim, rng, old(worker.State()), m, n, pk, skh)
    {
      var req := EncodeBoxRequest(CmdSeal, m, n, pk, skh);
      if worker == null {
        return Returns(Abort(NotInitialised));
      }
      if !worker.alive {
        return Hangs;
      }
      var received := Transact(req, |m| + ReplySlack);
      if received.None? {
        return Hangs;
      }
      var resp := new Cursor(received.value);
      var c := resp.GetSizedVec();
      r := Returns(c);
    }

    method Open(c: Vec, n: Nonce, pk: PublicKey, skh: SecretKeyHandle) returns (r: Call<Opened>)
      requires Valid()
      modifies worker
      ensures Valid()
      ensures worker == null ==> r == Returns(Abort(NotInitialised))
      ensures worker != null && !old(worker.alive) ==> r == Hangs && worker.State() == old(worker.State())
      ensures worker != null && old(worker.alive) ==>
                (r, worker.State()) == ClientOpen(prim, rng, old(worker.State()), c, n, pk, skh)
    {
      var req := EncodeBoxRequest(CmdOpen, c, n, pk, skh);
      if worker == null {
        return Returns(Abort(NotInitialised));
      }
      if !worker.alive {
        return Hangs;
      }
      var received := Transact(req, |c| + ReplySlack);
      if received.None? {
        return Hangs;
      }
      var resp := new Cursor(received.value);
      var status := resp.GetI8();
      if status.Abort? {
        // every reply to `open` begins with its status byte, and the buffer has room for it
        assert false;
      }
      if status.value < 0 {
        return Returns(Ok(NotOpened));
      }
      var m := resp.GetSizedVec();
      if m.Abort? {
        return Returns(Abort(m.panic));
      }
      r := Returns(Ok(Opened(m.value)));
    }
  }
}
