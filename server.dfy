/**
 * The worker side of the sandbox (src/server.rs): the key vault, the three
 * vault operations and the dispatch loop that serves one datagram at a time.
 *
 * The vault maps a public key, which doubles as the handle the host holds,
 * to the secret key generated with it. The worker's entropy is a stream:
 * the k-th key pair it generates uses the secret key `rng(k)`.
 */
module Server {
  import opened Wire
  import opened Crypto

  const CmdGenKeypair: int := 1
  const CmdSeal: int := 2
  const CmdOpen: int := 3

  /** The three command tags are distinct single signed octets on the wire. */
  lemma CommandBytesDistinct()
    ensures forall c | c in {CmdGenKeypair, CmdSeal, CmdOpen} :: -128 <= c < 128 && AsI8(FromI8(c)) == c
    ensures |{FromI8(CmdGenKeypair), FromI8(CmdSeal), FromI8(CmdOpen)}| == 3
  {
  }

  /** The worker receives into an 8 KiB buffer. */
  const RecvBufferSize: nat := 8 * 1024

  type Vault = map<SecretKeyHandle, SecretKey>
  type Entropy = nat -> SecretKey

  /** Every handle in the vault is the public key of the secret key it names. */
  predicate VaultConsistent(prim: Primitive, keys: Vault)
  {
    forall h | h in keys :: prim.publicKey(keys[h]) == h
  }

  /** What the worker process holds between two requests. */
  datatype WorkerState = WorkerState(keys: Vault, draws: nat, alive: bool)

  /** What one turn of the loop does: send a reply, send nothing, or panic. */
  datatype Outcome = Reply(bytes: seq<byte>) | NoReply | Crash(panic: Panic)

  /** What `recv` on the worker's socket returns. */
  datatype Event = Datagram(bytes: seq<byte>) | RecvError

  /** The fields of a seal or open request after its command byte. */
  datatype BoxArgs = BoxArgs(body: seq<byte>, nonce: Nonce, pk: PublicKey, handle: SecretKeyHandle)

  /** What `recv` into a buffer of `len` octets yields: a longer datagram is cut short. */
  function Recv(datagram: seq<byte>, len: nat): (r: seq<byte>)
    ensures r <= datagram
    ensures |r| == if |datagram| <= len then |datagram| else len
  {
    if |datagram| <= len then datagram else datagram[..len]
  }

  /** The layout of the fields of a seal or open request. */
  function BoxArgsBytes(a: BoxArgs): (r: seq<byte>)
    requires |a.body| < U64Limit
    ensures |r| == U64Bytes + |a.body| + NonceBytes + PublicKeyBytes + PublicKeyBytes
  {
    SizedSlice(a.body) + a.nonce + a.pk + a.handle
  }

  /** `seal` and `open` read: a sized vec, a nonce, a public key, a handle. */
  function ParseBoxArgs(data: seq<byte>, pos: nat): (r: Result<BoxArgs>)
    requires pos <= |data|
    ensures r.Ok? ==> |r.value.body| < U64Limit
    ensures r.Ok? ==> pos + |BoxArgsBytes(r.value)| <= |data|
    ensures r.Ok? ==> data[pos..pos + |BoxArgsBytes(r.value)|] == BoxArgsBytes(r.value)
    ensures r.Abort? ==> r.panic == BufferUnderflow || r.panic == ShortRead
  {
    match ReadSizedVec(data, pos)
    case Abort(e) => Abort(e)
    case Ok((body, p1)) =>
      match ReadNonce(data, p1)
      case Abort(e) => Abort(e)
      case Ok((n, p2)) =>
        match ReadPublicKey(data, p2)
        case Abort(e) => Abort(e)
        case Ok((pk, p3)) =>
          match ReadPublicKey(data, p3)
          case Abort(e) => Abort(e)
          case Ok((h, p4)) =>
            assert data[pos..p4] == data[pos..p1] + data[p1..p2] + data[p2..p3] + data[p3..p4];
            Ok(BoxArgs(body, n, pk, h))
  }

  /** The fields a client lays out are the fields the worker reads back. */
  lemma {:induction false} BoxArgsRoundTrip(prefix: seq<byte>, a: BoxArgs, suffix: seq<byte>)
    requires |a.body| < U64Limit
    ensures ParseBoxArgs(prefix + BoxArgsBytes(a) + suffix, |prefix|) == Ok(a)
  {
    var data := prefix + BoxArgsBytes(a) + suffix;
    var p1 := |prefix| + U64Bytes + |a.body|;
    var p2 := p1 + NonceBytes;
    var p3 := p2 + PublicKeyBytes;
    assert data == prefix + SizedSlice(a.body) + (a.nonce + a.pk + a.handle + suffix);
    SizedSliceRoundTrip(prefix, a.body, a.nonce + a.pk + a.handle + suffix);
    assert data == data[..p1] + a.nonce + (a.pk + a.handle + suffix);
    FixedFieldsRoundTrip(data[..p1], a.nonce, a.pk, a.pk + a.handle + suffix);
    assert data == data[..p2] + a.pk + (a.handle + suffix);
    FixedFieldsRoundTrip(data[..p2], a.nonce, a.pk, a.handle + suffix);
    assert data == data[..p3] + a.handle + suffix;
    FixedFieldsRoundTrip(data[..p3], a.nonce, a.handle, suffix);
  }

  /** `gen_keypair`: the reply is the new public key, stored with its secret key. */
  function GenKeypairReply(prim: Primitive, rng: Entropy, s: WorkerState): (r: (PublicKey, WorkerState))
    ensures r.0 in r.1.keys && r.1.keys[r.0] == rng(s.draws) && prim.publicKey(r.1.keys[r.0]) == r.0
    ensures r.1.keys.Keys == s.keys.Keys + {r.0}
    ensures forall h | h in s.keys && h != r.0 :: r.1.keys[h] == s.keys[h]
    ensures r.1.draws == s.draws + 1 && r.1.alive == s.alive
    ensures VaultConsistent(prim, s.keys) ==> VaultConsistent(prim, r.1.keys)
  {
    var sk := rng(s.draws);
    var pk := prim.publicKey(sk);
    (pk, s.(keys := s.keys[pk := sk], draws := s.draws + 1))
  }

  /** `seal`: looks the handle up (panics if absent) and replies with the sized ciphertext. */
  function SealReply(prim: Primitive, keys: Vault, data: seq<byte>, pos: nat): (r: Result<seq<byte>>)
    requires pos <= |data|
    ensures r.Ok? <==> ParseBoxArgs(data, pos).Ok? && ParseBoxArgs(data, pos).value.handle in keys
    ensures ParseBoxArgs(data, pos).Ok? && ParseBoxArgs(data, pos).value.handle !in keys ==> r == Abort(KeyNotFound)
    ensures r.Ok? ==>
              var a := ParseBoxArgs(data, pos).value;
              var c := prim.seal(a.body, a.nonce, a.pk, keys[a.handle]);
              |r.value| == U64Bytes + |c| && ReadSizedVec(r.value, 0) == Ok((c, |r.value|))
  {
    match ParseBoxArgs(data, pos)
    case Abort(e) => Abort(e)
    case Ok(a) =>
      if a.handle !in keys then Abort(KeyNotFound)
      else
        var c := prim.seal(a.body, a.nonce, a.pk, keys[a.handle]);
        SizedSliceRoundTrip([], c, []);
        assert [] + SizedSlice(c) + [] == SizedSlice(c);
        Ok(SizedSlice(c))
  }

  /**
   * `open`: looks the handle up (panics if absent); replies with status 0 and
   * the sized plaintext if the primitive opens the ciphertext, else with the
   * single status byte -1.
   */
  function OpenReply(prim: Primitive, keys: Vault, data: seq<byte>, pos: nat): (r: Result<seq<byte>>)
    requires pos <= |data|
    ensures r.Ok? <==> ParseBoxArgs(data, pos).Ok? && ParseBoxArgs(data, pos).value.handle in keys
    ensures ParseBoxArgs(data, pos).Ok? && ParseBoxArgs(data, pos).value.handle !in keys ==> r == Abort(KeyNotFound)
    ensures r.Ok? ==>
              var a := ParseBoxArgs(data, pos).value;
              var plain := prim.open(a.body, a.nonce, a.pk, keys[a.handle]);
              && |r.value| > 0
              && (AsI8(r.value[0]) < 0 <==> plain.None?)
              && (plain.None? ==> r.value == [FromI8(-1)])
              && (plain.Some? ==> r.value[0] == FromI8(0))
              && (plain.Some? ==> |r.value| == 1 + U64Bytes + |plain.value|
                                   && ReadSizedVec(r.value, 1) == Ok((plain.value, |r.value|)))
  {
    match ParseBoxArgs(data, pos)
    case Abort(e) => Abort(e)
    case Ok(a) =>
      if a.handle !in keys then Abort(KeyNotFound)
      else
        match prim.open(a.body, a.nonce, a.pk, keys[a.handle])
        case Some(m) =>
          SizedSliceRoundTrip([FromI8(0)], m, []);
          assert [FromI8(0)] + SizedSlice(m) + [] == [FromI8(0)] + SizedSlice(m);
          Ok([FromI8(0)] + SizedSlice(m))
        case None => Ok([FromI8(-1)])
  }

  /** A vault operation's result becomes a reply, or its panic ends the worker. */
  function Respond(r: Result<seq<byte>>, s: WorkerState): (o: (Outcome, WorkerState))
    ensures o.0.Reply? <==> r.Ok?
    ensures r.Ok? ==> o.0.bytes == r.value && o.1 == s
    ensures r.Abort? ==> o.0 == Crash(r.panic) && !o.1.alive
    ensures o.1.keys == s.keys && o.1.draws == s.draws
  {
    match r
    case Ok(bytes) => (Reply(bytes), s)
    case Abort(p) => (Crash(p), s.(alive := false))
  }

  /** Routes a non-empty received datagram on its command byte. */
  function Dispatch(prim: Primitive, rng: Entropy, s: WorkerState, received: seq<byte>): (r: (Outcome, WorkerState))
    requires |received| > 0 && s.alive
    ensures !r.0.NoReply?
    ensures r.0.Crash? <==> !r.1.alive
    ensures AsI8(received[0]) == CmdGenKeypair ==>
              && r.0.Reply? && |r.0.bytes| == PublicKeyBytes
              && r.1.keys == s.keys[r.0.bytes := rng(s.draws)] && r.1.draws == s.draws + 1
    ensures AsI8(received[0]) != CmdGenKeypair ==> r.1.keys == s.keys && r.1.draws == s.draws
    ensures AsI8(received[0]) == CmdSeal ==> r.0 == Respond(SealReply(prim, s.keys, received, 1), s).0
    ensures AsI8(received[0]) == CmdOpen ==> r.0 == Respond(OpenReply(prim, s.keys, received, 1), s).0
    ensures AsI8(received[0]) !in {CmdGenKeypair, CmdSeal, CmdOpen} ==> r.0 == Crash(UnknownCommand(AsI8(received[0])))
    ensures VaultConsistent(prim, s.keys) ==> VaultConsistent(prim, r.1.keys)
  {
    var cmd := AsI8(received[0]);
    if cmd == CmdGenKeypair then
      var (pk, s') := GenKeypairReply(prim, rng, s);
      (Reply(pk), s')
    else if cmd == CmdSeal then
      Respond(SealReply(prim, s.keys, received, 1), s)
    else if cmd == CmdOpen then
      Respond(OpenReply(prim, s.keys, received, 1), s)
    else
      (Crash(UnknownCommand(cmd)), s.(alive := false))
  }

  /** One turn of the dispatch loop. */
  function Step(prim: Primitive, rng: Entropy, s: WorkerState, e: Event): (r: (Outcome, WorkerState))
    requires s.alive
    ensures r.0.NoReply? <==> e.RecvError? || e.bytes == []
    ensures r.0.NoReply? ==> r.1 == s
    ensures r.1.keys.Keys >= s.keys.Keys
    ensures VaultConsistent(prim, s.keys) ==> VaultConsistent(prim, r.1.keys)
  {
    match e
    case RecvError => (NoReply, s)
    case Datagram(d) =>
      var received := Recv(d, RecvBufferSize);
      if |received| == 0 then (NoReply, s) else Dispatch(prim, rng, s, received)
  }

  /** The replies sent and the state reached after a run of receives; a crash ends the run. */
  function Run(prim: Primitive, rng: Entropy, s0: WorkerState, events: seq<Event>): (r: (seq<seq<byte>>, WorkerState))
    requires s0.alive
    ensures |r.0| <= |events|
    ensures r.1.draws >= s0.draws
  {
    if events == [] then ([], s0)
    else
      var (sent, s) := Run(prim, rng, s0, events[..|events| - 1]);
      if !s.alive then (sent, s)
      else
        var (out, s') := Step(prim, rng, s, events[|events| - 1]);
        (if out.Reply? then sent + [out.bytes] else sent, s')
  }

  /** After the worker has crashed, later receives change nothing. */
  lemma {:induction false} RunAfterCrash(prim: Primitive, rng: Entropy, s0: WorkerState, events: seq<Event>, i: nat)
    requires s0.alive && i <= |events|
    requires !Run(prim, rng, s0, events[..i]).1.alive
    ensures Run(prim, rng, s0, events) == Run(prim, rng, s0, events[..i])
  {
    if i < |events| {
      var prefix := events[..|events| - 1];
      assert prefix[..i] == events[..i];
      RunAfterCrash(prim, rng, s0, prefix, i);
    } else {
      assert events[..i] == events;
    }
  }

  /** The vault never loses a handle, and only ever holds matching key pairs. */
  lemma {:induction false} RunPreservesVault(prim: Primitive, rng: Entropy, s0: WorkerState, events: seq<Event>)
    requires s0.alive
    ensures Run(prim, rng, s0, events).1.keys.Keys >= s0.keys.Keys
    ensures VaultConsistent(prim, s0.keys) ==> VaultConsistent(prim, Run(prim, rng, s0, events).1.keys)
  {
    if events != [] {
      RunPreservesVault(prim, rng, s0, events[..|events| - 1]);
    }
  }

  /** A run with no generate-keypair request leaves the vault and the entropy untouched. */
  lemma {:induction false} RunWithoutKeygenKeepsVault(prim: Primitive, rng: Entropy, s0: WorkerState, events: seq<Event>)
    requires s0.alive
    requires forall i | 0 <= i < |events| && events[i].Datagram? && events[i].bytes != [] ::
               AsI8(events[i].bytes[0]) != CmdGenKeypair
    ensures Run(prim, rng, s0, events).1.keys == s0.keys
    ensures Run(prim, rng, s0, events).1.draws == s0.draws
  {
    if events != [] {
      var prefix := events[..|events| - 1];
      assert forall i | 0 <= i < |prefix| :: prefix[i] == events[i];
      RunWithoutKeygenKeepsVault(prim, rng, s0, prefix);
    }
  }

  /** The worker process: its socket end, its vault and its entropy source. */
  class Worker {
    const prim: Primitive
    const rng: Entropy
    var keys: Vault
    var draws: nat
    var alive: bool

    ghost predicate Valid()
      reads this
    {
      VaultConsistent(prim, keys)
    }

    function State(): WorkerState
      reads this
    {
      WorkerState(keys, draws, alive)
    }

    /** The start of `run_server`: an empty vault. */
    constructor (prim: Primitive, rng: Entropy)
      ensures Valid() && this.prim == prim && this.rng == rng
      ensures keys == map[] && draws == 0 && alive
    {
      this.prim := prim;
      this.rng := rng;
      keys := map[];
      draws := 0;
      alive := true;
    }

    method GenKeypair() returns (resp: seq<byte>)
      requires Valid()
      modifies this`keys, this`draws
      ensures Valid()
      ensures var (pk, s) := GenKeypairReply(prim, rng, old(State())); resp == pk && State() == s
    {
      var sk := rng(draws);
      draws := draws + 1;
      var pk := prim.publicKey(sk);
      var buf := new BytesMut.WithCapacity(PublicKeyBytes);
      buf.Put(pk);
      keys := keys[pk := sk];
      resp := buf.bytes;
    }

    method Seal(req: Cursor) returns (r: Result<seq<byte>>)
      requires req.Valid()
      modifies req
      ensures r == SealReply(prim, keys, req.data, old(req.pos))
    {
      var m := req.GetSizedVec();
      if m.Abort? {
        return Abort(m.panic);
      }
      var n := req.GetNonce();
      if n.Abort? {
        return Abort(n.panic);
      }
      var pk := req.GetPublicKey();
      if pk.Abort? {
        return Abort(pk.panic);
      }
      var skh := req.GetSecretKeyHandle();
      if skh.Abort? {
        return Abort(skh.panic);
      }
      if skh.value !in keys {
        return Abort(KeyNotFound);
      }
      var sk := keys[skh.value];
      var c := prim.seal(m.value, n.value, pk.value, sk);
      // `8 + c.len()` does not overflow a usize
      assert U64Bytes + |c| < U64Limit;
      var resp := new BytesMut.WithCapacity(U64Bytes + |c|);
      resp.PutSizedSlice(c);
      r := Ok(resp.bytes);
    }

    method Open(req: Cursor) returns (r: Result<seq<byte>>)
      requires req.Valid()
      modifies req
      ensures r == OpenReply(prim, keys, req.data, old(req.pos))
    {
      var c := req.GetSizedVec();
      if c.Abort? {
        return Abort(c.panic);
      }
      var n := req.GetNonce();
      if n.Abort? {
        return Abort(n.panic);
      }
      var pk := req.GetPublicKey();
      if pk.Abort? {
        return Abort(pk.panic);
      }
      var skh := req.GetSecretKeyHandle();
      if skh.Abort? {
        return Abort(skh.panic);
      }
      if skh.value !in keys {
        return Abort(KeyNotFound);
      }
      var sk := keys[skh.value];
      var plain := prim.open(c.value, n.value, pk.value, sk);
      var resp: BytesMut;
      if plain.Some? {
        var m := plain.value;
        // `1 + 8 + m.len()` does not overflow a usize
        assert 1 + U64Bytes + |m| < U64Limit;
        resp := new BytesMut.WithCapacity(1 + U64Bytes + |m|);
        resp.PutI8(0);
        resp.PutSizedSlice(m);
        assert resp.bytes == [FromI8(0)] + SizedSlice(m);
      } else {
        resp := new BytesMut.WithCapacity(1);
        resp.PutI8(-1);
        assert resp.bytes == [FromI8(-1)];
      }
      r := Ok(resp.bytes);
    }

    /** The body of the loop in `run_server`, for one datagram handed to `recv`. */
    method HandleDatagram(datagram: seq<byte>) returns (out: Outcome)
      requires Valid() && alive
      modifies this
      ensures Valid() && (out, State()) == Step(prim, rng, old(State()), Datagram(datagram))
    {
      var n := if |datagram| <= RecvBufferSize then |datagram| else RecvBufferSize;
      if n == 0 {
        // "msg too short": nothing is sent
        return NoReply;
      }
      var req := new Cursor(datagram[..n]);
      ghost var s0 := State();
      assert req.data == Recv(datagram, RecvBufferSize);
      var cmd := req.GetI8();
      assert cmd.Ok? && cmd.value == AsI8(req.data[0]);
      var resp: Result<seq<byte>>;
      if cmd.value == CmdGenKeypair {
        var pk := GenKeypair();
        resp := Ok(pk);
        assert (Reply(pk), State()) == Dispatch(prim, rng, s0, req.data);
      } else if cmd.value == CmdSeal {
        resp := Seal(req);
        assert Respond(resp, s0) == Dispatch(prim, rng, s0, req.data);
      } else if cmd.value == CmdOpen {
        resp := Open(req);
        assert Respond(resp, s0) == Dispatch(prim, rng, s0, req.data);
      } else {
        resp := Abort(UnknownCommand(cmd.value));
        assert Respond(resp, s0) == Dispatch(prim, rng, s0, req.data);
      }
      match resp
      case Ok(bytes) =>
        // the whole reply goes out as one datagram
        out := Reply(bytes);
      case Abort(p) =>
        alive := false;
        out := Crash(p);
    }

    /** The dispatch loop over a finite run of receives; a panic ends the process. */
    method Serve(events: seq<Event>) returns (sent: seq<seq<byte>>)
      requires Valid() && alive
      modifies this
      ensures Valid() && (sent, State()) == Run(prim, rng, old(State()), events)
    {
      sent := [];
      var i := 0;
      while i < |events| && alive
        invariant i <= |events|
        invariant Valid()
        invariant (sent, State()) == Run(prim, rng, old(State()), events[..i])
        decreases |events| - i
      {
        assert events[..i + 1][..i] == events[..i];
        match events[i] {
          case RecvError =>
            // "err": logged, and the loop goes on
          case Datagram(d) =>
            var out := HandleDatagram(d);
            if out.Reply? {
              sent := sent + [out.bytes];
            }
        }
        i := i + 1;
      }
      if i < |events| {
        RunAfterCrash(prim, rng, old(State()), events, i);
      } else {
        assert events[..i] == events;
      }
    }
  }
}
