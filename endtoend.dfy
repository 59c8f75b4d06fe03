/**
 * Properties of the host and the worker together: what the host sends is
 * what the worker reads, what the worker replies is what the host reads, and
 * so a message sealed through the sandbox opens through it again. Also the
 * limits the fixed receive buffer puts on message sizes, and what happens
 * when a request names a key the vault does not hold.
 */
module EndToEnd {
  import opened Wire
  import opened Crypto
  import opened Server
  import opened Client

  /** `gen_keypair` returns the worker's new public key as both key and handle. */
  lemma GenKeypairRoundTrip(prim: Primitive, rng: Entropy, s: WorkerState)
    requires s.alive
    ensures var (r, s') := ClientGenKeypair(prim, rng, s);
            var (pk, t) := GenKeypairReply(prim, rng, s);
            r == Returns(Ok((pk, pk))) && s' == t && s'.keys[pk] == rng(s.draws)
  {
    var req := GenKeypairRequest();
    assert Recv(req, RecvBufferSize) == req;
    var (pk, t) := GenKeypairReply(prim, rng, s);
    assert Step(prim, rng, s, Datagram(req)) == (Reply(pk), t);
  }

  /** `seal` with a key the vault holds returns exactly the primitive's ciphertext and leaves the worker as it was. */
  lemma SealRoundTrip(prim: Primitive, rng: Entropy, s: WorkerState, m: Vec, n: Nonce, pk: PublicKey, h: SecretKeyHandle)
    requires Sound(prim) && s.alive && h in s.keys
    requires |m| <= MaxBoxBody
    ensures ClientSeal(prim, rng, s, m, n, pk, h) == (Returns(Ok(prim.seal(m, n, pk, s.keys[h]))), s)
  {
    var req := BoxRequest(CmdSeal, m, n, pk, h);
    assert Recv(req, RecvBufferSize) == req;
    var reply := SealReply(prim, s.keys, req, 1);
    assert reply.Ok?;
    assert Step(prim, rng, s, Datagram(req)) == (Reply(reply.value), s);
    assert Delivered(Reply(reply.value), |m| + ReplySlack) == Some(reply.value);
  }

  /** The client's answer to `open`, given what the primitive's `open` returns. */
  function OpenAnswer(plain: Option<Vec>): Opened
  {
    if plain.Some? then Opened(plain.value) else NotOpened
  }

  /**
   * `open` with a key the vault holds returns the primitive's plaintext, or
   * `Err(())` exactly when the primitive rejects, and leaves the worker as it was.
   */
  lemma OpenRoundTrip(prim: Primitive, rng: Entropy, s: WorkerState, c: Vec, n: Nonce, pk: PublicKey, h: SecretKeyHandle)
    requires Sound(prim) && s.alive && h in s.keys
    requires |c| <= MaxBoxBody
    ensures ClientOpen(prim, rng, s, c, n, pk, h) == (Returns(Ok(OpenAnswer(prim.open(c, n, pk, s.keys[h])))), s)
  {
    var req := BoxRequest(CmdOpen, c, n, pk, h);
    assert Recv(req, RecvBufferSize) == req;
    var reply := OpenReply(prim, s.keys, req, 1);
    assert reply.Ok?;
    assert Step(prim, rng, s, Datagram(req)) == (Reply(reply.value), s);
    assert Delivered(Reply(reply.value), |c| + ReplySlack) == Some(reply.value);
  }

  /**
   * A message sealed from A's key to B's public key opens with B's key and
   * A's public key, through two round trips to the worker, as long as its
   * ciphertext still fits the worker's receive buffer.
   */
  lemma SealThenOpen(prim: Primitive, rng: Entropy, s: WorkerState, m: Vec, n: Nonce, hA: SecretKeyHandle, hB: SecretKeyHandle)
    requires Sound(prim) && s.alive && VaultConsistent(prim, s.keys)
    requires hA in s.keys && hB in s.keys
    requires |m| + MacBytes <= MaxBoxBody
    ensures var (c, s') := ClientSeal(prim, rng, s, m, n, hB, hA);
            && c.Returns? && c.result.Ok? && s' == s && |c.result.value| == |m| + MacBytes
            && ClientOpen(prim, rng, s, c.result.value, n, hA, hB) == (Returns(Ok(Opened(m))), s)
  {
    var c := prim.seal(m, n, hB, s.keys[hA]);
    SealRoundTrip(prim, rng, s, m, n, hB, hA);
    assert prim.publicKey(s.keys[hB]) == hB && prim.publicKey(s.keys[hA]) == hA;
    assert prim.open(c, n, hA, s.keys[hB]) == Some(m);
    OpenRoundTrip(prim, rng, s, c, n, hA, hB);
  }

  /** The worker reads a seal or open request back whole if and only if it fits its 8 KiB buffer. */
  lemma WorkerReadsRequestIff(cmd: int, body: Vec, n: Nonce, pk: PublicKey, h: SecretKeyHandle)
    requires cmd == CmdSeal || cmd == CmdOpen
    ensures var received := Recv(BoxRequest(cmd, body, n, pk, h), RecvBufferSize);
            && (ParseBoxArgs(received, 1).Ok? <==> |body| <= MaxBoxBody)
            && (|body| <= MaxBoxBody ==> ParseBoxArgs(received, 1) == Ok(BoxArgs(body, n, pk, h)))
  {
    var req := BoxRequest(cmd, body, n, pk, h);
    var received := Recv(req, RecvBufferSize);
    if |body| <= MaxBoxBody {
      assert received == req;
    } else if ParseBoxArgs(received, 1).Ok? {
      // the length prefix survives the cut and puts the fields past it
      ParsedBodyHasSentLength(cmd, body, n, pk, h);
      assert false;
    }
  }

  /** Whatever the worker reads from a request, the message length it reads is the one the host wrote. */
  lemma ParsedBodyHasSentLength(cmd: int, body: Vec, n: Nonce, pk: PublicKey, h: SecretKeyHandle)
    requires cmd == CmdSeal || cmd == CmdOpen
    ensures var received := Recv(BoxRequest(cmd, body, n, pk, h), RecvBufferSize);
            ParseBoxArgs(received, 1).Ok? ==> |ParseBoxArgs(received, 1).value.body| == |body|
  {
    var req := BoxRequest(cmd, body, n, pk, h);
    var received := Recv(req, RecvBufferSize);
    if ParseBoxArgs(received, 1).Ok? {
      var a := ParseBoxArgs(received, 1).value;
      assert received[1..1 + U64Bytes] == BoxArgsBytes(a)[..U64Bytes] == U64BE(|a.body|);
      assert received[1..1 + U64Bytes] == req[1..1 + U64Bytes] == U64BE(|body|);
    }
  }

  /**
   * A request naming a handle the vault does not hold makes the worker
   * panic; no reply comes, and the host waits in `recv` forever.
   */
  lemma UnknownHandleKillsWorker(prim: Primitive, rng: Entropy, s: WorkerState, body: Vec, n: Nonce, pk: PublicKey, h: SecretKeyHandle)
    requires s.alive && h !in s.keys && |body| <= MaxBoxBody
    ensures ClientSeal(prim, rng, s, body, n, pk, h) == (Hangs, s.(alive := false))
    ensures ClientOpen(prim, rng, s, body, n, pk, h) == (Hangs, s.(alive := false))
  {
    var seal := BoxRequest(CmdSeal, body, n, pk, h);
    var open := BoxRequest(CmdOpen, body, n, pk, h);
    assert Recv(seal, RecvBufferSize) == seal;
    assert Recv(open, RecvBufferSize) == open;
    assert Step(prim, rng, s, Datagram(seal)) == (Crash(KeyNotFound), s.(alive := false));
    assert Step(prim, rng, s, Datagram(open)) == (Crash(KeyNotFound), s.(alive := false));
  }

  /**
   * A request whose message does not fit the worker's buffer arrives cut
   * short: the worker panics reading it, and the host waits in `recv`
   * forever. (Sends are taken to succeed whole; one past the socket's send
   * limit would fail at the host instead.)
   */
  lemma OversizedRequestKillsWorker(prim: Primitive, rng: Entropy, s: WorkerState, body: Vec, n: Nonce, pk: PublicKey, h: SecretKeyHandle)
    requires s.alive && |body| > MaxBoxBody
    ensures ClientSeal(prim, rng, s, body, n, pk, h) == (Hangs, s.(alive := false))
    ensures ClientOpen(prim, rng, s, body, n, pk, h) == (Hangs, s.(alive := false))
  {
    var seal := BoxRequest(CmdSeal, body, n, pk, h);
    var open := BoxRequest(CmdOpen, body, n, pk, h);
    WorkerReadsRequestIff(CmdSeal, body, n, pk, h);
    WorkerReadsRequestIff(CmdOpen, body, n, pk, h);
    var rs := Recv(seal, RecvBufferSize);
    var ro := Recv(open, RecvBufferSize);
    assert rs[0] == seal[0] && ro[0] == open[0];
    assert SealReply(prim, s.keys, rs, 1).Abort?;
    assert OpenReply(prim, s.keys, ro, 1).Abort?;
  }

  /**
   * A message of 8080 to 8095 octets seals, but its ciphertext is 16 octets
   * longer than the worker's buffer can take whole: opening it kills the worker
   * and the host waits forever.
   */
  lemma SealedButNotOpenable(prim: Primitive, rng: Entropy, s: WorkerState, m: Vec, n: Nonce, hA: SecretKeyHandle, hB: SecretKeyHandle)
    requires Sound(prim) && s.alive && hA in s.keys && hB in s.keys
    requires MaxBoxBody < |m| + MacBytes && |m| <= MaxBoxBody
    ensures var (c, s') := ClientSeal(prim, rng, s, m, n, hB, hA);
            && c.Returns? && c.result.Ok? && s' == s && |c.result.value| <= MaxVecLen
            && ClientOpen(prim, rng, s, c.result.value, n, hA, hB) == (Hangs, s.(alive := false))
  {
    var c := prim.seal(m, n, hB, s.keys[hA]);
    SealRoundTrip(prim, rng, s, m, n, hB, hA);
    OversizedRequestKillsWorker(prim, rng, s, c, n, hA, hB);
  }

  /** The client calls of the library's own test, starting from a freshly spawned worker. */
  lemma ItWorksScenario(prim: Primitive, rng: Entropy, m: Vec, n: Nonce)
    requires Sound(prim) && |m| + MacBytes <= MaxBoxBody
    ensures var s0 := WorkerState(map[], 0, true);
            var (ours, s1) := ClientGenKeypair(prim, rng, s0);
            && ours.Returns? && ours.result.Ok? && s1.alive
            && var (theirs, s2) := ClientGenKeypair(prim, rng, s1);
               && theirs.Returns? && theirs.result.Ok? && s2.alive
               && var (c, s3) := ClientSeal(prim, rng, s2, m, n, theirs.result.value.0, ours.result.value.1);
                  && c.Returns? && c.result.Ok? && s3 == s2 && |c.result.value| <= MaxVecLen
                  && ClientOpen(prim, rng, s3, c.result.value, n, ours.result.value.0, theirs.result.value.1)
                     == (Returns(Ok(Opened(m))), s2)
  {
    var s0 := WorkerState(map[], 0, true);
    GenKeypairRoundTrip(prim, rng, s0);
    var (ours, s1) := ClientGenKeypair(prim, rng, s0);
    GenKeypairRoundTrip(prim, rng, s1);
    var (theirs, s2) := ClientGenKeypair(prim, rng, s1);
    SealThenOpen(prim, rng, s2, m, n, ours.result.value.1, theirs.result.value.1);
  }

  /**
   * The library's own test: initialise, make two key pairs, seal from ours
   * to theirs, open with theirs from ours; the plaintext comes back.
   */
  method ItWorks(prim: Primitive, rng: Entropy, plaintext: Vec, nonce: Nonce) returns (theirPlaintext: Call<Opened>)
    requires Sound(prim) && |plaintext| + MacBytes <= MaxBoxBody
    ensures theirPlaintext == Returns(Ok(Opened(plaintext)))
  {
    ItWorksScenario(prim, rng, plaintext, nonce);
    var host := new Host(prim, rng);
    var init := host.Init(true);
    var ours := host.GenKeypair();
    var theirs := host.GenKeypair();
    var ciphertext := host.Seal(plaintext, nonce, theirs.result.value.0, ours.result.value.1);
    theirPlaintext := host.Open(ciphertext.result.value, nonce, ours.result.value.0, theirs.result.value.1);
  }
}
