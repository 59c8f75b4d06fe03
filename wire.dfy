/**
 * The wire codec of the key-custody sandbox (src/ipc.rs): big-endian u64
 * length prefixes, sized byte strings, and the fixed-width nonce, public-key
 * and key-handle blocks, read through a cursor and written into a BytesMut.
 *
 * Every `unwrap` and every panicking accessor of the source becomes an
 * explicit `Abort` outcome here, so that the short-read cases can be stated.
 */
module Wire {

  /** One octet on the wire. */
  type byte = b: int | 0 <= b < 256

  const U64Bytes: nat := 8
  const NonceBytes: nat := 24
  const PublicKeyBytes: nat := 32
  const SecretKeyBytes: nat := 32

  /** 2^64: every u64 is below it. */
  const U64Limit: nat := 0x1_0000_0000_0000_0000
  /** isize::MAX, the largest length a Rust Vec or slice can have. */
  const MaxVecLen: nat := 0x7FFF_FFFF_FFFF_FFFF

  /** An in-memory byte vector or slice. */
  type Vec = s: seq<byte> | |s| <= MaxVecLen
  type Nonce = s: seq<byte> | |s| == NonceBytes witness seq(NonceBytes, _ => 0)
  type PublicKey = s: seq<byte> | |s| == PublicKeyBytes witness seq(PublicKeyBytes, _ => 0)
  /** The worker uses a public key as the handle of its secret key. */
  type SecretKeyHandle = PublicKey

  datatype Option<+T> = None | Some(value: T)

  /** Why a process panics. */
  datatype Panic =
    | BufferUnderflow      // a `Buf` getter with too few bytes remaining
    | ShortRead            // `read_exact(..).unwrap()` on too few bytes
    | KeyNotFound          // `keys.get(&skh).unwrap()` on an unknown handle
    | UnknownCommand(cmd: int)  // `unimplemented!()` in the dispatcher
    | InvalidKeyLength     // `PublicKey::from_slice(..).unwrap()` on a wrong length
    | NotInitialised       // `INIT_RESULT.as_ref().unwrap()` before `init`
    | SpawnFailed          // `spawn_process().unwrap()` inside `call_once`
    | OncePoisoned         // `call_once` after its closure panicked

  /** A value, or the panic that ends the process instead. */
  datatype Result<+T> = Ok(value: T) | Abort(panic: Panic)

  /** The signed reading of an octet (`get_i8`). */
  function AsI8(b: byte): (v: int)
    ensures -128 <= v < 128
    ensures v >= 0 <==> b < 128
  {
    if b < 128 then b else b - 256
  }

  /** The octet written for a signed value (`put_i8`). */
  function FromI8(v: int): (b: byte)
    requires -128 <= v < 128
    ensures AsI8(b) == v
  {
    if v >= 0 then v else v + 256
  }

  function Pow256(k: nat): (p: nat)
    ensures p >= 1
  {
    if k == 0 then 1 else 256 * Pow256(k - 1)
  }

  /** The `width` low-order octets of `n`, most significant first. */
  function BigEndian(n: nat, width: nat): (s: seq<byte>)
    ensures |s| == width
  {
    if width == 0 then [] else BigEndian(n / 256, width - 1) + [n % 256]
  }

  /** The number an octet string denotes, most significant first. */
  function BigEndianValue(s: seq<byte>): (n: nat)
    ensures n < Pow256(|s|)
  {
    if s == [] then 0 else BigEndianValue(s[..|s| - 1]) * 256 + s[|s| - 1]
  }

  lemma {:induction false} BigEndianRoundTrip(n: nat, width: nat)
    requires n < Pow256(width)
    ensures BigEndianValue(BigEndian(n, width)) == n
  {
    if width > 0 {
      var s := BigEndian(n, width);
      BigEndianRoundTrip(n / 256, width - 1);
      assert s[..width - 1] == BigEndian(n / 256, width - 1);
    }
  }

  lemma {:induction false} BigEndianOfValue(s: seq<byte>)
    ensures BigEndian(BigEndianValue(s), |s|) == s
  {
    if s != [] {
      var k := |s| - 1;
      var v := BigEndianValue(s[..k]);
      BigEndianOfValue(s[..k]);
      assert (v * 256 + s[k]) / 256 == v;
      assert (v * 256 + s[k]) % 256 == s[k];
      assert s == s[..k] + [s[k]];
    }
  }

  lemma U64LimitIsPow256()
    ensures Pow256(U64Bytes) == U64Limit
  {
  }

  /** `put_u64_be(n)`: eight octets that decode back to `n`. */
  function U64BE(n: nat): (s: seq<byte>)
    requires n < U64Limit
    ensures |s| == U64Bytes
    ensures BigEndianValue(s) == n
  {
    U64LimitIsPow256();
    BigEndianRoundTrip(n, U64Bytes);
    BigEndian(n, U64Bytes)
  }

  /** Every eight octets are the encoding of some u64. */
  lemma U64BEOfValue(s: seq<byte>)
    requires |s| == U64Bytes
    ensures BigEndianValue(s) < U64Limit && U64BE(BigEndianValue(s)) == s
  {
    U64LimitIsPow256();
    BigEndianOfValue(s);
  }

  /** `put_sized_slice(s)`: the length of `s` as a big-endian u64, then `s`. */
  function SizedSlice(s: seq<byte>): (r: seq<byte>)
    requires |s| < U64Limit
    ensures |r| == U64Bytes + |s|
    ensures BigEndianValue(r[..U64Bytes]) == |s| && r[U64Bytes..] == s
  {
    U64BE(|s|) + s
  }

  // ---------------------------------------------------------------------
  // Reading through a cursor. Each reader below takes the whole buffer and
  // the cursor position and gives the value read with the new position.
  // ---------------------------------------------------------------------

  /** `get_i8`: one octet, read as signed. */
  function ReadI8(data: seq<byte>, pos: nat): (r: Result<(int, nat)>)
    requires pos <= |data|
    ensures r.Ok? <==> pos < |data|
    ensures r.Ok? ==> -128 <= r.value.0 < 128 && FromI8(r.value.0) == data[pos] && r.value.1 == pos + 1
    ensures r.Abort? ==> r.panic == BufferUnderflow
  {
    if pos < |data| then Ok((AsI8(data[pos]), pos + 1)) else Abort(BufferUnderflow)
  }

  /** `get_u64_be`: eight octets, read as a big-endian number. */
  function ReadU64BE(data: seq<byte>, pos: nat): (r: Result<(nat, nat)>)
    requires pos <= |data|
    ensures r.Ok? <==> pos + U64Bytes <= |data|
    ensures r.Ok? ==> r.value.0 < U64Limit && r.value.1 == pos + U64Bytes
    ensures r.Ok? ==> U64BE(r.value.0) == data[pos..r.value.1]
    ensures r.Abort? ==> r.panic == BufferUnderflow
  {
    if |data| - pos < U64Bytes then Abort(BufferUnderflow)
    else
      var field := data[pos..pos + U64Bytes];
      U64BEOfValue(field);
      Ok((BigEndianValue(field), pos + U64Bytes))
  }

  /** `read_exact` into a fresh vector of `len` octets, then `unwrap`. */
  function ReadExactly(data: seq<byte>, pos: nat, len: nat): (r: Result<(seq<byte>, nat)>)
    requires pos <= |data|
    ensures r.Ok? <==> len <= |data| - pos
    ensures r.Ok? ==> |r.value.0| == len && r.value.1 == pos + len && data[pos..r.value.1] == r.value.0
    ensures r.Abort? ==> r.panic == ShortRead
  {
    if len <= |data| - pos then Ok((data[pos..pos + len], pos + len)) else Abort(ShortRead)
  }

  /** `get_sized_vec`: a length L, then exactly L octets. */
  function ReadSizedVec(data: seq<byte>, pos: nat): (r: Result<(seq<byte>, nat)>)
    requires pos <= |data|
    ensures r.Ok? <==> pos + U64Bytes <= |data| && BigEndianValue(data[pos..pos + U64Bytes]) <= |data| - pos - U64Bytes
    ensures r.Ok? ==> r.value.1 == pos + U64Bytes + |r.value.0| <= |data|
    ensures r.Ok? ==> |r.value.0| < U64Limit && data[pos..r.value.1] == SizedSlice(r.value.0)
    ensures r.Abort? ==> r.panic == (if |data| - pos < U64Bytes then BufferUnderflow else ShortRead)
  {
    match ReadU64BE(data, pos)
    case Abort(p) => Abort(p)
    case Ok((len, p)) =>
      var r := ReadExactly(data, p, len);
      assert r.Ok? ==> data[pos..r.value.1] == data[pos..p] + data[p..r.value.1];
      r
  }

  /** `get_nonce`: the next 24 octets, unchanged. */
  function ReadNonce(data: seq<byte>, pos: nat): (r: Result<(Nonce, nat)>)
    requires pos <= |data|
    ensures r.Ok? <==> pos + NonceBytes <= |data|
    ensures r.Ok? ==> r.value.1 == pos + NonceBytes && data[pos..r.value.1] == r.value.0
    ensures r.Abort? ==> r.panic == ShortRead
  {
    match ReadExactly(data, pos, NonceBytes)
    case Abort(p) => Abort(p)
    case Ok((n, p)) => Ok((n, p))
  }

  /** `get_public_key`, and `get_secret_key_handle`, which is the same read. */
  function ReadPublicKey(data: seq<byte>, pos: nat): (r: Result<(PublicKey, nat)>)
    requires pos <= |data|
    ensures r.Ok? <==> pos + PublicKeyBytes <= |data|
    ensures r.Ok? ==> r.value.1 == pos + PublicKeyBytes && data[pos..r.value.1] == r.value.0
    ensures r.Abort? ==> r.panic == ShortRead
  {
    match ReadExactly(data, pos, PublicKeyBytes)
    case Abort(p) => Abort(p)
    case Ok((k, p)) => Ok((k, p))
  }

  /** A read `r` whose cursor now stands at `pos` did what `spec` says. */
  predicate Agrees<T(==)>(r: Result<T>, pos: nat, spec: Result<(T, nat)>)
  {
    match spec
    case Ok((v, p)) => r == Ok(v) && pos == p
    case Abort(e) => r == Abort(e)
  }

  /** `std::io::Cursor` over a received buffer, used through `Buf` and `Read`. */
  class Cursor {
    const data: seq<byte>
    var pos: nat

    ghost predicate Valid()
      reads this
    {
      pos <= |data|
    }

    constructor (data: seq<byte>)
      ensures Valid() && this.data == data && pos == 0
    {
      this.data := data;
      pos := 0;
    }

    method GetI8() returns (r: Result<int>)
      requires Valid()
      modifies this
      ensures Valid() && Agrees(r, pos, ReadI8(data, old(pos)))
    {
      if pos >= |data| {
        return Abort(BufferUnderflow);
      }
      r := Ok(AsI8(data[pos]));
      pos := pos + 1;
    }

    method GetU64BE() returns (r: Result<nat>)
      requires Valid()
      modifies this
      ensures Valid() && Agrees(r, pos, ReadU64BE(data, old(pos)))
    {
      if |data| - pos < U64Bytes {
        return Abort(BufferUnderflow);
      }
      r := Ok(BigEndianValue(data[pos..pos + U64Bytes]));
      pos := pos + U64Bytes;
    }

    method ReadExact(len: nat) returns (r: Result<seq<byte>>)
      requires Valid()
      modifies this
      ensures Valid() && Agrees(r, pos, ReadExactly(data, old(pos), len))
    {
      if |data| - pos < len {
        return Abort(ShortRead);
      }
      r := Ok(data[pos..pos + len]);
      pos := pos + len;
    }

    method GetSizedVec() returns (r: Result<seq<byte>>)
      requires Valid()
      modifies this
      ensures Valid() && Agrees(r, pos, ReadSizedVec(data, old(pos)))
    {
      var len := GetU64BE();
      if len.Abort? {
        return Abort(len.panic);
      }
      r := ReadExact(len.value);
    }

    method GetNonce() returns (r: Result<Nonce>)
      requires Valid()
      modifies this
      ensures Valid() && Agrees(r, pos, ReadNonce(data, old(pos)))
    {
      var n := ReadExact(NonceBytes);
      if n.Abort? {
        return Abort(n.panic);
      }
      r := Ok(n.value);
    }

    method GetPublicKey() returns (r: Result<PublicKey>)
      requires Valid()
      modifies this
      ensures Valid() && Agrees(r, pos, ReadPublicKey(data, old(pos)))
    {
      var pk := ReadExact(PublicKeyBytes);
      if pk.Abort? {
        return Abort(pk.panic);
      }
      r := Ok(pk.value);
    }

    /** A handle is read exactly as a public key is. */
    method GetSecretKeyHandle() returns (r: Result<SecretKeyHandle>)
      requires Valid()
      modifies this
      ensures Valid() && Agrees(r, pos, ReadPublicKey(data, old(pos)))
    {
      r := GetPublicKey();
    }
  }

  /**
   * A `BytesMut` made `with_capacity`. Writing past the capacity panics
   * ("buffer overflow"), so every put requires room for what it writes.
   */
  class BytesMut {
    const capacity: nat
    var bytes: seq<byte>

    ghost predicate Valid()
      reads this
    {
      |bytes| <= capacity
    }

    constructor WithCapacity(capacity: nat)
      ensures Valid() && this.capacity == capacity && bytes == []
    {
      this.capacity := capacity;
      bytes := [];
    }

    method PutI8(v: int)
      requires Valid() && -128 <= v < 128 && |bytes| + 1 <= capacity
      modifies this
      ensures Valid() && bytes == old(bytes) + [FromI8(v)]
    {
      bytes := bytes + [FromI8(v)];
    }

    method PutU64BE(n: nat)
      requires Valid() && n < U64Limit && |bytes| + U64Bytes <= capacity
      modifies this
      ensures Valid() && bytes == old(bytes) + U64BE(n)
    {
      bytes := bytes + U64BE(n);
    }

    method Put(s: seq<byte>)
      requires Valid() && |bytes| + |s| <= capacity
      modifies this
      ensures Valid() && bytes == old(bytes) + s
    {
      bytes := bytes + s;
    }

    /** Appends 8 + |s| octets and leaves what was there untouched. */
    method PutSizedSlice(s: seq<byte>)
      requires Valid() && |s| < U64Limit && |bytes| + U64Bytes + |s| <= capacity
      modifies this
      ensures Valid() && bytes == old(bytes) + SizedSlice(s)
      ensures |bytes| == |old(bytes)| + U64Bytes + |s| && bytes[..|old(bytes)|] == old(bytes)
    {
      PutU64BE(|s|);
      Put(s);
    }
  }

  /** Decoding a sized slice returns it and stops where the next field starts. */
  lemma {:induction false} SizedSliceRoundTrip(prefix: seq<byte>, s: seq<byte>, suffix: seq<byte>)
    requires |s| < U64Limit
    ensures var data := prefix + SizedSlice(s) + suffix;
            ReadSizedVec(data, |prefix|) == Ok((s, |prefix| + U64Bytes + |s|))
  {
    var data := prefix + SizedSlice(s) + suffix;
    var p := |prefix|;
    assert data[p..p + U64Bytes] == U64BE(|s|);
    assert data[p + U64Bytes..p + U64Bytes + |s|] == s;
  }

  /** A fixed-width block is read back unchanged, whatever follows it. */
  lemma FixedFieldsRoundTrip(prefix: seq<byte>, n: Nonce, pk: PublicKey, suffix: seq<byte>)
    ensures ReadNonce(prefix + n + suffix, |prefix|) == Ok((n, |prefix| + NonceBytes))
    ensures ReadPublicKey(prefix + pk + suffix, |prefix|) == Ok((pk, |prefix| + PublicKeyBytes))
  {
    assert (prefix + n + suffix)[|prefix|..|prefix| + NonceBytes] == n;
    assert (prefix + pk + suffix)[|prefix|..|prefix| + PublicKeyBytes] == pk;
  }
}
