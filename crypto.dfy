/** Key derivation and the authenticated envelope of crypto/crypto.go.
    scrypt (RFC 7914), AES-GCM (NIST SP 800-38D) and standard base64
    (section 4 of RFC 4648) stay abstract: they are the function fields of
    `Primitives`, and what the package relies on about them is stated as
    predicates over those fields. What is modelled exactly is the framing
    `nonce || sealed`, the length checks and the order of the steps. */
module Crypto {
  import opened Wrappers
  import opened Base

  const ScryptN: nat := 16384
  const ScryptR: nat := 8
  const ScryptP: nat := 1
  const SaltLen: nat := 16
  /** The derived key length: 32 bytes select AES-256. */
  const KeyLen: nat := 32
  /** gcm.NonceSize() of a GCM built by cipher.NewGCM: the 96-bit IV. */
  const NonceSize: nat := 12
  /** The GCM authentication tag that Seal appends. */
  const TagSize: nat := 16

  /** aes.NewCipher accepts AES-128, AES-192 and AES-256 keys only. */
  predicate ValidKeyLength(n: nat) {
    n == 16 || n == 24 || n == 32
  }

  datatype Primitives = Primitives(
    /** scrypt.Key(password, salt, N, r, p, keyLen) */
    scrypt: (Bytes, Bytes, nat, nat, nat, nat) -> Result<Bytes, Error>,
    /** the sealed part of gcm.Seal(dst, nonce, plaintext, additionalData): ciphertext || tag */
    seal: (Bytes, Bytes, Bytes, Bytes) -> Bytes,
    /** gcm.Open(key, nonce, sealed, additionalData): the plaintext, or None when authentication fails */
    open: (Bytes, Bytes, Bytes, Bytes) -> Option<Bytes>,
    /** base64.StdEncoding.EncodeToString */
    encode64: Bytes -> string,
    /** base64.StdEncoding.DecodeString */
    decode64: string -> Result<Bytes, Error>)
  {
    /** scrypt yields exactly the requested number of bytes when it succeeds. */
    ghost predicate ScryptLength() {
      forall pw, salt, n, r, p, len ::
        scrypt(pw, salt, n, r, p, len).Success? ==> |scrypt(pw, salt, n, r, p, len).value| == len
    }

    /** GCM's output is as long as the plaintext plus one tag. */
    ghost predicate SealLength() {
      forall key, nonce, pt, ad :: |seal(key, nonce, pt, ad)| == |pt| + TagSize
    }

    /** Authenticated decryption (section 5.2.2 of SP 800-38D) inverts
        authenticated encryption under the same key, nonce and additional data. */
    ghost predicate OpenSeal() {
      forall key, nonce, pt, ad | ValidKeyLength(|key|) && |nonce| == NonceSize ::
        open(key, nonce, seal(key, nonce, pt, ad), ad) == Some(pt)
    }

    /** Decoding inverts encoding (section 4 of RFC 4648). */
    ghost predicate Base64RoundTrip() {
      forall b :: decode64(encode64(b)) == Success(b)
    }

    ghost predicate Valid() {
      ScryptLength() && SealLength() && OpenSeal() && Base64RoundTrip()
    }
  }

  /** DeriveKeyFromPassword: scrypt over the password's UTF-8 bytes with the
      fixed costs N = 16384, r = 8, p = 1, asking for a 32-byte key. Being a
      function, it gives the same key for the same (password, salt). */
  function DeriveKeyFromPassword(prims: Primitives, password: string, salt: Bytes): (key: Result<Bytes, Error>)
    ensures key == prims.scrypt(Utf8Encode(password), salt, 16384, 8, 1, 32)
    ensures prims.ScryptLength() && key.Success? ==> |key.value| == KeyLen
  {
    prims.scrypt(Utf8Encode(password), salt, ScryptN, ScryptR, ScryptP, KeyLen)
  }

  /** The cryptographically secure random source (crypto/rand.Reader): the
      bytes it will deliver, in order. A read that asks for more than it can
      supply fails. */
  class Entropy {
    var tape: Bytes

    constructor (tape: Bytes)
      ensures this.tape == tape
    {
      this.tape := tape;
    }

    /** rand.Read(buf): fills the whole buffer in place with the next bytes
        of the stream and consumes them, or fails and consumes nothing. */
    method Read(buf: array<byte>) returns (err: Option<Error>)
      modifies this, buf
      ensures old(|tape|) < buf.Length ==>
                err == Some(RandFailure) && tape == old(tape) && buf[..] == old(buf[..])
      ensures buf.Length <= old(|tape|) ==>
                err == None && buf[..] == old(tape)[..buf.Length] && tape == old(tape)[buf.Length..]
    {
      if |tape| < buf.Length {
        return Some(RandFailure);
      }
      var i := 0;
      while i < buf.Length
        invariant 0 <= i <= buf.Length
        invariant tape == old(tape)
        invariant forall k :: 0 <= k < i ==> buf[k] == tape[k]
      {
        buf[i] := tape[i];
        i := i + 1;
      }
      tape := tape[buf.Length..];
      return None;
    }
  }

  /** A value drawn with the help of the random source, and what is left of
      the stream afterwards. */
  datatype Drawn<T> = Drawn(result: Result<T, Error>, rest: Bytes)

  /** What GenerateSalt yields from a stream: its next 16 bytes. */
  function DrawSalt(tape: Bytes): (d: Drawn<Bytes>)
    ensures d.result.Success? ==> |d.result.value| == SaltLen && tape == d.result.value + d.rest
    ensures d.result.Failure? ==> d.result.error == RandFailure && d.rest == tape && |tape| < SaltLen
  {
    if |tape| < SaltLen then Drawn(Failure(RandFailure), tape)
    else Drawn(Success(tape[..SaltLen]), tape[SaltLen..])
  }

  /** GenerateSalt: a fresh 16-byte buffer filled from the random source. */
  method GenerateSalt(rng: Entropy) returns (salt: Result<Bytes, Error>)
    modifies rng
    ensures Drawn(salt, rng.tape) == DrawSalt(old(rng.tape))
  {
    var buf := new byte[SaltLen];
    var err := rng.Read(buf);
    if err.Some? {
      return Failure(err.value);
    }
    return Success(buf[..]);
  }

  /** The text EncryptData returns for a given nonce: the base64 form of
      `nonce || Seal(nonce, data)` with no additional data. */
  function Frame(prims: Primitives, key: Bytes, nonce: Bytes, data: Bytes): (r: string)
    ensures prims.Base64RoundTrip() ==> prims.decode64(r) == Success(nonce + prims.seal(key, nonce, data, []))
  {
    prims.encode64(nonce + prims.seal(key, nonce, data, []))
  }

  /** What EncryptData yields from a stream: a key of the wrong size is
      rejected before any randomness is drawn; otherwise the next 12 bytes
      are the nonce. */
  function EncryptDraw(prims: Primitives, data: Bytes, key: Bytes, tape: Bytes): (d: Drawn<string>)
    ensures !ValidKeyLength(|key|) ==> d == Drawn(Failure(KeySize(|key|)), tape)
    ensures ValidKeyLength(|key|) && |tape| < NonceSize ==> d == Drawn(Failure(RandFailure), tape)
    ensures d.result.Success? ==>
              |tape| >= NonceSize && d.rest == tape[NonceSize..]
              && d.result.value == Frame(prims, key, tape[..NonceSize], data)
  {
    if !ValidKeyLength(|key|) then Drawn(Failure(KeySize(|key|)), tape)
    else if |tape| < NonceSize then Drawn(Failure(RandFailure), tape)
    else Drawn(Success(Frame(prims, key, tape[..NonceSize], data)), tape[NonceSize..])
  }

  /** EncryptData: a fresh nonce buffer filled in place from the random
      source, then Seal appending to that buffer, then base64. */
  method EncryptData(prims: Primitives, rng: Entropy, data: Bytes, key: Bytes) returns (r: Result<string, Error>)
    modifies rng
    ensures Drawn(r, rng.tape) == EncryptDraw(prims, data, key, old(rng.tape))
  {
    if !ValidKeyLength(|key|) {
      return Failure(KeySize(|key|));
    }
    var nonce := new byte[NonceSize];
    var err := rng.Read(nonce);
    if err.Some? {
      return Failure(err.value);
    }
    var sealed := nonce[..] + prims.seal(key, nonce[..], data, []);
    return Success(prims.encode64(sealed));
  }

  /** DecryptData: base64-decode; build the cipher (key size check); reject
      input shorter than the nonce; split at the nonce size; open the rest
      with no additional data. */
  function DecryptData(prims: Primitives, encrypted: string, key: Bytes): (r: Result<Bytes, Error>)
    ensures prims.decode64(encrypted).Failure? ==> r == Failure(prims.decode64(encrypted).error)
    ensures r.Success? ==>
              var ct := prims.decode64(encrypted).value;
              && prims.decode64(encrypted).Success? && ValidKeyLength(|key|) && |ct| >= NonceSize
              && prims.open(key, ct[..NonceSize], ct[NonceSize..], []) == Some(r.value)
  {
    match prims.decode64(encrypted)
    case Failure(e) => Failure(e)
    case Success(ct) =>
      if !ValidKeyLength(|key|) then Failure(KeySize(|key|))
      else if |ct| < NonceSize then Failure(CiphertextTooShort)
      else
        var nonce, sealed := ct[..NonceSize], ct[NonceSize..];
        match prims.open(key, nonce, sealed, [])
        case None => Failure(AuthenticationFailed)
        case Some(plaintext) => Success(plaintext)
  }

  /** Invalid base64 is rejected before any cipher work: the outcome depends
      neither on the key nor on the cipher. */
  lemma DecryptRejectsBadBase64(prims: Primitives, encrypted: string, key: Bytes,
                                otherKey: Bytes, otherOpen: (Bytes, Bytes, Bytes, Bytes) -> Option<Bytes>)
    requires prims.decode64(encrypted).Failure?
    ensures DecryptData(prims, encrypted, key) == Failure(prims.decode64(encrypted).error)
    ensures DecryptData(prims.(open := otherOpen), encrypted, otherKey) == DecryptData(prims, encrypted, key)
  {
  }

  /** Decoded input shorter than the nonce is "ciphertext too short", and
      Open is never consulted. */
  lemma DecryptRejectsShort(prims: Primitives, encrypted: string, key: Bytes,
                            otherOpen: (Bytes, Bytes, Bytes, Bytes) -> Option<Bytes>)
    requires prims.decode64(encrypted).Success? && |prims.decode64(encrypted).value| < NonceSize
    requires ValidKeyLength(|key|)
    ensures DecryptData(prims, encrypted, key) == Failure(CiphertextTooShort)
    ensures DecryptData(prims.(open := otherOpen), encrypted, key) == Failure(CiphertextTooShort)
  {
  }

  /** An authentication failure in Open yields an error and no plaintext. */
  lemma DecryptOpenFailure(prims: Primitives, encrypted: string, key: Bytes)
    requires prims.decode64(encrypted).Success? && ValidKeyLength(|key|)
    requires var ct := prims.decode64(encrypted).value;
               |ct| >= NonceSize && prims.open(key, ct[..NonceSize], ct[NonceSize..], []).None?
    ensures DecryptData(prims, encrypted, key) == Failure(AuthenticationFailed)
  {
  }

  /** The decoded output of EncryptData is the 12-byte nonce followed by the
      sealed data, which is one tag longer than the plaintext. */
  lemma FrameLayout(prims: Primitives, key: Bytes, nonce: Bytes, data: Bytes)
    requires prims.Base64RoundTrip() && prims.SealLength()
    requires |nonce| == NonceSize
    ensures prims.decode64(Frame(prims, key, nonce, data)).Success?
    ensures var ct := prims.decode64(Frame(prims, key, nonce, data)).value;
            && |ct| == NonceSize + |data| + TagSize
            && ct[..NonceSize] == nonce
            && ct[NonceSize..] == prims.seal(key, nonce, data, [])
  {
    var sealed := prims.seal(key, nonce, data, []);
    assert prims.decode64(prims.encode64(nonce + sealed)) == Success(nonce + sealed);
    assert (nonce + sealed)[..NonceSize] == nonce;
    assert (nonce + sealed)[NonceSize..] == sealed;
  }

  /** Decrypting what EncryptData produced under the same key gives the data back. */
  lemma EncryptDecryptRoundTrip(prims: Primitives, data: Bytes, key: Bytes, tape: Bytes)
    requires prims.Valid()
    requires EncryptDraw(prims, data, key, tape).result.Success?
    ensures DecryptData(prims, EncryptDraw(prims, data, key, tape).result.value, key) == Success(data)
  {
    var nonce := tape[..NonceSize];
    FrameLayout(prims, key, nonce, data);
    assert prims.open(key, nonce, prims.seal(key, nonce, data, []), []) == Some(data);
  }
}
