/** AIRC identities: an `Identity` holds an agent's Ed25519 signing key, a
    `RecoveryKey` the separate key that signs key-rotation and revocation
    proofs. Each starts with no key loaded, `ensure_*` loads its key file or
    generates and stores a new key, and signing is refused until a key is
    loaded. A signature is over the canonical JSON text of the payload, so it
    covers the payload's entries and not the order they were inserted in. */
module AircIdentity {
  import opened Base
  import opened Text
  import opened Dict
  import opened Json
  import opened Crypto
  import opened FileStore
  import opened KeyStore

  const DefaultKeyDir: Path := "~/.airc/keys"
  const RecoveryKeyDir: Path := "~/.airc/recovery"

  const NoKeypairLoaded: Error := ValueError("No keypair loaded. Call ensure_keypair() first.")
  const NoRecoveryKeyLoaded: Error := ValueError("No recovery key loaded. Call ensure_recovery_key() first.")

  // ---------------------------------------------------------------------------
  // Signing, shared by both key objects

  /** `base64(Ed25519-sign(seed, utf8(canonical(payload))))`. */
  function SignatureOf(crypto: Primitives, seed: Seed, payload: Json): string {
    crypto.base64(crypto.sign(seed, CanonicalMessage(payload)))
  }

  /** `sign` of an object whose private key slot holds `key`: the error
      `missing` when no key is loaded. */
  function SignWith(crypto: Primitives, key: Option<Seed>, payload: Json, missing: Error): (r: Result<string, Error>)
    ensures r.Err? <==> key.None?
    ensures r.Err? ==> r.error == missing
    ensures r.Ok? ==> r.value == SignatureOf(crypto, key.value, payload)
  {
    match key
    case None => Err(missing)
    case Some(seed) => Ok(SignatureOf(crypto, seed, payload))
  }

  /** Payloads with the same entries, inserted in any order, get the same
      signature. */
  lemma SignatureOfOrderIndependent(crypto: Primitives, seed: Seed, a: Json, b: Json)
    requires Equiv(a, b)
    ensures SignatureOf(crypto, seed, a) == SignatureOf(crypto, seed, b)
  {
    CanonicalMessageOrderIndependent(a, b);
  }

  /** `public_key_base64` of an object whose public key slot holds `key`. */
  function PublicKeyText(crypto: Primitives, key: Option<PublicKey>, missing: Error): (r: Result<string, Error>)
    ensures r.Err? <==> key.None?
    ensures r.Err? ==> r.error == missing
    ensures r.Ok? ==> r.value == crypto.base64(key.value)
  {
    match key
    case None => Err(missing)
    case Some(pk) => Ok(crypto.base64(pk))
  }

  /** The public key held beside a private key: the one derived from it. */
  function Derived(crypto: Primitives, key: Option<Seed>): (r: Option<PublicKey>)
    ensures r.Some? <==> key.Some?
    ensures r.Some? ==> r.value == crypto.publicKeyOf(key.value)
  {
    match key
    case None => None
    case Some(seed) => Some(crypto.publicKeyOf(seed))
  }

  /** A signed record: the value stored under `k` is the signature, by `seed`,
      of the record without `k`. */
  ghost predicate SignedUnder(crypto: Primitives, seed: Seed, fields: seq<(string, Json)>, k: string) {
    Get(fields, k) == Some(JStr(SignatureOf(crypto, seed, JObj(Remove(fields, k)))))
  }

  /** A receiver that removes the signature and rebuilds the rest in any key
      order computes the message that was signed. */
  lemma SignedUnderAnyOrder(crypto: Primitives, seed: Seed, fields: seq<(string, Json)>, k: string, rebuilt: Json)
    requires SignedUnder(crypto, seed, fields, k)
    requires Equiv(rebuilt, JObj(Remove(fields, k)))
    ensures Get(fields, k) == Some(JStr(SignatureOf(crypto, seed, rebuilt)))
  {
    SignatureOfOrderIndependent(crypto, seed, rebuilt, JObj(Remove(fields, k)));
  }

  /** Adding the signature of a record under a new key `k` yields a record
      signed under `k`, whose keys are the old ones followed by `k`. */
  lemma AddSignature(crypto: Primitives, seed: Seed, payload: seq<(string, Json)>, k: string)
    requires k !in Keys(payload)
    ensures var signed := Put(payload, k, JStr(SignatureOf(crypto, seed, JObj(payload))));
      Keys(signed) == Keys(payload) + [k] && Remove(signed, k) == payload &&
      SignedUnder(crypto, seed, signed, k)
  {
    RemovePut(payload, k, JStr(SignatureOf(crypto, seed, JObj(payload))));
  }

  /** `.key` and `.pub` files of one name never coincide. */
  lemma KeyFilesDiffer(dir: Path, name: string)
    ensures PathJoin(dir, name + ".key") != PathJoin(dir, name + ".pub")
  {
    var i := |dir| + 1 + |name| + 1;
    assert PathJoin(dir, name + ".key")[i] == 'k';
    assert PathJoin(dir, name + ".pub")[i] == 'p';
  }

  // ---------------------------------------------------------------------------
  // Identity

  class Identity {
    const name: string
    const keyDir: Path
    const crypto: Primitives
    var privateKey: Option<Seed>
    var publicKey: Option<PublicKey>

    /** The public key is always the one derived from the private key. */
    ghost predicate Valid()
      reads this
    {
      publicKey == Derived(crypto, privateKey)
    }

    /** `Identity(name, key_dir)`: `key_dir` defaults to `~/.airc/keys`, and
        no key is loaded. */
    constructor(name: string, keyDir: Option<Path>, crypto: Primitives)
      ensures this.name == name && this.keyDir == keyDir.GetOr(DefaultKeyDir) && this.crypto == crypto
      ensures privateKey.None? && publicKey.None? && Valid()
    {
      this.name := name;
      this.keyDir := keyDir.GetOr(DefaultKeyDir);
      this.crypto := crypto;
      privateKey := None;
      publicKey := None;
    }

    function KeyPath(): Path {
      PathJoin(keyDir, name + ".key")
    }

    function PublicKeyPath(): Path {
      PathJoin(keyDir, name + ".pub")
    }

    /** Private key `<key_dir>/<name>.key` with mode 0o600, public key
        `<key_dir>/<name>.pub`. */
    function Slot(): (s: KeySlot)
      ensures s.keyPath == PathJoin(keyDir, name + ".key") && s.keyMode == OwnerReadWrite
      ensures s.publicPath == Some(PathJoin(keyDir, name + ".pub"))
      ensures Separate(s)
    {
      KeyFilesDiffer(keyDir, name);
      KeySlot(KeyPath(), Some(PublicKeyPath()), OwnerReadWrite)
    }

    function PublicKeyBase64(): (r: Result<string, Error>)
      reads this
      ensures r.Err? <==> publicKey.None?
      ensures r.Err? ==> r.error == NoKeypairLoaded
      ensures r.Ok? ==> r.value == crypto.base64(publicKey.value)
    {
      PublicKeyText(crypto, publicKey, NoKeypairLoaded)
    }

    /** `ensure_keypair`: the generate-or-load rule on this identity's slot;
        `drawn` is the key that generating would produce. On success both key
        fields hold the resulting key; on failure nothing changes. */
    method EnsureKeypair(fs: FileSystem, drawn: Seed) returns (r: Outcome<Error>)
      modifies this, fs
      ensures var e := Ensure(old(fs.files), fs.creationMode, Slot(), crypto, drawn);
        if e.Ok? then
          r == Pass && privateKey == Some(e.value.seed) && fs.files == e.value.files && Valid()
        else
          r == Fail(e.error) && privateKey == old(privateKey) && publicKey == old(publicKey) &&
          fs.files == old(fs.files)
    {
      if fs.Exists(KeyPath()) {
        r := LoadKeypair(fs);
      } else {
        GenerateKeypair(fs, drawn);
        r := Pass;
      }
    }

    /** `_generate_keypair`: both fields hold the new key, the private key is
        written and made owner-only, then the public key is written. */
    method GenerateKeypair(fs: FileSystem, drawn: Seed)
      modifies this, fs
      ensures privateKey == Some(drawn) && Valid()
      ensures fs.files == Generated(old(fs.files), fs.creationMode, Slot(), drawn, crypto.publicKeyOf(drawn))
    {
      privateKey := Some(drawn);
      publicKey := Some(crypto.publicKeyOf(drawn));
      fs.WriteBytes(KeyPath(), PrivateKeyPem(drawn));
      fs.Chmod(KeyPath(), OwnerReadWrite);
      fs.WriteBytes(PublicKeyPath(), PublicKeyPem(publicKey.value));
    }

    /** `_load_keypair`: read and parse the private key file and derive the
        public key; a missing or unparsable file raises and changes nothing. */
    method LoadKeypair(fs: FileSystem) returns (r: Outcome<Error>)
      modifies this
      ensures var l := Load(fs.files, KeyPath());
        if l.Ok? then r == Pass && privateKey == Some(l.value) && Valid()
        else r == Fail(l.error) && privateKey == old(privateKey) && publicKey == old(publicKey)
    {
      var bytes := fs.ReadBytes(KeyPath());
      match bytes
      case Err(e) =>
        r := Fail(e);
      case Ok(content) =>
        if content.PrivateKeyPem? {
          privateKey := Some(content.seed);
          publicKey := Some(crypto.publicKeyOf(content.seed));
          r := Pass;
        } else {
          r := Fail(InvalidKeyFile(KeyPath()));
        }
    }

    /** `sign`: the base64 Ed25519 signature of the canonical text, or the
        "No keypair loaded" error when no key is loaded. */
    function Sign(payload: Json): (r: Result<string, Error>)
      reads this
      ensures r.Err? <==> privateKey.None?
      ensures r.Err? ==> r.error == NoKeypairLoaded
      ensures r.Ok? ==> r.value == SignatureOf(crypto, privateKey.value, payload)
    {
      SignWith(crypto, privateKey, payload, NoKeypairLoaded)
    }

    /** `fingerprint`: the first 16 hex digits of the public key's SHA-256,
        that is the hex of the digest's first 8 bytes. With no key loaded the
        attribute access on `None` fails. */
    function Fingerprint(): (r: Result<string, Error>)
      reads this
      ensures r.Err? <==> publicKey.None?
      ensures r.Err? ==> r.error == AttributeError
      ensures r.Ok? ==> |r.value| == 16 && r.value == Hex(crypto.sha256(publicKey.value)[..8])
      ensures r.Ok? ==> forall i :: 0 <= i < |r.value| ==> IsHexDigit(r.value[i])
    {
      match publicKey
      case None => Err(AttributeError)
      case Some(pk) =>
        HexPrefix(crypto.sha256(pk), 8);
        Ok(Hex(crypto.sha256(pk))[..16])
    }
  }

  // ---------------------------------------------------------------------------
  // RecoveryKey

  /** The fields of a rotation proof before it is signed. */
  function RotationPayload(newPublicKey: string, now: int, nonce: Bytes16): seq<(string, Json)> {
    [("new_public_key", JStr(newPublicKey)), ("timestamp", JInt(now)), ("nonce", JStr(Hex(nonce)))]
  }

  /** The fields of a revocation proof before it is signed. */
  function RevocationPayload(handle: string, reason: string, now: int, nonce: Bytes16): seq<(string, Json)> {
    [("v", JStr("0.2")), ("handle", JStr(handle)), ("action", JStr("revoke")), ("reason", JStr(reason)),
     ("timestamp", JInt(now)), ("nonce", JStr(Hex(nonce)))]
  }

  // AppendFourth and AppendSeventh state list facts about plain string
  // parameters; stated once here, they spare the proofs below the far
  // costlier comparison of literal key lists.
  lemma AppendFourth(a: string, b: string, c: string, d: string)
    ensures [a, b, c] + [d] == [a, b, c, d]
  {
  }

  lemma AppendSeventh(a: string, b: string, c: string, d: string, e: string, f: string, g: string)
    ensures [a, b, c, d, e, f] + [g] == [a, b, c, d, e, f, g]
  {
  }

  /** The rotation record once signed by `seed`. */
  lemma RotationProofSigned(crypto: Primitives, seed: Seed, newPublicKey: string, now: int, nonce: Bytes16)
    ensures var payload := RotationPayload(newPublicKey, now, nonce);
      var signed := Put(payload, "signature", JStr(SignatureOf(crypto, seed, JObj(payload))));
      Keys(signed) == ["new_public_key", "timestamp", "nonce", "signature"] &&
      Remove(signed, "signature") == payload && SignedUnder(crypto, seed, signed, "signature")
  {
    var payload := RotationPayload(newPublicKey, now, nonce);
    RotationKeys(newPublicKey, now, nonce);
    AddSignature(crypto, seed, payload, "signature");
    AppendFourth("new_public_key", "timestamp", "nonce", "signature");
  }

  /** The revocation record once signed by `seed`. */
  lemma RevocationProofSigned(crypto: Primitives, seed: Seed, handle: string, reason: string, now: int, nonce: Bytes16)
    ensures var payload := RevocationPayload(handle, reason, now, nonce);
      var signed := Put(payload, "proof", JStr(SignatureOf(crypto, seed, JObj(payload))));
      Keys(signed) == ["v", "handle", "action", "reason", "timestamp", "nonce", "proof"] &&
      Remove(signed, "proof") == payload && SignedUnder(crypto, seed, signed, "proof")
  {
    var payload := RevocationPayload(handle, reason, now, nonce);
    RevocationKeys(handle, reason, now, nonce);
    AddSignature(crypto, seed, payload, "proof");
    AppendSeventh("v", "handle", "action", "reason", "timestamp", "nonce", "proof");
  }

  lemma RotationKeys(newPublicKey: string, now: int, nonce: Bytes16)
    ensures Keys(RotationPayload(newPublicKey, now, nonce)) == ["new_public_key", "timestamp", "nonce"]
    ensures "signature" !in Keys(RotationPayload(newPublicKey, now, nonce))
  {
    assert Keys(RotationPayload(newPublicKey, now, nonce)) == ["new_public_key", "timestamp", "nonce"];
  }

  /** The nonce of a rotation proof is the hex text of the random bytes. */
  lemma RotationNonce(newPublicKey: string, now: int, nonce: Bytes16, signature: string)
    ensures Get(Put(RotationPayload(newPublicKey, now, nonce), "signature", JStr(signature)), "nonce")
         == Some(JStr(Hex(nonce)))
  {
    assert Get(RotationPayload(newPublicKey, now, nonce), "nonce") == Some(JStr(Hex(nonce)));
  }

  lemma RevocationKeys(handle: string, reason: string, now: int, nonce: Bytes16)
    ensures Keys(RevocationPayload(handle, reason, now, nonce)) == ["v", "handle", "action", "reason", "timestamp", "nonce"]
    ensures "proof" !in Keys(RevocationPayload(handle, reason, now, nonce))
  {
    assert Keys(RevocationPayload(handle, reason, now, nonce)) == ["v", "handle", "action", "reason", "timestamp", "nonce"];
  }

  class RecoveryKey {
    const name: string
    const crypto: Primitives
    var privateKey: Option<Seed>
    var publicKey: Option<PublicKey>

    ghost predicate Valid()
      reads this
    {
      publicKey == Derived(crypto, privateKey)
    }

    /** `RecoveryKey(name)`: there is no directory parameter, and no key is
        loaded. */
    constructor(name: string, crypto: Primitives)
      ensures this.name == name && this.crypto == crypto
      ensures privateKey.None? && publicKey.None? && Valid()
    {
      this.name := name;
      this.crypto := crypto;
      privateKey := None;
      publicKey := None;
    }

    function RecoveryPath(): Path {
      PathJoin(RecoveryKeyDir, name + ".key")
    }

    /** Only `~/.airc/recovery/<name>.key`, mode 0o400, no public key file. */
    function Slot(): (s: KeySlot)
      ensures s.keyPath == PathJoin(RecoveryKeyDir, name + ".key") && s.keyMode == OwnerReadOnly
      ensures s.publicPath.None? && Separate(s)
    {
      KeySlot(RecoveryPath(), None, OwnerReadOnly)
    }

    function PublicKeyBase64(): (r: Result<string, Error>)
      reads this
      ensures r.Err? <==> publicKey.None?
      ensures r.Err? ==> r.error == NoRecoveryKeyLoaded
      ensures r.Ok? ==> r.value == crypto.base64(publicKey.value)
    {
      PublicKeyText(crypto, publicKey, NoRecoveryKeyLoaded)
    }

    /** `ensure_recovery_key`: the generate-or-load rule on the recovery slot. */
    method EnsureRecoveryKey(fs: FileSystem, drawn: Seed) returns (r: Outcome<Error>)
      modifies this, fs
      ensures var e := Ensure(old(fs.files), fs.creationMode, Slot(), crypto, drawn);
        if e.Ok? then
          r == Pass && privateKey == Some(e.value.seed) && fs.files == e.value.files && Valid()
        else
          r == Fail(e.error) && privateKey == old(privateKey) && publicKey == old(publicKey) &&
          fs.files == old(fs.files)
    {
      if fs.Exists(RecoveryPath()) {
        r := LoadRecoveryKey(fs);
      } else {
        GenerateRecoveryKey(fs, drawn);
        r := Pass;
      }
    }

    /** `_generate_recovery_key`: the private key only, made read-only. */
    method GenerateRecoveryKey(fs: FileSystem, drawn: Seed)
      modifies this, fs
      ensures privateKey == Some(drawn) && Valid()
      ensures fs.files == Generated(old(fs.files), fs.creationMode, Slot(), drawn, crypto.publicKeyOf(drawn))
    {
      privateKey := Some(drawn);
      publicKey := Some(crypto.publicKeyOf(drawn));
      fs.WriteBytes(RecoveryPath(), PrivateKeyPem(drawn));
      fs.Chmod(RecoveryPath(), OwnerReadOnly);
    }

    /** `_load_recovery_key`. */
    method LoadRecoveryKey(fs: FileSystem) returns (r: Outcome<Error>)
      modifies this
      ensures var l := Load(fs.files, RecoveryPath());
        if l.Ok? then r == Pass && privateKey == Some(l.value) && Valid()
        else r == Fail(l.error) && privateKey == old(privateKey) && publicKey == old(publicKey)
    {
      var bytes := fs.ReadBytes(RecoveryPath());
      match bytes
      case Err(e) =>
        r := Fail(e);
      case Ok(content) =>
        if content.PrivateKeyPem? {
          privateKey := Some(content.seed);
          publicKey := Some(crypto.publicKeyOf(content.seed));
          r := Pass;
        } else {
          r := Fail(InvalidKeyFile(RecoveryPath()));
        }
    }

    /** `sign` with the recovery key. */
    function Sign(payload: Json): (r: Result<string, Error>)
      reads this
      ensures r.Err? <==> privateKey.None?
      ensures r.Err? ==> r.error == NoRecoveryKeyLoaded
      ensures r.Ok? ==> r.value == SignatureOf(crypto, privateKey.value, payload)
    {
      SignWith(crypto, privateKey, payload, NoRecoveryKeyLoaded)
    }

    /** `generate_rotation_proof`: exactly the keys `new_public_key`,
        `timestamp`, `nonce` (32 hex digits) and `signature`, where the
        signature covers the other three. `now` is `int(time.time())` and
        `nonce` the 16 random bytes of `token_hex(16)`. */
    method GenerateRotationProof(newPublicKey: string, now: int, nonce: Bytes16) returns (r: Result<Json, Error>)
      ensures r.Err? <==> privateKey.None?
      ensures r.Err? ==> r.error == NoRecoveryKeyLoaded
      ensures r.Ok? ==> (r.value.JObj? &&
        Keys(r.value.fields) == ["new_public_key", "timestamp", "nonce", "signature"] &&
        Remove(r.value.fields, "signature") == RotationPayload(newPublicKey, now, nonce) &&
        SignedUnder(crypto, privateKey.value, r.value.fields, "signature"))
      ensures r.Ok? ==> (Get(r.value.fields, "nonce").Some? && Get(r.value.fields, "nonce").value.JStr? &&
        |Get(r.value.fields, "nonce").value.s| == 32)
    {
      var proof := RotationPayload(newPublicKey, now, nonce);
      var signature := Sign(JObj(proof));
      if signature.Err? {
        return Err(signature.error);
      }
      RotationProofSigned(crypto, privateKey.value, newPublicKey, now, nonce);
      RotationNonce(newPublicKey, now, nonce, signature.value);
      proof := Put(proof, "signature", JStr(signature.value));
      r := Ok(JObj(proof));
    }

    /** `generate_revocation_proof`: the six-field payload with `proof`, the
        signature of that payload, added last. */
    function RevocationProof(handle: string, reason: string, now: int, nonce: Bytes16): (r: Result<Json, Error>)
      reads this
      ensures r.Err? <==> privateKey.None?
      ensures r.Err? ==> r.error == NoRecoveryKeyLoaded
      ensures r.Ok? ==> (r.value.JObj? &&
        Keys(r.value.fields) == ["v", "handle", "action", "reason", "timestamp", "nonce", "proof"] &&
        Remove(r.value.fields, "proof") == RevocationPayload(handle, reason, now, nonce) &&
        SignedUnder(crypto, privateKey.value, r.value.fields, "proof"))
    {
      var payload := RevocationPayload(handle, reason, now, nonce);
      match Sign(JObj(payload))
      case Err(e) => Err(e)
      case Ok(signature) =>
        RevocationProofSigned(crypto, privateKey.value, handle, reason, now, nonce);
        Ok(JObj(Put(payload, "proof", JStr(signature))))
    }
  }

  /** As path text, no recovery key path is ever a signing key or public key
      path in the default directory. Paths are not resolved: a name holding
      `../` can still lead both to the same file on disk. */
  lemma RecoveryStoredApart(recoveryName: string, identityName: string)
    ensures PathJoin(RecoveryKeyDir, recoveryName + ".key") != PathJoin(DefaultKeyDir, identityName + ".key")
    ensures PathJoin(RecoveryKeyDir, recoveryName + ".key") != PathJoin(DefaultKeyDir, identityName + ".pub")
  {
    assert PathJoin(RecoveryKeyDir, recoveryName + ".key")[8] == 'r';
    assert PathJoin(DefaultKeyDir, identityName + ".key")[8] == 'k';
    assert PathJoin(DefaultKeyDir, identityName + ".pub")[8] == 'k';
  }
}
