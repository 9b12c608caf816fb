/** The generate-or-load rule shared by signing keys and recovery keys, as a
    function of the files before the call: when the private key file exists
    it is read and parsed, otherwise a new key is written to it, its mode is
    set, and (for signing keys) the public key file is written beside it. */
module KeyStore {
  import opened Base
  import opened Crypto
  import opened FileStore

  /** Where one key object keeps its material: the private key file, the
      public key file when there is one, and the mode of the private key. */
  datatype KeySlot = KeySlot(keyPath: Path, publicPath: Option<Path>, keyMode: nat)

  /** The two files of a slot are different files. */
  predicate Separate(slot: KeySlot) {
    slot.publicPath != Some(slot.keyPath)
  }

  /** `read_bytes` then `load_pem_private_key`: the key, FileNotFoundError
      when the file is missing, and a parse error for any other contents. */
  function Load(files: Files, p: Path): (r: Result<Seed, Error>)
    ensures r.Ok? <==> p in files && files[p].content.PrivateKeyPem?
    ensures r.Ok? ==> files[p].content == PrivateKeyPem(r.value)
    ensures r.Err? ==> r.error == if p in files then InvalidKeyFile(p) else FileNotFound(p)
  {
    if p !in files then Err(FileNotFound(p))
    else match files[p].content
      case PrivateKeyPem(seed) => Ok(seed)
      case _ => Err(InvalidKeyFile(p))
  }

  /** The files after `_generate_*` has written the key `seed` and its public
      key `pub`. */
  function Generated(files: Files, creationMode: nat, slot: KeySlot, seed: Seed, pub: PublicKey): (r: Files)
    requires Separate(slot)
    ensures slot.keyPath in r && r[slot.keyPath] == FileEntry(PrivateKeyPem(seed), slot.keyMode)
    ensures slot.publicPath.Some? ==>
      var pp := slot.publicPath.value;
      pp in r && r[pp] == FileEntry(PublicKeyPem(pub), if pp in files then files[pp].mode else creationMode)
    ensures r.Keys == files.Keys + {slot.keyPath} + (if slot.publicPath.Some? then {slot.publicPath.value} else {})
    ensures forall q :: q in files && q != slot.keyPath && Some(q) != slot.publicPath ==> r[q] == files[q]
  {
    var written := Written(files, creationMode, slot.keyPath, PrivateKeyPem(seed));
    var secured := Chmodded(written, slot.keyPath, slot.keyMode);
    match slot.publicPath
    case None => secured
    case Some(pp) => Written(secured, creationMode, pp, PublicKeyPem(pub))
  }

  /** A key that was just written reads back as that key. */
  lemma LoadGenerated(files: Files, creationMode: nat, slot: KeySlot, seed: Seed, pub: PublicKey)
    requires Separate(slot)
    ensures Load(Generated(files, creationMode, slot, seed, pub), slot.keyPath) == Ok(seed)
  {
  }

  /** A successful `ensure_*`: the key now held and the files afterwards. */
  datatype Ensured = Ensured(seed: Seed, files: Files)

  /** `ensure_*`: load when the key file exists, else generate from `drawn`
      (the randomness `generate()` draws). */
  function Ensure(files: Files, creationMode: nat, slot: KeySlot, crypto: Primitives, drawn: Seed): (r: Result<Ensured, Error>)
    requires Separate(slot)
    ensures r.Err? <==> slot.keyPath in files && !files[slot.keyPath].content.PrivateKeyPem?
    ensures r.Err? ==> r.error == InvalidKeyFile(slot.keyPath)
    ensures r.Ok? ==> Load(r.value.files, slot.keyPath) == Ok(r.value.seed)
    ensures slot.keyPath in files ==> r.Ok? ==> r.value.files == files && r.value.seed == files[slot.keyPath].content.seed
    ensures slot.keyPath !in files ==>
      r == Ok(Ensured(drawn, Generated(files, creationMode, slot, drawn, crypto.publicKeyOf(drawn))))
  {
    if slot.keyPath in files then
      match Load(files, slot.keyPath)
      case Ok(seed) => Ok(Ensured(seed, files))
      case Err(e) => Err(e)
    else
      LoadGenerated(files, creationMode, slot, drawn, crypto.publicKeyOf(drawn));
      Ok(Ensured(drawn, Generated(files, creationMode, slot, drawn, crypto.publicKeyOf(drawn))))
  }

  /** Generate-or-load is idempotent: once it has succeeded, a second call
      with any randomness loads the same key and writes nothing. */
  lemma EnsureIdempotent(files: Files, creationMode: nat, slot: KeySlot, crypto: Primitives, drawn: Seed, again: Seed)
    requires Separate(slot)
    requires Ensure(files, creationMode, slot, crypto, drawn).Ok?
    ensures var e := Ensure(files, creationMode, slot, crypto, drawn).value;
            Ensure(e.files, creationMode, slot, crypto, again) == Ok(e)
  {
  }
}
