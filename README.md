# AIRC identity and client core, in Dafny

This project models the identity and request-building core of the AIRC
Python client (`airc/identity.py` and `airc/client.py`). AIRC agents sign
their requests to a registry with Ed25519 keys.

- An `Identity` owns the agent's signing key. It starts with no key loaded.
  `ensure_keypair` loads `<key_dir>/<name>.key`, or generates a key and writes
  it with mode 0o600, with the public key in `<name>.pub` beside it.
  `sign` signs the canonical JSON text of a payload, and `fingerprint` is the
  first 16 hex digits of the public key's SHA-256 digest.
- A `RecoveryKey` owns a second key, always stored as
  `~/.airc/recovery/<name>.key` with mode 0o400 and no public key file. It
  signs key-rotation and revocation proofs.
- The canonical text is Python's `json.dumps` with sorted keys, `,` and `:`
  separators and ASCII escaping, encoded as UTF-8. The central theorem
  (`Json.CanonicalOrderIndependent`) is that this text does not depend on the
  order in which an object's keys were inserted, at any nesting level.
  So two payloads with the same entries always get the same signature.
- The `Client` normalises the registry URL and builds the four requests
  (register, heartbeat, send, poll). Its `_post` adds the signature and
  identity headers exactly when request signing is on.

How the outside world is modelled:

- Ed25519, SHA-256 and base64 are function values in `Crypto.Primitives`.
  Every result holds for every choice of them.
- The file system is a `FileSystem` object holding a map from path to
  (contents, mode). PEM files are represented by the key they encode.
- The clock and the random nonce and key are method parameters:
  `now` is `int(time.time())`, `nonce` is the 16 bytes behind `token_hex(16)`,
  and `drawn` is the key `generate()` would return.
- The HTTP exchange is a `Transport` function from request to decoded
  answer or `AIRCError`.

Modules, bottom up:

- `Base`: option and result types, bytes, and the exceptions raised.
- `Text`: hex, decimal text, and `lstrip`/`rstrip`.
- `Dict`: Python dicts as insertion-ordered pair lists.
- `JsonString`: string literals with `ensure_ascii`.
- `Json`: values, `json.dumps`, sorting, the order-independence theorem, UTF-8.
- `Crypto`: the primitive parameters.
- `FileStore`: the file system.
- `KeyStore`: the generate-or-load rule as a function.
- `AircIdentity`: the `Identity` and `RecoveryKey` classes and the proofs they
  build.
- `AircClient`: the client.

Points where the model follows behaviour of the code that its comments or
names might lead a reader not to expect:

- `fingerprint` has no not-loaded guard (airc/identity.py:125-131). With no
  key it fails with `AttributeError` on `None`, modelled as
  `Error.AttributeError`.
- `register` sends the public key as plain base64 with no `ed25519:` tag
  (airc/client.py:55), although the rotation docstring writes new public keys
  as `ed25519:...` (airc/identity.py:214).
- The revocation payload's version key is `v` (airc/identity.py:240).
- The not-loaded errors are `ValueError` with the messages the code raises
  (airc/identity.py:59, 116, 158, 200). Loading a missing key file fails in
  `read_bytes` with `FileNotFoundError` (airc/identity.py:99, 191), and loading
  an unparsable one fails in `load_pem_private_key` (airc/identity.py:100,
  192), modelled as `InvalidKeyFile`.

## Model

| member | source | states |
|---|---|---|
| Json.CanonicalOrderIndependent | airc/identity.py:118-120 | Two payloads with the same entries under every key, whatever their insertion order at any level, have the same sorted-key, no-whitespace JSON text |
| Json.Dumps | airc/identity.py:119 | Definition used by the other contracts: `json.dumps` of a value under a format (key sorting and separators); `Json.DumpsPrintable` and `Json.CanonicalOrderIndependent` state its properties |
| Json.SortByKey | airc/identity.py:119 | `sort_keys` reorders the entries without adding, dropping or repeating any: the result has the same multiset of entries; `Json.SortByKeySorted` proves it sorted |
| Json.Utf8Encode | airc/identity.py:120 | Definition used by the other contracts: `.encode('utf-8')` one character at a time; `Json.Utf8Ascii` states what it gives on ASCII text |
| Json.CanonicalMessageOrderIndependent | airc/identity.py:119-120 | The UTF-8 bytes handed to Ed25519 are the same for two such payloads |
| Json.CanonicalMessage | airc/identity.py:119-120 | The signed message has one byte per character of the canonical text, equal to that character's code |
| Json.DumpsPrintable | airc/identity.py:119 | With `ensure_ascii`, the JSON text is printable ASCII for every value and any printable separators |
| Json.Utf8Ascii | airc/identity.py:120 | UTF-8 encoding of printable ASCII text is one byte per character, the character's code |
| Json.SortByKeySorted | airc/identity.py:119 | `sort_keys` leaves the keys of a dict in strictly increasing code-point order |
| Json.SortSameElements | airc/identity.py:119 | Two entry lists with distinct keys and the same elements sort to the same list |
| Json.SortedUnique | airc/identity.py:119 | Two strictly key-sorted lists with the same elements are equal |
| Json.InsertSorted | airc/identity.py:119 | Inserting an entry with a new key into a sorted list keeps it strictly sorted |
| Json.StrLessTotal | airc/identity.py:119 | Python string order is total: distinct strings are ordered one way or the other |
| Json.StrLessTransitive | airc/identity.py:119 | Python string order is transitive |
| Json.StrLessAsymmetric | airc/identity.py:119 | Python string order is asymmetric |
| Json.StrLessIrreflexive | airc/identity.py:119 | No string is less than itself |
| Json.EquivReflexive | airc/identity.py:119 | Every dict-shaped value is equivalent to itself, so order independence covers identical payloads too |
| Json.CanonicalConcrete | airc/identity.py:119 | `{"b":1,"a":2}` and `{"a":2,"b":1}` both encode as `{"a":2,"b":1}` |
| JsonString.UnescapeEscape | airc/identity.py:119 | A string literal written with `ensure_ascii` escaping reads back as the original string, astral characters included |
| JsonString.Quote | airc/identity.py:119 | A quoted string literal is printable ASCII |
| JsonString.Escape | airc/identity.py:119 | `ensure_ascii` escaping of a string's characters gives printable ASCII; `JsonString.UnescapeEscape` proves it reads back as the original |
| Text.UnHexHex | airc/identity.py:222 | Lower-case hex text of the nonce bytes reads back as those bytes |
| Text.Hex | airc/identity.py:222 | Lower-case hex as `token_hex` and `hexdigest` write it: two hex digits per byte; `Text.UnHexHex` proves it reads back |
| Text.HexPrefix | airc/identity.py:131 | The first 2k hex digits of a digest are the hex of its first k bytes |
| Text.IntReprRoundTrip | airc/client.py:110 | The decimal text of `since` reads back as `since` |
| Text.IntRepr | airc/client.py:110 | Definition used by the other contracts: `str(int)`, never empty; `Text.IntReprRoundTrip` proves it reads back as the integer |
| Text.RStrip | airc/client.py:40 | `rstrip("/")` drops exactly the final run of `/`; the result does not end with `/` |
| Text.LStrip | airc/client.py:86 | `lstrip("@")` drops exactly the leading run of `@`; the result does not start with `@` |
| Dict.Put | airc/identity.py:225 | `d[k] = v` keeps a present key in place and appends a new one, stores `v` under `k`, leaves other keys' values alone, and keeps keys distinct |
| Dict.Get | airc/client.py:113 | `d.get(k)` is absent exactly when `k` is not a key, and otherwise a stored pair |
| Dict.RemovePut | airc/identity.py:225 | Adding a new key and then removing it gives back the dict as it was |
| Dict.PutAbsent | airc/client.py:126-127 | A key not yet present is appended at the end |
| FileStore.Written | airc/identity.py:87 | `write_bytes` replaces the contents, keeps an existing file's mode, gives a new file the creation mode, and touches no other file |
| FileStore.Chmodded | airc/identity.py:88 | `chmod` changes the mode of one existing file and nothing else |
| FileStore.FileSystem.ReadBytes | airc/identity.py:99 | Definition used by the other contracts: `read_bytes` returns the contents of an existing file and raises `FileNotFoundError` otherwise |
| FileStore.FileSystem.Exists | airc/identity.py:68 | Definition used by the other contracts: `exists` holds exactly for files in the store |
| FileStore.FileSystem.WriteBytes | airc/identity.py:87 | `write_bytes` leaves the store exactly as `FileStore.Written` describes: new contents, an existing mode kept, the creation mode for a new file, every other path unchanged |
| FileStore.FileSystem.Chmod | airc/identity.py:88 | `os.chmod` of an existing file leaves the store exactly as `FileStore.Chmodded` describes: only that file's mode changes |
| KeyStore.Load | airc/identity.py:97-103 | Loading succeeds exactly when the file holds a private key, and fails with not-found or a parse error otherwise |
| KeyStore.Generated | airc/identity.py:74-95 | Generating leaves the private key file holding the key with the slot's mode, the public key file (if any) holding the derived key, and every other file unchanged |
| KeyStore.LoadGenerated | airc/identity.py:87-103 | A key that was generated and written loads back as the same key |
| KeyStore.Ensure | airc/identity.py:66-72 | Generate-or-load fails only on an existing unparsable key file, loads without writing when the file exists, generates from the drawn key otherwise, and afterwards the file loads as the key held |
| KeyStore.EnsureIdempotent | airc/identity.py:66-72 | After a successful ensure, a second ensure with any randomness returns the same key and writes nothing |
| AircIdentity.SignWith | airc/identity.py:115-123 | Signing fails with the not-loaded error exactly when no private key is loaded, and otherwise returns the base64 Ed25519 signature of the canonical message |
| AircIdentity.SignatureOfOrderIndependent | airc/identity.py:118-123 | Payloads with the same entries in any insertion order get the same signature |
| AircIdentity.SignatureOf | airc/identity.py:118-123 | Definition used by the other contracts: base64 of the Ed25519 signature of the canonical UTF-8 message; `AircIdentity.SignatureOfOrderIndependent` states its order independence |
| AircIdentity.SignedUnderAnyOrder | airc/identity.py:225 | A receiver that removes the signature field and rebuilds the rest in any key order checks against exactly the signed message |
| AircIdentity.AddSignature | airc/identity.py:225 | Storing the signature of a record under a new key appends that key, and removing it recovers the signed record |
| AircIdentity.PublicKeyText | airc/identity.py:58-64 | The public key text fails exactly when no public key is loaded, and is otherwise the base64 of the raw key |
| AircIdentity.Derived | airc/identity.py:79 | Definition used by the other contracts: the public key held is the one derived from the private key, and is present exactly when the private key is |
| AircIdentity.KeyFilesDiffer | airc/identity.py:47-53 | The `.key` and `.pub` paths of one name are different files |
| AircIdentity.RecoveryStoredApart | airc/identity.py:150-152 | No recovery key path equals a signing key or public key path in the default key directory |
| AircIdentity.RotationProofSigned | airc/identity.py:219-226 | A signed rotation proof has exactly the keys `new_public_key`, `timestamp`, `nonce`, `signature`, and the signature covers the other three |
| AircIdentity.RotationPayload | airc/identity.py:219-223 | Definition used by the other contracts: the three unsigned rotation fields in insertion order |
| AircIdentity.RotationNonce | airc/identity.py:222 | The rotation proof's nonce is the hex text of the 16 random bytes |
| AircIdentity.RevocationProofSigned | airc/identity.py:239-252 | A signed revocation proof is the six-field payload plus `proof`, which signs exactly that payload |
| AircIdentity.RevocationPayload | airc/identity.py:239-246 | Definition used by the other contracts: the six unsigned revocation fields in insertion order, version key `v` |
| AircIdentity.Identity.constructor | airc/identity.py:41-45 | The key directory defaults to `~/.airc/keys`, and no key is loaded |
| AircIdentity.Identity.KeyPath | airc/identity.py:47-49 | Definition used by the other contracts: `<key_dir>/<name>.key` |
| AircIdentity.Identity.PublicKeyPath | airc/identity.py:51-53 | Definition used by the other contracts: `<key_dir>/<name>.pub`; `AircIdentity.KeyFilesDiffer` proves it differs from the key path |
| AircIdentity.Identity.Slot | airc/identity.py:47-53 | The private key lives in `<key_dir>/<name>.key` with mode 0o600, and the public key in `<key_dir>/<name>.pub`, a different file |
| AircIdentity.Identity.PublicKeyBase64 | airc/identity.py:55-64 | Fails with "No keypair loaded" exactly when no key is loaded; otherwise the base64 of the raw public key |
| AircIdentity.Identity.EnsureKeypair | airc/identity.py:66-72 | Follows the generate-or-load rule. On success both key fields hold the resulting key, with the public key derived from the private one. On failure neither fields nor files change |
| AircIdentity.Identity.GenerateKeypair | airc/identity.py:74-95 | Sets both key fields to the new key, writes the private key with mode 0o600, and writes the public key |
| AircIdentity.Identity.LoadKeypair | airc/identity.py:97-103 | Loads the parsed key and its derived public key, or raises and changes nothing |
| AircIdentity.Identity.Sign | airc/identity.py:105-123 | Fails with "No keypair loaded" exactly when no key is loaded; otherwise the signature of the canonical message |
| AircIdentity.Identity.Fingerprint | airc/identity.py:125-131 | 16 lower-case hex digits, the hex of the first 8 digest bytes of the public key. It depends on nothing but the public key, and fails with `AttributeError` when no key is loaded |
| AircIdentity.RecoveryKey.constructor | airc/identity.py:145-148 | Takes no directory, and no key is loaded |
| AircIdentity.RecoveryKey.RecoveryPath | airc/identity.py:150-152 | Definition used by the other contracts: `~/.airc/recovery/<name>.key` |
| AircIdentity.RecoveryKey.Slot | airc/identity.py:150-152 | Only `~/.airc/recovery/<name>.key` with mode 0o400, and no public key file |
| AircIdentity.RecoveryKey.PublicKeyBase64 | airc/identity.py:154-163 | Fails with "No recovery key loaded" exactly when no key is loaded; otherwise the base64 of the raw public key |
| AircIdentity.RecoveryKey.EnsureRecoveryKey | airc/identity.py:165-171 | Follows the generate-or-load rule on the recovery slot. On success both key fields hold the key; on failure nothing changes |
| AircIdentity.RecoveryKey.GenerateRecoveryKey | airc/identity.py:173-187 | Sets both key fields, writes only the private key, and makes it read-only |
| AircIdentity.RecoveryKey.LoadRecoveryKey | airc/identity.py:189-195 | Loads the parsed key and its derived public key, or raises and changes nothing |
| AircIdentity.RecoveryKey.Sign | airc/identity.py:197-207 | Fails with "No recovery key loaded" exactly when no key is loaded; otherwise the signature of the canonical message |
| AircIdentity.RecoveryKey.GenerateRotationProof | airc/identity.py:209-226 | Fails exactly when no key is loaded. Otherwise the result has exactly the four keys in order, removing `signature` gives the three-field payload, the signature covers that payload, and the nonce is 32 characters |
| AircIdentity.RecoveryKey.RevocationProof | airc/identity.py:228-252 | Fails exactly when no key is loaded. Otherwise the result has the seven keys in order, removing `proof` gives the six-field payload, and `proof` signs that payload |
| AircClient.Client.constructor | airc/client.py:33-43 | The registry loses every trailing `/`, signing is off by default, the identity is a new one for the name in the default directory, and nothing is registered |
| AircClient.Client.PostRequest | airc/client.py:115-129 | URL `registry + endpoint`, body the default `json.dumps` text as UTF-8, and `Content-Type: application/json`. The signature and identity headers are present exactly when signing is on, holding the payload's signature and the name. With signing on and no key, the not-loaded error |
| AircClient.Client.Post | airc/client.py:115-133 | `_post` sends exactly that request, or raises the signing error before sending |
| AircClient.RegisterPayload | airc/client.py:53-56 | Definition used by the other contracts: `{name, publicKey}` in insertion order |
| AircClient.HeartbeatPayload | airc/client.py:68-72 | Definition used by the other contracts: `{action: "heartbeat", username, status}` in insertion order |
| AircClient.SendPayload | airc/client.py:88-93 | Definition used by the other contracts: `{from, to, type, text}` in insertion order |
| AircClient.SigningHeaders | airc/client.py:120-127 | Adding the two signing headers to the content-type header yields the three headers in that order |
| AircClient.Client.PostBodyIsAscii | airc/client.py:118 | The request body has one byte per character of the JSON text |
| AircClient.Client.Register | airc/client.py:45-60 | Ensures the key first, so it never hits the not-loaded error. It posts `{name, publicKey}` with the plain base64 key. It becomes registered exactly when the post returned, and a failing ensure changes nothing |
| AircClient.Client.Heartbeat | airc/client.py:62-73 | Posts `{action: "heartbeat", username, status}` to `/api/presence`, status "available" unless given |
| AircClient.Client.Send | airc/client.py:75-94 | Posts `{from, to, type, text}` to `/api/messages` with the recipient's leading `@`s removed, type "text" unless given |
| AircClient.RecipientIgnoresAts | airc/client.py:86 | However many `@` precede a recipient, the message goes to the same name |
| AircClient.Client.Poll | airc/client.py:96-113 | A GET of the poll URL, answered by the response's `messages`, `[]` when absent, and `AttributeError` when the answer is not an object |
| AircClient.Client.PollUrlCarriesSince | airc/client.py:108-110 | The poll URL starts with `registry/api/messages?to=name`. It carries `&since=` plus the decimal text of `since` exactly when `since` is given and nonzero, and that text reads back as `since` |
| AircClient.Client.PollUrl | airc/client.py:108-110 | Definition used by the other contracts: the poll URL, with `&since=` appended when `since` is truthy; `AircClient.Client.PollUrlCarriesSince` states its shape |
| AircClient.MessagesOf | airc/client.py:113 | Definition used by the other contracts: `get("messages", [])` on the decoded answer, failing when the answer is not an object |
| AircClient.Dispatch | airc/client.py:129-133 | Definition used by the other contracts: a request that was built is sent, and a failure to build it is raised before anything is sent |

## Left out

- Ed25519 key generation, signing and public-key derivation, SHA-256 and base64 are not computed. They are parameters (`Crypto.Primitives`), so no property depends on what they compute.
- PEM and PKCS#8 serialisation is represented by the key a file holds. A PEM file with a private key of another algorithm, which `load_pem_private_key` would accept, is treated as unparsable.
- Directory creation (`mkdir(parents=True, exist_ok=True)`) and home-directory expansion are not modelled. Directories are implicit, `~` stands for the home directory, and paths are plain text joined with `/`, with no normalisation.
- File-system failures other than a missing file are not modelled, such as a permission error when rewriting a read-only recovery key through `_generate_recovery_key`, or a partial write.
- `time.time()`, `secrets.token_hex` and the randomness of `generate()` are parameters (`now`, `nonce`, `drawn`), because they are nondeterministic.
- `urlopen`, the 30-second timeout, decoding of the answer, `_get`'s error handling and the `HTTP <code>: <body>` message of `AIRCError` all belong to the `Transport` parameter.
- urllib's capitalisation of header names (`Content-type`, `X-airc-signature`) is not modelled. Headers are kept as the code writes them.
- Lone surrogates (U+D800 to U+DFFF), which a Python `str` may hold and `json.dumps` writes as `\udXXX`, are not modelled: a Dafny `char` cannot hold one, so such payloads lie outside `JsonString.EscapeChar`.
- Text.IntRepr is total, whereas Python 3.11 and later raise `ValueError` when `json.dumps` or `str()` converts an integer of more than 4300 digits. Timestamps and `since` values never come near that limit.
- Floating-point JSON values are not part of `Json.Json`. The payloads built here hold only strings and integers, and the answers a `Transport` returns are assumed to hold none either, although a real registry answer (a message timestamp passed through by `poll`, say) may. A decoded object is also assumed to have distinct keys, as a dict from `json.loads` does.
- AircClient.Client.Poll: the name and `since` go into the URL without percent-encoding, as in the code. Nothing is proved about names that contain `&` or `=`.
- AircIdentity.RecoveryKey.RevocationProof is a function of the current key rather than a method, because the source builds a new dict and changes nothing.
- AircIdentity.Identity.Fingerprint, AircIdentity.Identity.PublicKeyBase64: a public key without a private key cannot occur (`Valid`), so the guards on the two fields coincide.
- `airc/__init__.py` (re-exports only) and `test_rotation.py` (a networked script against APIs absent from this client) are not part of this model.
