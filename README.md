# Embedded Algorand wallet: a Dafny model of the `Wallet` class

This project models the `Wallet` class of `packages/embedded-algo-wallet/src/main.ts` and proves properties of the model.
The wallet keeps one Algorand account in the browser:

- **The record.** An `AlgoAccount` record holds the address, the account's secret key and a random salt. The key is stored as the CryptoJS AES ciphertext of its base64 text. The salt is 12 random octets in base64.
- **The store.** The record sits in an IndexedDB object store `keyval` under the key `acct`, and `startup` loads it from there.
- **The token.** `createAcct` derives a token from the password, `hashPassword` = base64(SHA-256(UTF-8(password))). It encrypts under `token + salt`, writes the record and returns the token.
- **Access.** `getToken` turns a password back into a token. `decryptKey` decrypts the key for a token. Both refuse when the decrypted plaintext is not 88 octets long.
- **Using the key.** `exportAcct` returns the mnemonic of the key's 32-octet seed. `signTxn` signs a list of transactions with the decrypted key.
- **Clearing.** `clearAcct` forgets the record and empties the store.

Files:
- `prelude.dfy`, module `Prelude`: octets and `Option`.
- `base64.dfy`, module `Base64`: a Node-compatible `Buffer`'s `toString("base64")` (the padded encoding of section 4 of RFC 4648) and `Buffer.from(s, "base64")`. It proves the length `4 * ceil(n / 3)` and that decoding undoes encoding.
- `utf8.dfy`, module `Utf8`: UTF-8 (RFC 3629) as `TextEncoder`, CryptoJS `Utf8.parse` and CryptoJS `Utf8.stringify` use it. It proves that decoding undoes encoding for every string, and that ASCII text is encoded octet for octet.
- `wallet.dfy`, module `AlgoWallet`:
  - the record, the errors and the library calls;
  - the store as a class `Store`, whose `entries` map is shared by every `Wallet` built on it;
  - the class `Wallet`;
  - the lemmas relating its operations.

How the model is built:

- **Imperative operations.** `startup`, `createAcct`, `getAcctInfo` and `clearAcct` change `acct`, `acctInfo` and the store. They are methods of `Wallet`, and their `ensures` state the whole new state.
- **Pure operations.** `getToken`, `decryptKey`, `exportAcct` and `signTxn` only read `this.acct`. They are functions of `Wallet` that return a `Result`: every `throw` in the source, and every TypeError on a missing `this.acct`, becomes an `Err`. Being functions, they cannot change `acct` or the store.
- **The ledger log.** The ghost field `lookups` records every address the wallet asks the ledger about. This makes "no account-information fetch" something a contract can state.
- **Library calls.** Cryptography and algosdk are the function fields of a `Primitives` value. A library call that can throw returns `None`. What the wallet relies on them for is stated as hypotheses, which the lemmas take as `requires`:
  - `CipherRoundTrip`: AES decryption under the same passphrase gives back the message;
  - `DigestIs256Bits`;
  - `MnemonicKeysAre512Bits`;
  - `SeedsEncode`;
  - `KeysSign`.

What the code does, and does not do, for the security of the key:

- **No session key, no lock state.**
  - The code keeps no derived key in memory and has no lock state or `lock` operation.
  - `createAcct` returns the token to the caller, and the caller passes it back to `signTxn`.
  - `signTxn` signs every transaction; there is no selection by index.
- **Length check, not authentication.**
  - Wrong passwords are detected by the plaintext-length check (`sigBytes !== 88`), not by authenticated decryption.
  - `LengthCheckAdmitsOtherPasswords` shows that this check is not authentication. A cipher that meets the round-trip hypothesis can still let `getToken` accept every password.
  - The property "a wrong password fails" is therefore not proved. It does not follow from the code.
- **Fast key derivation.** The token is one SHA-256 of the password, with no slow or salted step. The AES key is then derived by CryptoJS's own passphrase key derivation from `token + salt` (the 12-octet salt appended as base64 text) and a random salt CryptoJS draws itself and keeps inside the ciphertext. The record has no separate nonce.
- **Network failure is fatal after the write.** The account-information refresh is not best-effort. When the request is rejected, `startup` and `createAcct` reject too, and `createAcct` has then already written the record and does not return the token.
- **Record type.** `dbWallet.ts` declares the stored value with `keyData`/`iv` fields. The record actually stored is `AlgoAccount` (`addr`, `sk`, `salt`), which is what the model uses.

## Model

| member | source | states |
|---|---|---|
| `AlgoWallet.Wallet.constructor` | packages/embedded-algo-wallet/src/main.ts:20-32 | a new wallet has no record and no account information, has asked the ledger nothing, and uses the given store |
| `AlgoWallet.Wallet.GetAcctInfo` | packages/embedded-algo-wallet/src/main.ts:34-36 | with a record: one ledger lookup of its address, and `acctInfo` is set to the reply, or the call fails with `NetworkFailure` and `acctInfo` is unchanged; without one: a TypeError and nothing changes |
| `AlgoWallet.Wallet.Startup` | packages/embedded-algo-wallet/src/main.ts:38-41 | `acct` becomes the store's `acct` entry, or absent; only when there is a record is its address looked up; when the store is empty, no lookup is made and `acctInfo` is unchanged; afterwards the record in memory mirrors the store |
| `AlgoWallet.Wallet.CreateAcct` | packages/embedded-algo-wallet/src/main.ts:43-65 | declined overwrite: returns nothing and changes neither fields nor store; a mnemonic that does not decode: fails with nothing changed; otherwise `acct` is `{addr, encrypt(UTF-8(base64(sk)), token + salt), salt}` with the key pair from a non-empty mnemonic or else the generated one, a 16-character salt and `token = hashPassword(password)`, the identical record is written under "acct", the address is looked up, and the token is returned unless the lookup fails; mirroring of memory and store is preserved |
| `AlgoWallet.Wallet.GetToken` | packages/embedded-algo-wallet/src/main.ts:67-72 | fails with "Incorrect Password" exactly when decrypting under the password's token + salt does not give 88 octets, fails with a TypeError without a record, and otherwise returns `hashPassword(password)` |
| `AlgoWallet.Wallet.DecryptKey` | packages/embedded-algo-wallet/src/main.ts:74-79 | fails with "Incorrect Token" exactly when the plaintext is not 88 octets, with the UTF-8 error exactly when 88 octets are not UTF-8, with a TypeError without a record, and with no other error; otherwise returns the base64 decoding of the plaintext's text |
| `AlgoWallet.Wallet.ExportAcct` | packages/embedded-algo-wallet/src/main.ts:81-89 | "No Account Exists" exactly without a record, before any password work; "Incorrect Password" exactly when the length check fails; the UTF-8 error exactly when the 88 octets are not UTF-8; the seed error exactly when `mnemonicFromSeed` rejects the first 32 octets of the decrypted key; no other error, never "Incorrect Token" or a TypeError; otherwise the mnemonic of those 32 octets |
| `AlgoWallet.Wallet.SignTxn` | packages/embedded-algo-wallet/src/main.ts:91-95 | fails with decryptKey's error when it fails; when the key decrypts, succeeds exactly when every signature succeeds and otherwise fails only with the signing error; on success one signed transaction per input, in order, each signed with the decrypted key |
| `AlgoWallet.Wallet.ClearAcct` | packages/embedded-algo-wallet/src/main.ts:97-101 | `acct` and `acctInfo` are absent, the store is empty, no ledger lookup |
| `AlgoWallet.Stored` | packages/embedded-algo-wallet/src/main.ts:39 | `get("keyval", "acct")` gives the entry under "acct" exactly when there is one, and nothing otherwise |
| `AlgoWallet.HashPassword` | packages/embedded-algo-wallet/src/main.ts:104-109 | the token is base64 text, ASCII, of length `4 * ceil(d / 3)` for a d-octet digest; its main proved property is `TokenIsFortyFourChars` |
| `AlgoWallet.ChosenKeyPair` | packages/embedded-algo-wallet/src/main.ts:51-53 | a present, non-empty mnemonic is decoded with `mnemonicToSecretKey`; an absent or empty (falsy) one selects the generated key pair |
| `AlgoWallet.Seal` | packages/embedded-algo-wallet/src/main.ts:57-61 | the record keeps the key pair's address and the given salt, and under the cipher round trip its ciphertext decrypts under `token + salt` to the UTF-8 of the base64 of the secret key |
| `AlgoWallet.Wallet.Plaintext` | packages/embedded-algo-wallet/src/main.ts:69 | the decryption of the record under `token + salt` (also main.ts:75); under the cipher round trip it is the message whenever the record's ciphertext encrypts that message under the same passphrase |
| `AlgoWallet.SignAll` | packages/embedded-algo-wallet/src/main.ts:93 | succeeds exactly when every signature succeeds; then as many results as transactions, the i-th being the signature of the i-th transaction; otherwise a signing error |
| `AlgoWallet.Subarray` | packages/embedded-algo-wallet/src/main.ts:87 | `subarray(0, n)` is a prefix of the key, of length n or the key's length when shorter |
| `AlgoWallet.SaltIsSixteenChars` | packages/embedded-algo-wallet/src/main.ts:54-55 | 12 random octets in base64 are 16 characters |
| `AlgoWallet.TokenIsFortyFourChars` | packages/embedded-algo-wallet/src/main.ts:104-109 | the token, the base64 text of a 32-octet digest, is 44 characters |
| `AlgoWallet.SealedKeyIsEightyEightBytes` | packages/embedded-algo-wallet/src/main.ts:57-60 | the message encrypted for a 64-octet secret key is 88 octets: the constant of both length checks |
| `AlgoWallet.SealedKeyReadsBack` | packages/embedded-algo-wallet/src/main.ts:77 | that message reads back, as UTF-8 and then as base64, to the secret key |
| `AlgoWallet.CreatedAccountOpens` | packages/embedded-algo-wallet/src/main.ts:67-79 | under the cipher round trip, a record sealed by createAcct opens with its password: getToken returns the token, decryptKey with it the 64-octet secret key |
| `AlgoWallet.CreatedAccountExports` | packages/embedded-algo-wallet/src/main.ts:81-88 | exporting such a record gives the mnemonic of the first 32 octets of its secret key |
| `AlgoWallet.CreatedAccountSigns` | packages/embedded-algo-wallet/src/main.ts:91-94 | signing with its token succeeds and signs every transaction, in order, with its secret key |
| `AlgoWallet.ChosenKeyIs512Bits` | packages/embedded-algo-wallet/src/main.ts:51-53 | the key pair createAcct seals, from the mnemonic or generated, has a 64-octet secret key |
| `AlgoWallet.LengthCheckAdmitsOtherPasswords` | packages/embedded-algo-wallet/src/main.ts:69-70 | the length check is not authentication: a key-ignoring cipher meets the round-trip hypothesis, and under it getToken accepts every password |
| `AlgoWallet.CreateThenOpen` | packages/embedded-algo-wallet/src/main.ts:43-72 | after a successful createAcct, getToken with the same password returns the token createAcct returned, and decryptKey with it returns the sealed key |
| `AlgoWallet.RestartAfterCreate` | packages/embedded-algo-wallet/src/main.ts:38-62 | a fresh wallet started on the same store after createAcct loads the same record as the first wallet holds, whatever createAcct returned, and after a new account exactly the record sealing its key pair under the password's token and the salt, so `CreatedAccountOpens` applies to it |
| `AlgoWallet.RestartAfterClear` | packages/embedded-algo-wallet/src/main.ts:97-101 | a fresh wallet started on the same store after clearAcct has no record and no account information, and makes no ledger lookup |
| `Base64.Encode` | packages/embedded-algo-wallet/src/main.ts:55 | `toString("base64")` (also main.ts:58 and 107): the symbols the decoder reads back from an encoding are exactly the octets' sextets; its length and round trip are `EncodeLength` and `DecodeEncode` |
| `Base64.Decode` | packages/embedded-algo-wallet/src/main.ts:77 | `Buffer.from(s, "base64")`: reads the symbols of either alphabet up to the first '=', skipping every other character, and gives `floor(3k / 4)` octets for the k symbols read |
| `Base64.Sextets` | packages/embedded-algo-wallet/src/main.ts:58 | the sextets of n octets are `ceil(4n / 3)` values below 64 |
| `Base64.EncodeLength` | packages/embedded-algo-wallet/src/main.ts:55 | base64 of n octets is `4 * ceil(n / 3)` characters (section 4 of RFC 4648) |
| `Base64.EncodeIsAscii` | packages/embedded-algo-wallet/src/main.ts:58 | every character of an encoding is ASCII |
| `Base64.DecodeEncode` | packages/embedded-algo-wallet/src/main.ts:77 | `Buffer.from(toString("base64"), "base64")` gives back the octets |
| `Utf8.Encode` | packages/embedded-algo-wallet/src/main.ts:106 | `TextEncoder.encode` (also CryptoJS's parsing of the message at main.ts:57-58): between one and four octets per character |
| `Utf8.Decode` | packages/embedded-algo-wallet/src/main.ts:77 | `toString(CryptoJS.enc.Utf8)`: strict, so whatever it accepts is exactly the UTF-8 encoding of the text it returns |
| `Utf8.EncodeChar` | packages/embedded-algo-wallet/src/main.ts:106 | a code point takes one to four octets, exactly one when it is ASCII |
| `Utf8.DecodeEncode` | packages/embedded-algo-wallet/src/main.ts:77 | decoding the UTF-8 encoding of any string gives back the string |
| `Utf8.EncodeAscii` | packages/embedded-algo-wallet/src/main.ts:57-58 | ASCII text is encoded octet for octet, same length |

## Left out

- **The constructor's network choice and the `Algodv2` client.** The constructor picks a network by name and builds an `Algodv2` client; both are network configuration. `accountInformation` is modelled only by its answer, the `reply` parameter (`None` is a rejected request). `acctInfo` is opaque.
- **Cryptography and algosdk.** SHA-256, CryptoJS AES, `generateAccount`, `mnemonicToSecretKey`, `mnemonicFromSeed` and `signTransaction` are not computed. They are the fields of `Primitives`, and only the stated hypotheses are assumed about them. `generateAccount()` is modelled by its result `generated`.
- **Randomness.** `crypto.getRandomValues` and CryptoJS's internal salt are the parameters `saltBytes` (12 octets) and `cipherSalt`.
- `AlgoWallet.Wallet.CreateAcct`: requires `saltBytes` to be 12 octets, because `crypto.getRandomValues` fills a 12-octet array. This is a fact about the runtime, not a demand on callers.
- **Store failures.** `get`, `set` and `clear` are modelled as never failing. In the source, `createAcct` assigns `this.acct` before `await set(...)`, so a rejected write would leave memory and store out of step; that case is not modelled.
- **The `confirm()` prompt.** It is the boolean `confirmed`, consulted only when a record is loaded.
- **Asynchrony.** Operations run to completion one after another. The un-awaited `clear("keyval")` in `clearAcct` is treated as finishing before `clearAcct` returns, so interleavings with a pending clear are not modelled.
- **`dbWallet.ts`.** The store is only the `entries` map of `Store`. The unused `getAll`, `del` and `keys` and the IndexedDB upgrade are not modelled. `JSON.parse(JSON.stringify(...))` of a record of three strings is the identity and is not modelled either.
- **Deterministic decryption.** `Primitives.decrypt` is a function, so decrypting the same ciphertext under the same passphrase always gives the same octets; `getToken` and `decryptKey` inside `exportAcct` therefore agree. This holds for the salted ciphertexts (with the `Salted__` header) that `createAcct` writes. CryptoJS draws a fresh random salt when decrypting a ciphertext without that header, and for such a stored record the model's claim that `exportAcct` never fails with "Incorrect Token" is not promised.
- **Negative `sigBytes`.** CryptoJS's `sigBytes` can be negative after a decryption with the wrong key. Decryption is modelled as its significant octets, a sequence whose length stands for `sigBytes`. Every outcome other than 88 is handled alike, so nothing the wallet does is lost.
- **Lone surrogates.** JavaScript strings can contain lone surrogates, and Dafny strings have none. Passwords and mnemonics are therefore the strings of Unicode scalar values.
- **Malformed base64.** `Base64.Decode` follows the lenient rule of Node's `Buffer` decoder, which a Node-compatible `Buffer` in the browser is taken to share: symbols of either alphabet are read, other characters are skipped, and reading stops at the first '='. Only the decoding of canonical encodings is proved.
- `rollup.config.mjs`: build configuration.
