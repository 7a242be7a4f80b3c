/**
 * The embedded Algorand wallet: one account record, encrypted under a token
 * derived from the user's password, kept in a browser key-value store and
 * decrypted on demand to export the account or sign transactions.
 *
 * Cryptography and algosdk are not modelled: the wallet receives them as the
 * function fields of a `Primitives` value, and what it relies on them for is
 * stated as hypotheses (`CipherRoundTrip`, ...) that the lemmas require.
 * Randomness, the overwrite prompt and the network's answer are parameters.
 */
module AlgoWallet {
  import opened Prelude
  import Base64
  import Utf8

  /** An algosdk Transaction; the wallet never looks inside one. */
  type Transaction(!new)

  /** What algosdk.signTransaction returns for one transaction. */
  type SignedTxn

  /** The account state the ledger client returns; the wallet only stores it. */
  type AccountInfo

  /** An algosdk account: its address and its secret key. */
  datatype KeyPair = KeyPair(addr: string, sk: seq<byte>)

  /**
   * The persisted record: the address, the ciphertext of the base64 text of
   * the secret key, and the base64 text of the random salt.
   */
  datatype Account = Account(addr: string, sk: string, salt: string)

  /** Every way an operation of the wallet can fail. */
  datatype Error =
    | IncorrectPassword   // getToken's length check
    | IncorrectToken      // decryptKey's length check
    | NoAccountExists     // exportAcct without a record
    | AccountUndefined    // a TypeError: getToken, decryptKey or signTxn read `this.acct.sk` with no record
    | MalformedUtf8       // CryptoJS cannot read the decrypted octets as UTF-8
    | InvalidMnemonic     // algosdk.mnemonicToSecretKey rejects the mnemonic
    | SeedRejected        // algosdk.mnemonicFromSeed rejects the seed
    | SigningFailed       // algosdk.signTransaction throws
    | NetworkFailure      // accountInformation rejects

  datatype Result<+T> = Ok(value: T) | Err(error: Error)

  /**
   * The library calls the wallet makes, each as a total function; a call that
   * can throw returns None instead.
   * - sha256: crypto.subtle.digest("SHA-256", ·)
   * - encrypt: CryptoJS.AES.encrypt(message, passphrase).toString(), given the
   *   message's UTF-8 octets, the passphrase and the random salt CryptoJS draws
   * - decrypt: CryptoJS.AES.decrypt(ciphertext, passphrase), as its significant octets
   * - fromMnemonic: algosdk.mnemonicToSecretKey
   * - mnemonicFromSeed: algosdk.mnemonicFromSeed
   * - sign: algosdk.signTransaction
   */
  datatype Primitives = Primitives(
    sha256: seq<byte> -> seq<byte>,
    encrypt: (seq<byte>, string, seq<byte>) -> string,
    decrypt: (string, string) -> seq<byte>,
    fromMnemonic: string -> Option<KeyPair>,
    mnemonicFromSeed: seq<byte> -> Option<string>,
    sign: (Transaction, seq<byte>) -> Option<SignedTxn>
  )

  /** Hypothesis: decrypting with the passphrase used to encrypt gives back the message. */
  ghost predicate CipherRoundTrip(p: Primitives)
  {
    forall m, k, r :: p.decrypt(p.encrypt(m, k, r), k) == m
  }

  /** Hypothesis: SHA-256 digests are 32 octets. */
  ghost predicate DigestIs256Bits(p: Primitives)
  {
    forall m :: |p.sha256(m)| == 32
  }

  /** Hypothesis: a key pair decoded from a mnemonic has a 64-octet secret key. */
  ghost predicate MnemonicKeysAre512Bits(p: Primitives)
  {
    forall m :: p.fromMnemonic(m).Some? ==> |p.fromMnemonic(m).value.sk| == 64
  }

  /** Hypothesis: every 32-octet seed has a mnemonic. */
  ghost predicate SeedsEncode(p: Primitives)
  {
    forall seed :: |seed| == 32 ==> p.mnemonicFromSeed(seed).Some?
  }

  /** Hypothesis: signing with a 64-octet secret key does not throw. */
  ghost predicate KeysSign(p: Primitives)
  {
    forall t, k :: |k| == 64 ==> p.sign(t, k).Some?
  }

  /** The key of the record in the object store "keyval". */
  const StoreKey: string := "acct"

  /** What `get("keyval", "acct")` returns. */
  function Stored(entries: map<string, Account>): (r: Option<Account>)
    ensures r.Some? <==> StoreKey in entries
    ensures r.Some? ==> r.value == entries[StoreKey]
  {
    if StoreKey in entries then Some(entries[StoreKey]) else None
  }

  /** hashPassword: the base64 text of the SHA-256 digest of the password's UTF-8 octets. */
  function HashPassword(p: Primitives, password: string): (token: string)
    ensures |token| == 4 * ((|p.sha256(Utf8.Encode(password))| + 2) / 3)
    ensures forall i :: 0 <= i < |token| ==> token[i] as int < 128
  {
    var digest := p.sha256(Utf8.Encode(password));
    Base64.EncodeLength(digest);
    Base64.EncodeIsAscii(digest);
    Base64.Encode(digest)
  }

  /**
   * The key pair createAcct uses: the one decoded from the mnemonic when a
   * non-empty one is given (an empty string is falsy), else the generated one.
   */
  function ChosenKeyPair(p: Primitives, mnemonic: Option<string>, generated: KeyPair): (r: Option<KeyPair>)
    ensures mnemonic.None? || mnemonic.value == "" ==> r == Some(generated)
    ensures mnemonic.Some? && mnemonic.value != "" ==> r == p.fromMnemonic(mnemonic.value)
  {
    if mnemonic.Some? && mnemonic.value != "" then p.fromMnemonic(mnemonic.value) else Some(generated)
  }

  /** The record that seals key pair k under token + salt. */
  function Seal(p: Primitives, k: KeyPair, token: string, salt: string, cipherSalt: seq<byte>): (a: Account)
    ensures a.addr == k.addr && a.salt == salt
    ensures CipherRoundTrip(p) ==> p.decrypt(a.sk, token + salt) == Utf8.Encode(Base64.Encode(k.sk))
  {
    Account(k.addr, p.encrypt(Utf8.Encode(Base64.Encode(k.sk)), token + salt, cipherSalt), salt)
  }

  /** key.subarray(0, n): the first n octets, or all of them when there are fewer. */
  function Subarray(key: seq<byte>, n: nat): (r: seq<byte>)
    ensures |r| == if |key| < n then |key| else n
    ensures r <= key
  {
    if |key| < n then key else key[..n]
  }

  /**
   * `txns.map(txn => signTransaction(txn, key))`: one signed transaction per
   * transaction, in order; the first one that throws aborts the map.
   */
  function SignAll(p: Primitives, txns: seq<Transaction>, key: seq<byte>): (r: Result<seq<SignedTxn>>)
    ensures r.Ok? <==> forall i :: 0 <= i < |txns| ==> p.sign(txns[i], key).Some?
    ensures r.Ok? ==> |r.value| == |txns|
    ensures r.Ok? ==> forall i :: 0 <= i < |txns| ==> p.sign(txns[i], key) == Some(r.value[i])
    ensures r.Err? ==> r.error == SigningFailed
  {
    if txns == [] then Ok([])
    else match p.sign(txns[0], key)
      case None => Err(SigningFailed)
      case Some(s) =>
        match SignAll(p, txns[1..], key)
        case Err(e) => Err(e)
        case Ok(rest) => Ok([s] + rest)
  }

  /** The IndexedDB object store "keyval", shared by every Wallet of the page. */
  class Store {
    var entries: map<string, Account>

    constructor (entries: map<string, Account>)
      ensures this.entries == entries
    {
      this.entries := entries;
    }
  }

  class Wallet {
    var acct: Option<Account>
    var acctInfo: Option<AccountInfo>
    /** The addresses whose account information has been requested, in order. */
    ghost var lookups: seq<string>
    const db: Store

    constructor (db: Store)
      ensures this.db == db
      ensures acct == None && acctInfo == None && lookups == []
    {
      this.db := db;
      acct := None;
      acctInfo := None;
      lookups := [];
    }

    /** The record in memory is the one in the store. */
    ghost predicate Mirrors()
      reads this, db
    {
      acct == Stored(db.entries)
    }

    /** getAcctInfo: asks the ledger about the account's address; `reply` is its answer, None a rejection. */
    method GetAcctInfo(reply: Option<AccountInfo>) returns (r: Result<()>)
      modifies this
      ensures acct == old(acct)
      ensures acct.None? ==> r == Err(AccountUndefined) && acctInfo == old(acctInfo) && lookups == old(lookups)
      ensures acct.Some? ==> lookups == old(lookups) + [acct.value.addr]
      ensures acct.Some? && reply.Some? ==> r == Ok(()) && acctInfo == reply
      ensures acct.Some? && reply.None? ==> r == Err(NetworkFailure) && acctInfo == old(acctInfo)
    {
      if acct.None? {
        return Err(AccountUndefined);
      }
      lookups := lookups + [acct.value.addr];
      if reply.None? {
        return Err(NetworkFailure);
      }
      acctInfo := reply;
      r := Ok(());
    }

    /** startup: loads the record from the store and, when there is one, fetches its account information. */
    method Startup(reply: Option<AccountInfo>) returns (r: Result<()>)
      modifies this
      ensures acct == Stored(db.entries) && Mirrors()
      ensures acct.None? ==> r == Ok(()) && acctInfo == old(acctInfo) && lookups == old(lookups)
      ensures acct.Some? ==> lookups == old(lookups) + [acct.value.addr]
      ensures acct.Some? && reply.Some? ==> r == Ok(()) && acctInfo == reply
      ensures acct.Some? && reply.None? ==> r == Err(NetworkFailure) && acctInfo == old(acctInfo)
    {
      acct := Stored(db.entries);
      if acct.Some? {
        r := GetAcctInfo(reply);
      } else {
        r := Ok(());
      }
    }

    /**
     * createAcct. `confirmed` is the user's answer to the overwrite prompt,
     * asked only when a record is loaded; `generated` is what
     * algosdk.generateAccount returns; `saltBytes` are the 12 octets of
     * crypto.getRandomValues; `cipherSalt` is the randomness of
     * CryptoJS.AES.encrypt; `reply` is the ledger's answer.
     * Ok(None) is the declined overwrite, Ok(Some(token)) a new account.
     */
    method CreateAcct(p: Primitives, password: string, mnemonic: Option<string>, confirmed: bool,
                      generated: KeyPair, saltBytes: seq<byte>, cipherSalt: seq<byte>,
                      reply: Option<AccountInfo>)
      returns (r: Result<Option<string>>)
      requires |saltBytes| == 12
      modifies this, db
      ensures old(acct).Some? && !confirmed ==>
        && r == Ok(None)
        && acct == old(acct) && acctInfo == old(acctInfo) && lookups == old(lookups)
        && db.entries == old(db.entries)
      ensures (old(acct).None? || confirmed) && ChosenKeyPair(p, mnemonic, generated).None? ==>
        && r == Err(InvalidMnemonic)
        && acct == old(acct) && acctInfo == old(acctInfo) && lookups == old(lookups)
        && db.entries == old(db.entries)
      ensures (old(acct).None? || confirmed) && ChosenKeyPair(p, mnemonic, generated).Some? ==>
        var k := ChosenKeyPair(p, mnemonic, generated).value;
        var token := HashPassword(p, password);
        var salt := Base64.Encode(saltBytes);
        && |salt| == 16
        && acct == Some(Seal(p, k, token, salt, cipherSalt))
        && db.entries == old(db.entries)[StoreKey := acct.value]
        && lookups == old(lookups) + [k.addr]
        && (reply.Some? ==> r == Ok(Some(token)) && acctInfo == reply)
        && (reply.None? ==> r == Err(NetworkFailure) && acctInfo == old(acctInfo))
      ensures r.Ok? && r.value.Some? ==> (old(acct).None? || confirmed) && ChosenKeyPair(p, mnemonic, generated).Some?
      ensures old(Mirrors()) ==> Mirrors()
    {
      if acct.Some? && !confirmed {
        return Ok(None);
      }
      var chosen := ChosenKeyPair(p, mnemonic, generated);
      if chosen.None? {
        return Err(InvalidMnemonic);
      }
      var k := chosen.value;
      var salt := Base64.Encode(saltBytes);
      SaltIsSixteenChars(saltBytes);
      var token := HashPassword(p, password);
      var sk := p.encrypt(Utf8.Encode(Base64.Encode(k.sk)), token + salt, cipherSalt);
      acct := Some(Account(k.addr, sk, salt));
      db.entries := db.entries[StoreKey := acct.value];
      var fetched := GetAcctInfo(reply);
      if fetched.Err? {
        return Err(fetched.error);
      }
      r := Ok(Some(token));
    }

    /** What CryptoJS.AES.decrypt makes of the record's ciphertext under token + salt. */
    function Plaintext(p: Primitives, token: string): (r: seq<byte>)
      reads this
      requires acct.Some?
      ensures CipherRoundTrip(p) ==>
        forall m, cs :: acct.value.sk == p.encrypt(m, token + acct.value.salt, cs) ==> r == m
    {
      p.decrypt(acct.value.sk, token + acct.value.salt)
    }

    /** getToken: the password's token, when decrypting under it gives 88 octets. */
    function GetToken(p: Primitives, password: string): (r: Result<string>)
      reads this
      ensures acct.None? ==> r == Err(AccountUndefined)
      ensures acct.Some? ==> (r == Err(IncorrectPassword) <==> |Plaintext(p, HashPassword(p, password))| != 88)
      ensures r.Ok? ==> r.value == HashPassword(p, password)
      ensures r.Err? ==> r.error == AccountUndefined || r.error == IncorrectPassword
      ensures r == Err(AccountUndefined) <==> acct.None?
    {
      var token := HashPassword(p, password);
      if acct.None? then Err(AccountUndefined)
      else if |Plaintext(p, token)| != 88 then Err(IncorrectPassword)
      else Ok(token)
    }

    /** decryptKey: the secret key, read back from the base64 text that decrypting under the token gives. */
    function DecryptKey(p: Primitives, token: string): (r: Result<seq<byte>>)
      reads this
      ensures acct.None? ==> r == Err(AccountUndefined)
      ensures acct.Some? ==> (r == Err(IncorrectToken) <==> |Plaintext(p, token)| != 88)
      ensures acct.Some? && |Plaintext(p, token)| == 88 ==>
        (r == Err(MalformedUtf8) <==> Utf8.Decode(Plaintext(p, token)).None?)
      ensures r.Ok? ==> exists text :: Utf8.Decode(Plaintext(p, token)) == Some(text) && r.value == Base64.Decode(text)
      ensures r.Err? ==> r.error in {AccountUndefined, IncorrectToken, MalformedUtf8}
      ensures r == Err(AccountUndefined) <==> acct.None?
    {
      if acct.None? then Err(AccountUndefined)
      else
        var decKey := Plaintext(p, token);
        if |decKey| != 88 then Err(IncorrectToken)
        else match Utf8.Decode(decKey)
          case None => Err(MalformedUtf8)
          case Some(text) => Ok(Base64.Decode(text))
    }

    /** exportAcct: the mnemonic of the first 32 octets of the secret key. */
    function ExportAcct(p: Primitives, password: string): (r: Result<string>)
      reads this
      ensures acct.None? ==> r == Err(NoAccountExists)
      ensures acct.Some? ==> (r == Err(IncorrectPassword) <==> |Plaintext(p, HashPassword(p, password))| != 88)
      ensures r != Err(IncorrectToken) && r != Err(AccountUndefined)
      ensures r == Err(NoAccountExists) <==> acct.None?
      ensures r.Err? ==> r.error in {NoAccountExists, IncorrectPassword, MalformedUtf8, SeedRejected}
      ensures acct.Some? && |Plaintext(p, HashPassword(p, password))| == 88 ==>
        (r == Err(MalformedUtf8) <==> Utf8.Decode(Plaintext(p, HashPassword(p, password))).None?)
      ensures DecryptKey(p, HashPassword(p, password)).Ok? ==>
        (r == Err(SeedRejected) <==>
          p.mnemonicFromSeed(Subarray(DecryptKey(p, HashPassword(p, password)).value, 32)).None?)
      ensures r.Ok? ==>
        && DecryptKey(p, HashPassword(p, password)).Ok?
        && p.mnemonicFromSeed(Subarray(DecryptKey(p, HashPassword(p, password)).value, 32)) == Some(r.value)
    {
      if acct.None? then Err(NoAccountExists)
      else match GetToken(p, password)
        case Err(e) => Err(e)
        case Ok(token) =>
          match DecryptKey(p, token)
          case Err(e) => Err(e)
          case Ok(key) =>
            match p.mnemonicFromSeed(Subarray(key, 32))
            case None => Err(SeedRejected)
            case Some(m) => Ok(m)
    }

    /** signTxn: every transaction signed, in order, with the key the token decrypts. */
    function SignTxn(p: Primitives, token: string, txns: seq<Transaction>): (r: Result<seq<SignedTxn>>)
      reads this
      ensures DecryptKey(p, token).Err? ==> r == Err(DecryptKey(p, token).error)
      ensures r.Ok? ==> DecryptKey(p, token).Ok? && |r.value| == |txns|
      ensures DecryptKey(p, token).Ok? ==>
        && (r.Ok? <==> forall i :: 0 <= i < |txns| ==> p.sign(txns[i], DecryptKey(p, token).value).Some?)
        && (r.Err? ==> r.error == SigningFailed)
      ensures r.Ok? ==> forall i :: 0 <= i < |txns| ==> p.sign(txns[i], DecryptKey(p, token).value) == Some(r.value[i])
    {
      match DecryptKey(p, token)
      case Err(e) => Err(e)
      case Ok(key) => SignAll(p, txns, key)
    }

    /** clearAcct: empties the store and forgets the record and its account information. */
    method ClearAcct()
      modifies this, db
      ensures acct == None && acctInfo == None && lookups == old(lookups)
      ensures db.entries == map[]
      ensures Mirrors()
    {
      db.entries := map[];
      acctInfo := None;
      acct := None;
    }
  }

  /** The salt, 12 random octets in base64, is 16 characters long. */
  lemma SaltIsSixteenChars(saltBytes: seq<byte>)
    requires |saltBytes| == 12
    ensures |Base64.Encode(saltBytes)| == 16
  {
    Base64.EncodeLength(saltBytes);
  }

  /** A token, the base64 text of a 32-octet digest, is 44 characters long. */
  lemma TokenIsFortyFourChars(p: Primitives, password: string)
    requires DigestIs256Bits(p)
    ensures |HashPassword(p, password)| == 44
  {
    Base64.EncodeLength(p.sha256(Utf8.Encode(password)));
  }

  /** The message createAcct encrypts for a 64-octet secret key is 88 octets long: the constant of the length checks. */
  lemma SealedKeyIsEightyEightBytes(sk: seq<byte>)
    requires |sk| == 64
    ensures |Utf8.Encode(Base64.Encode(sk))| == 88
  {
    Base64.EncodeLength(sk);
    Base64.EncodeIsAscii(sk);
    Utf8.EncodeAscii(Base64.Encode(sk));
  }

  /** The message createAcct encrypts decodes, as UTF-8 and then as base64, back to the secret key. */
  lemma SealedKeyReadsBack(sk: seq<byte>)
    ensures Utf8.Decode(Utf8.Encode(Base64.Encode(sk))) == Some(Base64.Encode(sk))
    ensures Base64.Decode(Base64.Encode(sk)) == sk
  {
    Utf8.DecodeEncode(Base64.Encode(sk));
    Base64.DecodeEncode(sk);
  }

  /**
   * A record sealed under a password's token opens with that password:
   * getToken returns the token and decryptKey the original secret key.
   */
  lemma CreatedAccountOpens(w: Wallet, p: Primitives, k: KeyPair, password: string, salt: string, cipherSalt: seq<byte>)
    requires CipherRoundTrip(p)
    requires |k.sk| == 64
    requires w.acct == Some(Seal(p, k, HashPassword(p, password), salt, cipherSalt))
    ensures w.GetToken(p, password) == Ok(HashPassword(p, password))
    ensures w.DecryptKey(p, HashPassword(p, password)) == Ok(k.sk)
  {
    var token := HashPassword(p, password);
    var message := Utf8.Encode(Base64.Encode(k.sk));
    assert w.Plaintext(p, token) == p.decrypt(p.encrypt(message, token + salt, cipherSalt), token + salt);
    assert w.Plaintext(p, token) == message;
    SealedKeyIsEightyEightBytes(k.sk);
    SealedKeyReadsBack(k.sk);
  }

  /** Exporting a record sealed under the password gives the mnemonic of the first half of its secret key. */
  lemma CreatedAccountExports(w: Wallet, p: Primitives, k: KeyPair, password: string, salt: string, cipherSalt: seq<byte>)
    requires CipherRoundTrip(p) && SeedsEncode(p)
    requires |k.sk| == 64
    requires w.acct == Some(Seal(p, k, HashPassword(p, password), salt, cipherSalt))
    ensures w.ExportAcct(p, password) == Ok(p.mnemonicFromSeed(k.sk[..32]).value)
  {
    CreatedAccountOpens(w, p, k, password, salt, cipherSalt);
    assert Subarray(k.sk, 32) == k.sk[..32];
  }

  /** Signing with the token of a record sealed under the password signs each transaction with its secret key. */
  lemma CreatedAccountSigns(w: Wallet, p: Primitives, k: KeyPair, password: string, salt: string,
                            cipherSalt: seq<byte>, txns: seq<Transaction>)
    requires CipherRoundTrip(p) && KeysSign(p)
    requires |k.sk| == 64
    requires w.acct == Some(Seal(p, k, HashPassword(p, password), salt, cipherSalt))
    ensures w.SignTxn(p, HashPassword(p, password), txns).Ok?
    ensures |w.SignTxn(p, HashPassword(p, password), txns).value| == |txns|
    ensures forall i :: 0 <= i < |txns| ==>
      Some(w.SignTxn(p, HashPassword(p, password), txns).value[i]) == p.sign(txns[i], k.sk)
  {
    CreatedAccountOpens(w, p, k, password, salt, cipherSalt);
  }

  /** The key pair createAcct seals has a 64-octet secret key. */
  lemma ChosenKeyIs512Bits(p: Primitives, mnemonic: Option<string>, generated: KeyPair)
    requires MnemonicKeysAre512Bits(p)
    requires |generated.sk| == 64
    ensures ChosenKeyPair(p, mnemonic, generated).Some? ==> |ChosenKeyPair(p, mnemonic, generated).value.sk| == 64
  {
  }

  /** Octets as the characters with those code points. */
  function Chars(m: seq<byte>): (s: string)
    ensures |s| == |m|
  {
    if m == [] then "" else [m[0] as char] + Chars(m[1..])
  }

  /** Characters as octets, by code point modulo 256. */
  function Octets(s: string): (m: seq<byte>)
    ensures |m| == |s|
  {
    if s == [] then [] else [(s[0] as int) % 256] + Octets(s[1..])
  }

  lemma {:induction false} OctetsOfChars(m: seq<byte>)
    ensures Octets(Chars(m)) == m
  {
    if m != [] {
      OctetsOfChars(m[1..]);
    }
  }

  /**
   * The length checks are not authentication: a cipher that ignores its key
   * meets CipherRoundTrip, and under it getToken accepts every password for
   * a record sealed under any one of them.
   */
  lemma LengthCheckAdmitsOtherPasswords(w: Wallet, p: Primitives, k: KeyPair, password: string,
                                        other: string, salt: string, cipherSalt: seq<byte>)
    requires forall m, key, r :: p.encrypt(m, key, r) == Chars(m)
    requires forall c, key :: p.decrypt(c, key) == Octets(c)
    requires |k.sk| == 64
    requires w.acct == Some(Seal(p, k, HashPassword(p, password), salt, cipherSalt))
    ensures CipherRoundTrip(p)
    ensures w.GetToken(p, other) == Ok(HashPassword(p, other))
  {
    forall m, key, r
      ensures p.decrypt(p.encrypt(m, key, r), key) == m
    {
      OctetsOfChars(m);
    }
    var message := Utf8.Encode(Base64.Encode(k.sk));
    OctetsOfChars(message);
    assert w.Plaintext(p, HashPassword(p, other)) == message;
    SealedKeyIsEightyEightBytes(k.sk);
  }

  /**
   * After a successful createAcct, getToken with the same password returns
   * the token createAcct returned, and decryptKey with it the sealed key.
   */
  method CreateThenOpen(w: Wallet, p: Primitives, password: string, mnemonic: Option<string>,
                        generated: KeyPair, saltBytes: seq<byte>, cipherSalt: seq<byte>,
                        reply: AccountInfo)
    returns (created: Result<Option<string>>, reread: Result<string>)
    requires CipherRoundTrip(p) && MnemonicKeysAre512Bits(p)
    requires |generated.sk| == 64 && |saltBytes| == 12
    modifies w, w.db
    ensures created.Ok? && created.value.Some? ==>
      && ChosenKeyPair(p, mnemonic, generated).Some?
      && reread == Ok(created.value.value)
      && w.DecryptKey(p, created.value.value) == Ok(ChosenKeyPair(p, mnemonic, generated).value.sk)
  {
    created := w.CreateAcct(p, password, mnemonic, true, generated, saltBytes, cipherSalt, Some(reply));
    reread := w.GetToken(p, password);
    if created.Ok? && created.value.Some? {
      var k := ChosenKeyPair(p, mnemonic, generated).value;
      ChosenKeyIs512Bits(p, mnemonic, generated);
      CreatedAccountOpens(w, p, k, password, Base64.Encode(saltBytes), cipherSalt);
    }
  }

  /**
   * A fresh Wallet started after createAcct on another one, against the same
   * store, loads the same record, whatever createAcct returned.
   */
  method RestartAfterCreate(db: Store, p: Primitives, password: string, mnemonic: Option<string>,
                            confirmed: bool, generated: KeyPair, saltBytes: seq<byte>,
                            cipherSalt: seq<byte>, first: Option<AccountInfo>,
                            second: Option<AccountInfo>, third: Option<AccountInfo>)
    returns (w1: Wallet, w2: Wallet, created: Result<Option<string>>)
    requires |saltBytes| == 12
    modifies db
    ensures w2.acct == w1.acct
    ensures created.Ok? && created.value.Some? ==>
      && ChosenKeyPair(p, mnemonic, generated).Some?
      && w2.acct == Some(Seal(p, ChosenKeyPair(p, mnemonic, generated).value, HashPassword(p, password),
                              Base64.Encode(saltBytes), cipherSalt))
  {
    w1 := new Wallet(db);
    var started := w1.Startup(first);
    created := w1.CreateAcct(p, password, mnemonic, confirmed, generated, saltBytes, cipherSalt, second);
    w2 := new Wallet(db);
    var restarted := w2.Startup(third);
  }

  /**
   * A fresh Wallet started after clearAcct, against the same store, has no
   * record, no account information and has asked the ledger nothing.
   */
  method RestartAfterClear(db: Store, reply: Option<AccountInfo>)
    returns (w1: Wallet, w2: Wallet, started: Result<()>)
    modifies db
    ensures w1.acct == None && w2.acct == None
    ensures w2.acctInfo == None && w2.lookups == [] && started == Ok(())
  {
    w1 := new Wallet(db);
    w1.ClearAcct();
    w2 := new Wallet(db);
    started := w2.Startup(reply);
  }
}
