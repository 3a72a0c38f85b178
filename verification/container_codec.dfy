/** Transport codec of the encrypted container: zlib framing, an AES body, one
    wrapped body key per principal and a detached signature. The primitives are
    a record of functions; Ideal states the laws assumed of them. */
module ContainerCodec {
  import opened Wrappers

  const CONTAINER_VERSION := 1
  const SIGNER_VERSION := 3
  const AES_IV_LEN := 16
  const AES_KEY_LEN := 32

  datatype Oid = Aes256Cbc | Sha3_256 | Secp256k1 | Ed25519 | Secp256r1 | OtherOid(dotted: string)

  // Network, token, storage and multisig identifiers are OtherKey.
  datatype KeyType = K1Key | Ed25519Key | R1Key | OtherKey

  /** An account by its type-prefixed public key, with or without the private key. */
  datatype Account = Account(publicKey: Bytes, hasPrivate: bool)

  datatype Error =
    | UnsupportedVersion(version: nat)
    | UnsupportedCipherAlgorithm
    | UnsupportedDigestAlgorithm
    | UnsupportedSignatureAlgorithm
    | UnsupportedKeyType
    | NoKeysProvided
    | NoMatchingKey
    | EncryptionFailed
    | DecryptionFailed
    | DecompressionFailed
    | SignerRequiresPrivateKey
    | NotSigned
    | NoPlaintextAvailable
    | NoEncodedDataAvailable
    | PlaintextDisabled
    | EncryptionRequired
    | InvalidPrincipals
    | AccessManagementNotAllowed
    | AccountError
    | Asn1Error

  datatype KeyStore = KeyStore(publicKey: Bytes, wrappedKey: Bytes)

  datatype SignerInfo = SignerInfo(
    version: int, sid: Bytes, digestAlgorithm: Oid, signatureAlgorithm: Oid, signature: Bytes)

  datatype ContainerBox =
    | PlaintextBox(plainValue: Bytes)
    | EncryptedBox(keys: seq<KeyStore>, algorithm: Oid, iv: Bytes, encryptedValue: Bytes)

  datatype Package = Package(version: int, container: ContainerBox, signerInfo: Option<SignerInfo>)

  datatype Body =
    | Plaintext(compressed: Bytes)
    | Encrypted(keyStores: seq<KeyStore>, iv: Bytes, ciphertext: Bytes)

  datatype BareContainer = BareContainer(body: Body, signerInfo: Option<SignerInfo>)

  datatype DecodedBody = DecodedBody(compressed: Bytes, plaintext: Bytes)

  datatype RawMaterial = RawMaterial(key: Bytes, iv: Bytes)
  type Material = m: RawMaterial | |m.key| == AES_KEY_LEN && |m.iv| == AES_IV_LEN
    witness RawMaterial(seq(AES_KEY_LEN, i => 0), seq(AES_IV_LEN, i => 0))

  datatype Crypto = Crypto(
    zip: Bytes -> Bytes,
    unzip: Bytes -> Option<Bytes>,
    aesEncrypt: (Bytes, Bytes, Bytes) -> Bytes,   // key, iv, data: yields iv followed by ciphertext
    aesDecrypt: (Bytes, Bytes) -> Option<Bytes>,  // key, iv followed by ciphertext
    wrapKey: (Bytes, Bytes) -> Option<Bytes>,     // public key, body key
    unwrapKey: (Bytes, Bytes) -> Option<Bytes>,   // by the private key of this public key
    sha3: Bytes -> Bytes,
    signRaw: (Bytes, Bytes) -> Option<Bytes>,     // by the private key of this public key
    signatureOk: (Bytes, Bytes, Bytes) -> bool,
    keyType: Bytes -> KeyType,
    validKey: Bytes -> bool,
    derEncode: Package -> Bytes,
    derDecode: Bytes -> Option<Package>)
  {
    /** Every decoding primitive inverts its encoding partner. */
    ghost predicate Ideal() {
      && (forall x :: unzip(zip(x)) == Some(x))
      && (forall k, iv, x :: |k| == AES_KEY_LEN && |iv| == AES_IV_LEN ==>
            iv <= aesEncrypt(k, iv, x) && aesDecrypt(k, aesEncrypt(k, iv, x)) == Some(x))
      && (forall pk, k :: wrapKey(pk, k).Some? ==> unwrapKey(pk, wrapKey(pk, k).value) == Some(k))
      && (forall pk, d :: signRaw(pk, d).Some? ==> signatureOk(pk, d, signRaw(pk, d).value))
      && (forall p :: derDecode(derEncode(p)) == Some(p))
    }

    /** A signature covers one digest, and a digest one message. */
    ghost predicate Unforgeable() {
      && (forall pk, d, d', s :: signatureOk(pk, d, s) && signatureOk(pk, d', s) ==> d == d')
      && (forall x, y :: sha3(x) == sha3(y) ==> x == y)
    }

    /** The public key of an account that exists. */
    predicate Real(a: Account) {
      validKey(a.publicKey)
    }
  }

  function AccountFromPublicKey(c: Crypto, publicKey: Bytes): Result<Account, Error> {
    if c.validKey(publicKey) then Ok(Account(publicKey, false)) else Err(AccountError)
  }

  // ---- Encode ---------------------------------------------------------------

  function SealStores(c: Crypto, key: Bytes, principals: seq<Account>): Result<seq<KeyStore>, Error> {
    if principals == [] then Ok([])
    else
      match c.wrapKey(principals[0].publicKey, key)
      case None => Err(AccountError)
      case Some(wrapped) =>
        match SealStores(c, key, principals[1..])
        case Err(e) => Err(e)
        case Ok(rest) => Ok([KeyStore(principals[0].publicKey, wrapped)] + rest)
  }

  function SealBody(c: Crypto, compressed: Bytes, principals: seq<Account>, m: Material): Result<ContainerBox, Error> {
    var ivAndCiphertext := c.aesEncrypt(m.key, m.iv, compressed);
    if |ivAndCiphertext| < AES_IV_LEN then Err(EncryptionFailed)
    else
      match SealStores(c, m.key, principals)
      case Err(e) => Err(e)
      case Ok(keys) => Ok(EncryptedBox(keys, Aes256Cbc, m.iv, ivAndCiphertext[AES_IV_LEN..]))
  }

  function SignatureAlgorithmOid(t: KeyType): Result<Oid, Error> {
    match t
    case K1Key => Ok(Secp256k1)
    case Ed25519Key => Ok(Ed25519)
    case R1Key => Ok(Secp256r1)
    case OtherKey => Err(UnsupportedKeyType)
  }

  function SignCompressed(c: Crypto, compressed: Bytes, signer: Account): Result<SignerInfo, Error> {
    if !signer.hasPrivate then Err(SignerRequiresPrivateKey)
    else
      match c.signRaw(signer.publicKey, c.sha3(compressed))
      case None => Err(AccountError)
      case Some(signature) =>
        match SignatureAlgorithmOid(c.keyType(signer.publicKey))
        case Err(e) => Err(e)
        case Ok(oid) => Ok(SignerInfo(SIGNER_VERSION, signer.publicKey, Sha3_256, oid, signature))
  }

  datatype Encryption = Encryption(principals: seq<Account>, material: Material)

  function Encode(c: Crypto, plaintext: Bytes, encryption: Option<Encryption>, signer: Option<Account>): Result<Bytes, Error> {
    var compressed := c.zip(plaintext);
    var sealed := match encryption
      case Some(e) => SealBody(c, compressed, e.principals, e.material)
      case None => Ok(PlaintextBox(compressed));
    match sealed
    case Err(e) => Err(e)
    case Ok(container) =>
      match signer
      case None => Ok(c.derEncode(Package(CONTAINER_VERSION, container, None)))
      case Some(account) =>
        match SignCompressed(c, compressed, account)
        case Err(e) => Err(e)
        case Ok(info) => Ok(c.derEncode(Package(CONTAINER_VERSION, container, Some(info))))
  }

  // ---- Parse and decode -----------------------------------------------------

  function Parse(c: Crypto, encoded: Bytes): Result<BareContainer, Error> {
    match c.derDecode(encoded)
    case None => Err(Asn1Error)
    case Some(package) =>
      var version := if 0 <= package.version <= U64_MAX then package.version else U64_MAX;
      if version != CONTAINER_VERSION then Err(UnsupportedVersion(version))
      else
        match package.container
        case PlaintextBox(v) => Ok(BareContainer(Plaintext(v), package.signerInfo))
        case EncryptedBox(keys, algorithm, iv, v) =>
          if algorithm != Aes256Cbc then Err(UnsupportedCipherAlgorithm)
          else Ok(BareContainer(Encrypted(keys, iv, v), package.signerInfo))
  }

  // A public-key-only account cannot unwrap anything.
  function Decrypt(c: Crypto, a: Account, wrapped: Bytes): Option<Bytes> {
    if a.hasPrivate then c.unwrapKey(a.publicKey, wrapped) else None
  }

  /** What the search over key stores amounts to: the first store that some
      private-keyed account of the same key unwraps. */
  function UnwrapSymmetricKey(c: Crypto, stores: seq<KeyStore>, accounts: seq<Account>): Option<Bytes> {
    if stores == [] then None
    else
      var pk := stores[0].publicKey;
      if Account(pk, true) in accounts && c.unwrapKey(pk, stores[0].wrappedKey).Some?
      then c.unwrapKey(pk, stores[0].wrappedKey)
      else UnwrapSymmetricKey(c, stores[1..], accounts)
  }

  function DecryptBody(c: Crypto, body: Body, accounts: seq<Account>): Result<Bytes, Error>
    requires body.Encrypted?
  {
    if accounts == [] then Err(NoKeysProvided)
    else
      match UnwrapSymmetricKey(c, body.keyStores, accounts)
      case None => Err(NoMatchingKey)
      case Some(key) =>
        match c.aesDecrypt(key, body.iv + body.ciphertext)
        case None => Err(DecryptionFailed)
        case Some(compressed) => Ok(compressed)
  }

  function DecodeBody(c: Crypto, body: Body, accounts: seq<Account>): Result<DecodedBody, Error> {
    var recovered := if body.Plaintext? then Ok(body.compressed) else DecryptBody(c, body, accounts);
    match recovered
    case Err(e) => Err(e)
    case Ok(compressed) =>
      match c.unzip(compressed)
      case None => Err(DecompressionFailed)
      case Some(plaintext) => Ok(DecodedBody(compressed, plaintext))
  }

  function Verify(c: Crypto, info: SignerInfo, data: Bytes): Result<bool, Error> {
    if info.digestAlgorithm != Sha3_256 then Err(UnsupportedDigestAlgorithm)
    else if info.signatureAlgorithm !in {Ed25519, Secp256k1, Secp256r1} then Err(UnsupportedSignatureAlgorithm)
    else
      match AccountFromPublicKey(c, info.sid)
      case Err(e) => Err(e)
      case Ok(signer) => Ok(c.signatureOk(signer.publicKey, c.sha3(data), info.signature))
  }

  // ---- The loops ------------------------------------------------------------

  lemma {:induction false} SealStoresSplit(c: Crypto, key: Bytes, front: seq<Account>, back: seq<Account>)
    ensures SealStores(c, key, front + back) ==
            match SealStores(c, key, front) {
              case Err(e) => Err(e)
              case Ok(a) => match SealStores(c, key, back) { case Err(e) => Err(e) case Ok(b) => Ok(a + b) }
            }
  {
    if front == [] {
      assert front + back == back;
      match SealStores(c, key, back) { case Ok(b) => assert [] + b == b; case Err(_) => }
    } else {
      assert (front + back)[0] == front[0] && (front + back)[1..] == front[1..] + back;
      SealStoresSplit(c, key, front[1..], back);
      match (SealStores(c, key, front), SealStores(c, key, back)) {
        case (Ok(a), Ok(b)) =>
          var rest := SealStores(c, key, front[1..]).value;
          assert a + b == [a[0]] + (rest + b);
        case _ =>
      }
    }
  }

  /** One wrapped copy of the body key per principal, in order. */
  method WrapForPrincipals(c: Crypto, key: Bytes, principals: seq<Account>) returns (r: Result<seq<KeyStore>, Error>)
    ensures r == SealStores(c, key, principals)
  {
    var keys := [];
    for i := 0 to |principals|
      invariant SealStores(c, key, principals[..i]) == Ok(keys)
    {
      var principal := principals[i];
      SealStoresSplit(c, key, principals[..i], principals[i..]);
      SealStoresSplit(c, key, principals[..i], [principal]);
      assert principals[..i] + principals[i..] == principals;
      assert principals[..i] + [principal] == principals[..i + 1];
      match c.wrapKey(principal.publicKey, key) {
        case None => return Err(AccountError);
        case Some(wrapped) =>
          var store := KeyStore(principal.publicKey, wrapped);
          assert [principal][1..] == [] && [store] + [] == [store];
          keys := keys + [store];
      }
    }
    assert principals[..|principals|] == principals;
    return Ok(keys);
  }

  /** The nested search: stores outside, accounts inside, skipping accounts that
      cannot unwrap. */
  method FindSymmetricKey(c: Crypto, stores: seq<KeyStore>, accounts: seq<Account>) returns (key: Option<Bytes>)
    ensures key == UnwrapSymmetricKey(c, stores, accounts)
  {
    for i := 0 to |stores|
      invariant UnwrapSymmetricKey(c, stores, accounts) == UnwrapSymmetricKey(c, stores[i..], accounts)
    {
      var store := stores[i];
      assert stores[i..][1..] == stores[i + 1..];
      for j := 0 to |accounts|
        invariant c.unwrapKey(store.publicKey, store.wrappedKey).Some? ==> Account(store.publicKey, true) !in accounts[..j]
      {
        var account := accounts[j];
        if account.publicKey != store.publicKey {
          continue;
        }
        var unwrapped := Decrypt(c, account, store.wrappedKey);
        if unwrapped.Some? {
          assert account == Account(store.publicKey, true) && account in accounts;
          return unwrapped;
        }
      }
      assert accounts[..|accounts|] == accounts;
    }
    return None;
  }

  // ---- Laws -----------------------------------------------------------------

  function PublicKeys(accounts: seq<Account>): (r: seq<Bytes>)
    ensures |r| == |accounts| && forall i :: 0 <= i < |r| ==> r[i] == accounts[i].publicKey
  {
    seq(|accounts|, i requires 0 <= i < |accounts| => accounts[i].publicKey)
  }

  function StoreKeys(stores: seq<KeyStore>): (r: seq<Bytes>)
    ensures |r| == |stores| && forall i :: 0 <= i < |r| ==> r[i] == stores[i].publicKey
  {
    seq(|stores|, i requires 0 <= i < |stores| => stores[i].publicKey)
  }

  predicate CanSealTo(c: Crypto, key: Bytes, principals: seq<Account>) {
    forall p :: p in principals ==> c.wrapKey(p.publicKey, key).Some?
  }

  /** Every store wraps `key` to its own public key. */
  ghost predicate AllWrap(c: Crypto, stores: seq<KeyStore>, key: Bytes) {
    forall i :: 0 <= i < |stores| ==> c.wrapKey(stores[i].publicKey, key) == Some(stores[i].wrappedKey)
  }

  lemma {:induction false} SealsIff(c: Crypto, key: Bytes, principals: seq<Account>)
    ensures SealStores(c, key, principals).Ok? <==> CanSealTo(c, key, principals)
    ensures SealStores(c, key, principals).Err? ==> SealStores(c, key, principals).error == AccountError
  {
    if principals != [] {
      SealsIff(c, key, principals[1..]);
      assert principals == [principals[0]] + principals[1..];
    }
  }

  lemma {:induction false} SealedStores(c: Crypto, key: Bytes, principals: seq<Account>)
    requires SealStores(c, key, principals).Ok?
    ensures StoreKeys(SealStores(c, key, principals).value) == PublicKeys(principals)
    ensures AllWrap(c, SealStores(c, key, principals).value, key)
  {
    if principals != [] {
      SealedStores(c, key, principals[1..]);
    }
  }

  /** The body holds `plaintext` under one key that every store wraps. */
  ghost predicate SealedUnder(c: Crypto, body: Body, plaintext: Bytes, key: Bytes) {
    && body.Encrypted?
    && |key| == AES_KEY_LEN && |body.iv| == AES_IV_LEN
    && body.iv + body.ciphertext == c.aesEncrypt(key, body.iv, c.zip(plaintext))
    && AllWrap(c, body.keyStores, key)
  }

  predicate HoldsPrivateKeyFor(stores: seq<KeyStore>, accounts: seq<Account>) {
    exists i :: 0 <= i < |stores| && Account(stores[i].publicKey, true) in accounts
  }

  lemma {:induction false} UnwrapsSealed(c: Crypto, stores: seq<KeyStore>, key: Bytes, accounts: seq<Account>)
    requires c.Ideal() && AllWrap(c, stores, key)
    ensures UnwrapSymmetricKey(c, stores, accounts) ==
            if HoldsPrivateKeyFor(stores, accounts) then Some(key) else None
  {
    if stores != [] {
      UnwrapsSealed(c, stores[1..], key, accounts);
      if HoldsPrivateKeyFor(stores, accounts) && Account(stores[0].publicKey, true) !in accounts {
        var i :| 0 <= i < |stores| && Account(stores[i].publicKey, true) in accounts;
        assert stores[1..][i - 1] == stores[i];
      }
      if HoldsPrivateKeyFor(stores[1..], accounts) {
        var i :| 0 <= i < |stores[1..]| && Account(stores[1..][i].publicKey, true) in accounts;
        assert stores[i + 1] == stores[1..][i];
      }
    }
  }

  /** Whoever tries, in whatever order and with whatever public-only duplicates:
      a sealed body opens to its plaintext exactly for holders of a matching
      private key. */
  lemma OpensExactlyForHolders(c: Crypto, body: Body, plaintext: Bytes, key: Bytes, accounts: seq<Account>)
    requires c.Ideal() && SealedUnder(c, body, plaintext, key)
    ensures DecodeBody(c, body, accounts) ==
            if accounts == [] then Err(NoKeysProvided)
            else if HoldsPrivateKeyFor(body.keyStores, accounts) then Ok(DecodedBody(c.zip(plaintext), plaintext))
            else Err(NoMatchingKey)
  {
    UnwrapsSealed(c, body.keyStores, key, accounts);
    assert c.aesDecrypt(key, c.aesEncrypt(key, body.iv, c.zip(plaintext))) == Some(c.zip(plaintext));
    assert c.unzip(c.zip(plaintext)) == Some(plaintext);
  }

  predicate CanSign(c: Crypto, signer: Account, data: Bytes) {
    signer.hasPrivate && c.signRaw(signer.publicKey, c.sha3(data)).Some? && !c.keyType(signer.publicKey).OtherKey?
  }

  /** When encoding succeeds, and what a parser then reads back. */
  lemma EncodeThenParse(c: Crypto, plaintext: Bytes, encryption: Option<Encryption>, signer: Option<Account>)
    requires c.Ideal()
    ensures Encode(c, plaintext, encryption, signer).Ok? <==>
            && (encryption.Some? ==> CanSealTo(c, encryption.value.material.key, encryption.value.principals))
            && (signer.Some? ==> CanSign(c, signer.value, c.zip(plaintext)))
    ensures Encode(c, plaintext, encryption, signer).Ok? ==>
            var parsed := Parse(c, Encode(c, plaintext, encryption, signer).value);
            && parsed.Ok?
            && (parsed.value.signerInfo.Some? <==> signer.Some?)
            && (signer.Some? ==> parsed.value.signerInfo.value.sid == signer.value.publicKey)
            && (encryption.None? ==> parsed.value.body == Plaintext(c.zip(plaintext)))
            && (encryption.Some? ==>
                  && SealedUnder(c, parsed.value.body, plaintext, encryption.value.material.key)
                  && parsed.value.body.iv == encryption.value.material.iv
                  && StoreKeys(parsed.value.body.keyStores) == PublicKeys(encryption.value.principals))
  {
    if encryption.Some? {
      var m := encryption.value.material;
      SealsIff(c, m.key, encryption.value.principals);
      if CanSealTo(c, m.key, encryption.value.principals) {
        SealedStores(c, m.key, encryption.value.principals);
      }
      var whole := c.aesEncrypt(m.key, m.iv, c.zip(plaintext));
      assert m.iv <= whole;
      assert m.iv + whole[AES_IV_LEN..] == whole;
    }
  }

  /** Why an encoding fails: a principal that cannot be sealed to comes first, then
      what keeps the signer from signing. */
  lemma EncodeFailsBecause(c: Crypto, plaintext: Bytes, encryption: Option<Encryption>, signer: Option<Account>)
    requires c.Ideal() && Encode(c, plaintext, encryption, signer).Err?
    ensures
      var why := Encode(c, plaintext, encryption, signer).error;
      if encryption.Some? && !CanSealTo(c, encryption.value.material.key, encryption.value.principals) then why == AccountError
      else
        && signer.Some?
        && (!signer.value.hasPrivate <==> why == SignerRequiresPrivateKey)
        && (signer.value.hasPrivate && c.signRaw(signer.value.publicKey, c.sha3(c.zip(plaintext))).Some? ==>
              c.keyType(signer.value.publicKey).OtherKey? && why == UnsupportedKeyType)
  {
    if encryption.Some? {
      var m := encryption.value.material;
      SealsIff(c, m.key, encryption.value.principals);
      assert m.iv <= c.aesEncrypt(m.key, m.iv, c.zip(plaintext));
    }
  }

  /** Verification answers only for supported algorithms and an existing signer, and
      otherwise says which is missing. */
  lemma VerifiesExactly(c: Crypto, info: SignerInfo, data: Bytes)
    ensures Verify(c, info, data).Ok? <==>
            && info.digestAlgorithm == Sha3_256 && info.signatureAlgorithm in {Secp256k1, Secp256r1, Ed25519}
            && c.validKey(info.sid)
    ensures Verify(c, info, data) == Ok(true) ==> c.signatureOk(info.sid, c.sha3(data), info.signature)
    ensures Verify(c, info, data) == Ok(false) ==> !c.signatureOk(info.sid, c.sha3(data), info.signature)
    ensures Verify(c, info, data) == Err(UnsupportedDigestAlgorithm) <==> info.digestAlgorithm != Sha3_256
  {
  }

  /** Exactly which packages are accepted, and how the others are refused; an
      accepted one is handed on with nothing lost. */
  lemma ParsesExactly(c: Crypto, package: Package)
    requires c.Ideal()
    ensures
      var r := Parse(c, c.derEncode(package));
      && (r.Ok? <==> package.version == 1 && (package.container.PlaintextBox? || package.container.algorithm == Aes256Cbc))
      && (r.Ok? ==>
            && r.value.signerInfo == package.signerInfo
            && package.container ==
               match r.value.body
               case Plaintext(compressed) => PlaintextBox(compressed)
               case Encrypted(keys, iv, ciphertext) => EncryptedBox(keys, Aes256Cbc, iv, ciphertext))
      && (0 <= package.version <= U64_MAX && package.version != 1 ==> r == Err(UnsupportedVersion(package.version)))
      && (package.version == 1 && r.Err? ==> r == Err(UnsupportedCipherAlgorithm))
    ensures forall data :: c.derDecode(data).None? ==> Parse(c, data) == Err(Asn1Error)
  {
  }

  /** What a signed encoding says of its signature: version 3, the signer's key, the
      SHA3-256 digest, and the curve of the signer's key. */
  lemma SignedEncodingNames(c: Crypto, plaintext: Bytes, encryption: Option<Encryption>, signer: Account)
    requires c.Ideal() && Encode(c, plaintext, encryption, Some(signer)).Ok?
    ensures
      var bare := Parse(c, Encode(c, plaintext, encryption, Some(signer)).value);
      && bare.Ok? && bare.value.signerInfo.Some?
      && var info := bare.value.signerInfo.value;
         && info.version == 3 && info.sid == signer.publicKey && info.digestAlgorithm == Sha3_256
         && c.signRaw(signer.publicKey, c.sha3(c.zip(plaintext))) == Some(info.signature)
         && (info.signatureAlgorithm == Secp256k1 <==> c.keyType(signer.publicKey) == K1Key)
         && (info.signatureAlgorithm == Ed25519 <==> c.keyType(signer.publicKey) == Ed25519Key)
         && (info.signatureAlgorithm == Secp256r1 <==> c.keyType(signer.publicKey) == R1Key)
  {
    EncodeThenParse(c, plaintext, encryption, Some(signer));
  }

  /** A signature made at encoding verifies over the bytes any opener recovers. */
  lemma SignatureSurvivesTransport(c: Crypto, plaintext: Bytes, encryption: Option<Encryption>, signer: Account, accounts: seq<Account>)
    requires c.Ideal() && c.Real(signer)
    requires Encode(c, plaintext, encryption, Some(signer)).Ok?
    ensures
      var bare := Parse(c, Encode(c, plaintext, encryption, Some(signer)).value).value;
      var outcome := DecodeBody(c, bare.body, accounts);
      outcome.Ok? ==> Verify(c, bare.signerInfo.value, outcome.value.compressed) == Ok(true)
  {
    EncodeThenParse(c, plaintext, encryption, Some(signer));
    var bare := Parse(c, Encode(c, plaintext, encryption, Some(signer)).value).value;
    if encryption.Some? {
      OpensExactlyForHolders(c, bare.body, plaintext, encryption.value.material.key, accounts);
    }
  }

  lemma HoldersByPrincipal(stores: seq<KeyStore>, principals: seq<Account>, accounts: seq<Account>)
    requires StoreKeys(stores) == PublicKeys(principals)
    ensures HoldsPrivateKeyFor(stores, accounts) <==> exists p :: p in principals && Account(p.publicKey, true) in accounts
  {
    var keys := StoreKeys(stores);
    if HoldsPrivateKeyFor(stores, accounts) {
      var i :| 0 <= i < |keys| && Account(stores[i].publicKey, true) in accounts;
      assert principals[i] in principals && principals[i].publicKey == keys[i];
    }
    if exists p :: p in principals && Account(p.publicKey, true) in accounts {
      var p :| p in principals && Account(p.publicKey, true) in accounts;
      var i :| 0 <= i < |principals| && principals[i] == p;
      assert keys[i] == p.publicKey;
    }
  }

  /** The full round trip through the transport form. */
  lemma EncodeRoundTrip(c: Crypto, plaintext: Bytes, principals: seq<Account>, m: Material, signer: Option<Account>, accounts: seq<Account>)
    requires c.Ideal()
    requires Encode(c, plaintext, Some(Encryption(principals, m)), signer).Ok?
    ensures
      var bare := Parse(c, Encode(c, plaintext, Some(Encryption(principals, m)), signer).value);
      && bare.Ok?
      && DecodeBody(c, bare.value.body, accounts) ==
         if accounts == [] then Err(NoKeysProvided)
         else if exists p :: p in principals && Account(p.publicKey, true) in accounts
         then Ok(DecodedBody(c.zip(plaintext), plaintext))
         else Err(NoMatchingKey)
  {
    EncodeThenParse(c, plaintext, Some(Encryption(principals, m)), signer);
    var body := Parse(c, Encode(c, plaintext, Some(Encryption(principals, m)), signer).value).value.body;
    OpensExactlyForHolders(c, body, plaintext, m.key, accounts);
    HoldersByPrincipal(body.keyStores, principals, accounts);
  }

  /** Opening depends only on which private keys are offered. */
  lemma {:induction false} UnwrapDependsOnPrivateKeys(c: Crypto, stores: seq<KeyStore>, a: seq<Account>, b: seq<Account>)
    requires forall pk :: Account(pk, true) in a <==> Account(pk, true) in b
    ensures UnwrapSymmetricKey(c, stores, a) == UnwrapSymmetricKey(c, stores, b)
  {
    if stores != [] {
      UnwrapDependsOnPrivateKeys(c, stores[1..], a, b);
    }
  }
}
