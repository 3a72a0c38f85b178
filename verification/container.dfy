/** The EncryptedContainer object: fields updated in place, each method proved
    against the transition of the same name in ContainerSpec. */
module Container {
  import opened Wrappers
  import opened ContainerCodec
  import opened Principals
  import opened ContainerLaws
  import Spec = ContainerSpec

  class EncryptedContainer {
    const crypto: Crypto
    var encrypted: bool
    var principals: seq<Account>
    var mayAccessPlaintext: bool
    var signer: Option<Account>
    var parsedSignerInfo: Option<SignerInfo>
    var plaintext: Option<Bytes>
    var encoded: Option<Bytes>

    ghost function View(): Spec.State
      reads this
    {
      Spec.State(encrypted, principals, mayAccessPlaintext, signer, parsedSignerInfo, plaintext, encoded)
    }

    constructor New(crypto: Crypto, principals: Option<seq<Account>>, signer: Option<Account>)
      ensures this.crypto == crypto && View() == Spec.New(principals, signer)
    {
      this.crypto := crypto;
      encrypted := principals.Some?;
      this.principals := if principals.Some? then principals.value else [];
      mayAccessPlaintext := true;
      this.signer := signer;
      parsedSignerInfo := None;
      plaintext := Some([]);
      encoded := None;
    }

    /** Seals to `principals` when given; locked by default exactly when sealed. */
    constructor FromPlaintext(crypto: Crypto, data: Bytes, principals: Option<seq<Account>>, locked: Option<bool>, signer: Option<Account>)
      requires signer.Some? ==> crypto.Real(signer.value)
      ensures this.crypto == crypto && View() == Spec.FromPlaintext(data, principals, locked, signer)
      ensures Consistent(crypto, View()) && Payload(crypto, View()) == Some(data)
    {
      this.crypto := crypto;
      encrypted := principals.Some?;
      this.principals := if principals.Some? then principals.value else [];
      mayAccessPlaintext := true;
      this.signer := signer;
      parsedSignerInfo := None;
      plaintext := Some([]);
      encoded := None;
      new;
      var lock := if locked.Some? then locked.value else principals.Some?;
      if lock {
        DisablePlaintext();
      }
      SetPlaintext(data);
    }

    static method FromEncoded(crypto: Crypto, data: Bytes, principals: Option<seq<Account>>)
      returns (r: Result<EncryptedContainer, Error>)
      ensures r.Ok? ==> fresh(r.value) && r.value.crypto == crypto && Consistent(crypto, r.value.View())
      ensures (if r.Ok? then Ok(r.value.View()) else Err(r.error)) == Spec.FromEncoded(crypto, data, principals)
    {
      var container := new EncryptedContainer.New(crypto, principals, None);
      container.SetEncoded(data);
      var info := container.ComputeAndSetKeyInfo(false);
      FromEncodedConsistent(crypto, data, principals);
      if info.Err? {
        return Err(info.error);
      }
      return Ok(container);
    }

    static method FromEncrypted(crypto: Crypto, data: Bytes, principals: seq<Account>)
      returns (r: Result<EncryptedContainer, Error>)
      ensures r.Ok? ==> fresh(r.value) && r.value.crypto == crypto && Consistent(crypto, r.value.View())
      ensures (if r.Ok? then Ok(r.value.View()) else Err(r.error)) == Spec.FromEncrypted(crypto, data, principals)
    {
      var container := new EncryptedContainer.New(crypto, Some(principals), None);
      container.SetEncoded(data);
      var info := container.ComputeAndSetKeyInfo(true);
      FromEncodedConsistent(crypto, data, Some(principals));
      if info.Err? {
        return Err(info.error);
      }
      return Ok(container);
    }

    method SetPlaintext(data: Bytes)
      modifies this`plaintext, this`encoded
      ensures View() == Spec.SetPlaintext(old(View()), data)
    {
      plaintext := Some(data);
      encoded := None;
    }

    method SetEncoded(data: Bytes)
      modifies this`plaintext, this`encoded
      ensures View() == old(View()).(encoded := Some(data), plaintext := None)
    {
      encoded := Some(data);
      plaintext := None;
    }

    method DisablePlaintext()
      modifies this`mayAccessPlaintext
      ensures View() == old(View()).(mayAccessPlaintext := false)
    {
      mayAccessPlaintext := false;
    }

    method GetPrincipals() returns (r: Result<seq<Account>, Error>)
      ensures r == if encrypted then Ok(principals) else Err(AccessManagementNotAllowed)
    {
      if !encrypted {
        return Err(AccessManagementNotAllowed);
      }
      return Ok(principals);
    }

    method GetPlaintext() returns (r: Result<Bytes, Error>)
      modifies this
      ensures (View(), r) == Spec.GetPlaintext(crypto, old(View()))
    {
      if !mayAccessPlaintext {
        return Err(PlaintextDisabled);
      }
      var failed := ComputePlaintext();
      if failed.Some? {
        return Err(failed.value);
      }
      return if plaintext.Some? then Ok(plaintext.value) else Err(NoPlaintextAvailable);
    }

    method GetEncoded(material: Material) returns (r: Result<Bytes, Error>)
      modifies this`encoded
      ensures (View(), r) == Spec.GetEncoded(crypto, old(View()), material)
    {
      var failed := ComputeEncoded(material);
      if failed.Some? {
        return Err(failed.value);
      }
      return if encoded.Some? then Ok(encoded.value) else Err(NoEncodedDataAvailable);
    }

    method GrantAccess(accounts: seq<Account>) returns (failed: Option<Error>)
      modifies this
      ensures (View(), failed) == Spec.GrantAccess(crypto, old(View()), accounts)
    {
      failed := ComputePlaintext();
      if failed.Some? {
        return;
      }
      if !encrypted {
        return Some(AccessManagementNotAllowed);
      }
      encoded := None;
      principals := principals + accounts;
    }

    /** Retains the principals whose key is not `publicKey`. */
    method RevokeAccess(publicKey: Bytes) returns (failed: Option<Error>)
      modifies this
      ensures (View(), failed) == Spec.RevokeAccess(crypto, old(View()), publicKey)
    {
      failed := ComputePlaintext();
      if failed.Some? {
        return;
      }
      if !encrypted {
        return Some(AccessManagementNotAllowed);
      }
      encoded := None;
      var kept := RetainOthers(principals, publicKey);
      principals := kept;
    }

    static method RetainOthers(accounts: seq<Account>, publicKey: Bytes) returns (kept: seq<Account>)
      ensures kept == Spec.Without(accounts, publicKey)
    {
      kept := [];
      for i := 0 to |accounts|
        invariant kept == Spec.Without(accounts[..i], publicKey)
      {
        Spec.WithoutAppend(accounts[..i], accounts[i], publicKey);
        assert accounts[..i + 1] == accounts[..i] + [accounts[i]];
        if accounts[i].publicKey != publicKey {
          kept := kept + [accounts[i]];
        }
      }
      assert accounts[..|accounts|] == accounts;
    }

    method TakeSigningAccount() returns (r: Result<Option<Account>, Error>)
      modifies this`signer
      ensures (View(), r) == Spec.TakeSigningAccount(crypto, old(View()))
    {
      var taken := signer;
      signer := None;
      if taken.None? {
        return Ok(None);
      }
      var publicOnly := AccountFromPublicKey(crypto, taken.value.publicKey);
      if publicOnly.Err? {
        return Err(publicOnly.error);
      }
      signer := Some(publicOnly.value);
      return Ok(taken);
    }

    method VerifySignature(material: Material) returns (r: Result<bool, Error>)
      modifies this
      ensures (View(), r) == Spec.VerifySignature(crypto, old(View()), material)
    {
      var failed := EnsureSignerInfoParsed(material);
      if failed.Some? {
        return Err(failed.value);
      }
      var info := parsedSignerInfo;
      if info.None? {
        return Err(NotSigned);
      }
      var decoded := DecodeFromEncoded();
      if decoded.Err? {
        return Err(decoded.error);
      }
      return Verify(crypto, info.value, decoded.value.compressed);
    }

    // ---- Internal ------------------------------------------------------------

    /** Aligns the encryption state and the principals with the encoded form and
        captures its signature. The principal list is taken before it is merged,
        so a failed merge leaves it empty. */
    method ComputeAndSetKeyInfo(mustBeEncrypted: bool) returns (r: Result<BareContainer, Error>)
      modifies this`encrypted, this`principals, this`parsedSignerInfo
      ensures (View(), r) == Spec.KeyInfo(crypto, old(View()), mustBeEncrypted)
    {
      if encoded.None? {
        return Err(NoEncodedDataAvailable);
      }
      r := Parse(crypto, encoded.value);
      if r.Err? {
        return;
      }
      var bare := r.value;
      if mustBeEncrypted && !bare.body.Encrypted? {
        return Err(EncryptionRequired);
      }
      match bare.body {
        case Encrypted(keyStores, _, _) =>
          if !encrypted {
            return Err(InvalidPrincipals);
          }
          var provided := principals;
          principals := [];
          var merged := MergePrincipals(crypto, keyStores, provided);
          if merged.Err? {
            return Err(merged.error);
          }
          principals := merged.value;
          encrypted := true;
        case Plaintext(_) =>
          encrypted := false;
          principals := [];
      }
      if bare.signerInfo.Some? {
        parsedSignerInfo := bare.signerInfo;
      }
    }

    method ComputePlaintext() returns (failed: Option<Error>)
      modifies this`encrypted, this`principals, this`parsedSignerInfo, this`plaintext
      ensures (View(), failed) == Spec.ComputePlaintext(crypto, old(View()))
    {
      if plaintext.Some? {
        return None;
      }
      var decoded := DecodeFromEncoded();
      if decoded.Err? {
        return Some(decoded.error);
      }
      plaintext := Some(decoded.value.plaintext);
      return None;
    }

    method DecodeFromEncoded() returns (r: Result<DecodedBody, Error>)
      modifies this`encrypted, this`principals, this`parsedSignerInfo
      ensures (View(), r) == Spec.DecodeFromEncoded(crypto, old(View()))
    {
      if encoded.None? {
        return Err(NoEncodedDataAvailable);
      }
      var info := ComputeAndSetKeyInfo(encrypted);
      if info.Err? {
        return Err(info.error);
      }
      var accounts := if info.value.body.Encrypted? then principals else [];
      return DecodeBody(crypto, info.value.body, accounts);
    }

    method ComputeEncoded(material: Material) returns (failed: Option<Error>)
      modifies this`encoded
      ensures (View(), failed) == Spec.ComputeEncoded(crypto, old(View()), material)
    {
      if encoded.Some? {
        return None;
      }
      if plaintext.None? {
        return Some(NoPlaintextAvailable);
      }
      if encrypted && principals == [] {
        return Some(EncryptionRequired);
      }
      var encryption := if encrypted then Some(Encryption(principals, material)) else None;
      match Encode(crypto, plaintext.value, encryption, signer) {
        case Err(e) => return Some(e);
        case Ok(data) => encoded := Some(data);
      }
      return None;
    }

    method EnsureSignerInfoParsed(material: Material) returns (failed: Option<Error>)
      modifies this`encoded, this`parsedSignerInfo
      ensures (View(), failed) == Spec.EnsureSignerInfoParsed(crypto, old(View()), material)
    {
      if parsedSignerInfo.Some? || signer.None? {
        return None;
      }
      failed := ComputeEncoded(material);
      if failed.Some? {
        return;
      }
      if encoded.None? {
        return Some(NoEncodedDataAvailable);
      }
      match Parse(crypto, encoded.value) {
        case Err(e) => return Some(e);
        case Ok(bare) =>
          if bare.signerInfo.Some? {
            parsedSignerInfo := bare.signerInfo;
          }
      }
      return None;
    }
  }
}
