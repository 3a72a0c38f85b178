/** Where the container falls short of its documentation, each with the exact
    condition under which it does not: signatures after a payload change, and
    private keys hidden behind public-only duplicates. */
module ContainerSignatures {
  import opened Wrappers
  import opened ContainerCodec
  import opened Principals
  import opened ContainerSpec
  import opened ContainerLaws

  // ---- Verification ---------------------------------------------------------

  /** `info` is a well-formed signature over the compressed bytes `data`. */
  ghost predicate SignsOver(c: Crypto, info: SignerInfo, data: Bytes) {
    Verify(c, info, data) == Ok(true)
  }

  /** With a signature on hand, verification reports whether the bytes it covers
      are the bytes now stored. */
  lemma VerifiesIffStillStored(c: Crypto, s: State, m: Material, signed: Bytes)
    requires c.Ideal() && c.Unforgeable() && Consistent(c, s) && s.encoded.Some?
    requires s.parsedSignerInfo.Some? && SignsOver(c, s.parsedSignerInfo.value, signed)
    requires DecodeBody(c, Parse(c, s.encoded.value).value.body, s.principals).Ok?
    ensures VerifySignature(c, s, m).1 ==
            Ok(signed == DecodeBody(c, Parse(c, s.encoded.value).value.body, s.principals).value.compressed)
  {
    DecodeIsStable(c, s);
  }

  /** A changed container whose signature was parsed before has nothing encoded
      to verify against until it is encoded again. */
  lemma VerifyNeedsEncoding(c: Crypto, s: State, m: Material)
    requires s.parsedSignerInfo.Some? && s.encoded.None?
    ensures VerifySignature(c, s, m) == (s, Err(NoEncodedDataAvailable))
  {
  }

  /** Some principal of a sealed container holds its private key. */
  predicate OpensOwn(s: State) {
    s.encrypted ==> exists a :: a in s.principals && a.hasPrivate
  }

  /** What a signed encoding made now holds. */
  lemma SignedNow(c: Crypto, s: State, m: Material)
    requires c.Ideal() && Consistent(c, s) && s.encoded.None? && s.signer.Some? && OpensOwn(s)
    requires EncodeNow(c, s, m).Ok?
    ensures
      var bare := Parse(c, EncodeNow(c, s, m).value).value;
      var compressed := c.zip(s.plaintext.value);
      && bare.signerInfo.Some? && SignsOver(c, bare.signerInfo.value, compressed)
      && DecodeBody(c, bare.body, s.principals) == Ok(DecodedBody(compressed, s.plaintext.value))
  {
    var encryption := if s.encrypted then Some(Encryption(s.principals, m)) else None;
    EncodeThenParse(c, s.plaintext.value, encryption, s.signer);
    if s.encrypted {
      var a :| a in s.principals && a.hasPrivate;
      assert a == Account(a.publicKey, true);
      EncodeRoundTrip(c, s.plaintext.value, s.principals, m, s.signer, s.principals);
    } else {
      assert c.unzip(c.zip(s.plaintext.value)) == s.plaintext;
    }
    SignatureSurvivesTransport(c, s.plaintext.value, encryption, s.signer.value, s.principals);
  }

  /** One verification with both forms on hand: it judges the signature it holds,
      and leaves with the signature of the encoded form. */
  lemma VerifyTurn(c: Crypto, s: State, m: Material, signed: Bytes)
    requires c.Ideal() && c.Unforgeable() && Consistent(c, s) && s.encoded.Some?
    requires s.parsedSignerInfo.Some? && SignsOver(c, s.parsedSignerInfo.value, signed)
    requires Parse(c, s.encoded.value).value.signerInfo.Some?
    requires DecodeBody(c, Parse(c, s.encoded.value).value.body, s.principals).Ok?
    ensures
      var bare := Parse(c, s.encoded.value).value;
      var outcome := DecodeBody(c, bare.body, s.principals);
      var (s', r) := VerifySignature(c, s, m);
      && r == Ok(signed == outcome.value.compressed)
      && Consistent(c, s') && s'.encoded == s.encoded && s'.parsedSignerInfo == bare.signerInfo
      && DecodeBody(c, bare.body, s'.principals) == outcome
  {
    VerifiesIffStillStored(c, s, m, signed);
    VerifySteady(c, s, m);
    DecodeIsStable(c, s);
    SameAccountsOpenAlike(c, Parse(c, s.encoded.value).value.body, s.principals, VerifySignature(c, s, m).0.principals);
  }

  /** Without a signer and without a signature there is nothing to verify. */
  lemma UnsignedIsNotVerified(c: Crypto, s: State, m: Material)
    requires !IsSigned(s)
    ensures VerifySignature(c, s, m) == (s, Err(NotSigned))
  {
  }

  /** The first verification of a container that signs and opens its own payload
      succeeds. */
  lemma FirstVerificationSucceeds(c: Crypto, s: State, m: Material)
    requires c.Ideal() && Consistent(c, s)
    requires s.parsedSignerInfo.None? && s.encoded.None? && s.signer.Some? && OpensOwn(s)
    requires EncodeNow(c, s, m).Ok?
    ensures VerifySignature(c, s, m).1 == Ok(true)
    ensures VerifySignature(c, s, m).0.parsedSignerInfo == Parse(c, EncodeNow(c, s, m).value).value.signerInfo
    ensures VerifySignature(c, s, m).0.encoded == Some(EncodeNow(c, s, m).value)
  {
    var e := EncodeNow(c, s, m).value;
    FreshEncodingAgrees(c, s, m);
    SignedNow(c, s, m);
    var s1 := s.(encoded := Some(e), parsedSignerInfo := Parse(c, e).value.signerInfo);
    assert EnsureSignerInfoParsed(c, s, m) == (s1, None);
    assert Consistent(c, s1);
    DecodeIsStable(c, s1);
    KeyInfoIsStable(c, s1);
  }

  lemma SealsAlike(c: Crypto, key: Bytes, a: seq<Account>, b: seq<Account>)
    requires multiset(a) == multiset(b)
    ensures CanSealTo(c, key, a) <==> CanSealTo(c, key, b)
    ensures a == [] <==> b == []
    ensures forall x :: x in a <==> x in b
  {
    forall x ensures x in a <==> x in b {
      assert x in a <==> x in multiset(a);
      assert x in b <==> x in multiset(b);
    }
    assert |multiset(a)| == |a| && |multiset(b)| == |b|;
  }

  lemma EncodesNow(c: Crypto, s: State, m: Material)
    requires c.Ideal() && s.plaintext.Some?
    requires s.encrypted ==> s.principals != [] && CanSealTo(c, m.key, s.principals)
    requires s.signer.Some? ==> CanSign(c, s.signer.value, c.zip(s.plaintext.value))
    ensures EncodeNow(c, s, m).Ok?
  {
    EncodeThenParse(c, s.plaintext.value, if s.encrypted then Some(Encryption(s.principals, m)) else None, s.signer);
  }

  /** Verify, change the payload, encode, verify, on any signing container that can
      be sealed and opened: the second answer is about the signature parsed before
      the change, so it is true exactly when the payload did not change; asking
      once more gives true either way. */
  lemma StaleSignature(
    c: Crypto, signer: Account, principals: Option<seq<Account>>, locked: Option<bool>, p: Bytes, q: Bytes, m: Material, n: Material)
    requires c.Ideal() && c.Unforgeable() && c.Real(signer)
    requires CanSign(c, signer, c.zip(p)) && CanSign(c, signer, c.zip(q))
    requires principals.Some? ==>
      && CanSealTo(c, m.key, principals.value) && CanSealTo(c, n.key, principals.value)
      && exists a :: a in principals.value && a.hasPrivate
    ensures
      var s0 := FromPlaintext(p, principals, locked, Some(signer));
      var (s1, first) := VerifySignature(c, s0, m);
      var (s2, _) := GetEncoded(c, SetPlaintext(s1, q), n);
      var (s3, second) := VerifySignature(c, s2, n);
      var (_, third) := VerifySignature(c, s3, n);
      first == Ok(true) && second == Ok(p == q) && third == Ok(true)
  {
    var s0 := FromPlaintext(p, principals, locked, Some(signer));
    FromPlaintextConsistent(c, p, principals, locked, Some(signer));
    hide VerifySignature, Consistent, Payload, SignsOver, DecodeBody, EncodeNow, Parse, CanSign, CanSealTo;
    EncodesNow(c, s0, m);
    FirstVerificationSucceeds(c, s0, m);
    SignedNow(c, s0, m);
    VerifySteady(c, s0, m);
    var changed := SetPlaintext(VerifySignature(c, s0, m).0, q);
    StepKeeps(c, VerifySignature(c, s0, m).0, DoSetPlaintext(q));
    SealsAlike(c, n.key, s0.principals, changed.principals);
    EncodesNow(c, changed, n);
    SignedNow(c, changed, n);
    FreshEncodingAgrees(c, changed, n);
    var s2 := GetEncoded(c, changed, n).0;
    assert s2 == changed.(encoded := Some(EncodeNow(c, changed, n).value));
    VerifyTurn(c, s2, n, c.zip(p));
    assert c.unzip(c.zip(p)) == Some(p) && c.unzip(c.zip(q)) == Some(q);
    VerifyTurn(c, VerifySignature(c, s2, n).0, n, c.zip(q));
  }

  /** A fresh encoding carries a signature exactly when a signer is attached, so
      `is_signed` foretells it except for a container that holds only a parsed
      signature: re-encoding that one drops the signature. */
  lemma ReencodingKeepsSignatureIff(c: Crypto, s: State, m: Material)
    requires c.Ideal() && Consistent(c, s) && s.encoded.None? && EncodeNow(c, s, m).Ok?
    ensures
      var signed := Parse(c, EncodeNow(c, s, m).value).value.signerInfo.Some?;
      && (signed <==> s.signer.Some?)
      && ((IsSigned(s) <==> signed) <==> !(s.signer.None? && s.parsedSignerInfo.Some?))
  {
    var encryption := if s.encrypted then Some(Encryption(s.principals, m)) else None;
    EncodeThenParse(c, s.plaintext.value, encryption, s.signer);
  }

  lemma StepKeepsParsed(c: Crypto, s: State, op: Op)
    requires s.parsedSignerInfo.Some?
    ensures Step(c, s, op).parsedSignerInfo.Some?
  {
    hide Parse, DecodeBody, EncodeNow, Merge, Verify, Without;
  }

  lemma {:induction false} RunKeepsParsed(c: Crypto, s: State, ops: seq<Op>)
    requires s.signer.None? && s.parsedSignerInfo.Some?
    ensures Run(c, s, ops).signer.None? && Run(c, s, ops).parsedSignerInfo.Some?
    decreases |ops|
  {
    if ops != [] {
      StepKeepsLockAndSigner(c, s, ops[0]);
      StepKeepsParsed(c, s, ops[0]);
      RunKeepsParsed(c, Step(c, s, ops[0]), ops[1..]);
    }
  }

  predicate ParsesAs(c: Crypto, encoded: Bytes, signed: bool) {
    Parse(c, encoded).Ok? && Parse(c, encoded).value.signerInfo.Some? == signed
  }

  /** A signed blob, reopened: over every run it counts as signed, yet whatever is
      encoded anew, after a grant, a revocation or a new payload, carries no
      signature. */
  lemma ReopenedNeverSignsAgain(c: Crypto, blob: Bytes, accounts: Option<seq<Account>>, ops: seq<Op>, m: Material)
    requires c.Ideal() && FromEncoded(c, blob, accounts).Ok? && ParsesAs(c, blob, true)
    ensures
      var end := Run(c, FromEncoded(c, blob, accounts).value, ops);
      && IsSigned(end)
      && (end.encoded.None? && GetEncoded(c, end, m).1.Ok? ==>
            ParsesAs(c, GetEncoded(c, end, m).1.value, false) && IsSigned(GetEncoded(c, end, m).0))
  {
    var start := FromEncoded(c, blob, accounts).value;
    FromEncodedConsistent(c, blob, accounts);
    RunKeepsParsed(c, start, ops);
    RunKeeps(c, start, ops);
    var end := Run(c, start, ops);
    ComputeEncodedSteady(c, end, m);
    if end.encoded.None? && EncodeNow(c, end, m).Ok? {
      ReencodingKeepsSignatureIff(c, end, m);
    }
  }

  /** The shortest such run: a signed payload is encoded, reopened, replaced and
      encoded again. */
  lemma ReplacingDropsSignature(c: Crypto, signer: Account, p: Bytes, q: Bytes, m: Material)
    requires c.Ideal() && CanSign(c, signer, c.zip(p))
    ensures
      var blob := Encode(c, p, None, Some(signer));
      && blob.Ok? && FromEncoded(c, blob.value, None).Ok?
      && var reopened := FromEncoded(c, blob.value, None).value;
         var (end, again) := GetEncoded(c, SetPlaintext(reopened, q), m);
         ParsesAs(c, blob.value, true) && again.Ok? && ParsesAs(c, again.value, false) && IsSigned(end)
  {
    EncodeThenParse(c, p, None, Some(signer));
    EncodeThenParse(c, q, None, None);
  }

  // ---- Retained private keys ------------------------------------------------

  function Copies<T>(x: T, n: nat): (r: seq<T>)
    ensures |r| == n && forall i :: 0 <= i < n ==> r[i] == x
  {
    seq(n, i => x)
  }

  lemma {:induction false} CountCopies<T>(x: T, n: nat, y: T)
    ensures multiset(Copies(x, n))[y] == if x == y then n else 0
  {
    if n > 0 {
      CountCopies(x, n - 1, y);
      assert Copies(x, n) == [x] + Copies(x, n - 1);
      assert multiset(Copies(x, n)) == multiset{x} + multiset(Copies(x, n - 1));
    }
  }

  /** `f` public-only and `t` private-keyed accounts of one key, arranged so that
      swap-removal always brings a public-only one to the front. */
  function Mixed(pk: Bytes, f: nat, t: nat): seq<Account> {
    if f == 0 then Copies(Account(pk, true), t)
    else [Account(pk, false)] + Copies(Account(pk, true), t) + Copies(Account(pk, false), f - 1)
  }

  lemma CountMixed(pk: Bytes, f: nat, t: nat)
    ensures multiset(Mixed(pk, f, t))[Account(pk, false)] == f
    ensures multiset(Mixed(pk, f, t))[Account(pk, true)] == t
  {
    CountCopies(Account(pk, true), t, Account(pk, true));
    CountCopies(Account(pk, true), t, Account(pk, false));
    if f > 0 {
      CountCopies(Account(pk, false), f - 1, Account(pk, true));
      CountCopies(Account(pk, false), f - 1, Account(pk, false));
      assert multiset(Mixed(pk, f, t)) ==
        multiset{Account(pk, false)} + multiset(Copies(Account(pk, true), t)) + multiset(Copies(Account(pk, false), f - 1));
    }
  }

  lemma SwapRemoveMixed(pk: Bytes, f: nat, t: nat)
    requires f > 1
    ensures SwapRemove(Mixed(pk, f, t), 0) == Mixed(pk, f - 1, t)
  {
    var s := Mixed(pk, f, t);
    var last := |s| - 1;
    assert s[last] == Account(pk, false);
    assert s[0 := s[last]][..last] == Mixed(pk, f - 1, t);
  }

  lemma {:induction false} DuplicatesHidePrivateKeys(c: Crypto, store: KeyStore, n: nat, f: nat, t: nat)
    requires n <= f
    ensures Merge(c, Copies(store, n), Mixed(store.publicKey, f, t)) == Ok(Copies(Account(store.publicKey, false), n))
  {
    var pk := store.publicKey;
    if n > 0 {
      var mixed := Mixed(pk, f, t);
      assert mixed[0] == Account(pk, false);
      assert Position(mixed, pk) == Some(0);
      assert Copies(store, n)[1..] == Copies(store, n - 1);
      assert Copies(Account(pk, false), n) == [Account(pk, false)] + Copies(Account(pk, false), n - 1);
      if n > 1 {
        SwapRemoveMixed(pk, f, t);
        DuplicatesHidePrivateKeys(c, store, n - 1, f - 1, t);
      } else {
        assert Merge(c, Copies(store, 0), SwapRemove(mixed, 0)) == Ok([]);
        assert Copies(Account(pk, false), 0) == [];
      }
    }
  }

  /** Opening a blob with `n` stores for a key, given `t` private-keyed and `f`
      public-only accounts of that key: some private key is retained, however the
      accounts are arranged, exactly when the public-only ones are fewer than the
      stores. */
  lemma PrivateKeyRetainedIff(c: Crypto, pk: Bytes, n: nat, f: nat, t: nat)
    requires t > 0
    ensures
      (forall stores, provided ::
         && StoresFor(stores, pk) == n
         && multiset(provided)[Account(pk, false)] == f && multiset(provided)[Account(pk, true)] == t
         && Merge(c, stores, provided).Ok?
         ==> Account(pk, true) in Merge(c, stores, provided).value)
      <==> f < n
  {
    if f < n {
      forall stores, provided |
        && StoresFor(stores, pk) == n
        && multiset(provided)[Account(pk, false)] == f && multiset(provided)[Account(pk, true)] == t
        && Merge(c, stores, provided).Ok?
        ensures Account(pk, true) in Merge(c, stores, provided).value
      {
        MergeContract(c, stores, provided, pk);
        assert Account(pk, true) in multiset(Merge(c, stores, provided).value);
      }
    } else {
      var store := KeyStore(pk, []);
      var stores, provided := Copies(store, n), Mixed(pk, f, t);
      DuplicatesHidePrivateKeys(c, store, n, f, t);
      CountMixed(pk, f, t);
      assert StoreKeys(stores) == Copies(pk, n);
      CountCopies(pk, n, pk);
      assert Merge(c, stores, provided).Ok?;
      assert Account(pk, true) !in Merge(c, stores, provided).value;
    }
  }
}
