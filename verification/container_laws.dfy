/** What every run of container operations keeps: the two cached forms agree
    with one payload, and the encoded form names exactly the principals. */
module ContainerLaws {
  import opened Wrappers
  import opened ContainerCodec
  import opened Principals
  import opened ContainerSpec

  /** `body` is a sealing of `plaintext`, or opens to it with these principals. */
  ghost predicate Agrees(c: Crypto, body: Body, principals: seq<Account>, plaintext: Bytes) {
    || (exists key :: SealedUnder(c, body, plaintext, key))
    || (DecodeBody(c, body, principals).Ok? && DecodeBody(c, body, principals).value.plaintext == plaintext)
  }

  /** The encoded form parses, its body kind is the `encrypted` flag, and its key
      stores are exactly the principals, in order. */
  ghost predicate Describes(c: Crypto, encoded: Bytes, s: State) {
    var parsed := Parse(c, encoded);
    && parsed.Ok?
    && (parsed.value.body.Encrypted? <==> s.encrypted)
    && (s.encrypted ==> StoreKeys(parsed.value.body.keyStores) == PublicKeys(s.principals))
  }

  ghost predicate Consistent(c: Crypto, s: State) {
    && (s.plaintext.Some? || s.encoded.Some?)
    && (!s.encrypted ==> s.principals == [])
    && (s.signer.Some? ==> c.Real(s.signer.value))
    && (s.encoded.Some? ==> Describes(c, s.encoded.value, s))
    && (s.encoded.Some? && s.plaintext.Some? ==>
          Agrees(c, Parse(c, s.encoded.value).value.body, s.principals, s.plaintext.value))
  }

  /** The one payload the cached forms stand for; None when only an encoded form
      is held that the container's own principals cannot open. */
  ghost function Payload(c: Crypto, s: State): Option<Bytes> {
    if s.plaintext.Some? then s.plaintext
    else if s.encoded.Some? && Parse(c, s.encoded.value).Ok? then
      var r := DecodeBody(c, Parse(c, s.encoded.value).value.body, s.principals);
      if r.Ok? then Some(r.value.plaintext) else None
    else None
  }

  // ---- Opening survives a re-merge ------------------------------------------

  lemma SameAccountsOpenAlike(c: Crypto, body: Body, a: seq<Account>, b: seq<Account>)
    requires multiset(a) == multiset(b)
    ensures DecodeBody(c, body, a) == DecodeBody(c, body, b)
    ensures forall p :: Agrees(c, body, a, p) <==> Agrees(c, body, b, p)
  {
    forall x: Account ensures x in a <==> x in b {
      assert x in a <==> x in multiset(a);
      assert x in b <==> x in multiset(b);
    }
    assert a == [] <==> b == [] by {
      assert |multiset(a)| == |a| && |multiset(b)| == |b|;
    }
    if body.Encrypted? {
      UnwrapDependsOnPrivateKeys(c, body.keyStores, a, b);
    }
  }

  /** Re-reading the key information of a consistent container cannot fail, and
      changes nothing but the order of equal-keyed principals and the parsed
      signature. */
  lemma KeyInfoIsStable(c: Crypto, s: State)
    requires Consistent(c, s) && s.encoded.Some?
    ensures
      var (s', r) := KeyInfo(c, s, s.encrypted);
      && r == Parse(c, s.encoded.value)
      && s' == s.(principals := s'.principals, parsedSignerInfo := s'.parsedSignerInfo)
      && multiset(s'.principals) == multiset(s.principals)
      && PublicKeys(s'.principals) == PublicKeys(s.principals)
      && Consistent(c, s') && Payload(c, s') == Payload(c, s)
  {
    var bare := Parse(c, s.encoded.value).value;
    var (s', r) := KeyInfo(c, s, s.encrypted);
    if s.encrypted {
      RemergePermutes(c, bare.body.keyStores, s.principals);
    }
    SameAccountsOpenAlike(c, bare.body, s.principals, s'.principals);
  }

  lemma DecodeIsStable(c: Crypto, s: State)
    requires Consistent(c, s) && s.encoded.Some?
    ensures
      var (s', r) := DecodeFromEncoded(c, s);
      && s' == KeyInfo(c, s, s.encrypted).0
      && r == DecodeBody(c, Parse(c, s.encoded.value).value.body, s.principals)
  {
    KeyInfoIsStable(c, s);
    var (s', r) := KeyInfo(c, s, s.encrypted);
    SameAccountsOpenAlike(c, r.value.body, s.principals, s'.principals);
  }

  // ---- Each step ------------------------------------------------------------

  ghost predicate Steady(c: Crypto, s: State, s': State) {
    && Consistent(c, s')
    && Payload(c, s') == Payload(c, s)
    && s'.encrypted == s.encrypted
    && multiset(s'.principals) == multiset(s.principals)
    && PublicKeys(s'.principals) == PublicKeys(s.principals)
    && s'.signer == s.signer && s'.mayAccessPlaintext == s.mayAccessPlaintext
  }

  /** Decoding again changes no more than reading the key information does. */
  lemma RereadSteady(c: Crypto, s: State)
    requires Consistent(c, s) && s.encoded.Some?
    ensures
      var (s', r) := DecodeFromEncoded(c, s);
      && Steady(c, s, s') && s'.encoded == s.encoded && s'.plaintext == s.plaintext
      && r == DecodeBody(c, Parse(c, s.encoded.value).value.body, s'.principals)
  {
    KeyInfoIsStable(c, s);
    DecodeIsStable(c, s);
    hide KeyInfo, DecodeFromEncoded, DecodeBody, Consistent, Payload;
    var s' := DecodeFromEncoded(c, s).0;
    SameAccountsOpenAlike(c, Parse(c, s.encoded.value).value.body, s.principals, s'.principals);
  }

  /** Caching what the encoded form opens to keeps the two forms in agreement. */
  lemma CachingOpened(c: Crypto, s: State)
    requires Consistent(c, s) && s.encoded.Some? && s.plaintext.None?
    ensures
      var r := DecodeBody(c, Parse(c, s.encoded.value).value.body, s.principals);
      && (r.Err? ==> Payload(c, s).None?)
      && (r.Ok? ==>
            var s' := s.(plaintext := Some(r.value.plaintext));
            Consistent(c, s') && Payload(c, s) == Payload(c, s') == s'.plaintext)
  {
    hide DecodeBody, Parse;
  }

  lemma ComputePlaintextSteady(c: Crypto, s: State)
    requires c.Ideal() && Consistent(c, s)
    ensures
      var (s', failed) := ComputePlaintext(c, s);
      && Steady(c, s, s') && s'.encoded == s.encoded
      && (failed.None? <==> Payload(c, s).Some?)
      && (failed.None? ==> s'.plaintext == Payload(c, s))
  {
    if s.plaintext.None? {
      RereadSteady(c, s);
      hide Consistent, Payload, DecodeFromEncoded, DecodeBody, Parse;
      CachingOpened(c, DecodeFromEncoded(c, s).0);
    }
  }

  lemma FreshEncodingAgrees(c: Crypto, s: State, m: Material)
    requires c.Ideal() && Consistent(c, s) && s.encoded.None? && EncodeNow(c, s, m).Ok?
    ensures Steady(c, s, s.(encoded := Some(EncodeNow(c, s, m).value)))
    ensures s.encrypted ==>
              SealedUnder(c, Parse(c, EncodeNow(c, s, m).value).value.body, s.plaintext.value, m.key)
  {
    var encryption := if s.encrypted then Some(Encryption(s.principals, m)) else None;
    EncodeThenParse(c, s.plaintext.value, encryption, s.signer);
    var body := Parse(c, EncodeNow(c, s, m).value).value.body;
    if !s.encrypted {
      assert c.unzip(c.zip(s.plaintext.value)) == s.plaintext;
    }
  }

  lemma ComputeEncodedSteady(c: Crypto, s: State, m: Material)
    requires c.Ideal() && Consistent(c, s)
    ensures Steady(c, s, ComputeEncoded(c, s, m).0)
  {
    if s.encoded.None? && EncodeNow(c, s, m).Ok? {
      FreshEncodingAgrees(c, s, m);
    }
  }

  lemma EnsureParsedSteady(c: Crypto, s: State, m: Material)
    requires c.Ideal() && Consistent(c, s)
    ensures Steady(c, s, EnsureSignerInfoParsed(c, s, m).0)
  {
    ComputeEncodedSteady(c, s, m);
  }

  lemma DecodeSteady(c: Crypto, s: State)
    requires Consistent(c, s)
    ensures Steady(c, s, DecodeFromEncoded(c, s).0)
  {
    if s.encoded.Some? {
      RereadSteady(c, s);
    }
  }

  lemma VerifySteady(c: Crypto, s: State, m: Material)
    requires c.Ideal() && Consistent(c, s)
    ensures Steady(c, s, VerifySignature(c, s, m).0)
  {
    hide Consistent, Payload, DecodeFromEncoded, EnsureSignerInfoParsed;
    EnsureParsedSteady(c, s, m);
    DecodeSteady(c, EnsureSignerInfoParsed(c, s, m).0);
  }

  lemma StepKeeps(c: Crypto, s: State, op: Op)
    requires c.Ideal() && Consistent(c, s)
    ensures Consistent(c, Step(c, s, op))
    ensures Payload(c, Step(c, s, op)) == if op.DoSetPlaintext? then Some(op.data) else Payload(c, s)
  {
    match op
    case DoSetPlaintext(data) =>
    case DoDisablePlaintext =>
    case DoGetPlaintext => ComputePlaintextSteady(c, s);
    case DoGetEncoded(m) => ComputeEncodedSteady(c, s, m);
    case DoGrant(accounts) => ComputePlaintextSteady(c, s);
    case DoRevoke(pk) => ComputePlaintextSteady(c, s);
    case DoVerifySignature(m) => VerifySteady(c, s, m);
    case DoTakeSigner =>
  }

  function LastSet(ops: seq<Op>, initial: Option<Bytes>): Option<Bytes>
    decreases |ops|
  {
    if ops == [] then initial
    else LastSet(ops[1..], if ops[0].DoSetPlaintext? then Some(ops[0].data) else initial)
  }

  /** Over every run, failing calls included, the caches stay consistent and the
      payload is the one last set, or else the initial one. */
  lemma {:induction false} RunKeeps(c: Crypto, s: State, ops: seq<Op>)
    requires c.Ideal() && Consistent(c, s)
    ensures Consistent(c, Run(c, s, ops))
    ensures Payload(c, Run(c, s, ops)) == LastSet(ops, Payload(c, s))
    decreases |ops|
  {
    if ops != [] {
      StepKeeps(c, s, ops[0]);
      RunKeeps(c, Step(c, s, ops[0]), ops[1..]);
    }
  }

  // ---- Where a run starts ---------------------------------------------------

  lemma FromPlaintextConsistent(c: Crypto, data: Bytes, principals: Option<seq<Account>>, locked: Option<bool>, signer: Option<Account>)
    requires signer.Some? ==> c.Real(signer.value)
    ensures Consistent(c, FromPlaintext(data, principals, locked, signer))
    ensures Payload(c, FromPlaintext(data, principals, locked, signer)) == Some(data)
  {
  }

  lemma FromEncodedConsistent(c: Crypto, data: Bytes, principals: Option<seq<Account>>)
    ensures FromEncoded(c, data, principals).Ok? ==>
              var s := FromEncoded(c, data, principals).value;
              Consistent(c, s) && s.encoded == Some(data) && s.plaintext.None?
    ensures principals.Some? && FromEncrypted(c, data, principals.value).Ok? ==>
              FromEncoded(c, data, principals) == FromEncrypted(c, data, principals.value)
    ensures principals.Some? ==>
              (FromEncrypted(c, data, principals.value).Ok? <==>
                 FromEncoded(c, data, principals).Ok? && FromEncoded(c, data, principals).value.encrypted)
  {
    var start := New(principals, None).(encoded := Some(data), plaintext := None);
    var (s, r) := KeyInfo(c, start, false);
    if r.Ok? && r.value.body.Encrypted? {
      MergeKeys(c, r.value.body.keyStores, start.principals);
    }
  }

  /** Which blobs are opened, what is refused and why, and the state an opened blob
      leaves. */
  lemma OpensBlobExactly(c: Crypto, data: Bytes, principals: Option<seq<Account>>)
    ensures
      var parsed, r := Parse(c, data), FromEncoded(c, data, principals);
      if parsed.Err? then r == Err(parsed.error)
      else if parsed.value.body.Plaintext? then
        r == Ok(State(false, [], true, None, parsed.value.signerInfo, None, Some(data)))
      else if principals.None? then r == Err(InvalidPrincipals)
      else
        var stores := parsed.value.body.keyStores;
        && (r.Ok? <==> !exists pk :: Unmatched(c, stores, principals.value, pk))
        && (r.Err? ==> r.error == AccountError)
        && (r.Ok? ==>
              && r.value == State(true, r.value.principals, true, None, parsed.value.signerInfo, None, Some(data))
              && PublicKeys(r.value.principals) == StoreKeys(stores)
              && forall pk :: UsesProvided(r.value.principals, principals.value, StoresFor(stores, pk), pk))
  {
    hide Parse, Merge, Unmatched, UsesProvided;
    if Parse(c, data).Ok? && Parse(c, data).value.body.Encrypted? && principals.Some? {
      var stores := Parse(c, data).value.body.keyStores;
      MergeFailsIff(c, stores, principals.value);
      if Merge(c, stores, principals.value).Ok? {
        MergeKeys(c, stores, principals.value);
        forall pk ensures UsesProvided(Merge(c, stores, principals.value).value, principals.value, StoresFor(stores, pk), pk) {
          MergeContract(c, stores, principals.value, pk);
        }
      }
    }
  }

  // ---- Encoding -------------------------------------------------------------

  /** Reading the encoded form succeeds exactly when one is cached or the payload
      can be sealed and signed. What it yields describes the container; encoded
      just now, it opens to the payload exactly for the holders of a principal's
      private key. */
  lemma GetEncodedExactly(c: Crypto, s: State, m: Material, accounts: seq<Account>)
    requires c.Ideal() && Consistent(c, s)
    ensures
      var (s', r) := GetEncoded(c, s, m);
      && (r.Ok? <==>
            || s.encoded.Some?
            || (&& (s.encrypted ==> s.principals != [] && CanSealTo(c, m.key, s.principals))
                && (s.signer.Some? ==> CanSign(c, s.signer.value, c.zip(s.plaintext.value)))))
      && (s.encoded.Some? ==> r == Ok(s.encoded.value))
      && (s.encoded.None? && s.encrypted && s.principals == [] ==> r == Err(EncryptionRequired))
      && (r.Ok? ==> s'.encoded == Some(r.value) && Describes(c, r.value, s'))
      && (r.Ok? && s.encoded.None? && s.encrypted ==>
            var outcome := DecodeBody(c, Parse(c, r.value).value.body, accounts);
            if accounts == [] then outcome == Err(NoKeysProvided)
            else if exists p :: p in s.principals && Account(p.publicKey, true) in accounts
            then outcome.Ok? && Some(outcome.value.plaintext) == Payload(c, s)
            else outcome == Err(NoMatchingKey))
  {
    ComputeEncodedSteady(c, s, m);
    if s.encoded.None? {
      var encryption := if s.encrypted then Some(Encryption(s.principals, m)) else None;
      EncodeThenParse(c, s.plaintext.value, encryption, s.signer);
      if s.encrypted && EncodeNow(c, s, m).Ok? {
        EncodeRoundTrip(c, s.plaintext.value, s.principals, m, s.signer, accounts);
      }
    }
  }

  /** The payload is on hand and a sealed encoding is a sealing of it. */
  ghost predicate Made(c: Crypto, s: State) {
    && s.plaintext.Some?
    && (s.encoded.Some? && s.encrypted ==> SealsPayload(c, s.encoded.value, s.plaintext.value))
  }

  ghost predicate SealsPayload(c: Crypto, encoded: Bytes, payload: Bytes) {
    Parse(c, encoded).Ok? && exists key :: SealedUnder(c, Parse(c, encoded).value.body, payload, key)
  }

  lemma EncodingIsMade(c: Crypto, s: State, m: Material)
    requires c.Ideal() && Consistent(c, s) && Made(c, s)
    ensures Made(c, ComputeEncoded(c, s, m).0)
  {
    hide EncodeNow, SealedUnder;
    if s.encoded.None? && EncodeNow(c, s, m).Ok? {
      FreshEncodingAgrees(c, s, m);
    }
  }

  lemma VerifyKeepsMade(c: Crypto, s: State, m: Material)
    requires c.Ideal() && Consistent(c, s) && Made(c, s)
    ensures Made(c, VerifySignature(c, s, m).0)
  {
    hide Parse, EncodeNow, DecodeFromEncoded, ComputeEncoded, Verify, Consistent, SealsPayload, Payload;
    EncodingIsMade(c, s, m);
    EnsureParsedSteady(c, s, m);
    var s1 := EnsureSignerInfoParsed(c, s, m).0;
    if s1.encoded.Some? { RereadSteady(c, s1); } else { NothingToReread(c, s1); }
  }

  lemma StepKeepsMade(c: Crypto, s: State, op: Op)
    requires c.Ideal() && Consistent(c, s) && Made(c, s)
    ensures Made(c, Step(c, s, op))
  {
    hide Parse, EncodeNow, ComputeEncoded, VerifySignature, DecodeFromEncoded, Consistent, SealsPayload, Payload, Without;
    match op
    case DoGetEncoded(m) => EncodingIsMade(c, s, m);
    case DoVerifySignature(m) => VerifyKeepsMade(c, s, m);
    case _ =>
  }

  lemma NothingToReread(c: Crypto, s: State)
    requires s.encoded.None?
    ensures DecodeFromEncoded(c, s).0 == s
  {
  }

  lemma {:induction false} RunKeepsMade(c: Crypto, s: State, ops: seq<Op>)
    requires c.Ideal() && Consistent(c, s) && Made(c, s)
    ensures Made(c, Run(c, s, ops))
    decreases |ops|
  {
    if ops != [] {
      StepKeeps(c, s, ops[0]);
      StepKeepsMade(c, s, ops[0]);
      RunKeepsMade(c, Step(c, s, ops[0]), ops[1..]);
    }
  }

  /** Of a container built from a payload, every encoding cached after any run
      opens to the payload last set: for anyone if it is not sealed, and if it is,
      for exactly the holders of a current principal's private key. */
  lemma EncodingsOpenForPrincipals(
    c: Crypto, data: Bytes, principals: Option<seq<Account>>, locked: Option<bool>, signer: Option<Account>, ops: seq<Op>,
    accounts: seq<Account>)
    requires c.Ideal() && (signer.Some? ==> c.Real(signer.value))
    ensures
      var end := Run(c, FromPlaintext(data, principals, locked, signer), ops);
      end.encoded.Some? ==>
        && Parse(c, end.encoded.value).Ok?
        && var outcome := DecodeBody(c, Parse(c, end.encoded.value).value.body, accounts);
           if !end.encrypted || exists p :: p in end.principals && Account(p.publicKey, true) in accounts
           then outcome.Ok? && Some(outcome.value.plaintext) == LastSet(ops, Some(data))
           else outcome == Err(if accounts == [] then NoKeysProvided else NoMatchingKey)
  {
    var start := FromPlaintext(data, principals, locked, signer);
    FromPlaintextConsistent(c, data, principals, locked, signer);
    RunKeeps(c, start, ops);
    RunKeepsMade(c, start, ops);
    var end := Run(c, start, ops);
    if end.encoded.Some? {
      OpensForPrincipals(c, end, accounts);
    }
  }

  lemma OpensForPrincipals(c: Crypto, s: State, accounts: seq<Account>)
    requires c.Ideal() && Consistent(c, s) && Made(c, s) && s.encoded.Some?
    ensures
      var outcome := DecodeBody(c, Parse(c, s.encoded.value).value.body, accounts);
      if !s.encrypted || exists p :: p in s.principals && Account(p.publicKey, true) in accounts
      then outcome.Ok? && Some(outcome.value.plaintext) == s.plaintext
      else outcome == Err(if accounts == [] then NoKeysProvided else NoMatchingKey)
  {
    var body := Parse(c, s.encoded.value).value.body;
    if s.encrypted {
      hide Parse, DecodeBody, SealedUnder;
      var key :| SealedUnder(c, body, s.plaintext.value, key);
      OpensExactlyForHolders(c, body, s.plaintext.value, key, accounts);
      HoldersByPrincipal(body.keyStores, s.principals, accounts);
    }
  }

  /** Reading the plaintext succeeds exactly on an unlocked container whose payload
      is on hand or can be opened, and yields that payload. */
  lemma GetPlaintextExactly(c: Crypto, s: State)
    requires c.Ideal() && Consistent(c, s)
    ensures
      var (s', r) := GetPlaintext(c, s);
      && Steady(c, s, s')
      && (r.Ok? <==> s.mayAccessPlaintext && Payload(c, s).Some?)
      && (r.Ok? ==> Some(r.value) == Payload(c, s))
      && (!s.mayAccessPlaintext ==> r == Err(PlaintextDisabled))
  {
    ComputePlaintextSteady(c, s);
  }

  /** After any run, an unlocked container reads as the payload last set. */
  lemma ReadsLastSet(c: Crypto, s: State, ops: seq<Op>)
    requires c.Ideal() && Consistent(c, s) && Run(c, s, ops).mayAccessPlaintext
    ensures
      var payload := LastSet(ops, Payload(c, s));
      && (GetPlaintext(c, Run(c, s, ops)).1.Ok? <==> payload.Some?)
      && (payload.Some? ==> GetPlaintext(c, Run(c, s, ops)).1 == Ok(payload.value))
  {
    RunKeeps(c, s, ops);
    GetPlaintextExactly(c, Run(c, s, ops));
  }

  /** A container just built from a payload is locked when asked to be, or when not
      asked and sealed; else it reads back as that payload. */
  lemma FreshContainerReads(c: Crypto, data: Bytes, principals: Option<seq<Account>>, locked: Option<bool>, signer: Option<Account>)
    ensures GetPlaintext(c, FromPlaintext(data, principals, locked, signer)).1 ==
            if locked == Some(true) || (locked == None && principals != None) then Err(PlaintextDisabled) else Ok(data)
  {
  }

  // ---- Locks and signers ----------------------------------------------------

  lemma RereadKeepsLockAndSigner(c: Crypto, s: State)
    ensures
      var s' := DecodeFromEncoded(c, s).0;
      s'.mayAccessPlaintext == s.mayAccessPlaintext && s'.signer == s.signer
  {
    hide Parse, DecodeBody, Merge;
  }

  /** Only the operations meant to do so touch the lock and the signer. */
  lemma StepKeepsLockAndSigner(c: Crypto, s: State, op: Op)
    ensures Step(c, s, op).mayAccessPlaintext == (s.mayAccessPlaintext && !op.DoDisablePlaintext?)
    ensures !op.DoTakeSigner? ==> Step(c, s, op).signer == s.signer
  {
    hide Parse, EncodeNow, DecodeFromEncoded, Verify, Without;
    match op
    case DoVerifySignature(m) => RereadKeepsLockAndSigner(c, EnsureSignerInfoParsed(c, s, m).0);
    case _ => RereadKeepsLockAndSigner(c, s);
  }

  /** A locked container never yields its plaintext again, whatever happens to it. */
  lemma {:induction false} LockIsForGood(c: Crypto, s: State, ops: seq<Op>)
    requires !s.mayAccessPlaintext
    ensures var end := Run(c, s, ops);
            !end.mayAccessPlaintext && GetPlaintext(c, end) == (end, Err(PlaintextDisabled))
    decreases |ops|
  {
    if ops != [] {
      StepKeepsLockAndSigner(c, s, ops[0]);
      LockIsForGood(c, Step(c, s, ops[0]), ops[1..]);
    }
  }

  lemma {:induction false} RunKeepsPublicSigner(c: Crypto, s: State, ops: seq<Op>)
    requires s.signer.Some? && c.Real(s.signer.value) && !s.signer.value.hasPrivate
    ensures Run(c, s, ops).signer == s.signer
    decreases |ops|
  {
    if ops != [] {
      StepKeepsLockAndSigner(c, s, ops[0]);
      assert s.signer.value == Account(s.signer.value.publicKey, false);
      RunKeepsPublicSigner(c, Step(c, s, ops[0]), ops[1..]);
    }
  }

  /** A signer that is no account is dropped, and without one there is none to take. */
  lemma InvalidSignerIsDropped(c: Crypto, s: State)
    requires s.signer.Some? ==> !c.Real(s.signer.value)
    ensures TakeSigningAccount(c, s) == (s.(signer := None), if s.signer.Some? then Err(AccountError) else Ok(None))
  {
  }

  /** The signing key is handed out once. Over every run after that the container
      still names its signer, but can sign no new encoding. */
  lemma SignerTakenOnce(c: Crypto, s: State, ops: seq<Op>, m: Material)
    requires s.signer.Some? && c.Real(s.signer.value)
    ensures
      var (taken, first) := TakeSigningAccount(c, s);
      var end := Run(c, taken, ops);
      var publicOnly := Some(Account(s.signer.value.publicKey, false));
      && first == Ok(s.signer)
      && TakeSigningAccount(c, end) == (end, Ok(publicOnly))
      && (end.encoded.None? ==> GetEncoded(c, end, m).1.Err?)
  {
    var taken := TakeSigningAccount(c, s).0;
    RunKeepsPublicSigner(c, taken, ops);
    hide SealBody;
  }
}
