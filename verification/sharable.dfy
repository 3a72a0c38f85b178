/** Sharable bundles: contents sealed to a throw-away principal, then shared by
    granting and revoking recipients before each export. */
module Sharable {
  import opened Wrappers
  import opened ContainerCodec
  import opened Principals
  import opened ContainerSpec
  import Spec = ContainerSpec
  import opened ContainerLaws
  import opened ContainerAccess
  import Container

  const ZLIB_MAGIC: byte := 0x78

  datatype SharableError = NoPrincipals | ContainerError(error: Error)

  // ---- Specification --------------------------------------------------------

  function SealWithTransient(c: Crypto, data: Bytes, transient: Account, m: Material): Result<State, Error> {
    match GetEncoded(c, FromPlaintext(data, Some([transient]), Some(true), None), m).1
    case Err(e) => Err(e)
    case Ok(encoded) =>
      match FromEncrypted(c, encoded, [transient])
      case Err(e) => Err(e)
      case Ok(s) =>
        var (s', failed) := RevokeAccess(c, s, transient.publicKey);
        if failed.Some? then Err(failed.value) else Ok(s')
  }

  function Export(c: Crypto, s: State, m: Material): (State, Result<Bytes, SharableError>) {
    if !s.encrypted || |s.principals| == 0 then (s, Err(NoPrincipals))
    else
      var (s', r) := GetEncoded(c, s, m);
      (s', if r.Ok? then Ok(r.value) else Err(ContainerError(r.error)))
  }

  // Legacy contents were zlib-wrapped; modern contents are plain JSON.
  function MaybeInflate(c: Crypto, data: Bytes): Bytes {
    if data == [] || data[0] != ZLIB_MAGIC then data
    else match c.unzip(data) case Some(inflated) => inflated case None => data
  }

  /** What one recipient reads from a bundle. */
  function ReadBundle(c: Crypto, encoded: Bytes, recipient: Account): Result<Bytes, Error> {
    match FromEncoded(c, encoded, Some([recipient]))
    case Err(e) => Err(e)
    case Ok(s) => match GetPlaintext(c, s).1 case Err(e) => Err(e) case Ok(data) => Ok(MaybeInflate(c, data))
  }

  datatype ShareOp =
    | Grant(accounts: seq<Account>)
    | Revoke(publicKey: Bytes)
    | ExportWith(material: Material)
    | ReadContents

  function ShareStep(c: Crypto, s: State, op: ShareOp): State {
    match op
    case Grant(accounts) => GrantAccess(c, s, accounts).0
    case Revoke(pk) => RevokeAccess(c, s, pk).0
    case ExportWith(m) => Export(c, s, m).0
    case ReadContents => GetPlaintext(c, s).0
  }

  function ShareRun(c: Crypto, s: State, ops: seq<ShareOp>): State
    decreases |ops|
  {
    if ops == [] then s else ShareRun(c, ShareStep(c, s, ops[0]), ops[1..])
  }

  // ---- Laws -----------------------------------------------------------------

  /** Sealing yields an openable container with the contents on hand, no
      recipient, and nothing encoded. */
  lemma SealedState(c: Crypto, data: Bytes, transient: Account, m: Material)
    requires c.Ideal() && transient.hasPrivate && CanSealTo(c, m.key, [transient])
    ensures SealWithTransient(c, data, transient, m) == Ok(State(true, [], true, None, None, Some(data), None))
  {
    var s0 := FromPlaintext(data, Some([transient]), Some(true), None);
    var encryption := Some(Encryption([transient], m));
    EncodeThenParse(c, data, encryption, None);
    var e := Encode(c, data, encryption, None).value;
    assert GetEncoded(c, s0, m).1 == Ok(e);
    var bare := Parse(c, e).value;
    var stores := bare.body.keyStores;
    assert PublicKeys([transient]) == [transient.publicKey];
    RemergePermutes(c, stores, [transient]);
    var merged := Merge(c, stores, [transient]).value;
    assert merged == [transient] by {
      assert |merged| == |StoreKeys(stores)| == 1;
      assert multiset(merged) == multiset{merged[0]} by { assert merged == [merged[0]]; }
      assert merged[0] in multiset([transient]);
    }
    var s := FromEncrypted(c, e, [transient]).value;
    EncodeRoundTrip(c, data, [transient], m, None, [transient]);
    assert transient in [transient] && Account(transient.publicKey, true) in [transient];
    FromEncodedConsistent(c, e, Some([transient]));
    DecodeIsStable(c, s);
    KeyInfoIsStable(c, s);
    var s1 := ComputePlaintext(c, s).0;
    assert |s1.principals| == 1 && s1.principals[0].publicKey == transient.publicKey by {
      assert PublicKeys(s1.principals)[0] == transient.publicKey;
    }
    assert Without(s1.principals, transient.publicKey) == [] by {
      assert s1.principals[1..] == [];
    }
  }

  /** The contents are in hand and every cached encoding is a sealing of them to
      the current, existing recipients. */
  ghost predicate Sharing(c: Crypto, s: State, data: Bytes) {
    && Consistent(c, s)
    && s.encrypted && s.mayAccessPlaintext && s.signer.None? && s.plaintext == Some(data)
    && (forall a :: a in s.principals ==> c.Real(a))
    && (s.encoded.Some? ==> s.principals != [] && SealsPayload(c, s.encoded.value, data))
  }

  ghost predicate GrantsOnlyReal(c: Crypto, op: ShareOp) {
    op.Grant? ==> forall a :: a in op.accounts ==> c.Real(a)
  }

  lemma ExportStep(c: Crypto, s: State, data: Bytes, m: Material)
    requires c.Ideal() && Sharing(c, s, data)
    ensures Sharing(c, Export(c, s, m).0, data)
    ensures Export(c, s, m).0 == s.(encoded := Export(c, s, m).0.encoded)
    ensures Export(c, s, m).1.Ok? <==> s.principals != [] && (s.encoded.Some? || CanSealTo(c, m.key, s.principals))
    ensures Export(c, s, m).1.Ok? ==>
              SealsPayload(c, Export(c, s, m).1.value, data) && Describes(c, Export(c, s, m).1.value, s)
  {
    if s.principals != [] {
      ComputeEncodedSteady(c, s, m);
      GetEncodedExactly(c, s, m, []);
      if s.encoded.None? && EncodeNow(c, s, m).Ok? {
        FreshEncodingAgrees(c, s, m);
      }
    }
  }

  lemma ShareStepKeeps(c: Crypto, s: State, data: Bytes, op: ShareOp)
    requires c.Ideal() && Sharing(c, s, data) && GrantsOnlyReal(c, op)
    ensures Sharing(c, ShareStep(c, s, op), data)
  {
    match op
    case Grant(accounts) => StepKeeps(c, s, DoGrant(accounts));
    case Revoke(pk) => StepKeeps(c, s, DoRevoke(pk));
    case ExportWith(m) => ExportStep(c, s, data, m);
    case ReadContents =>
  }

  lemma {:induction false} ShareRunKeeps(c: Crypto, s: State, data: Bytes, ops: seq<ShareOp>)
    requires c.Ideal() && Sharing(c, s, data) && forall op :: op in ops ==> GrantsOnlyReal(c, op)
    ensures Sharing(c, ShareRun(c, s, ops), data)
    decreases |ops|
  {
    if ops != [] {
      assert ops[0] in ops && forall op :: op in ops[1..] ==> op in ops;
      ShareStepKeeps(c, s, data, ops[0]);
      ShareRunKeeps(c, ShareStep(c, s, ops[0]), data, ops[1..]);
    }
  }

  lemma {:induction false} ShareRunKeys(c: Crypto, s: State, data: Bytes, ops: seq<ShareOp>, pk: Bytes)
    requires c.Ideal() && Sharing(c, s, data) && forall op :: op in ops ==> GrantsOnlyReal(c, op)
    requires pk !in PublicKeys(s.principals)
    requires forall op :: op in ops && op.Grant? ==> pk !in PublicKeys(op.accounts)
    ensures pk !in PublicKeys(ShareRun(c, s, ops).principals)
    decreases |ops|
  {
    if ops != [] {
      assert ops[0] in ops && forall op :: op in ops[1..] ==> op in ops;
      ShareStepKeeps(c, s, data, ops[0]);
      match ops[0] {
        case Grant(accounts) => StepKeys(c, s, DoGrant(accounts));
        case Revoke(other) => StepKeys(c, s, DoRevoke(other));
        case ExportWith(m) => ExportStep(c, s, data, m);
        case ReadContents =>
      }
      ShareRunKeys(c, ShareStep(c, s, ops[0]), data, ops[1..], pk);
    }
  }

  /** A bundle names its recipients, so any one of them alone is accepted and
      keeps its private key. */
  lemma RecipientAccepted(c: Crypto, encoded: Bytes, s: State, recipient: Account)
    requires s.encrypted && Describes(c, encoded, s)
    requires forall a :: a in s.principals ==> c.Real(a)
    requires recipient in s.principals && recipient.hasPrivate
    ensures FromEncoded(c, encoded, Some([recipient])).Ok?
    ensures recipient in FromEncoded(c, encoded, Some([recipient])).value.principals
    ensures HoldsPrivateKeyFor(Parse(c, encoded).value.body.keyStores, [recipient])
  {
    var stores, pk := Parse(c, encoded).value.body.keyStores, recipient.publicKey;
    hide Parse, Merge;
    forall k | k in StoreKeys(stores) ensures c.validKey(k) {
      var i :| 0 <= i < |stores| && StoreKeys(stores)[i] == k;
      assert s.principals[i] in s.principals && PublicKeys(s.principals)[i] == k;
    }
    MergeFailsIff(c, stores, [recipient]);
    assert forall k :: StoresFor(stores, k) > 0 ==> k in StoreKeys(stores);
    var n :| 0 <= n < |s.principals| && s.principals[n] == recipient;
    assert StoreKeys(stores)[n] == PublicKeys(s.principals)[n] == pk;
    assert pk in StoreKeys(stores);
    MergeContract(c, stores, [recipient], pk);
    assert recipient == Account(pk, true);
    assert multiset([recipient])[Account(pk, true)] == 1 && multiset([recipient])[Account(pk, false)] == 0;
    assert Account(pk, true) in multiset(Merge(c, stores, [recipient]).value);
    assert stores[n].publicKey == pk;
  }

  /** A recipient reopens an exported bundle, on its own, to the contents. */
  lemma RecipientReopens(c: Crypto, encoded: Bytes, s: State, data: Bytes, recipient: Account)
    requires c.Ideal() && s.encrypted && SealsPayload(c, encoded, data) && Describes(c, encoded, s)
    requires forall a :: a in s.principals ==> c.Real(a)
    requires recipient in s.principals && recipient.hasPrivate
    ensures FromEncoded(c, encoded, Some([recipient])).Ok?
    ensures GetPlaintext(c, FromEncoded(c, encoded, Some([recipient])).value).1 == Ok(data)
    ensures ReadBundle(c, encoded, recipient) == Ok(MaybeInflate(c, data))
  {
    RecipientAccepted(c, encoded, s, recipient);
    hide Parse, DecodeBody, Merge, SealedUnder, MaybeInflate;
    var body, reopened := Parse(c, encoded).value.body, FromEncoded(c, encoded, Some([recipient])).value;
    FromEncodedConsistent(c, encoded, Some([recipient]));
    DecodeIsStable(c, reopened);
    var key :| SealedUnder(c, body, data, key);
    OpensExactlyForHolders(c, body, data, key, reopened.principals);
    var i :| 0 <= i < |body.keyStores| && Account(body.keyStores[i].publicKey, true) in [recipient];
    assert Account(body.keyStores[i].publicKey, true) in reopened.principals;
  }

  // ---- Legacy contents ------------------------------------------------------

  /** White space, or the first byte of an object, array, string, number, true,
      false or null (section 2 of RFC 8259). */
  predicate StartsJsonText(b: byte) {
    b in {0x20, 0x09, 0x0A, 0x0D, 0x7B, 0x5B, 0x22, 0x2D, 0x74, 0x66, 0x6E} || 0x30 <= b <= 0x39
  }

  /** A zlib stream of something else. */
  predicate IsWrapped(c: Crypto, contents: Bytes) {
    contents != [] && contents[0] == ZLIB_MAGIC && c.unzip(contents).Some? && c.unzip(contents) != Some(contents)
  }

  /** Contents are read as they were sealed exactly when they are no zlib stream of
      something else. JSON text never is one, nor are bytes that start like one
      but do not inflate; wrapped contents are unwrapped. */
  lemma InflateChangesIff(c: Crypto, contents: Bytes)
    requires c.Ideal()
    ensures MaybeInflate(c, contents) == contents <==> !IsWrapped(c, contents)
    ensures contents == [] || StartsJsonText(contents[0]) ==> !IsWrapped(c, contents)
    ensures c.zip(contents) != [] && c.zip(contents)[0] == ZLIB_MAGIC ==> MaybeInflate(c, c.zip(contents)) == contents
  {
    assert c.unzip(c.zip(contents)) == Some(contents);
  }

  /** After sealing with a transient principal, over any run of grants, revokes,
      exports and reads that never grants the transient key: export succeeds
      exactly when there is a recipient to seal to, the transient key is in no
      bundle, and every current private-keyed recipient reopens it, and reads the
      very contents exactly when they are no zlib stream of something else. */
  lemma SharedBundles(c: Crypto, data: Bytes, transient: Account, m: Material, ops: seq<ShareOp>, m': Material)
    requires c.Ideal() && transient.hasPrivate && CanSealTo(c, m.key, [transient])
    requires forall op :: op in ops ==> GrantsOnlyReal(c, op)
    requires forall op :: op in ops && op.Grant? ==> transient.publicKey !in PublicKeys(op.accounts)
    ensures SealWithTransient(c, data, transient, m).Ok?
    ensures
      var s := ShareRun(c, SealWithTransient(c, data, transient, m).value, ops);
      var bundle := Export(c, s, m').1;
      && (bundle.Ok? <==> s.principals != [] && (s.encoded.Some? || CanSealTo(c, m'.key, s.principals)))
      && (s.principals == [] ==> bundle == Err(NoPrincipals))
      && (bundle.Ok? ==> Parse(c, bundle.value).Ok? && Parse(c, bundle.value).value.body.Encrypted?
                         && transient.publicKey !in StoreKeys(Parse(c, bundle.value).value.body.keyStores))
      && (bundle.Ok? ==> forall a :: a in s.principals && a.hasPrivate ==>
            && FromEncoded(c, bundle.value, Some([a])).Ok?
            && GetPlaintext(c, FromEncoded(c, bundle.value, Some([a])).value).1 == Ok(data)
            && (ReadBundle(c, bundle.value, a) == Ok(data) <==> !IsWrapped(c, data)))
  {
    InflateChangesIff(c, data);
    SealedState(c, data, transient, m);
    var s0 := SealWithTransient(c, data, transient, m).value;
    ShareRunKeeps(c, s0, data, ops);
    ShareRunKeys(c, s0, data, ops, transient.publicKey);
    var s := ShareRun(c, s0, ops);
    ExportStep(c, s, data, m');
    var bundle := Export(c, s, m').1;
    if bundle.Ok? {
      forall a | a in s.principals && a.hasPrivate
        ensures FromEncoded(c, bundle.value, Some([a])).Ok?
        ensures GetPlaintext(c, FromEncoded(c, bundle.value, Some([a])).value).1 == Ok(data)
        ensures ReadBundle(c, bundle.value, a) == Ok(data) <==> !IsWrapped(c, data)
      {
        RecipientReopens(c, bundle.value, s, data, a);
      }
    }
  }

  // ---- Granted recipients ---------------------------------------------------

  lemma ShareStepKeepsRecipient(c: Crypto, s: State, data: Bytes, op: ShareOp, a: Account)
    requires c.Ideal() && Sharing(c, s, data) && a in s.principals && op != Revoke(a.publicKey)
    ensures a in ShareStep(c, s, op).principals
  {
    hide Consistent, GrantAccess, RevokeAccess, GetPlaintext, Export, SealsPayload, PublicKeys;
    match op {
      case Grant(accounts) => StepKeepsPrincipal(c, s, DoGrant(accounts), a);
      case Revoke(pk) => StepKeepsPrincipal(c, s, DoRevoke(pk), a);
      case ExportWith(m) => ExportStep(c, s, data, m);
      case ReadContents => StepKeepsPrincipal(c, s, DoGetPlaintext, a);
    }
  }

  lemma {:induction false} RecipientStays(c: Crypto, s: State, data: Bytes, ops: seq<ShareOp>, a: Account)
    requires c.Ideal() && Sharing(c, s, data) && forall op :: op in ops ==> GrantsOnlyReal(c, op)
    requires a in s.principals && Revoke(a.publicKey) !in ops
    ensures a in ShareRun(c, s, ops).principals
    decreases |ops|
  {
    if ops != [] {
      assert ops[0] in ops && forall op :: op in ops[1..] ==> op in ops;
      ShareStepKeeps(c, s, data, ops[0]);
      ShareStepKeepsRecipient(c, s, data, ops[0], a);
      RecipientStays(c, ShareStep(c, s, ops[0]), data, ops[1..], a);
    }
  }

  lemma {:induction false} ShareRunInTwo(c: Crypto, s: State, front: seq<ShareOp>, back: seq<ShareOp>)
    ensures ShareRun(c, s, front + back) == ShareRun(c, ShareRun(c, s, front), back)
    decreases |front|
  {
    if front == [] {
      assert front + back == back;
    } else {
      assert (front + back)[0] == front[0] && (front + back)[1..] == front[1..] + back;
      ShareRunInTwo(c, ShareStep(c, s, front[0]), front[1..], back);
    }
  }

  lemma GrantAddsRecipient(c: Crypto, s: State, data: Bytes, accounts: seq<Account>, a: Account)
    requires c.Ideal() && Sharing(c, s, data) && a in accounts
    ensures a in ShareStep(c, s, Grant(accounts)).principals
  {
    hide Consistent, GrantAccess, PublicKeys, SealsPayload;
    assert Made(c, s);
    GrantAddsTo(c, s, accounts, a);
  }

  /** Whoever is granted access at any point, and not revoked after, is a recipient
      of every later bundle and, with the private key, reads the contents from it. */
  lemma GrantedRecipientReads(
    c: Crypto, data: Bytes, transient: Account, m: Material, before: seq<ShareOp>, accounts: seq<Account>, after: seq<ShareOp>,
    a: Account, m': Material)
    requires c.Ideal() && transient.hasPrivate && CanSealTo(c, m.key, [transient])
    requires forall op :: op in before + [Grant(accounts)] + after ==> GrantsOnlyReal(c, op)
    requires a in accounts && Revoke(a.publicKey) !in after
    ensures SealWithTransient(c, data, transient, m).Ok?
    ensures
      var s := ShareRun(c, SealWithTransient(c, data, transient, m).value, before + [Grant(accounts)] + after);
      var bundle := Export(c, s, m').1;
      && a in s.principals
      && (bundle.Ok? <==> s.encoded.Some? || CanSealTo(c, m'.key, s.principals))
      && (bundle.Ok? && a.hasPrivate ==> ReadBundle(c, bundle.value, a) == Ok(MaybeInflate(c, data)))
  {
    hide Sharing, SealsPayload, Describes, Export, ShareStep, ReadBundle, MaybeInflate, SealWithTransient;
    SealedState(c, data, transient, m);
    var s0 := SealWithTransient(c, data, transient, m).value;
    SealedIsSharing(c, data);
    var grant := Grant(accounts);
    var ops := before + [grant] + after;
    assert forall op :: op in before || op in after || op == grant ==> op in ops;
    var s1 := ShareRun(c, s0, before);
    ShareRunKeeps(c, s0, data, before);
    GrantAddsRecipient(c, s1, data, accounts, a);
    ShareStepKeeps(c, s1, data, grant);
    RecipientStays(c, ShareStep(c, s1, grant), data, after, a);
    assert [grant][1..] == [] && ShareRun(c, s1, [grant]) == ShareStep(c, s1, grant);
    ShareRunInTwo(c, s0, before, [grant]);
    ShareRunInTwo(c, s0, before + [grant], after);
    ShareRunKeeps(c, s0, data, ops);
    var s := ShareRun(c, s0, ops);
    BundleFor(c, s, data, a, m');
  }

  lemma SealedIsSharing(c: Crypto, data: Bytes)
    ensures Sharing(c, State(true, [], true, None, None, Some(data), None), data)
  {
  }

  lemma BundleFor(c: Crypto, s: State, data: Bytes, a: Account, m: Material)
    requires c.Ideal() && Sharing(c, s, data) && a in s.principals
    ensures
      var bundle := Export(c, s, m).1;
      && (bundle.Ok? <==> s.encoded.Some? || CanSealTo(c, m.key, s.principals))
      && (bundle.Ok? && a.hasPrivate ==> ReadBundle(c, bundle.value, a) == Ok(MaybeInflate(c, data)))
  {
    hide SealsPayload, Describes, Export, ReadBundle, MaybeInflate, Consistent;
    ExportStep(c, s, data, m);
    var bundle := Export(c, s, m).1;
    if bundle.Ok? && a.hasPrivate {
      RecipientReopens(c, bundle.value, s, data, a);
    }
  }

  // ---- The object -----------------------------------------------------------

  class SharableAttributes {
    const container: Container.EncryptedContainer

    constructor (container: Container.EncryptedContainer)
      ensures this.container == container
    {
      this.container := container;
    }

    static method Seal(crypto: Crypto, data: Bytes, transient: Account, material: Material)
      returns (r: Result<SharableAttributes, Error>)
      ensures r.Ok? ==> fresh(r.value) && fresh(r.value.container) && r.value.container.crypto == crypto
      ensures (if r.Ok? then Ok(r.value.container.View()) else Err(r.error)) == SealWithTransient(crypto, data, transient, material)
    {
      var sealing := new Container.EncryptedContainer.FromPlaintext(crypto, data, Some([transient]), Some(true), None);
      var encoded := sealing.GetEncoded(material);
      if encoded.Err? {
        return Err(encoded.error);
      }
      var container := Container.EncryptedContainer.FromEncrypted(crypto, encoded.value, [transient]);
      if container.Err? {
        return Err(container.error);
      }
      var failed := container.value.RevokeAccess(transient.publicKey);
      if failed.Some? {
        return Err(failed.value);
      }
      var sharable := new SharableAttributes(container.value);
      return Ok(sharable);
    }

    method GrantAccess(accounts: seq<Account>) returns (failed: Option<Error>)
      modifies container
      ensures (container.View(), failed) == Spec.GrantAccess(container.crypto, old(container.View()), accounts)
    {
      failed := container.GrantAccess(accounts);
    }

    method RevokeAccess(publicKey: Bytes) returns (failed: Option<Error>)
      modifies container
      ensures (container.View(), failed) == Spec.RevokeAccess(container.crypto, old(container.View()), publicKey)
    {
      failed := container.RevokeAccess(publicKey);
    }

    method ExportBundle(material: Material) returns (r: Result<Bytes, SharableError>)
      modifies container
      ensures (container.View(), r) == Export(container.crypto, old(container.View()), material)
    {
      var principals := container.GetPrincipals();
      var count := if principals.Ok? then |principals.value| else 0;
      if count == 0 {
        return Err(NoPrincipals);
      }
      var encoded := container.GetEncoded(material);
      return if encoded.Ok? then Ok(encoded.value) else Err(ContainerError(encoded.error));
    }
  }
}
