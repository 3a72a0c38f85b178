/** Who can open a container over its runs: granting adds exactly the accounts
    given, revoking takes exactly one key away, and nothing else does either. */
module ContainerAccess {
  import opened Wrappers
  import opened ContainerCodec
  import opened Principals
  import opened ContainerSpec
  import opened ContainerLaws

  // ---- Granting -------------------------------------------------------------

  /** A grant succeeds exactly on a sealed container whose payload is on hand or can
      be opened; the accounts then follow the principals there were. */
  lemma GrantExactly(c: Crypto, s: State, accounts: seq<Account>)
    requires c.Ideal() && Consistent(c, s)
    ensures
      var (s', failed) := GrantAccess(c, s, accounts);
      && (failed.None? <==> Payload(c, s).Some? && s.encrypted)
      && (failed.None? ==>
            && s'.encoded.None? && s'.plaintext == Payload(c, s)
            && multiset(s'.principals) == multiset(s.principals) + multiset(accounts)
            && PublicKeys(s'.principals) == PublicKeys(s.principals) + PublicKeys(accounts)
            && s'.principals[|s.principals|..] == accounts)
      && (failed.Some? ==> Steady(c, s, s') && s'.encoded == s.encoded)
      && (Payload(c, s).Some? && !s.encrypted ==> failed == Some(AccessManagementNotAllowed))
  {
    ComputePlaintextSteady(c, s);
    hide Consistent, Payload, ComputePlaintext;
    var s1 := ComputePlaintext(c, s).0;
    AppendedKeys(s1.principals, accounts);
    assert |s1.principals| == |PublicKeys(s1.principals)| == |PublicKeys(s.principals)| == |s.principals|;
  }

  lemma AppendedKeys(a: seq<Account>, b: seq<Account>)
    ensures PublicKeys(a + b) == PublicKeys(a) + PublicKeys(b)
    ensures multiset(a + b) == multiset(a) + multiset(b)
  {
  }

  function OtherKeys(keys: seq<Bytes>, pk: Bytes): seq<Bytes> {
    if keys == [] then []
    else (if keys[0] == pk then [] else [keys[0]]) + OtherKeys(keys[1..], pk)
  }

  lemma {:induction false} WithoutKeepsOrder(accounts: seq<Account>, pk: Bytes)
    ensures PublicKeys(Without(accounts, pk)) == OtherKeys(PublicKeys(accounts), pk)
  {
    hide PublicKeys;
    NoKeys();
    if accounts != [] {
      var first, rest := accounts[0], accounts[1..];
      WithoutKeepsOrder(rest, pk);
      assert accounts == [first] + rest;
      PublicKeysCons(first, rest);
      PublicKeysCons(first, Without(rest, pk));
      var keys := PublicKeys(accounts);
      assert keys[0] == first.publicKey && keys[1..] == PublicKeys(rest);
    }
  }

  lemma NoKeys()
    ensures PublicKeys([]) == []
  {
  }

  lemma {:induction false} WithoutCounts(accounts: seq<Account>, pk: Bytes, a: Account)
    ensures multiset(Without(accounts, pk))[a] == if a.publicKey == pk then 0 else multiset(accounts)[a]
  {
    if accounts != [] {
      var first, rest := accounts[0], accounts[1..];
      WithoutCounts(rest, pk, a);
      assert accounts == [first] + rest;
      assert multiset([first] + rest) == multiset{first} + multiset(rest);
      assert multiset([first] + Without(rest, pk)) == multiset{first} + multiset(Without(rest, pk));
    }
  }

  /** A revocation succeeds under the same condition; exactly the accounts of other
      keys stay, their keys in order. */
  lemma RevokeExactly(c: Crypto, s: State, pk: Bytes)
    requires c.Ideal() && Consistent(c, s)
    ensures
      var (s', failed) := RevokeAccess(c, s, pk);
      && (failed.None? <==> Payload(c, s).Some? && s.encrypted)
      && (failed.None? ==>
            && s'.encoded.None? && s'.plaintext == Payload(c, s)
            && PublicKeys(s'.principals) == OtherKeys(PublicKeys(s.principals), pk)
            && forall a: Account :: multiset(s'.principals)[a] == if a.publicKey == pk then 0 else multiset(s.principals)[a])
      && (failed.Some? ==> Steady(c, s, s') && s'.encoded == s.encoded)
      && (Payload(c, s).Some? && !s.encrypted ==> failed == Some(AccessManagementNotAllowed))
  {
    ComputePlaintextSteady(c, s);
    hide Consistent, Payload, ComputePlaintext;
    var s1 := ComputePlaintext(c, s).0;
    WithoutKeepsOrder(s1.principals, pk);
    forall a: Account ensures multiset(Without(s1.principals, pk))[a] == if a.publicKey == pk then 0 else multiset(s.principals)[a] {
      WithoutCounts(s1.principals, pk, a);
    }
  }

  lemma Members(a: seq<Account>, b: seq<Account>, x: Account)
    requires multiset(a)[x] <= multiset(b)[x]
    ensures x in a ==> x in b
  {
    assert x in a <==> x in multiset(a);
    assert x in b <==> x in multiset(b);
  }

  /** No step but the revocation of its key takes a principal away. */
  lemma StepKeepsPrincipal(c: Crypto, s: State, op: Op, a: Account)
    requires c.Ideal() && Consistent(c, s) && a in s.principals && op != DoRevoke(a.publicKey)
    ensures a in Step(c, s, op).principals
  {
    hide Consistent, Payload, GrantAccess, RevokeAccess, VerifySignature, GetPlaintext, GetEncoded, TakeSigningAccount, PublicKeys;
    match op {
      case DoGetPlaintext => GetPlaintextExactly(c, s);
      case DoGetEncoded(m) => GetEncodedSteady(c, s, m);
      case DoGrant(accounts) => GrantExactly(c, s, accounts);
      case DoRevoke(pk) => RevokeExactly(c, s, pk);
      case DoVerifySignature(m) => VerifySteady(c, s, m);
      case DoTakeSigner => TakingKeepsPrincipals(c, s);
      case _ =>
    }
    Members(s.principals, Step(c, s, op).principals, a);
  }

  lemma GetEncodedSteady(c: Crypto, s: State, m: Material)
    requires c.Ideal() && Consistent(c, s)
    ensures Steady(c, s, GetEncoded(c, s, m).0)
  {
    ComputeEncodedSteady(c, s, m);
  }

  lemma TakingKeepsPrincipals(c: Crypto, s: State)
    ensures TakeSigningAccount(c, s).0.principals == s.principals
  {
  }

  /** Over every run without its revocation a principal stays one. */
  lemma {:induction false} PrincipalStays(c: Crypto, s: State, ops: seq<Op>, a: Account)
    requires c.Ideal() && Consistent(c, s) && a in s.principals && DoRevoke(a.publicKey) !in ops
    ensures a in Run(c, s, ops).principals
    decreases |ops|
  {
    if ops != [] {
      assert ops[0] in ops && forall op :: op in ops[1..] ==> op in ops;
      StepKeeps(c, s, ops[0]);
      StepKeepsPrincipal(c, s, ops[0], a);
      PrincipalStays(c, Step(c, s, ops[0]), ops[1..], a);
    }
  }

  lemma {:induction false} RunInTwo(c: Crypto, s: State, front: seq<Op>, back: seq<Op>)
    ensures Run(c, s, front + back) == Run(c, Run(c, s, front), back)
    decreases |front|
  {
    if front == [] {
      assert front + back == back;
    } else {
      assert (front + back)[0] == front[0] && (front + back)[1..] == front[1..] + back;
      RunInTwo(c, Step(c, s, front[0]), front[1..], back);
    }
  }

  lemma StepKeepsSealed(c: Crypto, s: State, op: Op)
    requires c.Ideal() && Consistent(c, s)
    ensures Step(c, s, op).encrypted == s.encrypted
  {
    hide Consistent, Payload, VerifySignature, ComputePlaintext, ComputeEncoded;
    match op {
      case DoGetPlaintext => ComputePlaintextSteady(c, s);
      case DoGetEncoded(m) => ComputeEncodedSteady(c, s, m);
      case DoGrant(_) => ComputePlaintextSteady(c, s);
      case DoRevoke(_) => ComputePlaintextSteady(c, s);
      case DoVerifySignature(m) => VerifySteady(c, s, m);
      case _ =>
    }
  }

  lemma {:induction false} RunKeepsSealed(c: Crypto, s: State, ops: seq<Op>)
    requires c.Ideal() && Consistent(c, s)
    ensures Run(c, s, ops).encrypted == s.encrypted
    decreases |ops|
  {
    if ops != [] {
      StepKeeps(c, s, ops[0]);
      StepKeepsSealed(c, s, ops[0]);
      RunKeepsSealed(c, Step(c, s, ops[0]), ops[1..]);
    }
  }

  /** An account granted at any point of a run on a sealed container, and not revoked
      after, is a principal at the end, and whoever holds its private key opens
      what is then cached. */
  lemma GrantedOpensLater(
    c: Crypto, data: Bytes, principals: seq<Account>, locked: Option<bool>, signer: Option<Account>, before: seq<Op>,
    accounts: seq<Account>, after: seq<Op>, a: Account, holders: seq<Account>)
    requires c.Ideal() && (signer.Some? ==> c.Real(signer.value))
    requires a in accounts && DoRevoke(a.publicKey) !in after && Account(a.publicKey, true) in holders
    ensures
      var ops := before + [DoGrant(accounts)] + after;
      var end := Run(c, FromPlaintext(data, Some(principals), locked, signer), ops);
      && a in end.principals
      && (end.encoded.Some? ==>
            && Parse(c, end.encoded.value).Ok?
            && DecodeBody(c, Parse(c, end.encoded.value).value.body, holders).Ok?
            && Some(DecodeBody(c, Parse(c, end.encoded.value).value.body, holders).value.plaintext) == LastSet(ops, Some(data)))
  {
    hide Consistent, Payload, Made, Step, DecodeBody, Parse, FromPlaintext, GrantAccess, PublicKeys;
    var start := FromPlaintext(data, Some(principals), locked, signer);
    FreshContainer(c, data, principals, locked, signer);
    var s := Run(c, start, before);
    RunKeeps(c, start, before);
    RunKeepsMade(c, start, before);
    RunKeepsSealed(c, start, before);
    GrantAddsTo(c, s, accounts, a);
    var granted := Step(c, s, DoGrant(accounts));
    StepKeeps(c, s, DoGrant(accounts));
    PrincipalStays(c, granted, after, a);
    assert Run(c, s, [DoGrant(accounts)]) == granted by {
      assert [DoGrant(accounts)][1..] == [];
    }
    RunInTwo(c, start, before, [DoGrant(accounts)]);
    RunInTwo(c, start, before + [DoGrant(accounts)], after);
    EncodingsOpenForPrincipals(c, data, Some(principals), locked, signer, before + [DoGrant(accounts)] + after, holders);
  }

  lemma FreshContainer(c: Crypto, data: Bytes, principals: seq<Account>, locked: Option<bool>, signer: Option<Account>)
    requires signer.Some? ==> c.Real(signer.value)
    ensures var s := FromPlaintext(data, Some(principals), locked, signer);
            Consistent(c, s) && Made(c, s) && s.encrypted && s.principals == principals
  {
  }

  lemma GrantAddsTo(c: Crypto, s: State, accounts: seq<Account>, a: Account)
    requires c.Ideal() && Consistent(c, s) && Made(c, s) && s.encrypted && a in accounts
    ensures a in Step(c, s, DoGrant(accounts)).principals
  {
    hide Consistent, Payload, GrantAccess, PublicKeys, SealsPayload;
    MadeHoldsPayload(c, s);
    GrantExactly(c, s, accounts);
    Members(accounts, GrantAccess(c, s, accounts).0.principals, a);
  }

  lemma MadeHoldsPayload(c: Crypto, s: State)
    requires Made(c, s)
    ensures Payload(c, s) == s.plaintext && s.plaintext.Some?
  {
  }

  // ---- Revocation -----------------------------------------------------------

  ghost predicate Excludes(c: Crypto, s: State, pk: Bytes) {
    && pk !in PublicKeys(s.principals)
    && (s.encoded.Some? && Parse(c, s.encoded.value).Ok? && Parse(c, s.encoded.value).value.body.Encrypted? ==>
          pk !in StoreKeys(Parse(c, s.encoded.value).value.body.keyStores))
  }

  ghost predicate Grants(ops: seq<Op>, pk: Bytes) {
    exists op :: op in ops && op.DoGrant? && pk in PublicKeys(op.accounts)
  }

  lemma WithoutKeys(accounts: seq<Account>, pk: Bytes)
    ensures forall k :: k in PublicKeys(Without(accounts, pk)) ==> k != pk && k in PublicKeys(accounts)
  {
    var kept := Without(accounts, pk);
    forall k | k in PublicKeys(kept) ensures k != pk && k in PublicKeys(accounts) {
      var i :| 0 <= i < |kept| && PublicKeys(kept)[i] == k;
      assert kept[i] in kept;
      var j :| 0 <= j < |accounts| && accounts[j] == kept[i];
      assert PublicKeys(accounts)[j] == k;
    }
  }

  lemma RevokeExcludes(c: Crypto, s: State, pk: Bytes)
    requires c.Ideal() && Consistent(c, s) && RevokeAccess(c, s, pk).1.None?
    ensures Consistent(c, RevokeAccess(c, s, pk).0) && Excludes(c, RevokeAccess(c, s, pk).0, pk)
  {
    StepKeeps(c, s, DoRevoke(pk));
    ComputePlaintextSteady(c, s);
    WithoutKeys(ComputePlaintext(c, s).0.principals, pk);
  }

  lemma ExclusionFromPrincipals(c: Crypto, s: State, pk: Bytes)
    requires Consistent(c, s) && pk !in PublicKeys(s.principals)
    ensures Excludes(c, s, pk)
  {
  }

  /** No step but a grant brings a new key into the principal list. */
  lemma StepKeys(c: Crypto, s: State, op: Op)
    requires c.Ideal() && Consistent(c, s)
    ensures forall k :: k in PublicKeys(Step(c, s, op).principals) ==>
              k in PublicKeys(s.principals) || (op.DoGrant? && k in PublicKeys(op.accounts))
  {
    hide Consistent, Payload, Parse, DecodeBody, EncodeNow, DecodeFromEncoded, Verify, Without, PublicKeys;
    match op {
      case DoGetPlaintext => ComputePlaintextSteady(c, s);
      case DoGetEncoded(m) => ComputeEncodedSteady(c, s, m);
      case DoVerifySignature(m) => VerifySteady(c, s, m);
      case DoGrant(accounts) =>
        ComputePlaintextSteady(c, s);
        var s1 := ComputePlaintext(c, s).0;
        AppendedKeys(s1.principals, accounts);
      case DoRevoke(other) =>
        ComputePlaintextSteady(c, s);
        WithoutKeys(ComputePlaintext(c, s).0.principals, other);
      case _ =>
    }
  }

  lemma StepExcludes(c: Crypto, s: State, op: Op, pk: Bytes)
    requires c.Ideal() && Consistent(c, s) && Excludes(c, s, pk)
    requires op.DoGrant? ==> pk !in PublicKeys(op.accounts)
    ensures Consistent(c, Step(c, s, op)) && Excludes(c, Step(c, s, op), pk)
  {
    StepKeeps(c, s, op);
    StepKeys(c, s, op);
    ExclusionFromPrincipals(c, Step(c, s, op), pk);
  }

  /** A revoked key is in no later encoding until it is granted again. */
  lemma {:induction false} RevokedStaysOut(c: Crypto, s: State, ops: seq<Op>, pk: Bytes)
    requires c.Ideal() && Consistent(c, s) && Excludes(c, s, pk) && !Grants(ops, pk)
    ensures Consistent(c, Run(c, s, ops)) && Excludes(c, Run(c, s, ops), pk)
    decreases |ops|
  {
    if ops != [] {
      assert ops[0] in ops && forall op :: op in ops[1..] ==> op in ops;
      StepExcludes(c, s, ops[0], pk);
      RevokedStaysOut(c, Step(c, s, ops[0]), ops[1..], pk);
    }
  }
}
