/** merge_principals: rebuilding a principal list from a blob's key stores while
    keeping the private keys the caller provided. */
module Principals {
  import opened Wrappers
  import opened ContainerCodec

  function SwapRemove<T>(s: seq<T>, i: nat): (r: seq<T>)
    requires i < |s|
    ensures |r| == |s| - 1
  {
    var last := |s| - 1;
    if i == last then s[..last] else s[i := s[last]][..last]
  }

  lemma SwapRemoveContents<T>(s: seq<T>, i: nat)
    requires i < |s|
    ensures multiset(SwapRemove(s, i)) == multiset(s) - multiset{s[i]}
  {
    var last := |s| - 1;
    assert s == s[..last] + [s[last]];
    if i < last {
      var front := s[..last];
      assert s[i := s[last]][..last] == front[i := s[last]];
    }
  }

  /** The first account of key `pk`. */
  function Position(accounts: seq<Account>, pk: Bytes): (r: Option<nat>)
    ensures r.Some? ==> r.value < |accounts| && accounts[r.value].publicKey == pk
    ensures r.Some? ==> forall i :: 0 <= i < r.value ==> accounts[i].publicKey != pk
    ensures r.None? ==> forall i :: 0 <= i < |accounts| ==> accounts[i].publicKey != pk
  {
    if accounts == [] then None
    else if accounts[0].publicKey == pk then Some(0)
    else match Position(accounts[1..], pk) case None => None case Some(i) => Some(i + 1)
  }

  function Merge(c: Crypto, stores: seq<KeyStore>, provided: seq<Account>): Result<seq<Account>, Error> {
    if stores == [] then Ok([])
    else
      var pk := stores[0].publicKey;
      match Position(provided, pk)
      case Some(i) => Before([provided[i]], Merge(c, stores[1..], SwapRemove(provided, i)))
      case None =>
        match AccountFromPublicKey(c, pk)
        case Err(e) => Err(e)
        case Ok(a) => Before([a], Merge(c, stores[1..], provided))
  }

  function Before(front: seq<Account>, r: Result<seq<Account>, Error>): Result<seq<Account>, Error> {
    match r case Err(e) => Err(e) case Ok(rest) => Ok(front + rest)
  }

  lemma BeforeTwice(a: seq<Account>, b: seq<Account>, r: Result<seq<Account>, Error>)
    ensures Before(a, Before(b, r)) == Before(a + b, r)
    ensures Before([], r) == r
  {
    if r.Ok? {
      assert a + (b + r.value) == a + b + r.value && [] + r.value == r.value;
    }
  }

  method MergePrincipals(c: Crypto, stores: seq<KeyStore>, provided: seq<Account>) returns (r: Result<seq<Account>, Error>)
    ensures r == Merge(c, stores, provided)
  {
    var remaining, merged := provided, [];
    BeforeTwice([], [], Merge(c, stores, provided));
    for n := 0 to |stores|
      invariant Merge(c, stores, provided) == Before(merged, Merge(c, stores[n..], remaining))
    {
      var pk := stores[n].publicKey;
      assert stores[n..][0] == stores[n] && stores[n..][1..] == stores[n + 1..];
      match Position(remaining, pk) {
        case Some(i) =>
          BeforeTwice(merged, [remaining[i]], Merge(c, stores[n + 1..], SwapRemove(remaining, i)));
          merged := merged + [remaining[i]];
          remaining := SwapRemove(remaining, i);
        case None =>
          var account := AccountFromPublicKey(c, pk);
          if account.Err? {
            return Err(account.error);
          }
          BeforeTwice(merged, [account.value], Merge(c, stores[n + 1..], remaining));
          merged := merged + [account.value];
      }
    }
    assert merged + [] == merged;
    return Ok(merged);
  }

  // ---- What a merge keeps ---------------------------------------------------

  function StoresFor(stores: seq<KeyStore>, pk: Bytes): nat {
    multiset(StoreKeys(stores))[pk]
  }

  function AccountsFor(accounts: seq<Account>, pk: Bytes): nat {
    multiset(accounts)[Account(pk, true)] + multiset(accounts)[Account(pk, false)]
  }

  lemma {:induction false} NoPosition(accounts: seq<Account>, pk: Bytes)
    ensures Position(accounts, pk).None? <==> AccountsFor(accounts, pk) == 0
  {
    match Position(accounts, pk)
    case Some(i) => assert accounts[i] in multiset(accounts);
    case None =>
      assert Account(pk, true) !in accounts && Account(pk, false) !in accounts;
  }

  lemma StoresForTail(stores: seq<KeyStore>, pk: Bytes)
    requires stores != []
    ensures StoresFor(stores, pk) == StoresFor(stores[1..], pk) + if stores[0].publicKey == pk then 1 else 0
  {
    StoreKeysCons(stores);
    CountCons(stores[0].publicKey, StoreKeys(stores[1..]), pk);
  }

  lemma AccountsForCons(a: Account, rest: seq<Account>, pk: Bytes)
    ensures multiset([a] + rest) == multiset{a} + multiset(rest)
    ensures AccountsFor([a] + rest, pk) == AccountsFor(rest, pk) + if a.publicKey == pk then 1 else 0
  {
    assert a == Account(a.publicKey, a.hasPrivate);
  }

  lemma PublicKeysCons(a: Account, rest: seq<Account>)
    ensures PublicKeys([a] + rest) == [a.publicKey] + PublicKeys(rest)
  {
  }

  lemma StoreKeysCons(stores: seq<KeyStore>)
    requires stores != []
    ensures StoreKeys(stores) == [stores[0].publicKey] + StoreKeys(stores[1..])
  {
  }

  lemma {:induction false} MergeKeys(c: Crypto, stores: seq<KeyStore>, provided: seq<Account>)
    requires Merge(c, stores, provided).Ok?
    ensures PublicKeys(Merge(c, stores, provided).value) == StoreKeys(stores)
  {
    if stores != [] {
      hide StoreKeys, PublicKeys;
      StoreKeysCons(stores);
      var k := stores[0].publicKey;
      match Position(provided, k)
      case Some(i) =>
        MergeKeys(c, stores[1..], SwapRemove(provided, i));
        PublicKeysCons(provided[i], Merge(c, stores[1..], SwapRemove(provided, i)).value);
      case None =>
        MergeKeys(c, stores[1..], provided);
        PublicKeysCons(Account(k, false), Merge(c, stores[1..], provided).value);
    }
  }

  /** Per key, a merged list uses as many provided accounts as it can, each at
      most once, and every other entry is public-only. */
  ghost predicate UsesProvided(merged: seq<Account>, provided: seq<Account>, n: nat, pk: Bytes) {
    var p := AccountsFor(provided, pk);
    && AccountsFor(merged, pk) == n
    && (p <= n ==> multiset(merged)[Account(pk, true)] == multiset(provided)[Account(pk, true)])
    && (p > n ==>
          && multiset(merged)[Account(pk, true)] <= multiset(provided)[Account(pk, true)]
          && multiset(merged)[Account(pk, false)] <= multiset(provided)[Account(pk, false)])
  }

  lemma UsesMatched(provided: seq<Account>, i: nat, rest: seq<Account>, n: nat, pk: Bytes)
    requires i < |provided| && UsesProvided(rest, SwapRemove(provided, i), n, pk)
    ensures UsesProvided([provided[i]] + rest, provided, n + if provided[i].publicKey == pk then 1 else 0, pk)
  {
    SwapRemoveContents(provided, i);
    var a := provided[i];
    assert a in multiset(provided) && a == Account(a.publicKey, a.hasPrivate);
    AccountsForCons(a, rest, pk);
  }

  lemma UsesPublicOnly(provided: seq<Account>, k: Bytes, rest: seq<Account>, n: nat, pk: Bytes)
    requires AccountsFor(provided, k) == 0 && UsesProvided(rest, provided, n, pk)
    ensures UsesProvided([Account(k, false)] + rest, provided, n + if k == pk then 1 else 0, pk)
  {
    AccountsForCons(Account(k, false), rest, pk);
  }

  lemma {:induction false} MergeContract(c: Crypto, stores: seq<KeyStore>, provided: seq<Account>, pk: Bytes)
    requires Merge(c, stores, provided).Ok?
    ensures UsesProvided(Merge(c, stores, provided).value, provided, StoresFor(stores, pk), pk)
  {
    if stores != [] {
      hide UsesProvided, StoresFor, AccountsFor, SwapRemove;
      var k := stores[0].publicKey;
      StoresForTail(stores, pk);
      NoPosition(provided, k);
      match Position(provided, k)
      case Some(i) =>
        var rest := SwapRemove(provided, i);
        MergeContract(c, stores[1..], rest, pk);
        UsesMatched(provided, i, Merge(c, stores[1..], rest).value, StoresFor(stores[1..], pk), pk);
      case None =>
        MergeContract(c, stores[1..], provided, pk);
        UsesPublicOnly(provided, k, Merge(c, stores[1..], provided).value, StoresFor(stores[1..], pk), pk);
    }
  }

  ghost predicate Unmatched(c: Crypto, stores: seq<KeyStore>, provided: seq<Account>, pk: Bytes) {
    !c.validKey(pk) && StoresFor(stores, pk) > AccountsFor(provided, pk)
  }

  lemma UnmatchedStep(c: Crypto, stores: seq<KeyStore>, provided: seq<Account>, pk: Bytes)
    requires stores != []
    ensures
      var k := stores[0].publicKey;
      match Position(provided, k) {
        case Some(i) => Unmatched(c, stores, provided, pk) <==> Unmatched(c, stores[1..], SwapRemove(provided, i), pk)
        case None =>
          Unmatched(c, stores, provided, pk) <==> Unmatched(c, stores[1..], provided, pk) || (pk == k && !c.validKey(k))
      }
  {
    var k := stores[0].publicKey;
    StoresForTail(stores, pk);
    NoPosition(provided, k);
    match Position(provided, k)
    case Some(i) =>
      SwapRemoveContents(provided, i);
      assert provided[i] in multiset(provided) && provided[i] == Account(k, provided[i].hasPrivate);
    case None =>
  }

  /** Merging fails exactly when some store key that is no public key outnumbers
      the provided accounts for it. */
  lemma {:induction false} MergeFailsIff(c: Crypto, stores: seq<KeyStore>, provided: seq<Account>)
    ensures Merge(c, stores, provided).Err? <==> exists pk :: Unmatched(c, stores, provided, pk)
    ensures Merge(c, stores, provided).Err? ==> Merge(c, stores, provided).error == AccountError
  {
    if stores != [] {
      var k := stores[0].publicKey;
      match Position(provided, k)
      case Some(i) =>
        var rest := SwapRemove(provided, i);
        MergeFailsIff(c, stores[1..], rest);
        forall pk ensures Unmatched(c, stores, provided, pk) <==> Unmatched(c, stores[1..], rest, pk) {
          UnmatchedStep(c, stores, provided, pk);
        }
      case None =>
        MergeFailsIff(c, stores[1..], provided);
        forall pk ensures Unmatched(c, stores, provided, pk) <==>
                          Unmatched(c, stores[1..], provided, pk) || (pk == k && !c.validKey(k)) {
          UnmatchedStep(c, stores, provided, pk);
        }
        if c.validKey(k) {
          assert forall pk :: Unmatched(c, stores, provided, pk) <==> Unmatched(c, stores[1..], provided, pk);
        } else {
          assert Unmatched(c, stores, provided, k);
        }
    }
  }

  /** Merging a list that already has the stores' keys never fails and only
      permutes it among equal keys: no private key is lost. */
  lemma RemergePermutes(c: Crypto, stores: seq<KeyStore>, principals: seq<Account>)
    requires PublicKeys(principals) == StoreKeys(stores)
    ensures Merge(c, stores, principals).Ok?
    ensures PublicKeys(Merge(c, stores, principals).value) == PublicKeys(principals)
    ensures multiset(Merge(c, stores, principals).value) == multiset(principals)
  {
    forall pk ensures AccountsFor(principals, pk) == StoresFor(stores, pk) {
      CountByKey(principals, pk);
    }
    MergeFailsIff(c, stores, principals);
    var merged := Merge(c, stores, principals).value;
    MergeKeys(c, stores, principals);
    forall a: Account ensures multiset(merged)[a] == multiset(principals)[a] {
      MergeContract(c, stores, principals, a.publicKey);
      assert a == Account(a.publicKey, a.hasPrivate);
    }
  }

  lemma {:induction false} CountByKey(accounts: seq<Account>, pk: Bytes)
    ensures AccountsFor(accounts, pk) == multiset(PublicKeys(accounts))[pk]
  {
    if accounts == [] {
      assert PublicKeys(accounts) == [];
    } else {
      hide AccountsFor, PublicKeys;
      var a, rest := accounts[0], accounts[1..];
      CountByKey(rest, pk);
      assert accounts == [a] + rest;
      AccountsForCons(a, rest, pk);
      PublicKeysCons(a, rest);
      CountCons(a.publicKey, PublicKeys(rest), pk);
    }
  }

  lemma CountCons(k: Bytes, rest: seq<Bytes>, pk: Bytes)
    ensures multiset([k] + rest)[pk] == multiset(rest)[pk] + if k == pk then 1 else 0
  {
    assert multiset([k] + rest) == multiset{k} + multiset(rest);
  }
}
