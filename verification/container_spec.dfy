/** The container as a state machine: one function per operation, giving the next
    state and the caller's result, failing calls included. */
module ContainerSpec {
  import opened Wrappers
  import opened ContainerCodec
  import opened Principals

  datatype State = State(
    encrypted: bool,
    principals: seq<Account>,
    mayAccessPlaintext: bool,
    signer: Option<Account>,
    parsedSignerInfo: Option<SignerInfo>,
    plaintext: Option<Bytes>,
    encoded: Option<Bytes>)

  // ---- Construction ---------------------------------------------------------

  function New(principals: Option<seq<Account>>, signer: Option<Account>): State {
    State(principals.Some?, if principals.Some? then principals.value else [], true, signer, None, Some([]), None)
  }

  function FromPlaintext(data: Bytes, principals: Option<seq<Account>>, locked: Option<bool>, signer: Option<Account>): State {
    var lock := if locked.Some? then locked.value else principals.Some?;
    New(principals, signer).(mayAccessPlaintext := !lock, plaintext := Some(data))
  }

  function FromEncoded(c: Crypto, data: Bytes, principals: Option<seq<Account>>): Result<State, Error> {
    var (s, r) := KeyInfo(c, New(principals, None).(encoded := Some(data), plaintext := None), false);
    if r.Err? then Err(r.error) else Ok(s)
  }

  function FromEncrypted(c: Crypto, data: Bytes, principals: seq<Account>): Result<State, Error> {
    var (s, r) := KeyInfo(c, New(Some(principals), None).(encoded := Some(data), plaintext := None), true);
    if r.Err? then Err(r.error) else Ok(s)
  }

  // ---- Internal steps -------------------------------------------------------

  // A failed merge leaves the principal list it had already taken empty.
  function KeyInfo(c: Crypto, s: State, mustBeEncrypted: bool): (State, Result<BareContainer, Error>) {
    if s.encoded.None? then (s, Err(NoEncodedDataAvailable))
    else
      match Parse(c, s.encoded.value)
      case Err(e) => (s, Err(e))
      case Ok(bare) =>
        if mustBeEncrypted && !bare.body.Encrypted? then (s, Err(EncryptionRequired))
        else if bare.body.Encrypted? && !s.encrypted then (s, Err(InvalidPrincipals))
        else
          var merged := if bare.body.Encrypted? then Merge(c, bare.body.keyStores, s.principals) else Ok([]);
          if merged.Err? then (s.(principals := []), Err(merged.error))
          else
            var info := if bare.signerInfo.Some? then bare.signerInfo else s.parsedSignerInfo;
            (s.(encrypted := bare.body.Encrypted?, principals := merged.value, parsedSignerInfo := info), Ok(bare))
  }

  function DecodeFromEncoded(c: Crypto, s: State): (State, Result<DecodedBody, Error>) {
    var (s', r) := KeyInfo(c, s, s.encrypted);
    if r.Err? then (s', Err(r.error))
    else (s', DecodeBody(c, r.value.body, if r.value.body.Encrypted? then s'.principals else []))
  }

  function ComputePlaintext(c: Crypto, s: State): (State, Option<Error>) {
    if s.plaintext.Some? then (s, None)
    else
      var (s', r) := DecodeFromEncoded(c, s);
      if r.Err? then (s', Some(r.error)) else (s'.(plaintext := Some(r.value.plaintext)), None)
  }

  function EncodeNow(c: Crypto, s: State, m: Material): Result<Bytes, Error> {
    if s.plaintext.None? then Err(NoPlaintextAvailable)
    else if s.encrypted && s.principals == [] then Err(EncryptionRequired)
    else Encode(c, s.plaintext.value, if s.encrypted then Some(Encryption(s.principals, m)) else None, s.signer)
  }

  function ComputeEncoded(c: Crypto, s: State, m: Material): (State, Option<Error>) {
    if s.encoded.Some? then (s, None)
    else
      match EncodeNow(c, s, m)
      case Err(e) => (s, Some(e))
      case Ok(data) => (s.(encoded := Some(data)), None)
  }

  function EnsureSignerInfoParsed(c: Crypto, s: State, m: Material): (State, Option<Error>) {
    if s.parsedSignerInfo.Some? || s.signer.None? then (s, None)
    else
      var (s', failed) := ComputeEncoded(c, s, m);
      if failed.Some? then (s', failed)
      else if s'.encoded.None? then (s', Some(NoEncodedDataAvailable))
      else
        match Parse(c, s'.encoded.value)
        case Err(e) => (s', Some(e))
        case Ok(bare) =>
          (if bare.signerInfo.Some? then s'.(parsedSignerInfo := bare.signerInfo) else s', None)
  }

  // ---- Operations -----------------------------------------------------------

  function SetPlaintext(s: State, data: Bytes): State {
    s.(plaintext := Some(data), encoded := None)
  }

  function GetPlaintext(c: Crypto, s: State): (State, Result<Bytes, Error>) {
    if !s.mayAccessPlaintext then (s, Err(PlaintextDisabled))
    else
      var (s', failed) := ComputePlaintext(c, s);
      if failed.Some? then (s', Err(failed.value))
      else if s'.plaintext.None? then (s', Err(NoPlaintextAvailable))
      else (s', Ok(s'.plaintext.value))
  }

  function GetEncoded(c: Crypto, s: State, m: Material): (State, Result<Bytes, Error>) {
    var (s', failed) := ComputeEncoded(c, s, m);
    if failed.Some? then (s', Err(failed.value))
    else if s'.encoded.None? then (s', Err(NoEncodedDataAvailable))
    else (s', Ok(s'.encoded.value))
  }

  function GrantAccess(c: Crypto, s: State, accounts: seq<Account>): (State, Option<Error>) {
    var (s', failed) := ComputePlaintext(c, s);
    if failed.Some? then (s', failed)
    else if !s'.encrypted then (s', Some(AccessManagementNotAllowed))
    else (s'.(encoded := None, principals := s'.principals + accounts), None)
  }

  function Without(accounts: seq<Account>, pk: Bytes): (r: seq<Account>)
    ensures forall a :: a in r <==> a in accounts && a.publicKey != pk
  {
    if accounts == [] then []
    else if accounts[0].publicKey == pk then Without(accounts[1..], pk)
    else [accounts[0]] + Without(accounts[1..], pk)
  }

  lemma {:induction false} WithoutAppend(front: seq<Account>, last: Account, pk: Bytes)
    ensures Without(front + [last], pk) == Without(front, pk) + if last.publicKey == pk then [] else [last]
  {
    if front == [] {
      assert front + [last] == [last];
    } else {
      assert (front + [last])[0] == front[0] && (front + [last])[1..] == front[1..] + [last];
      WithoutAppend(front[1..], last, pk);
    }
  }

  function RevokeAccess(c: Crypto, s: State, pk: Bytes): (State, Option<Error>) {
    var (s', failed) := ComputePlaintext(c, s);
    if failed.Some? then (s', failed)
    else if !s'.encrypted then (s', Some(AccessManagementNotAllowed))
    else (s'.(encoded := None, principals := Without(s'.principals, pk)), None)
  }

  function VerifySignature(c: Crypto, s: State, m: Material): (State, Result<bool, Error>) {
    var (s1, failed) := EnsureSignerInfoParsed(c, s, m);
    if failed.Some? then (s1, Err(failed.value))
    else if s1.parsedSignerInfo.None? then (s1, Err(NotSigned))
    else
      var (s2, r) := DecodeFromEncoded(c, s1);
      if r.Err? then (s2, Err(r.error))
      else (s2, Verify(c, s1.parsedSignerInfo.value, r.value.compressed))
  }

  function TakeSigningAccount(c: Crypto, s: State): (State, Result<Option<Account>, Error>) {
    if s.signer.None? then (s, Ok(None))
    else
      match AccountFromPublicKey(c, s.signer.value.publicKey)
      case Err(e) => (s.(signer := None), Err(e))
      case Ok(publicOnly) => (s.(signer := Some(publicOnly)), Ok(s.signer))
  }

  function IsSigned(s: State): bool {
    s.signer.Some? || s.parsedSignerInfo.Some?
  }

  // ---- Runs -----------------------------------------------------------------

  datatype Op =
    | DoSetPlaintext(data: Bytes)
    | DoDisablePlaintext
    | DoGetPlaintext
    | DoGetEncoded(material: Material)
    | DoGrant(accounts: seq<Account>)
    | DoRevoke(publicKey: Bytes)
    | DoVerifySignature(material: Material)
    | DoTakeSigner

  function Step(c: Crypto, s: State, op: Op): State {
    match op
    case DoSetPlaintext(data) => SetPlaintext(s, data)
    case DoDisablePlaintext => s.(mayAccessPlaintext := false)
    case DoGetPlaintext => GetPlaintext(c, s).0
    case DoGetEncoded(m) => GetEncoded(c, s, m).0
    case DoGrant(accounts) => GrantAccess(c, s, accounts).0
    case DoRevoke(pk) => RevokeAccess(c, s, pk).0
    case DoVerifySignature(m) => VerifySignature(c, s, m).0
    case DoTakeSigner => TakeSigningAccount(c, s).0
  }

  function Run(c: Crypto, s: State, ops: seq<Op>): State
    decreases |ops|
  {
    if ops == [] then s else Run(c, Step(c, s, ops[0]), ops[1..])
  }
}
