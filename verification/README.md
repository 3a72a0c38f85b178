# Keeta anchor: a verified model

This project models the stateful and recursive parts of the Keeta anchor
libraries in Dafny and proves what they promise over every input and every run.
Run `dafny verify dfyconfig.toml` to check it.

| Part | Modules |
|---|---|
| Metadata resolution: `ExternalURL` indirections followed by an in-place worklist | `Json`, `ResolverSpec`, `Resolver` |
| Encrypted containers: codec, principals, the two cached forms, signatures | `ContainerCodec`, `Principals`, `ContainerSpec`, `ContainerLaws`, `ContainerAccess`, `ContainerSignatures`, `Container` |
| Sharable bundles: transient sealing, grants, revocations, PEM | `Sharable`, `Pem` |
| ISO 20022 attributes: schema-driven codec, generated schemas, their generator | `SchemaCodec`, `SchemaRoundTrip`, `SchemaTrees`, `GeneratedSchemas`, `SchemaGeneratorModel`, `SchemaMeaning`, `SnakeNames` |
| Resilience: backoff, token bucket, retry loop, token acquisition | `BackoffSchedule`, `RateLimit`, `Retry`, `Transport` |
| Reference collection and the handle table | `References`, `Registry` |

Code that updates state is a class or a loop, proved against a specification
function (`Container.EncryptedContainer` against `ContainerSpec`, say); the laws
are lemmas about the specification. Code made of expressions is functions.

## Assumptions

Libraries the repository calls appear as records of functions, and what is
assumed of them is a predicate that the lemmas require by name:

- `ContainerCodec.Crypto.Ideal`: inflating undoes deflating; decrypting, unwrapping
  and DER decoding undo their partners for the right key; a signature just made
  verifies. `Crypto.Unforgeable`, used only for stale signatures: a signature
  fits one digest and a digest one message.
- `SchemaCodec.Calendar.Lawful`: a date that reads can be printed, and a printed date
  reads back as one that prints the same. The build without dates satisfies it too.
- `Pem.Base64.Lawful`: decoding inverts encoding (section 4 of RFC 4648), within the alphabet.
- `SchemaCodec.MatchTuple`, the positional matcher of another crate, is written out
  with the behaviour the comments and tests here rely on: order-preserving,
  consuming every component, earlier field first, backing up when the rest
  cannot be bound. That it has this behaviour is proved; that the other crate
  does is assumed.
- `Resolver`: reading a URL is a lookup in a fixed finite map.

## Where the code falls short of its documentation

Each comes with an input that shows it and the exact condition under which the
code does what is promised.

- An `ExternalURL` node can survive resolution: an object whose `external` and `url`
  members become strings only after the object was visited
  (`ResolverSpec.BareStringLeavesExternal`). A document resolves clean exactly when
  it leads to no such object (`ResolverSpec.ResolvesCleanIff`), and all documents do
  exactly when no readable URL serves a bare string (`ResolverSpec.NoExternalSurvivesIff`).
- After a signature was parsed, `set_plaintext` leaves it in place: the next
  verification answers whether the payload is the one signed before
  (`ContainerSignatures.StaleSignature`, for plaintext and sealed containers).
- A signed blob that is reopened counts as signed for good, yet nothing encoded anew
  from it is signed (`ContainerSignatures.ReplacingDropsSignature`,
  `ReopenedNeverSignsAgain`); what `is_signed` foretells holds exactly when no signature
  is held without its signer (`ContainerSignatures.ReencodingKeepsSignatureIff`).
- "Private keys are retained" on opening holds, whatever the order of the accounts
  given, exactly when there are fewer public-only duplicates of a key than key
  stores for it (`ContainerSignatures.DuplicatesHidePrivateKeys`, `PrivateKeyRetainedIff`).
- Jitter overflows for full jitter of the largest 64-bit delay, and only then
  (`BackoffSchedule.JitterOverflowsIff`).
- A retried call can go on without bound: the attempts have one exactly when the
  policy has a ceiling, no budget, or a jitter that must overflow
  (`Retry.AttemptsBoundedIff`). With none of these, on a clock that stands still, any
  number of attempts is retried; the loop then runs until its 32-bit attempt counter
  overflows (`Retry.RetriedRunsGoOn`).
- Waiting for a token never ends exactly for a bucket that is refilled but cannot
  hold one (`Transport.Acquire`, `RateLimit.ZeroCapacityNeverGrants`, `RateLimit.WaitIsExact`).
- Storing never ends exactly when every handle is live
  (`Registry.HandleRegistry.Store`, `Registry.FullTableNeverFinds`).
- Type names share a builder name exactly when they are spelled alike but for the case
  of the first letter and for "_x" in place of "X" after it (`SnakeNames.NamesCollideIff`,
  `SpellingsCollide`), and calls reach the types meant exactly when types that share
  one have the same body (`SchemaGeneratorModel.CallsReachTheirTypesIff`,
  `CollidingTypesMisbuilt`).

## Model

| member | source | states |
|---|---|---|
| Resolver.Resolution.ResolveExternalUrls | keetanetwork-anchor-client/src/resolver/mod.rs:171-187 | The in-place worklist ends, on every finite fetch map, cyclic or not, with exactly the document that recursive top-down resolution gives; pending paths stay pairwise incomparable and resolvable, and every chain of URLs it fetched is one the document allows, without repetition |
| Resolver.Resolution.ExpandExternal | keetanetwork-anchor-client/src/resolver/mod.rs:191-220 | One indirection becomes its document, queued again under a chain longer by its URL, or null on a cycle or an unreadable target; no other pending node changes, the final document stays the same and the remaining work strictly falls |
| Resolver.Resolution.PushChildren | keetanetwork-anchor-client/src/resolver/mod.rs:224-243 | Queues every child exactly once, in whatever key order, without changing the final document and with strictly less work left |
| Resolver.FollowStep | keetanetwork-anchor-client/src/resolver/mod.rs:204-217 | Replacing an indirection by its document and resolving that in place is the same as resolving the indirection, one step shorter |
| Resolver.VisitStep | keetanetwork-anchor-client/src/resolver/mod.rs:224-243 | Resolving the queued children one by one through paths is the same as resolving the container as a whole |
| Resolver.RewriteKeepsPending | keetanetwork-anchor-client/src/resolver/mod.rs:279-306 | A write at one pending path leaves every other pending path resolving to the same node |
| Json.RewritesCommute | keetanetwork-anchor-client/src/resolver/mod.rs:279-306 | Writes at paths neither of which leads through the other commute |
| Json.SetAtElsewhere | keetanetwork-anchor-client/src/resolver/mod.rs:266-306 | A read elsewhere does not see a write |
| Json.SetAtFrame | keetanetwork-anchor-client/src/resolver/mod.rs:266-306 | A write is read back at its path, and through a path that does not resolve it changes nothing |
| Json.FindNode | keetanetwork-anchor-client/src/resolver/mod.rs:266-276 | The moving cursor reaches the node the path names, or none |
| ResolverSpec.ResolvedHoldsNoExternal | keetanetwork-anchor-client/src/resolver/mod.rs:160-187 | If no readable URL serves a bare string, nothing in the result is an indirection, at any depth |
| ResolverSpec.NoExternalSurvivesIff | keetanetwork-anchor-client/src/resolver/mod.rs:160-187 | All documents resolve free of indirections if and only if no readable URL serves a bare string |
| ResolverSpec.BareStringLeavesExternal | keetanetwork-anchor-client/src/resolver/decode.rs:68-76 | A concrete family of documents whose resolution still is an indirection |
| ResolverSpec.ResolvesCleanIff | keetanetwork-anchor-client/src/resolver/mod.rs:160-187 | A document resolves free of indirections if and only if no object it leads to has marker and URL members that turn into strings late |
| Resolver.FollowTraced | keetanetwork-anchor-client/src/resolver/mod.rs:204-217 | The ancestor set of an entry is exactly the chain of URLs fetched on the way to it, each once; fetching extends it by a URL not yet on it |
| Resolver.ChainsNeverRepeat | keetanetwork-anchor-client/src/resolver/mod.rs:163-219 | A chain the worklist fetched has distinct URLs and is no longer than the fetch map, however long the chains a cyclic graph allows |
| ResolverSpec.ResolvesToTarget | keetanetwork-anchor-client/src/resolver/mod.rs:191-220 | A run of indirections resolves as the document at its end, and to null exactly through a cycle or an unreadable URL |
| ResolverSpec.ResolvesInPlace | keetanetwork-anchor-client/src/resolver/mod.rs:224-243 | Past nodes that are no indirections, resolving the whole resolves each part at its path: nothing is added, lost or moved |
| ResolverSpec.CleanIsUnchanged | keetanetwork-anchor-client/src/resolver/mod.rs:160-187 | A document without indirections is left as it is |
| ContainerCodec.FindSymmetricKey | keetanetwork-anchor/src/encrypted_container/codec.rs:277-296 | The nested search returns the key of the first store that a private-keyed account of the same key unwraps, or none; public-only accounts are skipped |
| ContainerCodec.WrapForPrincipals | keetanetwork-anchor/src/encrypted_container/codec.rs:207-215 | One wrapped body key per principal, in order, stopping at the first failure |
| ContainerCodec.SealsIff | keetanetwork-anchor/src/encrypted_container/codec.rs:207-215 | Sealing succeeds if and only if every principal can be sealed to |
| ContainerCodec.SealedStores | keetanetwork-anchor/src/encrypted_container/codec.rs:207-215 | The key stores name exactly the principals, in order, each wrapping the body key |
| ContainerCodec.EncodeThenParse | keetanetwork-anchor/src/encrypted_container/codec.rs:111-159 | Exactly when encoding succeeds, and that parsing it yields the body kind, initialization vector, key stores and signer that went in |
| ContainerCodec.EncodeFailsBecause | keetanetwork-anchor/src/encrypted_container/codec.rs:111-134 | Why an encoding fails: an unsealable principal first, then a signer without private key, then one of an unsupported key type |
| ContainerCodec.ParsesExactly | keetanetwork-anchor/src/encrypted_container/codec.rs:137-159 | Exactly version 1 with a plaintext or AES-256-CBC body is accepted, with nothing lost; others are refused by version or cipher |
| ContainerCodec.SignedEncodingNames | keetanetwork-anchor/src/encrypted_container/codec.rs:240-257 | A signed encoding says version 3, the signer's key, SHA3-256 and the algorithm of the key's curve |
| ContainerCodec.VerifiesExactly | keetanetwork-anchor/src/encrypted_container/codec.rs:187-197 | Verification answers exactly for supported algorithms and existing signers, and says which algorithm is missing |
| ContainerCodec.OpensExactlyForHolders | keetanetwork-anchor/src/encrypted_container/codec.rs:165-173 | A sealed body opens to exactly its plaintext for any account list holding a matching private key, whatever its order or duplicates; otherwise NoMatchingKey, and NoKeysProvided for an empty list |
| ContainerCodec.EncodeRoundTrip | keetanetwork-anchor/src/encrypted_container/codec.rs:111-173 | Encode, parse and decode returns the plaintext exactly for holders of a principal's private key |
| ContainerCodec.SignatureSurvivesTransport | keetanetwork-anchor/src/encrypted_container/codec.rs:187-257 | The signature made at encoding verifies over the compressed bytes any opener recovers |
| ContainerCodec.UnwrapDependsOnPrivateKeys | keetanetwork-anchor/src/encrypted_container/codec.rs:277-296 | Two account lists offering the same private keys unwrap alike |
| Principals.MergePrincipals | keetanetwork-anchor/src/encrypted_container/mod.rs:669-689 | The swap-remove loop computes the merge whose laws follow |
| Principals.MergeKeys | keetanetwork-anchor/src/encrypted_container/mod.rs:669-689 | A merged list has exactly the key stores' public keys, in order |
| Principals.MergeContract | keetanetwork-anchor/src/encrypted_container/mod.rs:663-689 | Per key, with at most as many provided accounts as stores all of them are used, and with more each is used at most once |
| Principals.MergeFailsIff | keetanetwork-anchor/src/encrypted_container/mod.rs:669-689 | Merging fails if and only if some store key that is no public key outnumbers the accounts provided for it |
| Principals.RemergePermutes | keetanetwork-anchor/src/encrypted_container/mod.rs:555-564 | Merging again in a constructed container never fails and only permutes equal-keyed accounts: no private key is lost |
| ContainerLaws.StepKeeps | keetanetwork-anchor/src/encrypted_container/mod.rs:213-643 | Every operation, failing or not, keeps a form cached, keeps both forms in agreement, keeps body kind and key stores matching the flag and the principals, and changes the payload only when it sets it |
| ContainerLaws.RunKeeps | keetanetwork-anchor/src/encrypted_container/mod.rs:213-643 | The same over every run: the payload is the one last set, or else the initial one |
| ContainerLaws.KeyInfoIsStable | keetanetwork-anchor/src/encrypted_container/mod.rs:544-576 | Reading the key information again cannot fail and changes only the order of equal-keyed principals and the parsed signature |
| ContainerLaws.FromPlaintextConsistent | keetanetwork-anchor/src/encrypted_container/mod.rs:116-130 | A container built from a payload starts consistent and stands for that payload |
| ContainerLaws.FromEncodedConsistent | keetanetwork-anchor/src/encrypted_container/mod.rs:159-199 | Every blob that is accepted starts consistent; demanding encryption accepts exactly the encrypted ones among them, with the same result |
| ContainerLaws.OpensBlobExactly | keetanetwork-anchor/src/encrypted_container/mod.rs:544-576 | Which blobs are opened, with which error others are refused, and every field of an opened container |
| ContainerLaws.GetEncodedExactly | keetanetwork-anchor/src/encrypted_container/mod.rs:350-359 | When encoding succeeds, for a caller to check; the bytes describe the container and, encoded just now, open to the payload exactly for holders of a principal's private key |
| ContainerLaws.GetPlaintextExactly | keetanetwork-anchor/src/encrypted_container/mod.rs:317-330 | Reading succeeds exactly on an unlocked container whose payload is on hand or opens, and yields that payload |
| ContainerLaws.ReadsLastSet | keetanetwork-anchor/src/encrypted_container/mod.rs:317-330 | After every run an unlocked container reads as the payload last set |
| ContainerLaws.FreshContainerReads | keetanetwork-anchor/src/encrypted_container/mod.rs:116-130 | A new container is locked exactly when asked to be, or when sealed and not asked; else it reads back its payload |
| ContainerLaws.EncodingsOpenForPrincipals | keetanetwork-anchor/src/encrypted_container/mod.rs:213-643 | Of a container built from a payload, after every run any cached encoding opens to the payload last set: for anyone if not sealed, else for exactly the holders of a current principal's private key |
| ContainerAccess.RevokeExcludes | keetanetwork-anchor/src/encrypted_container/mod.rs:420-432 | After a revocation the key is neither a principal nor in the cached encoding |
| ContainerAccess.StepKeys | keetanetwork-anchor/src/encrypted_container/mod.rs:383-432 | Only a grant brings a new key into the principal list |
| ContainerAccess.RevokedStaysOut | keetanetwork-anchor/src/encrypted_container/mod.rs:383-432 | Over every run without a grant of it, an excluded key stays out of the principals and every encoding |
| ContainerAccess.GrantExactly | keetanetwork-anchor/src/encrypted_container/mod.rs:383-394 | A grant succeeds exactly on a sealed container whose payload is known or opens, and then adds exactly the accounts given, after those there were |
| ContainerAccess.RevokeExactly | keetanetwork-anchor/src/encrypted_container/mod.rs:420-432 | A revocation succeeds under the same condition and takes away exactly the accounts of that key, keeping order |
| ContainerAccess.PrincipalStays | keetanetwork-anchor/src/encrypted_container/mod.rs:383-432 | Over every run without its revocation a principal stays one |
| ContainerAccess.GrantedOpensLater | keetanetwork-anchor/src/encrypted_container/mod.rs:383-432 | Granted at any point and not revoked after, an account is a principal at the end, and a holder of its private key opens whatever is then cached to the payload last set |
| ContainerLaws.LockIsForGood | keetanetwork-anchor/src/encrypted_container/mod.rs:222-237 | Once plaintext access is disabled, reading fails after every run of operations and changes nothing |
| ContainerLaws.SignerTakenOnce | keetanetwork-anchor/src/encrypted_container/mod.rs:478-498 | The private signer is handed out once; after every later run the container still names it, gives out only the public part and can make no new encoding |
| ContainerLaws.InvalidSignerIsDropped | keetanetwork-anchor/src/encrypted_container/mod.rs:488-498 | Taking a signer that is no account fails and leaves none; without a signer there is none to take |
| ContainerSignatures.VerifiesIffStillStored | keetanetwork-anchor/src/encrypted_container/mod.rs:523-532 | With a signature on hand, verification answers whether the bytes it covers are the bytes stored |
| ContainerSignatures.VerifyNeedsEncoding | keetanetwork-anchor/src/encrypted_container/mod.rs:645-649 | A changed container whose signature was parsed before fails to verify until it is encoded, its state untouched |
| ContainerSignatures.UnsignedIsNotVerified | keetanetwork-anchor/src/encrypted_container/mod.rs:523-532 | Without signer and signature, NotSigned and no change |
| ContainerSignatures.FirstVerificationSucceeds | keetanetwork-anchor/src/encrypted_container/mod.rs:523-532 | The first verification of a container that signs and can open its payload answers true |
| ContainerSignatures.VerifyTurn | keetanetwork-anchor/src/encrypted_container/mod.rs:523-532 | A verification judges the signature held and leaves with that of the encoded form, which still opens as before |
| ContainerSignatures.StaleSignature | keetanetwork-anchor/src/encrypted_container/mod.rs:645-664 | On any signing container, plaintext or sealed to principals one of whom holds a private key: verify, change the payload, encode, verify is true exactly if the payload did not change, and true again on the next try |
| ContainerSignatures.ReencodingKeepsSignatureIff | keetanetwork-anchor/src/encrypted_container/mod.rs:271-273 | A fresh encoding is signed exactly when a signer is attached, which `is_signed` foretells exactly unless only a parsed signature is held |
| ContainerSignatures.ReopenedNeverSignsAgain | keetanetwork-anchor/src/encrypted_container/mod.rs:566-576 | Over every run of a container opened from a signed blob, `is_signed` stays true and every new encoding is unsigned |
| ContainerSignatures.ReplacingDropsSignature | keetanetwork-anchor/src/encrypted_container/mod.rs:213-216 | The shortest such run: open a signed encoding, set a payload, encode; the signature is gone while `is_signed` stays true |
| ContainerSignatures.DuplicatesHidePrivateKeys | keetanetwork-anchor/src/encrypted_container/mod.rs:669-689 | An arrangement of duplicates from which the merge retains no private key |
| ContainerSignatures.PrivateKeyRetainedIff | keetanetwork-anchor/src/encrypted_container/mod.rs:135-138 | A private key is retained for every arrangement if and only if public-only duplicates are fewer than the stores |
| Container.EncryptedContainer.FromPlaintext | keetanetwork-anchor/src/encrypted_container/mod.rs:116-130 | The new object holds the payload, is locked by default exactly when sealed, and is consistent |
| Container.EncryptedContainer.FromEncoded | keetanetwork-anchor/src/encrypted_container/mod.rs:159-165 | The opened object or the error, as the specification says, and consistent |
| Container.EncryptedContainer.GetPlaintext | keetanetwork-anchor/src/encrypted_container/mod.rs:317-330 | New state and result of reading the payload, lock and errors included |
| Container.EncryptedContainer.GetEncoded | keetanetwork-anchor/src/encrypted_container/mod.rs:350-359 | New state and result of reading the encoded form; nothing but the cache changes |
| Container.EncryptedContainer.GrantAccess | keetanetwork-anchor/src/encrypted_container/mod.rs:383-394 | New state and error of a grant, which drops the cached encoding |
| Container.EncryptedContainer.RevokeAccess | keetanetwork-anchor/src/encrypted_container/mod.rs:420-432 | New state and error of a revocation, whose loop retains exactly the other keys |
| Container.EncryptedContainer.VerifySignature | keetanetwork-anchor/src/encrypted_container/mod.rs:523-532 | New state and answer of a verification |
| Container.EncryptedContainer.ComputeAndSetKeyInfo | keetanetwork-anchor/src/encrypted_container/mod.rs:544-576 | Every field after reading the key information, also after a failed merge, which leaves the principals empty |
| Container.EncryptedContainer.TakeSigningAccount | keetanetwork-anchor/src/encrypted_container/mod.rs:488-498 | The signer handed out keeps its private key, the container keeps a public-only one, and a failure leaves none |
| Sharable.SealedState | keetanetwork-anchor/src/sharable_attributes/mod.rs:471-486 | Sealing to a throw-away principal ends with the contents in hand, no recipient and nothing encoded |
| Sharable.ExportStep | keetanetwork-anchor/src/sharable_attributes/mod.rs:283-290 | When exporting succeeds, and that the bundle seals the contents to exactly the recipients |
| Sharable.RecipientReopens | keetanetwork-anchor/src/sharable_attributes/mod.rs:220-232 | Any one private-keyed recipient, alone, reopens a bundle to the contents and reads them inflated |
| Sharable.SharedBundles | keetanetwork-anchor/src/sharable_attributes/mod.rs:250-290 | After sealing and any run of grants, revocations, exports and reads: export succeeds exactly when there are recipients to seal to, the throw-away key is in no bundle, and every current private-keyed recipient reopens it and reads the very contents exactly if they are no zlib stream of something else |
| Sharable.GrantedRecipientReads | keetanetwork-anchor/src/sharable_attributes/mod.rs:250-290 | Whoever is granted access at any point of a run, and not revoked after, is a recipient of every later bundle and with the private key reads the contents |
| Sharable.InflateChangesIff | keetanetwork-anchor/src/sharable_attributes/mod.rs:729-738 | Contents pass unchanged if and only if they are no zlib stream of something else, as no JSON text is; wrapped contents are unwrapped |
| Sharable.SharableAttributes.Seal | keetanetwork-anchor/src/sharable_attributes/mod.rs:471-486 | The object built by sealing, or the first error on the way |
| Sharable.SharableAttributes.ExportBundle | keetanetwork-anchor/src/sharable_attributes/mod.rs:283-290 | New state and result of an export; NoPrincipals without recipients |
| Pem.PrintPem | keetanetwork-anchor/src/sharable_attributes/mod.rs:741-754 | The printing loop writes the markers and the 64-column body between them |
| Pem.ParsePem | keetanetwork-anchor/src/sharable_attributes/mod.rs:757-772 | The reading loop keeps the trimmed lines that are neither blank nor dashes, and rejects an empty body |
| Pem.EnvelopeBody | keetanetwork-anchor/src/sharable_attributes/mod.rs:741-767 | At any column width, trimming and filtering undo chunking and marking |
| Pem.PrintedLines | keetanetwork-anchor/src/sharable_attributes/mod.rs:741-754 | The text is the opening marker, the body in lines of exactly 64 columns but for the last, and the closing marker |
| Pem.PemRoundTrip | keetanetwork-anchor/src/sharable_attributes/mod.rs:741-772 | Every non-empty payload survives the envelope and an empty one is rejected |
| SchemaCodec.EncodeStruct | keetanetwork-anchor/src/kyc_schema/iso20022_engine.rs:110-129 | The loop encodes the present members in order, skips absent optional ones and fails on absent required ones |
| SchemaCodec.EncodeSequenceOf | keetanetwork-anchor/src/kyc_schema/iso20022_engine.rs:94-106 | The loop encodes every item or fails |
| SchemaCodec.DecodeSequenceOf | keetanetwork-anchor/src/kyc_schema/iso20022_engine.rs:182-194 | The loop decodes every item or fails |
| SchemaCodec.DecodeStruct | keetanetwork-anchor/src/kyc_schema/iso20022_engine.rs:198-214 | The loop projects each matched component onto its member |
| SchemaCodec.ReadBufferJson | keetanetwork-anchor/src/kyc_schema/iso20022_engine.rs:315-332 | The loop reads the byte entries or rejects one out of range |
| SchemaRoundTrip.RoundTrip | keetanetwork-anchor/src/kyc_schema/iso20022_engine.rs:55-214 | For every unambiguous schema, whatever the encoder accepts decodes to its normal form |
| SchemaRoundTrip.RoundTripFields | keetanetwork-anchor/src/kyc_schema/iso20022_engine.rs:110-214 | The matcher gives every component back to the member it came from, despite absent optional members |
| SchemaRoundTrip.DisjointRejects | keetanetwork-anchor/src/kyc_schema/iso20022_engine.rs:143-179 | The decoder of one schema rejects everything the encoder emits for a disjoint one |
| SchemaTrees.EncodesInShape | keetanetwork-anchor/src/kyc_schema/iso20022_engine.rs:55-129 | Every tree encoded has its schema's shape: tags, leaf kinds, components in member order, and no symbolic name left in place of an OID |
| SchemaTrees.DecodeThenEncode | keetanetwork-anchor/src/kyc_schema/iso20022_engine.rs:55-214 | Every tree of the shape, its dates exact, is accepted by the decoder, and what is read encodes to that very tree |
| SchemaTrees.NullCountsAsAbsent | keetanetwork-anchor/src/kyc_schema/iso20022_engine.rs:110-129 | Null members and members no field names change nothing in the encoding |
| SchemaTrees.BufferReadIff | keetanetwork-anchor/src/kyc_schema/iso20022_engine.rs:315-332 | A buffer is read exactly when its data are whole numbers from 0 to 255, and as these |
| SchemaRoundTrip.MatcherSound | keetanetwork-anchor/src/kyc_schema/iso20022_engine.rs:196-213 | A match binds every component, in order, to a member that accepts it, leaving only optional members unbound |
| SchemaRoundTrip.MatcherFindsPreferred | keetanetwork-anchor/src/kyc_schema/iso20022_engine.rs:364-380 | Whenever any such assignment exists the matcher finds one, and it is the one binding the earliest members |
| SchemaRoundTrip.CollidingTagsMisread | keetanetwork-anchor/src/kyc_schema/iso20022_engine.rs:364-380 | Without disjoint members the round trip fails: a lone second member is read back as the first |
| SchemaRoundTrip.NormalIsStable | keetanetwork-anchor/src/kyc_schema/iso20022_engine.rs:55-129 | A normal form is accepted again and is its own normal form |
| SchemaRoundTrip.BufferRoundTrip | keetanetwork-anchor/src/kyc_schema/iso20022_engine.rs:304-332 | Bytes survive the Buffer form |
| SchemaRoundTrip.OidNamesConvert | keetanetwork-anchor/src/kyc_schema/iso20022_engine.rs:269-301 | Symbolic names and their OIDs convert into each other, and all other text passes unchanged |
| GeneratedSchemas.GeneratedSchemasSound | keetanetwork-anchor/src/generated/iso20022_schema.rs:12-84 | Every generated schema is unambiguous, `[0]` collisions included, and has uniform choices |
| GeneratedSchemas.AttributeRoundTrip | keetanetwork-anchor/src/kyc_schema/iso20022_engine.rs:20-40 | For all twelve attribute tokens, encoding then decoding gives the normal form whatever the legacy schema would read, and does so again |
| GeneratedSchemas.AttributeTreesReturn | keetanetwork-anchor/src/kyc_schema/iso20022_engine.rs:20-40 | For all twelve tokens, every tree of the schema's shape is read, and encoding what is read gives it back |
| GeneratedSchemas.LegacyBirthReads | keetanetwork-anchor/src/kyc_schema/iso20022_engine.rs:28-40 | A date and place of birth encoded without tags is rejected by the current schema and read by the stripped one |
| SchemaGeneratorModel.SchemaGenerator.MemberExpr | keetanetwork-anchor/build.rs:259-302 | The expression of a type, by precedence of the tables; terminates on mutually recursive structs and registers just the builders it needs |
| SchemaGeneratorModel.SchemaGenerator.EnsureBuilder | keetanetwork-anchor/build.rs:306-315 | A type's builder is registered once, with that type's body, leaving no new builder open |
| SchemaGeneratorModel.SchemaGenerator.ChoiceBody | keetanetwork-anchor/build.rs:329-339 | Each alternative under its own index |
| SchemaGeneratorModel.SchemaGenerator.StructBody | keetanetwork-anchor/build.rs:345-378 | Members tagged by position when any is optional, choices left bare |
| SchemaGeneratorModel.SchemaGenerator.IsChoiceType | keetanetwork-anchor/build.rs:381-399 | Follows aliases as the specification of choices does |
| SchemaGeneratorModel.Generate | keetanetwork-anchor/build.rs:140-188 | Every token gets its type's expression, every builder is defined once with its type's body, the builders called are exactly those defined; it fails only if an unknown type is reached from the tokens and, with distinct builder names, exactly then |
| SchemaGeneratorModel.ChoiceRecognisedIff | keetanetwork-anchor/build.rs:381-399 | A type is taken for a choice if and only if it compiles to a call of a choice's builder |
| SchemaMeaning.MeansOneSchema | keetanetwork-anchor/build.rs:140-188 | With every builder defined once, generated code means at most one schema |
| SchemaMeaning.StructMeans | keetanetwork-anchor/build.rs:345-378 | A struct body means its table entry's members in order, optional as listed; tagged by position exactly when some member is optional, choices bare |
| SchemaMeaning.ChoiceMeans | keetanetwork-anchor/build.rs:329-339 | A choice body means its alternatives, tagged by their index |
| SchemaMeaning.KeywordsMean | keetanetwork-anchor/build.rs:267-273 | The four keyword types mean text, date, OID and octet string |
| SchemaMeaning.NamesMean | keetanetwork-anchor/build.rs:275-299 | An enumeration means text, an alias what it stands for, and a type of its own is a call of its builder |
| SchemaMeaning.SequenceMeans | keetanetwork-anchor/build.rs:262-265 | SEQUENCE OF maps through to its element |
| SchemaMeaning.LaidOutSound | keetanetwork-anchor/build.rs:345-378 | A struct without choices, of sound members, is laid out so that decoding never guesses, and every tag is the position if any member is optional |
| SchemaMeaning.GeneratedFieldsAreLaidOut | keetanetwork-anchor/src/generated/iso20022_schema.rs:42-84 | The generated birth, reference and identification fields follow that layout |
| SchemaMeaning.BirthCompiles | keetanetwork-anchor/src/generated/iso20022_schema.rs:42-44 | The builder of a date-and-place-of-birth entry means exactly the schema in use |
| SchemaMeaning.AddressCompiles | keetanetwork-anchor/src/generated/iso20022_schema.rs:30-36 | The builder of an address entry means exactly the schema in use, bare choice included |
| SchemaGeneratorModel.CallReachesItsType | keetanetwork-anchor/build.rs:306-315 | With distinct builder names, a call reaches the one body of the type that was meant |
| SchemaGeneratorModel.CallsReachTheirTypesIff | keetanetwork-anchor/build.rs:306-325 | All calls reach the bodies of the types meant if and only if types that share a builder name in use have the same body |
| SchemaGeneratorModel.CollidingTypesMisbuilt | keetanetwork-anchor/build.rs:306-325 | Of two needed types with different bodies and colliding names, both calls run one body, which is not that of both |
| SnakeNames.NamesCollideIff | keetanetwork-anchor/build.rs:769-779 | Two type names share a builder name if and only if they are equal but for the case of the first letter, once every later "_x" is written "X" |
| SnakeNames.PlainNamesCollideIff | keetanetwork-anchor/build.rs:769-779 | Names without underscores share one if and only if they differ at most in the case of the first letter |
| SnakeNames.SpellingsCollide | keetanetwork-anchor/build.rs:769-779 | Two pairs of spellings with one builder name each |
| SnakeNames.NamedByType | keetanetwork-anchor/build.rs:306-309 | A builder is named by its type in small letters, an underscore before every capital but a leading one, and `_schema` |
| BackoffSchedule.DelayIsTruncatedExponential | keetanetwork-anchor-client/src/resilience/backoff.rs:40-51 | The checked and saturating delay is the truncated exponential over unbounded integers, None from the ceiling on |
| BackoffSchedule.DelaysGrowIff | keetanetwork-anchor-client/src/resilience/backoff.rs:40-51 | Delays never shrink if and only if the factor is positive, or all delays are zero, or there is at most one |
| BackoffSchedule.JitterOverflowsIff | keetanetwork-anchor-client/src/resilience/backoff.rs:102-121 | Jitter overflows if and only if it is full jitter of the largest delay |
| BackoffSchedule.JitterRange | keetanetwork-anchor-client/src/resilience/backoff.rs:102-121 | Otherwise a jittered delay lies in [0, delay] or [delay/2, delay], and every value there is reached |
| RateLimit.RefillExact | keetanetwork-anchor-client/src/resilience/rate_limit.rs:61-73 | A refill adds rate times elapsed time less what exceeds the capacity; saturation never shows and a backward clock adds nothing |
| RateLimit.TokensAreConserved | keetanetwork-anchor-client/src/resilience/rate_limit.rs:39-73 | From any state, for any sequence of clock readings: tokens granted, held and spilled equal tokens at first plus refill, so grants never exceed burst plus rate times time |
| RateLimit.NewBucketGrantsBurst | keetanetwork-anchor-client/src/resilience/rate_limit.rs:23-31 | A new bucket grants exactly its capacity at its start time |
| RateLimit.WaitIsExact | keetanetwork-anchor-client/src/resilience/rate_limit.rs:39-53 | After a refusal a take at time t succeeds if and only if the bucket can hold a token, is refilled, and the reported wait has passed |
| RateLimit.ZeroCapacityNeverGrants | keetanetwork-anchor-client/src/resilience/rate_limit.rs:39-53 | A bucket without capacity refuses every take with a finite wait |
| RateLimit.TokenBucket.TakeOne | keetanetwork-anchor-client/src/resilience/rate_limit.rs:39-53 | The object takes as the specification does |
| RateLimit.TokenBucket.RefillTo | keetanetwork-anchor-client/src/resilience/rate_limit.rs:61-73 | The object refills as the specification does |
| Retry.Run | keetanetwork-anchor-client/src/resilience/retry.rs:70-119 | Whatever the clock does, every sleep is the one decided from budget, schedule, hint and seed; a ceiling of m allows m+1 calls; calls that take time number at most the budget; sleeps not cut short sum to at most the budget; the run ends for one of the listed reasons and reports the calls made and the time elapsed |
| Retry.AttemptsBoundedIff | keetanetwork-anchor-client/src/resilience/retry.rs:70-140 | A bound on the attempts retried that holds for every environment and clock exists if and only if the policy has a ceiling, or no budget, or a jitter that must overflow |
| Retry.RetriedRunsGoOn | keetanetwork-anchor-client/src/resilience/retry.rs:70-119 | A run whose environment is retried throughout makes every attempt of it and is not over, below the attempt counter's limit |
| Retry.RetriedOnStillClock | keetanetwork-anchor-client/src/resilience/retry.rs:122-140 | Without ceiling and overflow, with a budget, any number of instant failures on a still clock is retried |
| Retry.SleepRange | keetanetwork-anchor-client/src/resilience/retry.rs:130-140 | A sleep lies between the longer of hint and least jittered backoff and the longer of hint and full truncated exponential, as far as the remaining budget reaches |
| Retry.DecidesExactly | keetanetwork-anchor-client/src/resilience/retry.rs:122-140 | Each decision from policy and time passed: stop, overflow, or a sleep of exactly the longer of hint and jittered exponential, cut to the budget left |
| Retry.RetriesTheseOutcomes | keetanetwork-anchor-client/src/resilience/error.rs:56-67 | Exactly transient errors and the statuses 408, 429 and 5xx are retried |
| Retry.TooManyRequestsIsRetried | keetanetwork-anchor-client/src/resilience/retry.rs:82-96 | A 429 with budget left and below the ceiling is slept after for at least its hint, as far as the budget reaches |
| Retry.KnownDraws | keetanetwork-anchor-client/src/resilience/retry.rs:145-153 | The first two draws from state 1 |
| Retry.SeedsStayNonZero | keetanetwork-anchor-client/src/resilience/retry.rs:145-153 | The jitter source starts and stays away from zero |
| Transport.Acquire | keetanetwork-anchor-client/src/resilience/transport.rs:55-73 | A lone taker needs at most two takes; it fails, at once, only for a bucket never refilled, and waits on without end exactly for one that is refilled but holds no token; one token leaves the bucket, with success only |
| References.Collect | keetanetwork-anchor/src/kyc_schema/references.rs:140-162 | The stack walk collects exactly the references of the right-to-left preorder, never looking inside one |
| References.CollectsOrFails | keetanetwork-anchor/src/kyc_schema/references.rs:140-191 | Collecting fails if and only if a visited well-formed reference names an unknown algorithm; otherwise it lists, in order, what each well-formed one spells out |
| References.PopAndPush | keetanetwork-anchor/src/kyc_schema/references.rs:144-159 | Popping a node and pushing its children leaves the order of what is still to visit unchanged |
| References.VisitsExactly | keetanetwork-anchor/src/kyc_schema/references.rs:140-162 | The walk visits exactly the nodes that some path leads to past no reference |
| References.RightToLeft | keetanetwork-anchor/src/kyc_schema/references.rs:144-159 | Each once, parents first, the last member or item first |
| References.CollectsByPath | keetanetwork-anchor/src/kyc_schema/references.rs:140-191 | Collecting fails exactly when such a path leads to an unknown algorithm, and else lists exactly what the well-formed references at such paths spell |
| References.ShapeByPaths | keetanetwork-anchor/src/kyc_schema/references.rs:167-172 | A node is a reference exactly when objects stand under both its `external` and its `digest` |
| References.ReferenceReadsBack | keetanetwork-anchor/src/kyc_schema/references.rs:176-213 | A reference spelled out is recognised, each part read from its place |
| References.AlgorithmsRecognised | keetanetwork-anchor/src/kyc_schema/references.rs:27-44 | Exactly SHA3-256 and SHA2-256 are recognised, by symbolic name or OID, and exactly the Keeta container for encryption |
| Registry.HandleRegistry.Store | keetanetwork-anchor-bindings/src/registry.rs:32-43 | The search finds the first free handle in counter order across wrap-around, within one turn of the counter, exactly if a handle is free; all other entries stay |
| Registry.HandleRegistry.WithMut | keetanetwork-anchor-bindings/src/registry.rs:62-65 | A live handle's value is replaced and no other; an unknown handle changes nothing |
| Registry.HandleRegistry.Remove | keetanetwork-anchor-bindings/src/registry.rs:68-70 | Only the named entry goes |
| Registry.FirstFreeUnique | keetanetwork-anchor-bindings/src/registry.rs:32-43 | There is only one first free handle |
| Registry.FullTableNeverFinds | keetanetwork-anchor-bindings/src/registry.rs:32-43 | With every handle live, no number of steps meets a free one |

## Left out

- Reading a URL (schemes, HTTP, base64 and zlib framing, storage queries): a lookup in a finite map; a document that changes between two reads is not modelled.
- Resolver.Resolution.ResolveExternalUrls: the document is a value and `set_at` a function on it, so mutable references into the tree are not modelled; the walk by a moving cursor is, for reading. Awaiting between steps is not modelled.
- Service lookup, precedence and entry signatures of the resolver: short reads of the resolved document.
- ContainerCodec.EncodeRoundTrip: cryptography, zlib (RFC 1950) and DER are ideal functions; key wrapping is a function, so that two wrappings of one key differ is not modelled. The body key and initialization vector are parameters.
- Error messages, and the underlying causes inside `AccountError`, `Asn1Error` and the codec errors of ISO 20022 attributes, which are None here.
- Signer queries and the plaintext-access flag's getters: one-branch reads.
- SchemaCodec.DecodeStruct: works on ASN.1 trees, not DER bytes. An OID is text in the tree, as in the source; that text other than dotted decimal is refused when DER is written is not modelled.
- SchemaMeaning.BirthCompiles: oids.json is not part of this model; the table entries are those the generated code implies, over the keyword types.
- GeneratedSchemas.AttributeRoundTrip: the tag-stripping that derives the legacy schema belongs to another crate and is any function here.
- SnakeNames.NamesCollideIff: letter case is ASCII only.
- SchemaGeneratorModel.Generate: the Rust text printed for an expression, the alphabetical order in which builders are written and the reading of the JSON type tables; alias chains are assumed acyclic, without which the generator would not return. When two types share a builder name, whether an unknown one is met depends on which comes first.
- Retry.Run: clock readings are unbounded and never go back, so a 64-bit clock that wraps is not modelled; the 32-bit attempt counter's overflow is, as a panic. What an attempt and a sleep take is a parameter.
- RateLimit.TokensAreConserved: takers are atomic steps, as they are under the lock.
- Transport.Acquire: other takers between the takes are not modelled. The loop's unbounded waiting is modelled by a bound on the takes that may be as large as one likes.
- References.Collect: the algorithm map shared with another crate and the iteration order of objects are parameters.
- Pem.PemRoundTrip: base64 is a parameter with the laws stated above; characters beyond the basic multilingual plane are never white space.
- Registry.HandleRegistry.Store: the unbounded search is modelled by a bound on the steps that may be as large as one likes.
- Certificates, attribute disclosure and proofs, X.509, dates, HTTP backends, bindings, DTOs and request signing: plumbing, or built on libraries not shown.
