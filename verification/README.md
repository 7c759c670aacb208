# pcs-core: the trust spine

This project models the part of `pcs-core` that decides what may be trusted: how a JSON artifact
becomes canonical bytes, how those bytes are digested, sealed and signed, how the proof inputs of a
release are bound to its files, and which releases, bundles, traces and contracts count as checked.

* **Canonical JSON and envelopes** (`Json`, `CanonicalJson`, `JsonReader`, `CanonicalMeaning`,
  `Base64`, `Primitives`, `ArtifactIntegrity`, `IntegrityTheorems`, `KeyRegistry`,
  `KeyRegistryTheorems`, `Attestation`). An object is an insertion-ordered list of members; its meaning
  is a map. A reader that undoes the printer makes the printer injective, sorted key order is unique,
  and signature soundness, registry round trips and the attestation seal rest on that.
* **Projection and proof obligations** (`Release`, `Projection`, `ProjectionValidation`,
  `ProjectionTheorems`, `Payloads`, `Extraction`, `ExtractionRun`, `ExtractionTheorems`,
  `LabTrustTheorems`, `ComputationTheorems`, `ObligationVerdict`, `ObligationDocument`, `LeanTrust`,
  `Readiness`, `ReleaseCheck`). The builder is a class with its indexes and digest cache; both
  validators are loops; extraction succeeds under an exact condition and a `ProofChecked` verdict is
  equivalent to the release really chaining.
* **Bundles and parsers** (`Paths`, `BundlePaths`, `EvidenceBundle`, `EvidenceTheorems`,
  `KernelManifest`, `ProvisionEnv`). Fresh evidence names, digests recorded while files are written, the
  manifest written over them, the kernel hash, the provision environment file.
* **Traces and contracts** (`ResourceScope`, `Traces`, `TraceCompile`, `TraceTheorems`, `Deciders`,
  `PfCoreCheck`, `ContractLayers`, `ContractChecks`, `ContractSummary`, `Sorting`). Resource patterns, the
  hash chain of a trace and the compiler that builds it, safety deciders, the obligation table, the claim
  class of a run, contract layers.

SHA-256, Ed25519 (section 5.1 of RFC 8032), calendar text, the JSON file reader and `str` of a composite
value are function-valued parameters (`Primitives`). Nothing is assumed of them: that signatures verify
and that whole seconds survive printing are hypotheses of the lemmas that need them, and a hash collision
or a forged signature appears as an explicit outcome in a conclusion. A release is a finite map from
references to bytes; a bundle is a finite map from locations to bytes. Time is an integer number of
microseconds. Raising functions return a `Result`.

Five properties hold only under a condition; the condition is proved exact, or the failing input is
given:

* The builder refuses "unknown" only as a word of its own, the validators anywhere in a text
  (`BuilderTakesHiddenUnknown`, `BuiltManifestStructure`); extraction of a readable release then fails for
  an id that hides the word (`LabTrustExtracts`), and for a payload path that the builder takes for
  something else than the file it names (`ComputationExtracts`).
* Sealing an attestation rewrites `authentication_mode` after the content digest is taken, so under any
  other mode than `ed25519_signed` the validator rebuilds another message than the one that was signed
  (`ContentDigestMatchesIff`, `SignedSealValidates`, `OtherModeNeverValidates`). Keys found in the
  environment take the signed branch whatever the mode was.
* Revoking a key a second time can move its revocation later, and only then can validity grow
  (`RevocationShrinksValidity`, and over whole runs `RunShrinksValidity`).
* Evidence digests hold after a run exactly when no two requests of different contents lead to one place
  and none leads to the manifest's, which is written last (`DigestsHoldIff`). Requests without backslashes
  always satisfy this (`PlainCopiesHold`); the writer turns backslashes into slashes only after a name was
  checked to be fresh, so two such requests can meet (`BackslashesDisturb`) and a single one can climb to
  the manifest (`ManifestOverwrites`).
* A compiled tool-use trace passes the order check exactly when it has at most one handoff: each handoff is
  numbered by the events so far plus its own position, which already counts it among them
  (`CompiledOrder`, `CompiledClean`).

## Model

| member | source | states |
|---|---|---|
| JsonReader.ReadPrint | python/pcs_core/hash.py:131-137 | a reader of JSON text undoes the compact printer on every float-free value, whatever delimited text follows |
| JsonReader.PrintInjective | python/pcs_core/hash.py:131-137 | two float-free values with one printed text are one value |
| CanonicalMeaning.SortKeysMeaning | python/pcs_core/hash.py:109-114 | key sorting keeps the meaning of a value and leaves every object at every depth in strictly ascending key order |
| Text.LessMeaning | python/pcs_core/hash.py:109-114 | one key precedes another exactly when it is a proper beginning of it or has the lower character where they first differ |
| CanonicalMeaning.SortedKeys | python/pcs_core/hash.py:109-114 | of any two keys of a sorted object the earlier is a proper beginning of the later or has the lower character where they first differ, and the keys are those of the object |
| CanonicalMeaning.NormalUnique | python/pcs_core/hash.py:109-114 | two values in sorted form with one meaning are one value |
| CanonicalMeaning.CanonicalBytesIffSameBody | python/pcs_core/hash.py:117-137 | canonical bytes of float-free artifacts are equal if and only if the artifacts mean the same once the three integrity fields are dropped at top level only |
| CanonicalMeaning.StrippedFields | python/pcs_core/hash.py:117-128 | what is hashed is every field but signature_or_digest, artifact_digest and signature of the top level |
| CanonicalMeaning.CanonicalBytesDefined | python/pcs_core/hash.py:117-137 | canonical bytes always exist without the number policy, and under it exactly when every covered number is safe; else the first offender below "$" is named; both ways give the same bytes |
| CanonicalMeaning.SameBodySameText | python/pcs_core/hash.py:109-137 | member order, at any depth and in any artifact, never reaches the canonical text |
| CanonicalMeaning.PolicyIffNumbersSafe | python/pcs_core/hash.py:69-106 | the number policy passes exactly the values whose numbers, at every depth, are safe integers |
| CanonicalMeaning.PolicyRaisesFirst | python/pcs_core/hash.py:69-106 | when it raises, it is for the first offending number in document order, with that number's path and code |
| CanonicalMeaning.ReleaseBytesIdentifyBody | python/pcs_core/hash.py:117-137 | under the number policy, equal canonical bytes mean equal bodies |
| Primitives.EqualDigestsEqualBodies | python/pcs_core/hash.py:140-158 | equal release digests mean equal bodies, unless two contents collide under SHA-256 |
| Primitives.HashOfSameBody | python/pcs_core/hash.py:140-148 | a digest sees an artifact only through the fields it covers |
| Primitives.StrFieldTexts | python/pcs_core/artifact_integrity.py:470-480 | what `str(d.get(key) or "")` reads for each kind of value |
| Primitives.FormatUtcRoundTrip | python/pcs_core/artifact_integrity.py:143-158 | a formatted time reads back as the time floored to a whole second |
| Base64.KeyBytesRoundTrip | python/pcs_core/artifact_integrity.py:161-184 | unpadded base64url decoding undoes encoding for every non-empty byte string, at its own length (section 5 of RFC 4648) |
| ArtifactIntegrity.SigningMessageInjective | python/pcs_core/hash.py:50-66 | one signing message speaks of one type, one version and one digest |
| ArtifactIntegrity.TimestampPolicy.Evaluate | python/pcs_core/artifact_integrity.py:98-140 | no error exactly when the key is valid at the time and the time is in the window; each error appears exactly in its case |
| ArtifactIntegrity.VerifyUnderKey | python/pcs_core/artifact_integrity.py:503-527 | purpose, key validity, window, message, decoding and signature are all required, and nothing else; a purpose mismatch is reported exactly when a non-empty purpose is required, the key has purposes, and it is not among them |
| ArtifactIntegrity.VerifySignatureObject | python/pcs_core/artifact_integrity.py:481-527 | no error exactly when there is a readable signature object under a registered key that the checks accept |
| ArtifactIntegrity.VerifyArtifactSignature | python/pcs_core/artifact_integrity.py:447-527 | the error list is empty exactly for accepted envelopes; legacy, missing digest, digest mismatch and purpose mismatch are each reported exactly in their case |
| IntegrityTheorems.AcceptedMeaning | python/pcs_core/artifact_integrity.py:447-527 | when an envelope verifies, over its fields and the registry's keys: its own digest recorded, an expected one met, the first key of its id valid, unrevoked, fit for the purpose and in the window, and a 64-byte signature of PCS:type:version:digest |
| IntegrityTheorems.DigestOfCoveredBody | python/pcs_core/artifact_integrity.py:365-380 | the artifact digest is the digest of the body without integrity fields, with a canonicalization version |
| IntegrityTheorems.CoveredFields | python/pcs_core/artifact_integrity.py:365-380 | the digest covers every field but the three integrity fields, and a canonicalization version that defaults to v1 |
| IntegrityTheorems.AttachRecordsDigest | python/pcs_core/hash.py:169-182 | the digest attached to an artifact is the one recomputed from it, so it does not cover itself |
| IntegrityTheorems.AttachIdempotent | python/pcs_core/hash.py:169-182 | attaching a digest twice is attaching it once |
| IntegrityTheorems.SignArtifactResult | python/pcs_core/artifact_integrity.py:383-416 | when signing succeeds, and the sealed artifact it then returns |
| IntegrityTheorems.SigningKeepsDigest | python/pcs_core/artifact_integrity.py:383-416 | adding a signature never moves the digest |
| IntegrityTheorems.SignThenVerify | python/pcs_core/artifact_integrity.py:383-416 | a signed artifact verifies exactly when the second-floored time suits the key and the window, a required purpose is among the key's when it has any, and any expected digest is its own or its declared target |
| IntegrityTheorems.SidecarVerifies | python/pcs_core/artifact_integrity.py:419-444 | a sidecar verifies against the expected digest of its target under the same conditions |
| IntegrityTheorems.SidecarFields | python/pcs_core/artifact_integrity.py:419-444 | the fields of a sidecar body: its own type and version, and those of the artifact it binds |
| IntegrityTheorems.VerifiedMeansSigned | python/pcs_core/artifact_integrity.py:447-527 | over every run of signing calls, a verified envelope has the type, version and body of an artifact the run signed with that key, or a signature was forged or a digest collided |
| IntegrityTheorems.SameMessageSameArtifact | python/pcs_core/artifact_integrity.py:332-342 | artifacts with one signing message have one type, version and body, or their bytes collide |
| IntegrityTheorems.SameArtifactSameMessage | python/pcs_core/artifact_integrity.py:365-380 | artifacts with one type, version and body have one signing message |
| KeyRegistry.LoadTrustedKeyRegistry | python/pcs_core/artifact_integrity.py:268-316 | the loading loop with its set of seen ids returns exactly what the recursive specification says, errors included |
| KeyRegistryTheorems.LoadMeaning | python/pcs_core/artifact_integrity.py:268-316 | when a document loads as a registry, and as which keys, over the fields of its entries |
| KeyRegistry.RevokeKeyInRegistry | python/pcs_core/artifact_integrity.py:678-710 | the update loop marks exactly the entries with the id, raises when there is none, and reseals the registry |
| KeyRegistryTheorems.KeysRoundTrip | python/pcs_core/artifact_integrity.py:233-248 | written keys with distinct non-empty ids read back with times floored and an empty note absent |
| KeyRegistryTheorems.RegistryLoads | python/pcs_core/artifact_integrity.py:251-316 | exactly which built registries load, and what they load as |
| KeyRegistryTheorems.RegistryRoundTrip | python/pcs_core/artifact_integrity.py:251-316 | loading a built registry gives back its keys, times floored to seconds |
| KeyRegistryTheorems.RevocationRun | python/pcs_core/artifact_integrity.py:678-710 | over every run of revocations, whatever the registry was, each entry is as before or carries the text of the last call naming it, ids and order are unchanged, and unless nothing was revoked the registry digest is its own |
| KeyRegistryTheorems.RegistryAfterRunLoads | python/pcs_core/artifact_integrity.py:268-316 | a registry that loads still loads after a whole run of revocations exactly when the last text of each named entry is a time; then every key is revoked at its last call and otherwise as before |
| KeyRegistryTheorems.TimedTextsReadable | python/pcs_core/artifact_integrity.py:678-710 | a run whose texts all come from a clock never stops a registry from loading |
| KeyRegistryTheorems.RevokedStaysInvalid | python/pcs_core/artifact_integrity.py:678-710 | a key some call revoked at r is invalid at every time from r on after the whole run, when no later call naming it has a later time |
| KeyRegistryTheorems.RevokedInFinalRegistry | python/pcs_core/artifact_integrity.py:678-710 | the same of the key the final registry loads |
| KeyRegistryTheorems.RunShrinksValidity | python/pcs_core/artifact_integrity.py:678-710 | over a whole run the valid times of a key shrink exactly when its last revocation does not push the one it started with later inside the window |
| KeyRegistryTheorems.RunNeverRevives | python/pcs_core/artifact_integrity.py:678-710 | in a run that pushes no revocation later, at every point the valid times of a key are within those at every earlier point |
| KeyRegistryTheorems.RevocationShrinksValidity | python/pcs_core/artifact_integrity.py:67-77 | no time from one revocation on is valid; validity never grows exactly when no earlier revocation is pushed later inside the window |
| Attestation.Seal | python/pcs_core/external_attestation.py:69-141 | the sealed attestation of each branch, step by step, and when sealing raises |
| Attestation.SealedDigestMatches | python/pcs_core/external_attestation.py:62-66 | the overall digest of a sealed attestation is always the one the validator recomputes |
| Attestation.ContentDigestMatchesIff | python/pcs_core/external_attestation.py:82-140 | in the signed branch the recomputed content digest is the signed one exactly when the incoming mode was already the signed one, collisions aside |
| Attestation.SealIssues | python/pcs_core/external_attestation.py:248-336 | no digest or signature issue exactly for accepted seals; a digest mismatch is reported exactly when there is one |
| Attestation.SealMeaning | python/pcs_core/external_attestation.py:248-336 | when a seal is accepted, over the attestation's fields, for each authentication mode |
| Attestation.SignerMeaning | python/pcs_core/external_attestation.py:82-103 | which seed and key id a seal uses |
| Attestation.EnvelopeIssues | python/pcs_core/external_attestation.py:310-336 | the ed25519 branch accepts exactly a known key, a decodable value, a verifying signature and an allowed time |
| Attestation.BoundSealAccepted | python/pcs_core/external_attestation.py:129-141 | a digest-bound seal always validates |
| Attestation.SignedSealValidates | python/pcs_core/external_attestation.py:104-141 | a seal signed under the signed mode validates under the registered key at an allowed time |
| Attestation.OtherModeNeverValidates | python/pcs_core/external_attestation.py:90-128 | a seal signed under another mode validates only if contents collide, or the registered key verifies the seal's signature for the message the validator rebuilds, which is not the one that was signed |
| Release.DigestIsClean | python/pcs_core/pcs_projection.py:94-124 | a digest is trimmed text without the word "unknown", so the placeholder checks never refuse one |
| Release.CheckedMeaning | python/pcs_core/pcs_projection.py:94-108 | a projected value is refused exactly when it is blank or holds "unknown", in letters of either case, standing as a word of its own |
| Release.NormalizeMeaning | python/pcs_core/pcs_projection.py:140-160 | what a raw value projects to |
| Release.ContainedMeaning | python/pcs_core/pcs_projection.py:190-210 | a contained path names a file, starts with no slash of either kind and no drive, and climbs nowhere |
| Release.IdentitySources | python/pcs_core/bundle_identity.py:17-77 | which of six sources decides the identity of the certified bundle when several are present |
| Release.UnescapeEscaped | python/pcs_core/pcs_projection.py:552-563 | a pointer token unescapes to the name it escapes (section 4 of RFC 6901) |
| Release.StepMeaning | python/pcs_core/pcs_projection.py:552-563 | arrays and texts are read by decimal position, and positions outside read nothing |
| Release.ResolveNested | python/pcs_core/pcs_projection.py:552-563 | a two-step JSON Pointer of plain names reads the inner field of the outer object (section 4 of RFC 6901) |
| Projection.ResolverDigestBinds | python/pcs_core/pcs_projection.py:163-172 | equal resolver digests mean equal resolved values, collisions aside |
| Projection.ProjectionManifestBuilder.constructor | python/pcs_core/pcs_projection.py:246-261 | a new builder holds no entry and satisfies its invariant |
| Projection.ProjectionManifestBuilder.FileDigestFor | python/pcs_core/pcs_projection.py:263-269 | the cached digest is the file's |
| Projection.ProjectionManifestBuilder.Add | python/pcs_core/pcs_projection.py:281-356 | a request is refused exactly when the entries alone say so, with that reason; a refused request changes no entry and no index; the indexes always list exactly the entries |
| Projection.AddMeaning | python/pcs_core/pcs_projection.py:281-356 | when a request is accepted, over its fields and the entries already there |
| Projection.NewEntryMeaning | python/pcs_core/pcs_projection.py:281-356 | an accepted entry carries the digest of its file, or of the resolver's text with the value |
| Projection.IdentifierMeaning | python/pcs_core/pcs_projection.py:25 | an identifier starts with a letter or an underscore and goes on with those, digits and dots |
| Projection.ProjectionManifestBuilder.Build | python/pcs_core/pcs_projection.py:358-374 | the manifest of the entries under its own hash, or an error when there is none |
| Projection.AddKeepsSound | python/pcs_core/pcs_projection.py:281-356 | an accepted request keeps all entries well-formed, with file or resolver digests, and pairwise distinct |
| Projection.EntryRoundTrip | python/pcs_core/pcs_projection.py:77-91 | an entry reads back from its own dictionary |
| ProjectionTheorems.RunKeepsSound | python/pcs_core/pcs_projection.py:281-356 | over every run of accepted and refused calls the entries stay sound and nothing is lost |
| ProjectionTheorems.BuiltManifestStructure | python/pcs_core/pcs_projection.py:389-482 | what the builder returns passes the structural validator exactly when "unknown" occurs in no value and no identifier |
| ProjectionTheorems.BuiltManifestReplays | python/pcs_core/pcs_projection.py:485-587 | a built manifest replays without errors exactly when every value is still what its source says and none hides "unknown" |
| ProjectionValidation.EntryIssues | python/pcs_core/pcs_projection.py:401-452 | the checks of one entry report nothing exactly when it is well-formed |
| ProjectionValidation.ValidateStructure | python/pcs_core/pcs_projection.py:389-482 | no structural error exactly for non-empty lists of well-formed, pairwise distinct entries under a digest that holds |
| ProjectionValidation.StructureMeaning | python/pcs_core/pcs_projection.py:389-482 | when a manifest has no structural error, over the five texts of each item and the declared digest |
| ProjectionValidation.ReplayEntry | python/pcs_core/pcs_projection.py:498-574 | the replay of an entry reports nothing exactly when the release still gives its digest and its value |
| ProjectionValidation.ReplayMeaning | python/pcs_core/pcs_projection.py:498-574 | when an entry still says what the release says, for payload digests, resolver values and pointed-at values |
| ProjectionValidation.HashMeaning | python/pcs_core/pcs_projection.py:377-381 | the hash a manifest goes by, and when an expected one is met |
| ProjectionValidation.ValidateAgainstRelease | python/pcs_core/pcs_projection.py:485-587 | no error exactly when structure, every entry and the expected hash hold; only malformed JSON raises |
| Payloads.VerifiedPayloadBound | python/pcs_core/computation_validate.py:85-156 | a verified payload's digest and size are those of the bytes of a file in the release |
| Payloads.PayloadMeaning | python/pcs_core/computation_validate.py:85-156 | when an artifact verifies and as what: id and reference not blank, a resolvable file, its digest and its size |
| Payloads.IterResultArtifactFiles | python/pcs_core/computation_validate.py:159-213 | one pass with a set of seen relative paths finds each result artifact once, in discovery order; names that differ only in "." components or repeated slashes count as one |
| Payloads.DiscoveryMeaning | python/pcs_core/computation_validate.py:159-213 | what discovery finds: the typed or so named JSON objects at the paths of the primary file, the listed files and the manifest's artifacts |
| Payloads.ManifestArtifactVerified | python/pcs_core/computation_validate.py:159-249 | a manifest entry typed ResultArtifact.v0 whose file is such a document is among the verified payloads |
| Payloads.PrimaryFirst | python/pcs_core/computation_validate.py:159-213 | the primary result artifact, when present, is found first |
| Payloads.VerifyAllResultArtifactPayloads | python/pcs_core/computation_validate.py:216-249 | succeeds exactly when there is an artifact, each verifies alone, and no two share a stripped result id or payload path |
| Readiness.ReceiptDigestIgnoresItself | python/pcs_core/computation_validate.py:58-62 | a receipt's body digest does not depend on the digest it carries |
| Readiness.WitnessIssues | python/pcs_core/computation_validate.py:304-328 | nothing is reported exactly for consistent witnesses; only an unhashable status raises |
| Readiness.WitnessMeaning | python/pcs_core/computation_validate.py:304-328 | a witness has no issue when it is checked without violations, rejected with well-formed ones, or stale, with its own digest and a real commit |
| Readiness.AlignmentIssues | python/pcs_core/computation_validate.py:331-406 | nothing is reported exactly when the witness agrees with dataset, environment, run and result |
| Readiness.ReadinessIssues | python/pcs_core/computation_validate.py:409-436 | nothing is reported exactly for ready releases |
| Readiness.ReadyMeaning | python/pcs_core/computation_validate.py:260-436 | when a release has no readiness issue, over the fields of its five documents |
| Readiness.ReadyListsOneHash | python/pcs_core/computation_validate.py:362-387 | a ready witness of digests lists exactly the result's digest |
| Readiness.ReadyReleaseAligned | python/pcs_core/computation_validate.py:409-436 | a ready and readable release has the witness list of its primary digest alone; the alignment obligation then holds exactly when no two payloads share a digest, always with one artifact |
| ExtractionRun.AddRequests | python/pcs_core/lean_trust.py:265-305 | driving the mutable builder gives what folding the requests gives, the first refusal ending it |
| ExtractionRun.ExtractProofObligations | python/pcs_core/lean_trust.py:754-831 | extraction returns exactly the document of a release that reads, builds and replays, and raises when there is none |
| Extraction.LabTrustMeaning | python/pcs_core/lean_trust.py:242-264 | what a LabTrust release reads as, over its five documents |
| Extraction.ComputationMeaning | python/pcs_core/lean_trust.py:544-625 | what a computation release reads as, over its documents and payloads |
| Extraction.LabTrustTable | python/pcs_core/lean_trust.py:307-341 | the three obligations of a LabTrust release, by id and kind |
| Extraction.ComputationTable | python/pcs_core/lean_trust.py:695-733 | the three obligations of a computation release, by id and kind |
| Extraction.ChainMeaning | python/pcs_core/lean_trust.py:71-176 | what is read of the verification chain |
| Extraction.ReleaseIdMeaning | python/pcs_core/lean_trust.py:754-784 | which release id an extraction goes by |
| ExtractionTheorems.AddEachSucceeds | python/pcs_core/pcs_projection.py:281-356 | well-formed requests that do not collide are all taken, in order: both duplicate refusals are unreachable |
| ExtractionTheorems.ChainRequestsGood | python/pcs_core/lean_trust.py:285-305 | the verified, certified and signed digests of a readable release are always accepted and confirmed on replay |
| ExtractionTheorems.PlanExtracts | python/pcs_core/lean_trust.py:780-815 | a plan without collisions is extracted exactly when each request is accepted, confirmed and free of "unknown" |
| LabTrustTheorems.LabTrustDistinct | python/pcs_core/lean_trust.py:265-305 | no two LabTrust requests collide |
| LabTrustTheorems.LabTrustExtracts | python/pcs_core/lean_trust.py:242-359 | a LabTrust release is extracted exactly when it reads, has a release id, and its certificate id does not hide "unknown" |
| LabTrustTheorems.LabTrustVerdict | python/pcs_core/lean_trust.py:180-209 | an extracted document always gets a verdict, of known kinds; its obligations all pass exactly when certificate and runtime trace hashes agree, the certificate is checked, and one bundle is certified, verified and signed with every check passed |
| ComputationTheorems.PayloadBound | python/pcs_core/lean_trust.py:660-672 | each payload the extractor projects is a release file under the digest of its bytes |
| ComputationTheorems.PrimaryPayload | python/pcs_core/lean_trust.py:579-602 | the first payload is the primary artifact's, under the digest that artifact declares |
| ComputationTheorems.ComputationDistinct | python/pcs_core/lean_trust.py:626-693 | with any number of payloads no two requests collide |
| ComputationTheorems.ComputationExtracts | python/pcs_core/lean_trust.py:544-751 | a computation release is extracted exactly when it reads, has a release id, its witness id does not hide "unknown", and each payload path either passes for no resolver and is itself a contained file, or names a registered resolver of the very digest of its file |
| ComputationTheorems.AlignmentHolds | python/pcs_core/lean_trust.py:212-237 | the alignment obligation holds exactly when payload digests are distinct, every witness hash is one of them, the primary one is listed, and the witness is checked |
| ComputationTheorems.ComputationVerdict | python/pcs_core/lean_trust.py:180-239 | an extracted document always gets a verdict; its obligations all pass exactly when every witness hash is the digest of the bytes of a payload file and the bundle chains |
| ObligationVerdict.BlockingMeansChecks | python/pcs_core/lean_trust.py:87-118 | the blocking checks pass exactly when the status is ProofChecked and there are checks, each an object with a check id and a status that is neither failed nor warning |
| ObligationVerdict.ChainedChecks | python/pcs_core/lean_trust.py:87-118 | in a release whose bundle chains, every check has a text status that is neither failed nor warning |
| ObligationVerdict.ChainObligationsHold | python/pcs_core/lean_trust.py:190-204 | both chain obligations hold exactly when one bundle is certified, verified and signed and every check passed |
| ObligationDocument.ValidateObligationProjection | python/pcs_core/pcs_projection.py:590-631 | no error exactly for accepted documents, with or without a release; only malformed JSON raises |
| ObligationDocument.ValidateObligationSemantics | python/pcs_core/lean_validate.py:14-34 | no error exactly for documents with an accepted projection and a non-empty list of obligations of known kinds |
| ObligationDocument.ProjectionMeaning | python/pcs_core/pcs_projection.py:590-631 | a document's projection is accepted exactly when it embeds a manifest without structural errors under its hash and agrees with it on release and workflow |
| ObligationDocument.DocumentMeaning | python/pcs_core/lean_validate.py:14-34 | a document is accepted exactly with an accepted projection and a non-empty list of objects of the named kinds |
| ObligationDocument.ExtractedProjectionAccepted | python/pcs_core/pcs_projection.py:590-631 | every extracted document passes the projection validator, with the release and without it |
| ObligationDocument.ExtractedHeader | python/pcs_core/lean_trust.py:940-1003 | every extracted document has a header the check accepts, so it always gets a verdict |
| LeanTrust.EvaluateAll | python/pcs_core/lean_trust.py:882-902 | the loop evaluates the object entries in order and counts one failure per row not passed |
| LeanTrust.EvaluateMeaning | python/pcs_core/lean_trust.py:180-239 | what each of the five kinds of obligation asks of its inputs; no other kind holds |
| LeanTrust.RowMeaning | python/pcs_core/lean_trust.py:882-902 | a row's kind, id, verdict and theorem, over the fields of its entry |
| LeanTrust.RunLeanCheck | python/pcs_core/lean_trust.py:854-1021 | the verdict is ProofChecked exactly when every obligation holds, the library built if required and the proof compiled if requested; the result passes its validator exactly when all kinds are in the catalog and a compiled proof has a reference |
| LeanTrust.ValidateCheckResult | python/pcs_core/lean_validate.py:37-94 | no error exactly for accepted results; a row is reported as not passed only when it is not |
| LeanTrust.EmittedResultAccepted | python/pcs_core/lean_validate.py:37-94 | what the runner emits is accepted exactly when its kinds are known |
| ReleaseCheck.MaterializeLeanTrust | python/pcs_core/lean_materialize.py:14-56 | extraction and check together succeed exactly when the release extracts, really chains, and the library built if required; document and result then pass their validators, and no check of the verification is failed or warning |
| BundlePaths.WrittenWhereRead | python/pcs_core/pf_core_bundle.py:155-163 | a reference without ".." is written at the place it is later read from |
| BundlePaths.ResolveMeaning | python/pcs_core/safe_paths.py:92-173 | when a reference resolves and to what: length, characters, slashes, drives, parent segments, the file and its suffix |
| EvidenceBundle.EvidenceWriter.UniqueBasename | python/pcs_core/pf_core_bundle.py:346-359 | the search ends, within one step more than there are used names, on the first free candidate |
| EvidenceBundle.EvidenceWriter.AddFile | python/pcs_core/pf_core_bundle.py:400-446 | a request with content becomes one more copy under a fresh name, its bytes written at its place and their digest recorded; it raises exactly when that place is outside the bundle |
| EvidenceBundle.CopyEvidence | python/pcs_core/pf_core_bundle.py:362-510 | a whole run raises exactly when a copy leads outside the bundle; else it leaves the copies its requests lead to, in order, and over them the manifest of all their entries |
| EvidenceBundle.EvidenceIssues | python/pcs_core/pf_core_bundle.py:1071-1099 | each unsafe path and each changed file is reported, and nothing else |
| EvidenceTheorems.DigestsHoldIff | python/pcs_core/pf_core_bundle.py:362-510 | after a whole run, manifest included, every recorded digest holds exactly when no two copies of different digests, and no copy and a manifest of different digests, have one place: a condition on the requests |
| EvidenceTheorems.PlainCopiesHold | python/pcs_core/pf_core_bundle.py:346-510 | with any number of requests without backslashes a run never raises, no copy overwrites another or meets the manifest, and every recorded digest holds at the end |
| EvidenceTheorems.NamesDiffer | python/pcs_core/pf_core_bundle.py:346-359 | whatever the requests, no two copies get one name |
| EvidenceTheorems.DisturbedCollides | python/pcs_core/pf_core_bundle.py:362-510 | where the digests still hold, contents that meet in one place are equal or collide |
| EvidenceTheorems.BackslashesDisturb | python/pcs_core/pf_core_bundle.py:155-163 | two requests whose ids hold backslashes are both written to one place, and the first recorded digest no longer holds |
| EvidenceTheorems.ManifestOverwrites | python/pcs_core/pf_core_bundle.py:502-509 | one request whose id climbs out of the evidence directory is overwritten by the manifest; its digest holds only if it is the digest of the manifest itself |
| EvidenceTheorems.ManifestDigestHolds | python/pcs_core/pf_core_bundle.py:322-343 | the digest a manifest declares is the one recomputed from it |
| EvidenceTheorems.ManifestAscends | python/pcs_core/pf_core_bundle.py:327-343 | the items of a written manifest stand in the character order of their paths |
| EvidenceTheorems.ManifestFields | python/pcs_core/pf_core_bundle.py:327-343 | the fields of a written manifest |
| EvidenceTheorems.ItemFields | python/pcs_core/pf_core_bundle.py:400-446 | the fields of a manifest item; an empty id or type is left out |
| EvidenceTheorems.FreshManifestPasses | python/pcs_core/pf_core_bundle.py:1071-1099 | right after a run without backslashes the checking loop over the whole sorted manifest reports no mismatch, and nothing at all exactly when every written path can be read back |
| EvidenceTheorems.ChangeReported | python/pcs_core/pf_core_bundle.py:1071-1099 | a later change of a listed file is reported, collisions aside |
| KernelManifest.UniqueKernelPaths | python/pcs_core/pf_core_bundle.py:112-128 | raises exactly when the files are no list of objects with pairwise different, non-empty paths |
| KernelManifest.ComputeKernelHash | python/pcs_core/pf_core_bundle.py:251-273 | raises exactly when a path is repeated, empty or unresolvable or a recorded digest is not the file's; else the digest of the separated contents in path order |
| KernelManifest.KernelDigestForm | python/pcs_core/pf_core_bundle.py:251-273 | the digested parts are the contents read where the paths lead, each with its recorded digest if there is one, their paths in character order |
| KernelManifest.JoinForm | python/pcs_core/pf_core_bundle.py:251-273 | each part stands at its offset in the digested bytes, a line of three dashes after every part but the last |
| KernelManifest.KernelHashIgnoresOrder | python/pcs_core/pf_core_bundle.py:251-273 | every reordering of the file list is accepted alike and has the same hash |
| ProvisionEnv.ParseProvisionEnv | python/pcs_core/certifyedge_pin.py:288-315 | the line loop with its dictionary returns what the specification says |
| ProvisionEnv.LinesDivide | python/pcs_core/certifyedge_pin.py:288-315 | a text divides at its line breaks |
| ProvisionEnv.LinesDivideOnce | python/pcs_core/certifyedge_pin.py:288-315 | a carriage return with a line feed is one break |
| ProvisionEnv.ParsedFits | python/pcs_core/certifyedge_pin.py:288-315 | whatever the file, a parsed environment has trimmed single-line values, an executable, a strategy and a known grade |
| ProvisionEnv.ProvisionRoundTrip | python/pcs_core/certifyedge_pin.py:88-103 | parsing undoes writing exactly for such environments; values may hold "=" and "#" |
| ResourceScope.MatchesIff | python/pcs_core/pf_core_runtime.py:386-417 | the matcher never runs out of fuel: a resource matches a pattern exactly when the pattern becomes it with some text for each star |
| ResourceScope.ValidateResourceScope | python/pcs_core/pf_core_runtime.py:420-436 | nothing is raised exactly when every resource read and written is within the pattern of the capability; else the violation is the first one, reads before writes |
| ResourceScope.InScopeMeaning | python/pcs_core/pf_core_runtime.py:420-436 | an action is in scope exactly when the pattern its capability states becomes the location of each resource read and written |
| Traces.LinkErrors | python/pcs_core/pf_core_runtime.py:1158-1186 | the loop over the events reports nothing exactly when each names the hash of the one before it, and its own |
| Traces.ClaimAllowed | python/pcs_core/pf_core_runtime.py:306-313 | a claim class is allowed exactly when it is a trace claim class; the guards after the first never decide |
| Traces.ScopeErrors | python/pcs_core/pf_core_runtime.py:1216-1225 | one error for each object event whose action leaves its pattern, and no other |
| Traces.ChainErrors | python/pcs_core/pf_core_runtime.py:1151-1227 | nothing exactly when the chain, the trace hash, the claim class and the resource scopes hold; past the trace hash each action outside its pattern is reported whatever else is wrong |
| Traces.OrderErrors | python/pcs_core/pf_core_runtime.py:1115-1148 | nothing exactly when the events are numbered consecutively from the first one on |
| TraceTheorems.SameHistory | python/pcs_core/pf_core_runtime.py:1158-1186 | two linked lists of events whose last events have one hash agree event for event on every field but event_hash, signature_or_digest, artifact_digest and signature, or two events collide, or an event hashes to the genesis value |
| TraceTheorems.EventHashCovers | python/pcs_core/pf_core_runtime.py:187-191 | two events have one hash exactly when they agree on every field but those four, collisions aside |
| TraceTheorems.TraceHashCovers | python/pcs_core/pf_core_runtime.py:194-198 | two traces have one trace hash exactly when they agree on every field but trace_hash and the three integrity fields, collisions aside |
| TraceCompile.CompileTrace | python/pcs_core/pf_core_runtime.py:1000-1096 | the loops over tool calls and handoffs build the chained events and seal the trace; they raise exactly without tool calls or at an action outside its pattern |
| TraceTheorems.CompiledChainHolds | python/pcs_core/pf_core_runtime.py:1000-1096 | every compiled trace passes the chain check, trace hash, claim class and resource scopes included |
| TraceTheorems.CompiledOrder | python/pcs_core/pf_core_runtime.py:1049-1066 | a compiled trace passes the order check exactly when it has at most one handoff |
| TraceTheorems.CompiledClean | python/pcs_core/lean_check.py:561-603 | a compiled trace has no trace issue exactly when it has at most one handoff, the schema has no complaint, and each event is safe with explicit capabilities |
| Deciders.TenantIsolation | python/pcs_core/lean_check.py:360-371 | true exactly when every allowed event has principal and action and stays in its tenant |
| Deciders.CrossTenantSafe | python/pcs_core/lean_check.py:374-385 | true exactly when every event has principal and action and every event not denied stays in its tenant |
| Deciders.NonInterference | python/pcs_core/lean_check.py:388-412 | true for every trace of object events and every pair of tenants |
| Deciders.BuildDeciderObligations | python/pcs_core/lean_check.py:453-514 | the table has 4 + T*T + N + A rows; their verdicts are stated over the fields of the events, and all pass exactly when every event is admitted inside its resource pattern and has an object principal and action |
| Deciders.Verdicts | python/pcs_core/lean_check.py:318-450 | an event is safe exactly when it is denied, or allowed with a capability that the principal lists and the catalog knows under its own effect kind, known effects with that one among them, and resources of the principal's tenant; the other deciders likewise |
| Deciders.TenantsMeaning | python/pcs_core/lean_check.py:478-486 | the tenants of a trace are the non-empty ones its principals name |
| Deciders.TableDecidesSafety | python/pcs_core/lean_check.py:343-450 | safety inside resource patterns implies base safety and, for formed events, both tenant deciders |
| PfCoreCheck.TraceIssues | python/pcs_core/lean_check.py:561-603 | no issue exactly when the schema passes, the hash chain with its resource scopes holds, numbers are consecutive, capabilities are explicit and every event is safe |
| PfCoreCheck.BuildCertificate | python/pcs_core/lean_check.py:612-689 | the claim class and the sorted generated and compiled theorem lists of a certificate |
| PfCoreCheck.GenerateAndProve | python/pcs_core/lean_check.py:1001-1092 | the compiled theorems after a successful stage are exactly the generated ones, or none when nothing was compiled |
| PfCoreCheck.RunLeanCheck | python/pcs_core/lean_check.py:927-1216 | the run exits 0 exactly when it accepts; then it claims LeanKernelChecked with exactly the generated theorems, the required ones among them, or RuntimeChecked with none when a step was skipped, and the only rows not passed are base theorems that were not compiled; another run claims nothing |
| PfCoreCheck.AcceptedTraceSafe | python/pcs_core/lean_check.py:561-603 | every run that exits 0, with any skip flags, had a trace that is linked by its hashes and numbered without gaps, and whose allowed events use a listed and catalogued capability inside its pattern and their tenant |
| ContractLayers.ResolveSemanticsLayer | python/pcs_core/pf_core_contract_semantics.py:78-86 | the merge loop gives the canonical layers of fields in use, overridden by the text entries in order |
| ContractLayers.DefaultLayers | python/pcs_core/pf_core_contract_semantics.py:11-22 | the default layer of every field name |
| ContractLayers.FieldLayerMeaning | python/pcs_core/pf_core_contract_semantics.py:164-182 | a field's layer is what the last text entry under its name says, else its default |
| ContractLayers.InUseMeaning | python/pcs_core/pf_core_contract_semantics.py:46-67 | the fields in use are those of the table set to anything but null, false and blank text |
| ContractLayers.ValidateSemanticsLayer | python/pcs_core/pf_core_contract_semantics.py:89-161 | nothing is reported exactly when every explicit entry repeats the canonical layer of a field in use |
| ContractLayers.CanonicalLayers | python/pcs_core/pf_core_contract_semantics.py:70-86 | a contract without layer issues resolves to exactly the canonical map restricted to fields in use |
| ContractLayers.DroppedLayers | python/pcs_core/pf_core_contract_semantics.py:89-167 | dropping its explicit layers changes neither its fields nor any layer |
| ContractChecks.ValidateEventAgainstContract | python/pcs_core/pf_core_contract.py:184-340 | the branches report exactly the violated requirements whose layer is in scope, in order |
| ContractChecks.IssuesMean | python/pcs_core/pf_core_contract.py:184-340 | each issue is reported for an event exactly when it applies, spelt out over the fields of event and contract |
| ContractChecks.ValidateTraceContracts | python/pcs_core/pf_core_contract.py:343-372 | the nested loops report missing references and event issues in order |
| ContractChecks.TraceIssuesMean | python/pcs_core/pf_core_contract.py:343-372 | each issue is reported at an index exactly when a reference of the event there is missing or its contract says so |
| ContractChecks.NoIssuesMeansSatisfied | python/pcs_core/pf_core_contract.py:184-340 | nothing is reported for an event exactly when it satisfies every requirement of the contract whose layer is in scope |
| ContractChecks.NoIssuesMeansConforming | python/pcs_core/pf_core_contract.py:343-372 | nothing is reported for a trace exactly when its events are a list and every contract an object event refers to is known and satisfied by it |
| ContractChecks.DroppedLayersKeepVerdict | python/pcs_core/pf_core_contract.py:184-340 | deleting the explicit layers of a contract without layer issues changes no verdict on any event |
| ContractChecks.BareContractsKeepTraceVerdict | python/pcs_core/pf_core_contract.py:343-372 | deleting them from every contract changes nothing reported for any trace |
| ContractSummary.KeyInjective | python/pcs_core/pf_core_contract_semantics.py:321-325 | a certificate key names one contract and one field, whatever dots the contract id holds |
| ContractSummary.BuildContractSemanticsChecked | python/pcs_core/pf_core_contract_semantics.py:300-335 | both lists are sorted, without repetition, and hold exactly the keys of the referenced contracts in that layer and the missing references |
| ContractSummary.ReferencedMeaning | python/pcs_core/pf_core_contract_semantics.py:300-320 | a contract is referred to exactly when an object event lists something that reads as its id |
| ContractSummary.SummaryDependsOnReferences | python/pcs_core/pf_core_contract_semantics.py:300-335 | traces that refer to the same set of contracts have the same summary |

## Left out

- Tool-use releases: `_extract_tool_use_obligations` repeats the pattern of the two extractors modelled here; workflow detection is a parameter.
- Floating-point inputs: values with floats are outside the injectivity theorems, as the release number policy rejects them; a float equal to an integer is treated as different from it, where Python compares them equal.
- Signing with `enforce_number_policy=False`: the soundness theorem is about runs under the policy.
- SHA-256, Ed25519, ISO calendar text and the parsing of JSON files are parameters; the reader in `JsonReader` exists to prove the printer injective.
- Environment variables, the clock, subprocesses, the Lean toolchain and JSON Schema validation are parameters of a run.
- Lean text generation (`pcs_lean_codegen.py`, `pf_core_lean_codegen.py`): a generated module is the set of theorems it declares.
- Symbolic links, directories, permission errors and failing writes: a release or bundle is a finite map of regular files, and a copy into it succeeds; an evidence name that leads to a directory raises in the code.
- JSON Pointer: the `jsonpointer` package also reads "-"; array indexes with leading zeros are rejected here.
- `source_artifacts` and `source_repo` of ProofObligation.v0 are constant tables and are not part of the modelled document.
- Materialize with `skip_if_unchanged`: the early return on files already present is not modelled.
- Principals whose `capabilities` cannot be iterated, and trace events that are no objects, raise `TypeError` or `AttributeError` in the deciders; both are excluded by the trace schema and are not modelled.
- Capability expansion by roles and resolved evidence are predicates given to the trace and contract checks; the capability catalog is a parameter of the deciders.
- The trace schema is modelled as far as later checks rely on it (the trace hash, and events with object principal and action and both hashes); the rest is a count of complaints given to the run.
- Resource patterns longer than Python's recursion limit: the matcher raises `RecursionError` in the code.
- TraceCompile.CompileTrace: starts from the action and the other fields of each event; schema, catalog, mapping and authority errors raised while those are read from a tool call or handoff, and the check that denied calls were kept, are not modelled.
- `build_pfcore_certificate` beyond claim class, theorem lists, obligations and proof reference: contract, handoff, frame and transition digests only copy what other modules computed.
- `validate_bundle` beyond evidence and kernel: it reads the other self-declared hashes without recomputing the bodies.
- `validate_external_attestation` beyond digest, mode and signature: bundle, trace, live and pin checks are field comparisons.
- `materialize_contract_semantics_layer`: it lays out records from the layers proved canonical here.
- `verify_release_root_signatures`, `discover_integrity_envelope`: directory walks around the verifier modelled here.
- ContractSummary.BuildContractSemanticsChecked: the integer reading of `sequence` is a parameter that may raise, because the summary never depends on the order it gives.
- PfCoreCheck.RunLeanCheck: whether the finished certificate passes its schema is an outcome of the run.
