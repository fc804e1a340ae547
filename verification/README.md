# Verified model of compage-go

A Dafny model of the parts of compage-go in which most can go wrong, with proofs of what they promise.
`dafny verify dfyconfig.toml` checks everything. Paths below are relative to the root of the Go repository.

## What is modelled

**The certificate authority (`certs`).** One persisted document holds roots by generation, issuers by slug and
version, at most one pending transaction and a revision. `Authority` states what `Ensure`, `PromotePending`,
`DiscardPending`, `PruneRoot` and the surrounding `update` compute; `AuthorityDocument` and `FileStores` change a
document and a store in place, loop by loop, and are proved to compute exactly that. `Validation` is
`validateState` with its loops and its errors; `AuthorityInvariant` strengthens it to an inductive invariant; `Recheck` says for every document that `validateState` accepts,
reachable or not, when an operation leaves a valid one; `AuthorityEffects` says what the operations achieve and what
undoes what; `SpecDrift` is about `assertSpec`. `MadeRecords`, `AuthorityOutcomes` and `DocumentGuarantees` say in
instants, names and single fields when each operation succeeds, which error it gives otherwise, what the document then
holds, and what `validateState` accepts. `Lifecycle` and `Safety` are about every run of atomic operations: a root stays trusted as long as a leaf
under it can be valid, the whole ledger is always accepted, retired keys never come back, a generation stays in the
bundle from its staging to its discard or the end of its window. `Protocol` makes the file locks explicit steps of any
number of concurrent authority calls and issuer managers (reload, page-by-page ledger reading, check, retry and append
included). `ProtocolInvariant` and `ProtocolSafety` prove that it cannot deadlock and that every interleaving follows
one run of atomic operations, each of its states at its place in that run; `ProtocolRuns` carries the results about two
or more moments over to interleavings in this way. `ProtocolProgress` is the other direction: a call that the others
leave alone can always be started and ends as the atomic operation does, a refused append is followed by another attempt,
and a cancelled call gives its locks back. `Signing` and `IssuerManagers` are the signer's side; `PolicyMeaning` says what
the policy allows in labels, characters and addresses, `SigningOutcomes` when a request is signed and what the leaf and
its record hold, `LedgerMeaning` what every recorded leaf says, in every run and interleaving.
`StaleCheckExample`, `StaleSignerExample`, `FractionExample` and `RecheckExamples` are concrete inputs and runs.

**Chains and trust sets.** `Bundles` and `BundleProperties` rebuild one chain from loose certificates; which
certificate verifies under which is an arbitrary relation there. `TrustBundle` builds the canonical trust set.
`BundleMeaning` and `TrustMeaning` say on the certificates' own fields what is accepted and what results.

**The SQLite mirror.** `SqliteMirror` fills six tables from the document and checks them by counts and lookups.

**Error graphs (`errx`).** `ErrorGraph` and `ErrorTermination` are the depth-first traversal of `KindsOf` over unwrap
graphs with sharing and cycles, `ErrorKinds` and `ErrorKindSearch` the search of `KindOf`; `ErrorSharing`, `ErrorCycles`
and `ErrorKindSharing` compare both with definitions that keep no marks; `ErrorMeaning` says what these find, in chains of
unwrapped errors and the kinds they declare.

**Layered configuration (`config`).** `DottedKeys` and `ConfigRegistry` form keys and check namespaces;
`ConfigNames` says what keys and snake-case names are made of;
`ConfigDocument` nests values into mutable maps and flattens them again; `ConfigSnapshot` and `ConfigRuns` are the
transactional `Load` and `Set`; `ConfigPrecedence` says what they publish, on the flags, variables, file, initial values
and defaults that were there.

Every loop of the source is a loop here, over Go maps in arbitrary order. A method that works step by step is proved
equal to a function of its inputs or of the old state, and the theorems are about that function. The modules named
`...Outcomes`, `...Meaning`, `...Guarantees` and `ConfigPrecedence` state what these functions mean without their names,
predicates or constants.

## Where the code and its description differ

- A configured identity with a common name is accepted, stored and never matched: `validateState` compares the stored
  identity with the subject of the root, which carries the generation's common name and none of the identity's. The
  first `Ensure` then always fails with a drift of the root it has just made (`CommonNameIsRefused`); provisioning leaves
  a valid document exactly when the identity has no common name (`ProvisionPasses`).
- `validateState` is not inductive: from a document whose pending root is its active root, which passes it, promoting
  and discarding both leave a document that fails it (`ValidStateIsNotInductive`). A Go map gives 0 for an issuer that
  the manifest does not name, so under a manifest its version 0 needs a key; `validateState` does not forbid such a
  version, and `Ensure`, discarding and promoting can then be refused (`VersionZeroStopsEnsure`, `VersionZeroStopsBoth`).
  `RecheckExactly` and `UpdateExactly` give, for every document that passes and for the missing one, the exact condition
  under which each operation leaves one that passes: always for `PruneRoot`; for `Ensure`, when it stages no issuer
  manifest or every issuer with a version 0 is due; for discarding, when the manifest names nothing active, leaves no
  version without its root and no issuer with a version 0 out; for promoting, when it names nothing active, every
  pending version hangs under the root that becomes active and no issuer with a version 0 is left out. On reachable
  documents all of these hold (`RecheckNeverRejects`).
- `assertSpec` compares the texts that `fmt.Sprint` makes of two identities. A word moved from the end of one field to
  the start of the next goes unnoticed (`MovedWordIsMissed`); against a stored identity without spaces in its fields
  every difference is noticed (`SpaceFreeIsNoticed`).
- `SignCSR` checks a ledger that it reads after the document. In every interleaving it has read, at its last page,
  exactly a ledger that the current document accepts, and it refuses it exactly when a record is newer than the document
  it started from (`SignerRefusesExactly`). `StaleSignerIsRefused` is an interleaving in which that happens.
- In Ledger mode a leaf is never issued when the requested lifetime is not a whole number of seconds: the certificate
  drops the fraction, the ledger record keeps it, and the append refuses the difference (`CurrentRecordAccepted`,
  `SigningSucceeds`; a complete run in `FractionalLifetimeIsRefused`).
- `markSeen` says that value errors cannot form a recursive unwrap tree. A slice of errors that contains itself does,
  and is followed for ever by `KindsOf`, which ends exactly when it reaches no such cycle of values
  (`TerminatesIffNoTrap`). `KindOf` follows nothing below a classified error: it ends when no such cycle is reachable
  through unclassified errors, and, where what it can reach has at most one kind, only then; with two kinds a conflict
  can end the search before it comes to the cycle (`KindOfTerminates`, `KindOfEndsExactly`, `ConflictCutsTrap`).
- A second visit of a shared error counts as unclassified for `KindOf` (`SharingMatters`). On finite unwrap trees every
  call of the search finds the plain kind of its error exactly when no call meets a marked pointer whose plain kind is a
  classification (`SharingMattersExactly`); sharing of unclassified errors is harmless
  (`UnclassifiedSharingIsHarmless`), and so is all sharing while there is only one kind (`OneKindIsPlain`). At the root
  alone the condition is sufficient and not necessary (`RootMayAgree`).
  `KindsOf` is not affected by sharing or cycles: its order is that of the first simple path to each kind
  (`KindsOfFollowsSimplePaths`).
- The neighbour test for namespace clashes misses a clash exactly when another key extends the scalar with a byte below
  the dot, such as `a-b` between `a` and `a.c` (`AdjacentTestIsExact`, `MissedClash`). Names from `snake` never do
  (`AcceptedExactly`).
- The parity check of the SQLite mirror reads one row of `authority_records` and does not count the others
  (`ParityIsExact`, `ExtraAuthorityUnnoticed`). All other tables are exact. The active version of an issuer has no
  column; of two valid documents it is given away by the stored keys and the manifest, so tables filled from one valid
  document pass against another only if the two are equal (`MirrorIdentifies`).

## Assumptions

Signatures are idealised: a certificate verifies under the key that signed it (in `Bundles` the relation is arbitrary).
DER bytes are an opaque number that also serves as fingerprint. A key and its public half are one number. The random
source does not repeat itself where the model says fresh. Time is a number of nanoseconds and the clock never goes
back. A successful write of the state file or the ledger file is atomic, and flock is an ideal read-write lock.

## Model

| member | source | states |
|---|---|---|
| Certificates.WholeSecondsBounds | certs/authority.go:386-418 | X.509 times drop less than a second and are whole seconds |
| Text.ItoaInjective | certs/sqlite_store.go:344-361 | decimal numerals determine their number |
| Text.ItoaValue | certs/authority.go:141-144 | a numeral is worth its number, has no leading zero, and a minus sign exactly for a negative one |
| Validation.StateErrorsMeaning | certs/validate.go:12-144 | validateState has an error to return exactly when the document is not valid |
| Validation.ValidateState | certs/validate.go:12-144 | its loops, whatever order the maps come in, accept exactly the valid documents and otherwise return one of the errors of the first table that has any |
| DocumentGuarantees.ValidExactly | certs/validate.go:12-144 | validateState accepts exactly the documents whose every root, version, issuer and manifest field is as listed: numbers, CA flags, signatures, fingerprints, generated names, five minutes of nesting, keys with active and pending records only |
| DocumentGuarantees.FaultsExactly | certs/validate.go:12-144 | "unavailable" exactly for another format version; drift exactly for a name or fingerprint that does not match, of a root, or of an issuer version once the roots are in order; corruption otherwise |
| DocumentGuarantees.ReadExactly | certs/file_store.go:123-148 | load gives back a valid document, "not found" for a missing one, and one of its errors for any other |
| MadeRecords.RootIsNew | certs/authority.go:353-385 | a new root names its generation, signs itself, starts five minutes before and ends the configured validity after now in whole seconds, and may sign certificates and lists below which one CA may follow |
| MadeRecords.VersionIsNew | certs/authority.go:386-418 | an issuer version is made exactly when its validity ends five minutes before the root does, and then has the generated name, the root's signature, the definition's validity and no CA below |
| AuthorityInvariant.InvImpliesValidState | certs/validate.go:30-142 | the strengthened invariant (generations 1 to active, plus one iff a root is pending; the same per issuer version; every active issuer under the active root; a pending root covers all issuers; an identity without a common name) implies every check of validateState |
| AuthorityInvariant.ProvisionInv | certs/authority.go:277-317 | a freshly provisioned authority satisfies the invariant exactly when the configured identity has no common name |
| AuthorityInvariant.PrepareRootInv | certs/authority.go:453-476 | staging a new root with successors for all issuers keeps the invariant |
| AuthorityInvariant.PrepareIssuersInv | certs/authority.go:477-495 | staging successors for the due issuers keeps the invariant |
| AuthorityInvariant.EnsureInv | certs/authority.go:154-275 | Ensure keeps the invariant on every document for which it succeeds, and establishes it exactly for an identity without a common name |
| AuthorityInvariant.PromotedInv | certs/authority_operations.go:89-114 | promotion keeps the invariant for every deadline |
| AuthorityInvariant.DiscardedInv | certs/authority_operations.go:183-235 | discarding the pending transaction keeps the invariant |
| AuthorityInvariant.PruneInv | certs/authority_operations.go:324-345 | pruning a retired root keeps the invariant |
| AuthorityInvariant.MutateInv | certs/authority_operations.go:10-156 | every mutation keeps the invariant and leaves the revision to update; the first one establishes it exactly for an identity without a common name |
| AuthorityInvariant.RecheckNeverRejects | certs/file_store.go:165-214 | on a reachable document the validation at the end of update never refuses what a mutation produced; on a missing one it refuses exactly a configured common name, with a drift |
| AuthorityInvariant.UpdateInv | certs/file_store.go:165-214 | every successful update yields a valid document with a larger revision |
| AuthorityInvariant.ValidStateIsNotInductive | certs/validate.go:30-142 | validateState alone is not preserved: a concrete valid document that a promotion and a discard both make invalid, so that update refuses them as corrupt |
| Recheck.ProvisionPasses | certs/authority.go:277-317 | provisioning leaves a valid document exactly when the configured identity has no common name |
| Recheck.PrepareIssuersPasses | certs/authority.go:477-495 | staging the due issuers leaves a valid document exactly when no issuer left out has a version 0 |
| Recheck.EnsurePasses | certs/authority.go:154-317 | on any valid document a successful Ensure leaves a valid one exactly when it stages no issuer manifest or every issuer with a version 0 is due, said of the document and the configuration before the call |
| Recheck.PrunePasses | certs/authority_operations.go:324-345 | pruning always leaves a valid document |
| Recheck.DiscardPassesExactly | certs/authority_operations.go:183-235 | on any valid document, discarding leaves a valid one exactly when the manifest names no active root or version, leaves no version under a removed root and no issuer with a version 0 out, and a root manifest has a positive generation |
| Recheck.PromotePassesExactly | certs/authority_operations.go:10-114 | on any valid document, promoting leaves a valid one exactly when the pending root is positive and not active, each pending version is positive, not active and under the root that becomes active, and no issuer with a version 0 is left out |
| Recheck.RecheckExactly | certs/file_store.go:200-214 | for every valid or missing document and every command, the result of a successful mutation is valid exactly when the command's condition held before |
| Recheck.UpdateExactly | certs/file_store.go:165-214 | update succeeds exactly when the ledger is readable and accepted, the mutation succeeds and the condition holds; the re-check's refusal is "corrupt" on a document and "drift" on a first one, whatever order the maps come in |
| RecheckExamples.CommonNameIsRefused | certs/validate.go:58-61 | an accepted configuration with which Ensure can never create an authority |
| RecheckExamples.VersionZeroStopsEnsure | certs/validate.go:100-106 | a valid document on which staging one issuer is refused because another has a version 0 |
| RecheckExamples.VersionZeroStopsBoth | certs/validate.go:100-106 | a valid document whose manifest can neither be discarded nor promoted because an issuer it leaves out has a version 0 |
| SpecDrift.SpaceFreeIsNoticed | certs/authority.go:327-346 | against a stored identity whose fields hold no space, assertSpec accepts exactly the same identity |
| SpecDrift.MovedWordIsMissed | certs/authority.go:327-346 | two different identities that assertSpec takes for the same |
| AuthorityInvariant.NextGenerationIsNext | certs/authority.go:453-476 | the search for a free generation finds active + 1 when no root is pending |
| AuthorityEffects.EnsureAchieves | certs/authority.go:154-275 | afterwards every configured issuer exists as configured and exactly what is due is staged; "no mutation" exactly when all of that held already |
| AuthorityEffects.EnsureSettles | certs/authority.go:198-275 | where Ensure only added issuers, the same call finds nothing more to do |
| AuthorityOutcomes.EnsureSucceedsExactly | certs/authority.go:154-275 | Ensure succeeds, or has nothing to do, exactly when the configuration agrees, nothing is pending, the secret is right, every configured issuer is there as configured or fits, and the rotation due fits; otherwise the first of these decides the error |
| AuthorityOutcomes.EnsureLeavesNothingDue | certs/authority.go:223-262 | after "no mutation", or a success that leaves nothing pending, every active certificate ends later than now plus its configured window (20 days without one), and no window is 0 |
| AuthorityOutcomes.EnsureStagesExactly | certs/authority.go:223-262 | a root is staged exactly when the active one ends within its window or the window is 0, and otherwise a version exactly for each issuer whose active certificate does |
| AuthorityOutcomes.EnsureParts | certs/authority.go:198-262 | the configured issuers that were missing are added as version 1 under the active root, and then the root and all issuers, or the due issuers, get new records and a manifest of this revision and moment, and nothing else changes |
| AuthorityOutcomes.ProvisionExactly | certs/authority.go:277-317 | the first Ensure succeeds exactly when a name is configured and every issuer fits; the new document has the configured or default specification, generation 1 and version 1 of every configured issuer |
| AuthorityOutcomes.AddedExactly | certs/authority.go:198-222 | adding issuers succeeds exactly when each is there as configured or fits under the active root; the first that is not decides: drift if it is known, invalid if it does not fit |
| AuthorityOutcomes.PromoteSucceedsExactly | certs/authority_operations.go:10-88 | promotion succeeds exactly when the configuration agrees, something is pending, a pending root has the right secret, and the ledger a deadline depends on is in order; a missing secret is "not found", a wrong one invalid |
| AuthorityOutcomes.PromotedExactly | certs/authority_operations.go:89-114 | the pending versions become active, the ones they replace lose only their keys, and a replaced root stays trusted for a year and the skew, or until five minutes after the last recorded expiry under it, or not at all |
| AuthorityOutcomes.DiscardExactly | certs/authority_operations.go:183-235 | discarding succeeds exactly when the configuration agrees and something is pending, and removes just the pending root and versions |
| AuthorityOutcomes.PruneExactly | certs/authority_operations.go:324-345 | pruning succeeds exactly for an earlier generation under its fingerprint whose window has ended, changes only the window, and gives the error of each refusal |
| AuthorityOutcomes.UpdateOutcome | certs/file_store.go:165-214 | a whole update on a reachable document: corruption exactly when a record disagrees with its certificate or its issuer version does not vouch for it, else the error of the operation, else its document with the next revision |
| AuthorityOutcomes.FirstUpdateOutcome | certs/file_store.go:165-214 | without a document only Ensure can succeed, and then writes revision 1; every refusal has the error given |
| AuthorityOutcomes.AppendOutcome | certs/file_store.go:443-509 | a record is appended exactly when a valid document of its revision and active version is there, it agrees with its certificate, the ledger is in order and neither its serial nor its bytes are known; each refusal has the error given |
| AuthorityEffects.PromoteCompletesRotation | certs/authority_operations.go:89-114 | preparing and promoting a root activates the next generation, moves every issuer to a version it signed, retires the old keys and changes nothing else |
| AuthorityEffects.DiscardUndoesPrepareRoot | certs/authority_operations.go:183-235 | discarding a prepared root rotation gives the document back as it was |
| AuthorityEffects.DiscardUndoesPrepareIssuers | certs/authority_operations.go:183-235 | discarding prepared issuer rotations gives the document back as it was |
| Evolution.UpdateEvolves | certs/file_store.go:165-214 | no update changes the specification, an issuer definition or a once active version, removes an issuer, or lets the revision stand still |
| Evolution.EvolvesTransitive | certs/authority_operations.go:10-156 | that relation composes over any number of updates |
| AuthorityDocument.Document.Provision | certs/authority.go:277-317 | the in-place provisioning computes the specified document, or fails with the specified error |
| AuthorityDocument.Document.AddIssuers | certs/authority.go:198-222 | the loop over configured issuers adds exactly the unknown ones, refuses drift, and reports whether one was added |
| AuthorityDocument.Document.StageIssuers | certs/authority.go:453-495 | whatever order the issuer map yields, the same successors and manifest are staged |
| AuthorityDocument.Document.PrepareRoot | certs/authority.go:453-476 | the in-place preparation of a root equals its specification |
| AuthorityDocument.Document.PrepareIssuers | certs/authority.go:477-495 | the in-place preparation of issuers equals its specification |
| AuthorityDocument.Document.DueIssuers | certs/authority.go:238-248 | the loop collects exactly the issuers whose rotation is due |
| AuthorityDocument.Document.Ensure | certs/authority.go:154-275 | the in-place Ensure equals its specification in every branch, errors included |
| AuthorityDocument.Document.LedgerTrustDeadline | certs/authority_operations.go:158-181 | the page-by-page loop computes the deadline over the whole ledger |
| AuthorityDocument.Document.PromotePending | certs/authority_operations.go:10-114 | the in-place promotion equals its specification |
| AuthorityDocument.Document.DiscardPending | certs/authority_operations.go:183-235 | the in-place discard equals its specification |
| FileStores.FileStore.ReadLedger | certs/file_store.go:510-548 | the loop returns the whole ledger exactly when every stored record is valid by itself |
| FileStores.FileStore.CheckRecords | certs/validate.go:202-229 | the loop accepts exactly the ledgers all of whose records are accepted |
| FileStores.FileStore.Update | certs/file_store.go:165-214 | the document file is replaced exactly when the update succeeds, by the specified document; otherwise nothing changes |
| FileStores.FileStore.AppendLedger | certs/file_store.go:443-509 | the ledger grows by this one record exactly when the authority check passes, the stored records are valid and the duplicate tests pass |
| FileStores.FileStore.ListLedger | certs/file_store.go:562-587 | a page continues the ledger from the cursor with at most limit records (100 by default), is full unless it is the last, and gives the next cursor exactly when records remain; a cursor outside the ledger and a ledger with an invalid record are refused |
| FileStores.FileStore.ReadPages | certs/issuer.go:423-437 | following the cursors yields the whole ledger in order, for every page size, or the refusal of an invalid record |
| FileStores.FileStore.LookupLedger | certs/file_store.go:549-561 | a record with this issuer, version and serial is found exactly when there is one, in a ledger of valid records |
| LedgerPaging.PageExtends | certs/file_store.go:562-587 | each page continues the prefix read so far, moves forward, and the last one completes it |
| LedgerPaging.GrowingLedgerIsRead | certs/issuer.go:423-437 | with records appended between pages, the pages read add up to the ledger as of the last one |
| LedgerPaging.ScanAppend | certs/authority_operations.go:158-181 | scanning page after page equals scanning the concatenation |
| Lifecycle.DeadlineIsMaximum | certs/authority_operations.go:158-181 | the deadline is the maximum of skew-extended expiries under the root, and 0 only without records |
| Lifecycle.DeadlineOutlasts | certs/authority_operations.go:89-105 | the deadline taken at promotion outlasts every leaf issued under the retiring root, in both modes |
| Lifecycle.ChangeKeepsStoreInv | certs/authority_operations.go:89-114 | no authority operation uncovers a record |
| Lifecycle.IssueKeepsStoreInv | certs/file_store.go:470-509 | a new record is covered by the active root and clashes with none |
| Lifecycle.RunKeepsStoreInv | certs/file_store.go:165-214 | the store invariant holds in every state of every run |
| TrustBundle.NormalizeTrustCertificates | certs/trust_bundle.go:36-62 | the loop with its map and sort equals the canonical form, errors included |
| TrustBundle.NormalizedMeaning | certs/trust_bundle.go:36-62 | normalisation succeeds exactly on non-empty sequences of distinct self-signed CA certificates without a nil, and gives a strictly sorted permutation |
| TrustBundle.NormalizedCanonical | certs/trust_bundle.go:134-140 | the canonical form does not depend on the input order and is a fixed point |
| TrustBundle.StrictlySortedUnique | certs/trust_bundle.go:36-62 | a strictly sorted sequence is determined by its elements |
| TrustBundle.BuildTrustBundle | certs/trust.go:11-24 | in a valid state the bundle exists, is never empty, and is the sorted set of the trusted generations' certificates |
| TrustBundle.BundleUnique | certs/trust.go:11-24 | any two walks of the roots map give the same bundle |
| Safety.TrustCoverage | certs/authority_operations.go:89-105 | in every reachable state each unexpired leaf chains to a root of the trust bundle of that moment |
| Safety.WindowOutlastsLeaves | certs/authority_operations.go:89-105 | in both modes a retired root's window ends at least the clock skew after every leaf under it |
| Safety.PruneKeepsTrust | certs/authority_operations.go:324-345 | a root can be pruned exactly when no bundle from now on trusts it; pruning changes no bundle of this or any later moment |
| Safety.LedgerAlwaysAccepted | certs/validate.go:202-229 | the ledger check accepts the whole ledger in every reachable state, and no two records clash |
| Safety.RunIsLater | certs/file_store.go:165-214 | along a run documents evolve, the ledger only grows, and the revision identifies the document |
| Safety.StaleLedgerCheck | certs/validate.go:202-229 | along a run, an earlier document accepts a later ledger exactly when no record has a newer revision |
| Safety.KeysFollowActivity | certs/validate.go:51-57 | a private key is stored exactly with active and pending records |
| Safety.RetiredKeysStayGone | certs/authority_operations.go:89-114 | a superseded root or version stays, with its certificate, and never holds a key again |
| Safety.GenerationStays | certs/trust.go:11-24 | along a run a generation, once trusted, is in every bundle until it is discarded while pending or its window ends after retirement |
| Safety.StagedIsTrusted | certs/trust.go:11-24 | a pending root is in the bundle from the moment it is staged |
| StaleCheckExample.StaleCheckRefusesSoundLedger | certs/validate.go:202-229 | a concrete run with a ledger that its own document accepts and an earlier one does not |
| Signing.MadeJobHolds | certs/issuer.go:243-281 | a request that passed every check obeys the policy and fits the issuer's lifetime less the clock skew |
| PolicyMeaning.DomainExactly | certs/issuer.go:413-421 | a name is a domain or ends with a dot and it exactly when its labels end with those of the domain |
| PolicyMeaning.DNSExactly | certs/issuer.go:413-421 | a DNS name is allowed exactly when its labels, without a final dot and up to case, end with those of one of the suffixes |
| PolicyMeaning.BareExactly | certs/issuer.go:413-421 | white space around a suffix and one dot at either end do not count |
| PolicyMeaning.EmailExactly | certs/issuer.go:396-410 | an address is allowed exactly when what follows its last at-sign is one of the domains up to case |
| PolicyMeaning.PolicyExactly | certs/issuer.go:343-412 | the checks allow exactly the requests that have every required attribute, and whose DNS names, addresses, URIs and emails each meet one of the rules given for their kind |
| SigningOutcomes.LoadExactly | certs/issuer.go:64-97 | loading finds an issuer by slug and name, and takes its active version and the active root's certificate |
| SigningOutcomes.JobExactly | certs/issuer.go:243-281 | the checks pass exactly for a request that obeys the policy before and after the options, for an allowed profile, at most a year, ending five minutes before the issuer; the policy and the profile are "forbidden", the validity invalid |
| SigningOutcomes.SignsExactly | certs/issuer.go:204-341 | in every reachable Ledger-mode state a request is signed exactly when the issuer is there, the request admissible, its lifetime whole seconds, and one of eight draws has a serial and bytes that no record has |
| SigningOutcomes.SignsContents | certs/issuer.go:287-340 | the first such draw is used; the leaf has the request's names, key, profile and end and the issuer's name and signature, and the record says the same |
| SigningOutcomes.SignsWithoutLedger | certs/issuer.go:243-340 | without a ledger the request alone decides, the first draw is used, and leaf, issuer and root are returned |
| LedgerMeaning.LeavesInEveryRun | certs/issuer.go:243-339 | in every run every recorded leaf agrees with its record, was signed by the version named, obeys the policy in its own fields, is at most a year long and nested in issuer and root; no two records share a serial or bytes |
| LedgerMeaning.LeavesInEveryInterleaving | certs/issuer.go:243-339 | the same in every interleaving, whatever was reloaded and retried on the way |
| LedgerMeaning.RevisionInEveryRun | certs/file_store.go:200-206 | a document that is there has a positive revision |
| Signing.LoadSound | certs/issuer.go:64-97 | loading from a reachable document always succeeds with matching key, nested lifetimes and a signed chain |
| Signing.CurrentRecordAccepted | certs/validate.go:145-200 | a record made from current material is refused exactly when the lifetime is no whole number of seconds |
| IssuerManagers.IssuedBundleNormalizes | certs/issuer.go:333-336 | the final normalisation always accepts leaf, issuer and root, in this order |
| IssuerManagers.FirstFreeWins | certs/issuer.go:287-340 | of eight attempts the first that clashes with no record is used; a conflict means that all eight clash |
| IssuerManagers.SigningSucceeds | certs/issuer.go:204-341 | an admissible request is signed exactly when its lifetime is whole seconds and one of the eight draws is new |
| FractionExample.FractionalLifetimeIsRefused | certs/issuer.go:243-341 | after provisioning, one request is signed when it asks for one second and refused as corrupt when it asks for one and a half |
| IssuerManagers.SignedIsIssue | certs/issuer.go:287-340 | a successful SignCSR is an issuing step of the lifecycle |
| IssuerManagers.LoadedIsRemembered | certs/issuer.go:229-239 | material loaded earlier in a run is current whenever the revisions agree |
| IssuerManagers.IssuerManager.Open | certs/issuer.go:38-63 | a manager opens exactly when its issuer loads, with valid material |
| IssuerManagers.IssuerManager.Reload | certs/issuer.go:98-105 | reloading replaces the material or, failing, keeps it |
| IssuerManagers.IssuerManager.SignCSR | certs/issuer.go:204-341 | success appends exactly the record of the returned leaf, failure leaves the ledger alone, and the bundle is always leaf, issuer, root |
| IssuerManagers.IssuerManager.Attempt | certs/issuer.go:287-341 | the signing loop returns the first free attempt |
| ProtocolInvariant.LockStepKeepsLockInv | certs/file_store.go:150-164 | lock ownership always equals the set of processes inside the critical sections |
| ProtocolInvariant.ScanPageInv | certs/authority_operations.go:158-181 | the deadline scanned page by page under the lock is the one of the atomic promotion |
| ProtocolInvariant.RetryReloadInv | certs/issuer.go:313-329 | after a reload in the retry loop the job still obeys the policy and fits, though only the lifetime is checked again |
| ProtocolInvariant.AppendIsIssue | certs/file_store.go:470-509 | what an appender knows at its write is all that an atomic issue step asks |
| ProtocolInvariant.WriteIsChange | certs/file_store.go:165-214 | what an updater writes is the result of an atomic update of the current document |
| ProtocolInvariant.DocumentKeeps | certs/file_store.go:150-164 | a new document invalidates nothing another process relies on |
| ProtocolInvariant.LedgerKeeps | certs/file_store.go:443-509 | a new record invalidates nothing another process relies on |
| ProtocolSafety.StepKeepsWorldInv | certs/file_store.go:443-509 | every step of every process keeps the invariant and is an atomic step or no change |
| ProtocolSafety.EveryInterleavingRefines | certs/file_store.go:150-214 | for every interleaving there is one run of atomic operations and a place in it for every state of the interleaving, in the same order |
| ProtocolRuns.LaterInEveryInterleaving | certs/file_store.go:165-214 | between any two moments of an interleaving documents evolve, the ledger only grows, and the revision identifies the document |
| ProtocolRuns.KeysInEveryInterleaving | certs/validate.go:51-57 | in every interleaving a private key is stored exactly with active and pending records |
| ProtocolRuns.RetiredKeysInEveryInterleaving | certs/authority_operations.go:89-114 | in every interleaving a superseded root or version stays, with its certificate, and never holds a key again |
| ProtocolRuns.WindowsInEveryInterleaving | certs/authority_operations.go:89-105 | in every interleaving a retired root's window ends at least the clock skew after every leaf under it |
| ProtocolRuns.RememberedInEveryInterleaving | certs/issuer.go:229-239 | in every interleaving material loaded earlier is current whenever the revisions agree |
| ProtocolRuns.GenerationStaysInEveryInterleaving | certs/trust.go:11-24 | in every interleaving a trusted generation stays in the bundle until its discard or the end of its window |
| ProtocolRuns.SignerRefusesExactly | certs/issuer.go:423-437 | at the last page of its ledger check a signer has read exactly the ledger of that moment, the current document accepts it, and the signer refuses it exactly when a record is newer than the document it started from |
| StaleSignerExample.StaleSignerIsRefused | certs/issuer.go:229-242 | a complete interleaving in which a signer is refused over a ledger that the current document accepts |
| ProtocolSafety.CoverageInEveryInterleaving | certs/authority_operations.go:89-105 | trust coverage in every interleaving |
| ProtocolSafety.LedgerAcceptedInEveryInterleaving | certs/validate.go:202-229 | the ledger check of an update never refuses, in every interleaving |
| ProtocolSafety.PolicyInEveryInterleaving | certs/issuer.go:243-339 | every recorded leaf obeys its issuer's stored policy and ends the clock skew before its issuer, and the issuer before its root |
| ProtocolSafety.SharedLockFreezesDocument | certs/file_store.go:458-469 | while anybody holds the authority lock shared the document does not change |
| ProtocolSafety.NoUpdateDuringAppend | certs/file_store.go:443-509 | no update falls between an append's state read and its ledger write |
| ProtocolSafety.RecordIsCurrent | certs/file_store.go:485-509 | at the write a record's revision and version are current, its issuer is under the active root, and nobody else is in either exclusive section |
| ProtocolSafety.NoDeadlock | certs/file_store.go:443-509 | while a call is in progress some call can take a step |
| ProtocolSafety.ExclusionInEveryInterleaving | certs/file_store.go:150-214 | in every interleaving an update excludes all updates and appends, and a writer of the ledger all writers and readers of it |
| ProtocolProgress.RetryGoesOn | certs/issuer.go:313-329 | after a conflict another attempt follows, with the same or the reloaded material; only a missing issuer or a job that no longer ends five minutes before the issuer stops it |
| ProtocolProgress.ConflictGoesOn | certs/issuer.go:313-329 | a refused append is followed by the next attempt while the revision stands |
| ProtocolProgress.AttemptGoesOn | certs/issuer.go:287-302 | of at most eight attempts one with a taken serial is followed by the next, one with a free serial by an append |
| ProtocolProgress.AppendAlone | certs/file_store.go:443-509 | an undisturbed append writes a current record in order that is new, tries an outdated or known one again, and ends the call for anything else; all locks are free again |
| ProtocolProgress.SigningCompletes | certs/issuer.go:204-341 | on an open manager a signing call can be started, and undisturbed it ends with the ledger and material of the atomic SignCSR |
| ProtocolProgress.UpdateCompletes | certs/file_store.go:150-214 | an authority call can be started whenever nobody holds a lock, and undisturbed it ends with the document of the atomic update, page-by-page scan included |
| ProtocolProgress.OpeningCompletes | certs/issuer.go:38-63 | a manager can be opened at any moment, exactly when its issuer is there |
| ProtocolProgress.CancelledEnds | certs/file_store.go:150-164 | a call cancelled while it waits for a lock changes nothing and gives back the locks it holds |
| Bundles.Link | certs/bundle.go:237-264 | the maps filled in the loop hold exactly the issuer relation, or the first offending certificate decides the error |
| Bundles.NoCycle | certs/bundle.go:281-287 | without branching the walk never returns to a certificate: the cycle branch is dead |
| Bundles.Walk | certs/bundle.go:279-287 | the walk follows issuers from the bottom to a certificate without one, repeating none |
| Bundles.FindPath | certs/bundle.go:237-290 | linking, branching test, bottom test and walk find the one path, or there is none |
| Bundles.NormalizeBundle | certs/bundle.go:222-318 | for every map order the outcome, errors included, is the declaratively specified one |
| Bundles.PathUnique | certs/bundle.go:279-290 | distinct certificates form at most one path |
| BundleProperties.NormalizedMeaning | certs/bundle.go:222-318 | success exactly when there is no nil and no duplicate, the certificates form one path with CA-capable issuers, and a key is the leaf's |
| BundleProperties.NormalizedChain | certs/bundle.go:279-314 | the result is a permutation, each certificate issued by the next, and leaf, intermediates and root concatenate to it |
| BundleProperties.OrderIndependent | certs/bundle.go:222-318 | every permutation of the input gives the same bundle, or none does |
| BundleProperties.BuiltIsValid | certs/bundle.go:377-383 | Validate accepts every bundle that was built, and rebuilding gives it back |
| BundleProperties.AddingIsLoading | certs/bundle.go:183-213 | adding certificates or a key step by step equals loading them at once |
| BundleProperties.BuiltIsServable | certs/bundle.go:359-375 | a built bundle can be served exactly when it has leaf and key; the chain sent is all but the root, and the key is the leaf's |
| BundleMeaning.BundleExactly | certs/bundle.go:222-318 | loose certificates are taken exactly when there are none, or all are there, all differ and stand in one row in which each is signed by the next, a CA, and by no other, and a key belongs to the leaf; leaf, root and intermediates are its parts |
| BundleMeaning.BundleErrors | certs/bundle.go:222-318 | a nil is corruption and a repetition a conflict, whichever is first; a foreign key is invalid exactly when the row is there; a signer that may not sign is corruption |
| TrustMeaning.NormalizedExactly | certs/trust_bundle.go:36-62 | a trust set is made exactly from at least one certificate, all of them there, different, self-signed and of a CA that may sign; the first that is not decides the error |
| TrustMeaning.BundleExactly | certs/trust.go:11-24 | the bundle of a reachable document holds exactly the certificates of the active root, a pending one and the retired ones whose window ends after now, in the order of their bytes |
| SqliteMirror.SlugVersionInjective | certs/sqlite_store.go:361-361 | "slug:version" determines slug and version even if slugs contain colons |
| SqliteMirror.Mirror.Sync | certs/sqlite_store.go:325-376 | whatever the tables held, they end up as the projection of the document, and no insert meets an existing key |
| SqliteMirror.FoundAndCounted | certs/sqlite_store.go:382-469 | the right count and a hit for every lookup mean equality of the tables |
| SqliteMirror.Mirror.Parity | certs/sqlite_store.go:382-479 | the check with its running counts passes exactly when the row read and all other tables equal the projection; it reports corruption only where a row is missing and drift only where one differs or a count is off |
| SqliteMirror.SyncedTablesAgree | certs/sqlite_store.go:325-376 | freshly filled tables pass |
| SqliteMirror.ParityIsExact | certs/sqlite_store.go:382-469 | passing means equality with the projection up to unread rows of authority_records |
| SqliteMirror.ExtraAuthorityUnnoticed | certs/sqlite_store.go:383-389 | a second authority record passes unnoticed |
| SqliteMirror.MirrorDetermines | certs/sqlite_store.go:325-469 | two documents that pass against the same tables agree record by record: specification, revision, active root, manifest; per root certificate, fingerprint, trust window and key; per issuer the definition; per version root, certificate, fingerprint and key |
| SqliteMirror.MirrorIdentifies | certs/sqlite_store.go:325-469 | tables filled from a valid document pass against a valid document exactly when it is the same one |
| ErrorGraph.MarkSeen | errx/inspect.go:99-110 | only a pointer is recognised as seen, and only pointers are marked |
| ErrorGraph.Collector.Visit | errx/inspect.go:56-79 | the closure visits and collects exactly what the specified traversal does |
| ErrorGraph.TrailIsReachability | errx/inspect.go:51-83 | the errors inspected are exactly those unwrapping can reach, cycles or not |
| ErrorGraph.KindsOfIsExact | errx/inspect.go:51-83 | the result lists exactly the valid kinds of reachable errors, each once |
| ErrorGraph.KindsOf | errx/inspect.go:51-83 | the same for the source's traversal with its shared maps |
| ErrorTermination.TerminatesIffNoTrap | errx/inspect.go:51-110 | the traversal ends exactly when no cycle of value errors is reachable |
| ErrorTermination.PointersAlwaysTerminate | errx/inspect.go:97-110 | with pointer errors every cyclic graph is traversed to the end |
| ErrorTermination.SelfContainingSliceDiverges | errx/inspect.go:97-110 | a slice error that contains itself is followed for ever |
| ErrorKinds.IsKindInKindsOf | errx/inspect.go:87-90 | IsKind implies membership in KindsOf |
| ErrorKinds.UnsharedIsPlain | errx/inspect.go:12-47 | on a tree in which no pointer repeats, KindOf is the plain recursive definition |
| ErrorKinds.SharingMatters | errx/inspect.go:12-47 | a concrete graph with sharing on which it is not |
| ErrorKindSharing.SharingMattersExactly | errx/inspect.go:12-47 | on every finite tree each call of the search finds the plain kind exactly when no call meets a marked pointer whose plain kind is a classification; then KindOf is the plain definition |
| ErrorKindSharing.UnclassifiedSharingIsHarmless | errx/inspect.go:12-47 | KindOf is the plain definition where no pointer with a classified plain kind stands twice in the tree, whatever else is shared |
| ErrorKindSharing.OneKindIsPlain | errx/inspect.go:12-47 | on a finite tree whose classified errors have one kind, KindOf is the plain definition whatever is shared |
| ErrorKindSharing.ConditionIsNeeded | errx/inspect.go:12-47 | the concrete graph on which KindOf differs breaks that condition |
| ErrorKindSharing.RootMayAgree | errx/inspect.go:12-47 | a classified error joined with itself breaks it inside the search and yet has the plain kind |
| ErrorKindSearch.KindOfTerminates | errx/inspect.go:12-47 | KindOf ends unless a cycle of unclassified values is reachable through unclassified errors |
| ErrorKindSearch.KindOfEndsExactly | errx/inspect.go:12-47 | where the errors reachable in that way have at most one kind, it ends exactly when there is no such cycle |
| ErrorKindSearch.ConflictCutsTrap | errx/inspect.go:12-47 | with two kinds a conflict can end the search before it comes to a cycle that is there |
| ErrorKindSearch.KindOfEndsWithKindsOf | errx/inspect.go:12-83 | KindOf ends wherever KindsOf does |
| ErrorKindSearch.KindOfSelfContainingSlice | errx/inspect.go:12-110 | on a slice error that contains itself KindOf ends exactly when the slice is classified, and KindsOf never |
| ErrorKindSearch.Finder.Find | errx/inspect.go:12-47 | the recursive search computes the specified verdict and marks |
| ErrorKindSearch.KindOf | errx/inspect.go:8-10 | a kind that is returned is one of a reachable error |
| ErrorKindSearch.IsKind | errx/inspect.go:87-90 | true exactly when the effective kind is the wanted one |
| ErrorSharing.KindsOfIsPreorder | errx/inspect.go:51-83 | on every finite unwrap tree, shared or not, the kinds come in plain preorder, each at its first occurrence |
| ErrorCycles.KindsOfFollowsSimplePaths | errx/inspect.go:51-83 | on every error on which KindsOf ends, cyclic or not, the kinds come in the preorder of all simple paths, each at its first occurrence |
| ErrorMeaning.KindsExactly | errx/inspect.go:51-83 | a kind is found exactly when a chain of errors, each the wrapped one or among the joined ones of the one before, ends in an error that declares it as one of the ten kinds |
| ErrorMeaning.PlainKindExactly | errx/inspect.go:12-47 | the plain kind is the declared one, or the one kind that the errors it unwraps to have if they do not differ |
| ErrorMeaning.PathsInOrder | errx/inspect.go:51-83 | outer before inner, and joined errors in their order |
| ErrorMeaning.CollectsInOrder | errx/inspect.go:61-68 | kinds come in the order in which they are first declared |
| DottedKeys.SplitJoin | config/file.go:118-118 | splitting a joined key gives its components back |
| DottedKeys.NamespaceIsPrefix | config/registry.go:159-163 | a key is a namespace of another exactly when it is a proper prefix as a list of components |
| ConfigRegistry.AdjacentTestIsExact | config/registry.go:158-163 | comparing sorted neighbours finds a clash exactly when one is not shadowed by a key with a byte below the dot |
| ConfigRegistry.AdjacentTestSuffices | config/registry.go:158-163 | without such bytes it equals comparing all pairs |
| ConfigRegistry.MissedClash | config/registry.go:158-163 | three keys among which a clash goes unnoticed |
| ConfigRegistry.Builder.Walk | config/registry.go:47-154 | the walk collects the scalars in order and fails exactly on a bad name or a repeated key |
| ConfigRegistry.CheckBindings | config/registry.go:164-178 | the loop accepts exactly distinct environment variables and flags |
| ConfigRegistry.MakeRegistry | config/registry.go:41-180 | the registry exists exactly when names, keys, namespaces and bindings are in order, and is sorted |
| ConfigRegistry.RegistryKeys | config/registry.go:41-180 | no key of a registry whose names stay above the dot is a namespace of another, and each is a list of components |
| ConfigRegistry.AcceptedExactly | config/registry.go:41-180 | with names above the dot a registry is made exactly when all names are components, no key repeats, no key is a namespace of another, and no two fields share a binding |
| ConfigRegistry.Snake | config/registry.go:260-270 | the loop computes the specified name |
| ConfigRegistry.SnakeIsComponent | config/registry.go:260-270 | snake case of an identifier is a component without bytes below the dot |
| ConfigNames.KeysExactly | config/registry.go:47-154 | there is one entry per scalar, under the names of the groups that lead to it and its own joined by dots, embedded groups adding none |
| ConfigNames.SnakeExactly | config/registry.go:260-270 | every character stands lowered right after the one before, with one underscore between exactly where an upper-case letter follows a lower-case letter or a digit or comes before a lower-case letter |
| ConfigDocument.Document.PutNested | config/file.go:191-202 | the value is at its path, maps are above it, nothing is below it, and every other path is as before |
| ConfigDocument.PutAll | config/file.go:101-119 | the document holds exactly the fields put, in whatever order |
| ConfigDocument.Flatten | config/format.go:31-62 | fails exactly on a bad key or a foreign map, never on a duplicate, and adds one entry per path at which it stops |
| ConfigDocument.StopStep | config/format.go:40-58 | the duplicate-key errors are unreachable |
| ConfigDocument.KeptExactly | config/format.go:27-61 | an entry is kept exactly when no part of its path is a registry key before its end and it is no map, or a map at a registry key, or an empty map that is no namespace |
| ConfigDocument.SaveThenLoad | config/file.go:59-73 | flattening a saved document gives back exactly the saved fields |
| ConfigSnapshot.WinnerIsHighest | config/validate.go:33-40 | the winning layer is the one of highest precedence that has the key |
| ConfigSnapshot.ResolveFields | config/validate.go:32-66 | the loops compute values and origins of all fields, or the failure of the first bad field |
| ConfigSnapshot.Resolve | config/validate.go:22-86 | a snapshot is published only if every field and the whole are accepted |
| ConfigSnapshot.Config.Load | config/config.go:25-109 | publishes the specified snapshot, or fails and changes nothing |
| ConfigSnapshot.Config.Set | config/config.go:136-169 | publishes the specified snapshot, or fails and changes nothing |
| ConfigRuns.ValidateDecides | config/config.go:170-190 | after any calls Validate fails exactly on an object that was never loaded or on its own options: the published layers always resolve again |
| ConfigRuns.RunIsCurrent | config/config.go:25-169 | after any calls the snapshot resolves the last successful Load's layers under the successful Sets |
| ConfigRuns.ValueAfterRun | config/config.go:111-169 | each key has the coercion of its last successful Set, else of the best layer of the last successful Load, and Source and HasSource agree |
| ConfigPrecedence.LoadExactly | config/config.go:25-109 | Load succeeds exactly when initial and file keys are known, the file is readable, bound flags exist, and some state follows the inputs that all validators accept; it publishes that state: per field the Set value, else the changed flag, the variable, the loaded file, the last initial value, the default, each with its source and detail, else nothing |
| ConfigPrecedence.LoadFails | config/config.go:53-95 | which failure a Load has: unknown initial keys, the file, unknown file keys, missing flags, then the first field that cannot be converted or is absent, then the validators |
| ConfigPrecedence.PresenceExactly | config/validate.go:26-31 | HasSource says of every layer, deciding or not, whether it has the key |
| ConfigPrecedence.FollowsAfterRun | config/config.go:25-169 | after any calls every field follows the inputs of the last successful Load under the values of the last successful Sets |
| ConfigPrecedence.SetExactly | config/config.go:136-169 | Set succeeds exactly for a known key when some state that follows the last Load's inputs with this value is accepted, and publishes that state |
| ConfigPrecedence.CallsRefused | config/config.go:136-190 | Set and Validate need a loaded object, options that fail fail every call, and a failed call changes nothing |

## Left out

- X.509 and PKCS#8 encoding, key generation, hashing, PEM, CSR parsing and CSR signatures: certificates, keys and requests are records.
- File modes, ownership, symbolic links, temporary files and directory checks; a successful write is atomic.
- SQLite transactions and locking, `SQLiteStore.load`, `update` and `appendLedger`: only the mirror is modelled, and no claim about coverage or locking is made for that store. JSON of the specification, of definitions and of the pending manifest is taken as the value itself, and times as numbers.
- `Purge` and provisioning again, and issuers that go on signing with old material after a promotion without a ledger.
- Unlock secrets: whether a manager can unlock a root key is an input (missing, wrong, right); storing, exporting and cleaning up secrets, `Repair`, `Inspect` and logging are not modelled.
- uint64 wrap-around of the revision.
- Validation.ValidateState: key specifications, the encryption flag, parse errors of stored DER and the comparison of stored names, identities and definitions with their normalised forms are left out.
- FileStores.FileStore.Load: where several records of an invalid document fail in different ways, the code's error depends on the order of the maps (`StateErrors`); the store reports "corrupt" if it is among them. `Update` does the same, and `UpdateExactly` shows that there the errors never differ.
- One reading of the clock per authority operation. `provision` and the loop over new issuers in `Ensure` read it again for each certificate, a moment later; the rotation part uses one reading, as modelled.
- The lower bound of a leaf's validity after a retry reload, which the code does not promise.
- Normalisation of names, subjects and SANs, merging of additional SANs and their errors: a request holds the subject and SANs before and after the options apply. IP networks are address intervals, and case folding is ASCII.
- Backend principal and key specification checks of `assertSpec`; the backend name, name, identity, mode and root validity are compared.
- `UsableAt`, `Verify`, the `Save` methods of bundles and the status and export operations.
- IssuerManagers.IssuerManager.SignCSR: one call at a time; the reload after a concurrent update, which such a call never meets, is part of Protocol.
- IssuerManagers.IssuerManager.SignCSR: needs draws whose bytes differ from the issuer's and the root's certificate, which random serials give.
- IssuerManagers.IssuerManager.Attempt: one call at a time, as for SignCSR; the retry after a concurrent update is part of Protocol.
- ProtocolSafety.NoDeadlock: needs a random source that has not repeated itself for a call about to create certificates.
- ErrorKindSearch.KindOfTerminates: exact only where at most one kind is reachable (`KindOfEndsExactly`); with several kinds the order of the children decides whether a conflict comes before a cycle.
- Comparable error types other than pointers that share an address, such as pointers to zero-size values, are taken as distinct nodes.
- ConfigRegistry.Builder.Walk: of the checks on a field, those on its name and its key are kept; tags, field types and duplicate tag options are not modelled.
- ConfigRegistry.MakeRegistry: the checks of single tags, field types and structured elements, and the derived environment names, are left out; names and bindings are given.
- The order of registry keys is the order of characters, which for UTF-8 is the order of bytes.
- ConfigDocument.SaveThenLoad: the codecs are the identity, and the choice of fields by source and sensitivity in `Save` is left out; any set of registry fields may be saved.
- ConfigDocument.Flatten: the depth of a document is bounded by a ghost argument, since a decoded document is finite.
- ConfigSnapshot.Config.Load: coercion and validators are arbitrary functions; reading the file yields a failure or a flat map, and applying options and building the registry succeed or fail as an input says. Copying of values, the log and the mutexes are not modelled.
- `account`, `service`, `host`, `console`, `style`, `term`, `text` and `configpflag`.
