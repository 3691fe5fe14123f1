# Verified model of the provable-agent reference

This project models the parts of the repository whose correctness needs an argument
over all inputs, all runs or all interleavings, and proves that argument. It has four
groups of modules.

- **Canonical form and signing envelope.** The key walk over shared and cyclic object
  graphs (`KeyWalk`); key orders, normal form, printer and an RFC 8259 reader for
  texts without fractions (`KeyOrder`, `CanonicalForm`, `JsonTokens`, `JsonText`, `CanonicalText`, `ShortestText`); UTF-8,
  base64, pre-authentication encoding and both verifiers (`Utf8`, `Base64`, `Pae`,
  `Envelope`).
- **Control plane.** The tables as maps and sequences, each transaction as one atomic
  step (`ControlPlane`), the methods that carry it out statement by statement
  (`RunStore`), what every reachable state keeps (`Journals`, `Activities`,
  `GrantForest`, `Delegation`, `Announcements`, `Reachable`, `Trail`) exactly when a
  call succeeds there (`Outcomes`), and what reading back detects on any tables
  (`Readback`); the record builder
  (`ActivityBuilder`); leases, outbox worker, artifact store and reconciler under any
  interleaving (`Leases`, `Outbox`, `ArtifactFiles`, `Artifacts`, `Verdicts`).
- **Control chain.** Records, their constructors and hashes (`Contracts`, `Checks`), compiler and verifier
  (`Chain`), approvals, authorizations and audit (`Audit`), the pipeline (`Pipeline`),
  packets and their JSON form (`Packets`, `PacketLimits`, `PacketJson`).
- **Two validation scripts.** Release tags and histories (`ReleaseTags`, `Releases`), and the
  streaming rules with pointer mutation (`SemanticRules`, `StoredActivities`,
  `Mutations`, `Documents`).

`Wrappers`, `Hashing`, `Decimal` and `Json` are shared.

**Digests.** SHA-256 is a function that nothing says to be injective. A result that needs
distinct digests says of two named values that they "clash" (`Hashing.Clash`: different,
with one digest) instead of assuming that nothing does; the values are always ones at hand,
such as the two payloads or two contents handed to the store. That results have the form
of a hash URI is required only where records must pass their constructors' checks
(`Contracts.Platform.WellFormed`), never for binding. Identifiers cut to 24 digits are a
separate function; where they clash, a primary key aborts the transaction. Records are
hashed as values (objects are maps); `CanonicalText.ValueDigestIsDigest` shows that this is
the digest of canonical text. Ed25519 is a scheme with the two properties `Correct` and
`Unforgeable`, required only where used; payload type and key id are a parameter, and
results hold for every choice.

**Values without types.** The control chain's records keep JSON values in their fields,
because the Python classes check some fields and not others. What the constructors do
check is stated as `...Valid` predicates, and as tables of field types in `Checks`.

**What the code does against what is said of it.**

- One byte string per value holds for the Python verifier. The TypeScript verifier
  compares decoded text, and decoding replaces malformed bytes, so it holds there exactly
  for texts without U+FFFD (`Envelope.AcceptedBytesUnique`, `Envelope.TwoPayloadsOnePacket`).
- A packet signed by Python verifies in TypeScript exactly if its keys sort alike in both
  orders (`Envelope.SignedPacketVerifies`). TypeScript refuses an empty base64 field,
  which Python takes for no bytes.
- "Latest" is on the highest stable release exactly if no release that becomes the highest
  finds a stable tag at least as high that was pushed but never released
  (`Releases.LatestIsHighestExactly`).
- Packaging a result of the pipeline can fail on a bundle record with an unknown
  classification that was not selected, or on a redaction value that is no flag; with
  values of the annotated types neither occurs (`Packets.ResultsBuildExactly`,
  `PacketLimits`).
- Adding and then removing at one path gives back the document exactly for new members,
  list places counted from the start, and two cases counted from the end: one before the
  first item, or an item equal to the value (`Mutations.AddThenRemove`).
- The audit alone does not re-run the verifier (`Audit.AuditTrustsFindings`); packet
  verification does (`Packets.CandidateDecidesEvidence`).

## Model

| member | source | states |
|---|---|---|
| `KeyWalk.Scan` | src/provable_agent_reference/canonical.py:12-23 | resuming a container's generator: it ends only when every slot has a text key and leads nowhere new, raises only at a non-text key, and otherwise yields a container neither active nor checked |
| `KeyWalk.RequireStringKeys` | src/provable_agent_reference/canonical.py:26-54 | on every finite graph, shared or cyclic: returns iff every container reachable through values and elements has only text keys; each container is pushed at most once, only if reachable, and all of them if it returns; it terminates |
| `KeyWalk.WalkComplete` | src/provable_agent_reference/canonical.py:26-54 | a checked set closed under edges that holds the root holds everything reachable from it, so nothing was missed |
| `KeyOrder.BeforeIsStrictTotal` | src/provable_agent_reference/canonical.py:66-72 | both key orders (code points, UTF-16 code units) are strict total orders on strings |
| `KeyOrder.OrdersAgree` | typescript/verifier.ts:20-25 | the two orders agree on two keys iff their first difference does not pair a supplementary character with one of U+E000 to U+FFFF |
| `CanonicalForm.AscendingUnique` | src/provable_agent_reference/canonical.py:66-72 | an ascending member list is determined by its set of members, so sorting forgets insertion order completely |
| `CanonicalForm.NormaliseKeepsMeaning` | src/provable_agent_reference/canonical.py:66-72 | sorting at every depth changes no value |
| `CanonicalForm.SameFormIffSameMeaning` | src/provable_agent_reference/canonical.py:66-72 | two dictionaries have one normal form iff they denote the same value |
| `CanonicalForm.FormsAgreeIffSafe` | typescript/verifier.ts:20-25 | the Python and the JavaScript normal form coincide iff no object, at any depth, has two conflicting keys |
| `JsonTokens.LexInvertsSpell` | src/provable_agent_reference/canonical.py:57-72 | the RFC 8259 lexer (all escapes, surrogate pairs, white space) reads every printed token list back |
| `JsonTokens.SpaceIgnored` | src/provable_agent_reference/dsse.py:168-171 | the reader skips each of the four white-space characters, so it does read texts that the serializer does not write |
| `JsonTokens.HexEitherCase` | src/provable_agent_reference/dsse.py:168-171 | and takes hexadecimal digits in either case |
| `JsonText.ParseInvertsPrint` | src/provable_agent_reference/canonical.py:57-72 | the permissive RFC 8259 reader inverts the printer on every dictionary-shaped value, member order included |
| `JsonText.PrintInjective` | src/provable_agent_reference/canonical.py:57-72 | the printer is injective |
| `CanonicalText.CanonicalReadsBack` | src/provable_agent_reference/canonical.py:57-72 | canonical text parses back to the same value, objects being maps |
| `CanonicalText.SameTextIffSameValue` | src/provable_agent_reference/canonical.py:57-72 | canonical text is equal iff the value is: injective, and blind to insertion order at every depth |
| `CanonicalText.AcceptedExactly` | src/provable_agent_reference/dsse.py:168-173 | the test "re-canonicalised parse equals payload" accepts the canonical texts of values and nothing else |
| `CanonicalText.OneAcceptedTextPerValue` | src/provable_agent_reference/dsse.py:168-173 | hence exactly one accepted text per value, although the reader is permissive |
| `CanonicalText.ImplementationsAgree` | typescript/verifier.ts:20-25 | the two printers write the same text iff the value is order-safe |
| `CanonicalText.UnmixedIsOrderSafe` | typescript/verifier.ts:20-25 | values none of whose objects mixes supplementary characters and U+E000 to U+FFFF across its keys are order-safe |
| `CanonicalText.ImplementationsCanDisagree` | typescript/verifier.ts:20-25 | the condition is needed: an object on which the two texts differ |
| `ShortestText.PrintIsShortest` | src/provable_agent_reference/canonical.py:66-72 | of all texts the permissive reader takes for one value with its keys in one order, what is printed is the shortest, and any other text as short differs in capital hexadecimal digits only: no white space, no needless escape, the short escape where there is one |
| `ShortestText.CanonicalIsShortest` | src/provable_agent_reference/canonical.py:57-72 | the canonical text is read back as the normal form, and every text read back so is longer or has capital hexadecimal digits in its place |
| `CanonicalText.DigestBindsValue` | src/provable_agent_reference/canonical.py:75-83 | equal values have equal digests; values with one digest are equal, or their own canonical texts clash |
| `CanonicalText.ValueDigestIsDigest` | src/provable_agent_reference/canonical.py:75-83 | the digest is a function of the value alone, shared only if the two canonical texts clash: justifies records hashed as values |
| `Utf8.StrictIffEncoded` | src/provable_agent_reference/dsse.py:168-173 | the strict UTF-8 decoder accepts exactly what the encoder writes |
| `Utf8.LenientInvertsEncode` | typescript/verifier.ts:64-66 | the replacing decoder of JavaScript reads encoded text back |
| `Utf8.LenientUniqueIff` | typescript/verifier.ts:64-66 | a text has a single byte form under the replacing decoder iff it has no U+FFFD |
| `Base64.DecodeInvertsEncode` | src/provable_agent_reference/dsse.py:95-104 | the library decoder inverts the encoder |
| `Base64.CanonicalIffEncoded` | src/provable_agent_reference/dsse.py:95-104 | decoding followed by the re-encoding test accepts exactly the encoder's outputs (RFC 4648, sections 3.5 and 4) |
| `Base64.SpareBitsDecode` | src/provable_agent_reference/dsse.py:102-103 | the re-encoding test is needed: without it non-zero spare bits are accepted |
| `Pae.PreAuthInjective` | src/provable_agent_reference/dsse.py:37-50 | pre-authentication encoding is injective in type and payload, for all byte strings |
| `Envelope.NormaliseKeepsRange` | src/provable_agent_reference/dsse.py:24-34 | the integer range test does not depend on member order |
| `Envelope.HashBoundByMeaning` | src/provable_agent_reference/dsse.py:178-182 | whether the packet hash binds depends on the packet's value only |
| `Envelope.SignedTextAccepted` | src/provable_agent_reference/dsse.py:81-92 | what each verifier makes of the text a signer writes; TypeScript accepts it iff the packet is order-safe |
| `Envelope.OpenSignedPayload` | src/provable_agent_reference/dsse.py:168-182 | opening a signed payload gives the packet iff its hash is absent or right (and, for TypeScript, it is order-safe), and nothing otherwise |
| `Envelope.VerifiesExactly` | src/provable_agent_reference/dsse.py:116-195 | for every envelope, trust bundle and verifier: a packet is accepted iff exactly one position of the bundle has the signature's key id, that key is an unrevoked active Ed25519 packet-issuer key inside its window with 32 bytes, the fields are canonical base64, the signature verifies over the pre-authentication encoding, and the payload is the packet's canonical text with safe integers and a right or absent hash |
| `Envelope.PinnedExactly` | typescript/verifier.ts:46-56 | the filter by key id and the key tests succeed iff such a position exists, and find that key |
| `Envelope.ClaimExactly` | typescript/verifier.ts:69-76 | the hash test depends on the value: the claimed text is the digest of the canonical text of any dictionary that means the packet without it |
| `Envelope.SignedPacketVerifies` | src/provable_agent_reference/dsse.py:116-195 | the signer signs exactly the objects whose integers are safe; where only the signer's keys carry its id, such a packet verifies iff one is pinned and usable, its hash is absent or right (TypeScript: and it is order-safe), and the result is that packet |
| `Envelope.VerifiedWasSigned` | src/provable_agent_reference/dsse.py:116-195 | with an unforgeable scheme, an envelope accepted under the signer's key id, pinned to its key beside any other keys, is bit for bit the one the signer makes of the returned packet |
| `Envelope.VerifiedByTypeScript` | typescript/verifier.ts:38-78 | what TypeScript accepts under the signer's key id was sealed by that key, around bytes that read as the packet's UTF-16-ordered text; it is the envelope the signer makes of the packet iff the bytes are the encoding of that text and the packet is order-safe |
| `Envelope.AcceptedBytesUnique` | typescript/verifier.ts:64-66 | the accepted bytes of a text are unique for Python always, for TypeScript iff the text has no U+FFFD |
| `Envelope.TwoPayloadsOnePacket` | typescript/verifier.ts:64-66 | such an input: a packet with U+FFFD, and two envelopes with different payload bytes that TypeScript accepts as it |
| `ControlPlane.SortTexts` | src/provable_agent_reference/control_plane/service.py:73-74 | `sorted` of a set of texts lists exactly the set |
| `ControlPlane.GrantRoundTrip` | src/provable_agent_reference/control_plane/store.py:505-515 | reading a stored grant document yields the grant it was made from |
| `ControlPlane.RunWrites` | src/provable_agent_reference/control_plane/store.py:43-97 | a run creation writes nothing, or exactly one run, key, journal row and announcement under fresh ids |
| `ControlPlane.DelegationWrites` | src/provable_agent_reference/control_plane/store.py:108-197 | a delegation writes nothing, or exactly one grant, journal row and announcement, and only if nothing refused it |
| `RunStore.PostgresStore.CreateRun` | src/provable_agent_reference/control_plane/store.py:35-97 | statement by statement, with rollback: answer and tables are those of the atomic step, so an abort leaves all tables unchanged |
| `RunStore.PostgresStore.CreateDelegation` | src/provable_agent_reference/control_plane/store.py:99-197 | the same for delegation |
| `RunStore.PostgresStore.AppendAgentActivities` | src/provable_agent_reference/control_plane/store.py:199-265 | the loop with its running sequence and hash commits as one atomic step; a batch bad only in its last record commits nothing |
| `RunStore.PostgresStore.AppendOne` | src/provable_agent_reference/control_plane/store.py:216-265 | one iteration: refused, or exactly this record and its announcement are inserted |
| `RunStore.PostgresStore.ReconstructAgentActivities` | src/provable_agent_reference/control_plane/store.py:267-286 | the checking loop returns the ordered rows iff they form a chain |
| `RunStore.PostgresStore.PersistEffectRecords` | src/provable_agent_reference/control_plane/store.py:288-351 | receipt and reconciliation are persisted together or not at all |
| `RunStore.PostgresStore.PersistOne` | src/provable_agent_reference/control_plane/store.py:306-351 | one document of the pair: refused, replayed, or inserted with its announcement |
| `RunStore.PostgresStore.LoadEffectRecords` | src/provable_agent_reference/control_plane/store.py:353-365 | the checking loop returns the run's documents in the order created_at, record_id iff every hash recomputes |
| `RunStore.ControlPlaneService.CreateRun` | src/provable_agent_reference/control_plane/service.py:14-54 | the service's call is one atomic step on the tables |
| `RunStore.ControlPlaneService.DelegateCapability` | src/provable_agent_reference/control_plane/service.py:61-103 | the service's call is one atomic step on the tables |
| `Journals.RequestRunKeepsJournal` | src/provable_agent_reference/control_plane/store.py:75-83 | run creation keeps every run's journal at sequences 0..n-1, linked and recomputing |
| `Journals.DelegationEventLinked` | src/provable_agent_reference/control_plane/store.py:158-181 | the row a delegation writes is the next link of its run's journal |
| `Journals.DelegateKeepsJournal` | src/provable_agent_reference/control_plane/store.py:158-197 | delegation keeps every run's journal chained |
| `Journals.JournalHashBinds` | src/provable_agent_reference/control_plane/store.py:178-181 | linked journal rows with one hash are the same row, or their contents clash |
| `Activities.TamperEvident` | src/provable_agent_reference/control_plane/store.py:274-286 | two non-empty lists that pass reconstruction and end in one record hash are the same list, lengths included, or a record of one and a record of the other clash |
| `Activities.SameHashSamePlace` | src/provable_agent_reference/control_plane/store.py:274-286 | linked records with one hash agree in content and in place, or these two clash |
| `Activities.AppendIff` | src/provable_agent_reference/control_plane/store.py:216-265 | a batch is accepted iff it extends the chain, stays in scope and has fresh ids; then exactly its records are added |
| `Activities.AppendCall` | src/provable_agent_reference/control_plane/store.py:199-265 | one call is all or nothing, succeeds iff the batch is committable, and appends it to its run only |
| `Activities.AppendKeepsActivities` | src/provable_agent_reference/control_plane/store.py:199-265 | every call keeps all chains and leaves the other tables alone |
| `Activities.ReconstructSucceeds` | src/provable_agent_reference/control_plane/store.py:267-286 | reconstruction never fails on a state that keeps the invariant |
| `Activities.AnySplitAccepted` | src/provable_agent_reference/control_plane/store.py:199-286 | committable records split into batches in any way are all accepted and reconstructed unchanged |
| `ActivityBuilder.ActivityRecordBuilder.constructor` | src/provable_agent_reference/synthetic_workflow.py:319-322 | a new builder has written the empty chain, and uses the fixed members of the source |
| `ActivityBuilder.ActivityRecordBuilder.Append` | src/provable_agent_reference/synthetic_workflow.py:324-376 | each record extends the builder's trusted chain by one link, and sequence and previous hash follow it |
| `ActivityBuilder.BuiltIsLinked` | src/provable_agent_reference/synthetic_workflow.py:332-376 | a built record carries the trusted scope and is linked at its place, whatever body it was given |
| `ActivityBuilder.BuiltCarries` | src/provable_agent_reference/synthetic_workflow.py:332-373 | a built record carries the caller's body and type of event, the derived event id, and the hash of all its other members |
| `ActivityBuilder.BuiltKeeps` | src/provable_agent_reference/synthetic_workflow.py:341-371 | every member that the store does not read is a descriptive one or has its fixed value |
| `ActivityBuilder.DescriptiveSays` | src/provable_agent_reference/synthetic_workflow.py:352-368 | the descriptive members name the caller's actor and the context's time and run |
| `ActivityBuilder.EventIdBinds` | src/provable_agent_reference/synthetic_workflow.py:333-340 | an event id decides run, place, type and body hash, or the two identities clash |
| `ActivityBuilder.BuilderOutputAccepted` | src/provable_agent_reference/synthetic_workflow.py:316-376 | any builder output, in any split into batches, is accepted given fresh event ids and reconstructed unchanged |
| `GrantForest.AncestorsBound` | src/provable_agent_reference/control_plane/models.py:35-45 | a grant stays within every ancestor on all dimensions and in run scope, depths strictly increase upwards, and no proper ancestor had expired at its creation |
| `GrantForest.LineageAcyclic` | src/provable_agent_reference/control_plane/models.py:35-45 | no grant is its own ancestor; a lineage is no longer than the delegation depth at its top |
| `GrantForest.RootExists` | src/provable_agent_reference/control_plane/store.py:115-122 | every grant descends from a root |
| `Delegation.NewRowSound` | src/provable_agent_reference/control_plane/store.py:113-135 | a row that passed the store's checks attenuates its parent and belongs to its run's scope |
| `Delegation.ChildReadsBack` | src/provable_agent_reference/control_plane/store.py:106-107 | delegation proceeds only for a valid child, which the stored document gives back |
| `Delegation.RootKeepsGrants` | migrations/0001_control_plane.sql:17-28 | inserting a well-formed root keeps the grants an attenuating forest |
| `Delegation.DelegateKeepsGrants` | src/provable_agent_reference/control_plane/store.py:105-157 | so does every delegation, accepted or refused |
| `Announcements.RequestRunAnnounces` | src/provable_agent_reference/control_plane/store.py:84-90 | outbox rows stay in bijection with journal, activity and effect rows under run creation |
| `Announcements.DelegateAnnounces` | src/provable_agent_reference/control_plane/store.py:191-196 | and under delegation |
| `Announcements.AppendAnnounces` | src/provable_agent_reference/control_plane/store.py:247-263 | and under activity appends |
| `Announcements.PersistKeeps` | src/provable_agent_reference/control_plane/store.py:288-351 | and under effect records, whose hashes stay recomputable; a failure changes nothing |
| `Announcements.AnnouncementCount` | src/provable_agent_reference/control_plane/store.py:84-90 | nothing is announced twice or left out: the counts agree |
| `Reachable.ReachableInv` | src/provable_agent_reference/control_plane/store.py:19-351 | over every sequence of operations: journals and activities chained, grants an attenuating forest, effects recomputable, outbox in bijection, every key with its result |
| `Reachable.ReconstructsCommitted` | src/provable_agent_reference/control_plane/store.py:267-286 | in every reachable state reconstruction succeeds and returns the in-order concatenation of the run's committed batches |
| `Reachable.EffectsLoad` | src/provable_agent_reference/control_plane/store.py:353-365 | in every reachable state loading succeeds and returns all of a run's documents, each once, in order of creation |
| `Reachable.ReplaysAddNothing` | src/provable_agent_reference/control_plane/store.py:43-97 | run-creation calls that did not commit leave no trace in any log of operations; the idempotency table lists the committed ones, one per (tenant, subject, key) |
| `Reachable.NextCall` | src/provable_agent_reference/control_plane/service.py:14-54 | the outcome of any run-creation call after any operations whatever: replay of the first run id, reuse error without change, commit or constraint; "no committed result" never occurs |
| `Reachable.SameRequest` | src/provable_agent_reference/control_plane/service.py:51 | requests with one hash are one request, or these two clash |
| `Reachable.DelegationReplay` | src/provable_agent_reference/control_plane/store.py:105-157 | once a delegation has succeeded, asking for it again after any operations adds no rows, and answers the first grant id until the parent expires |
| `Outcomes.RequestsExactly` | src/provable_agent_reference/control_plane/service.py:14-54 | in every state with the invariant a run-creation call succeeds iff its key is bounded and either known for this request or new like the run, the event and the announcement; a failure changes nothing |
| `Outcomes.RunIdBinds` | src/provable_agent_reference/control_plane/service.py:17-23 | a run id decides tenant, case, requester and key, or the two identities clash |
| `Outcomes.RunKeyBinds` | src/provable_agent_reference/control_plane/service.py:46-53 | a row of the idempotency table is that of one tenant, requester and key, or the keys clash |
| `Outcomes.DelegatesExactly` | src/provable_agent_reference/control_plane/store.py:105-197 | in every state with the invariant a delegation succeeds iff its arguments are bounded, the child is well made and in the scope of the run, the parent is a stored, unrevoked, unexpired grant of that run, each bound of the child is within the parent's with a smaller depth, and the grant is stored already with that parent and hash or event and outbox ids are new; a failure changes nothing |
| `Outcomes.DelegationAdds` | src/provable_agent_reference/control_plane/store.py:137-157 | what a delegation that is not a replay stores, column by column |
| `Outcomes.GrantIdBinds` | src/provable_agent_reference/control_plane/service.py:83-89 | a grant id decides run, parent, child and key, or the two identities clash |
| `Outcomes.AppendsExactly` | src/provable_agent_reference/control_plane/store.py:199-265 | in every state with the invariant a batch is stored iff it is not empty, each record is in the scope of the run the first one names, carries the next sequence and the hash before it, and recomputes in both hashes, and the event ids are new; a failure changes nothing |
| `Outcomes.RebuiltContinues` | src/provable_agent_reference/control_plane/store.py:267-286 | reconstruction then succeeds, and returns records each of which continues those before, from the first on |
| `Outcomes.PersistsExactly` | src/provable_agent_reference/control_plane/store.py:288-351 | receipt and reconciliation are stored iff both belong to one existing run, recompute, the reconciliation names that receipt by id and hash, and ids and hashes are new or stored as these records already; then exactly the new ones are added |
| `Outcomes.ReconciliationsPaired` | src/provable_agent_reference/control_plane/store.py:302-305 | in every reachable state each stored reconciliation has a stored receipt whose id and hash it names, in the same run unless two receipts' payloads clash |
| `Trail.JournalTells` | src/provable_agent_reference/control_plane/store.py:75-83 | in every reachable state each journal row is in its run's scope, a run's first row repeats its request, every later row is the delegation of a stored grant, and every delegated grant has its row |
| `Readback.LoadsExactly` | src/provable_agent_reference/control_plane/store.py:353-365 | on any tables, loading a run's effect records succeeds iff every stored document of the run recomputes its hash, and returns each once by creation time and record id |
| `Readback.ReconstructsExactly` | src/provable_agent_reference/control_plane/store.py:267-286 | on any tables, reconstruction succeeds iff the run's records have an order in which each carries its place as sequence, names the hash before it and recomputes both its hashes, and returns that order |
| `Reachable.GrantsStay` | src/provable_agent_reference/control_plane/store.py:137-147 | stored grants are never replaced |
| `Leases.Pick` | src/provable_agent_reference/control_plane/store.py:372-380 | a claim takes the earliest candidates in (created_at, id) order, up to the limit, and leaves one out only if the limit is full |
| `Leases.ApplyKeeps` | src/provable_agent_reference/control_plane/store.py:367-415 | every call keeps each row equal to what its legal event history says: attempts is the number of claims |
| `Leases.InterleavingKeeps` | src/provable_agent_reference/control_plane/store.py:367-415 | over every interleaving of workers, clock readings and lock sets |
| `Leases.ClosedIsLast` | src/provable_agent_reference/control_plane/store.py:395-402 | a published row is never claimed or changed again |
| `Leases.ReleasedByClaimant` | src/provable_agent_reference/control_plane/store.py:395-415 | completion and retry follow directly on a claim by the same worker |
| `Leases.ClaimsExclusive` | src/provable_agent_reference/control_plane/store.py:372-386 | claims of one row without a release between them are more than 60 s apart, so live claims are disjoint |
| `Leases.RetryWaits` | src/provable_agent_reference/control_plane/store.py:404-415 | after a retry a row is claimed again no earlier than the delay |
| `Leases.PassedOverBoundedly` | src/provable_agent_reference/control_plane/store.py:372-386 | after max(available_at, claimed_at + 60 s) an open, unlocked row is passed over, within a lease period, by no more claims than there are open rows ahead of it and rows that come or come back: then it is claimed |
| `Leases.ClaimReaches` | src/provable_agent_reference/control_plane/store.py:372-386 | an eligible, unlocked row is taken unless earlier rows use up the limit |
| `Leases.ClaimTakes` | src/provable_agent_reference/control_plane/store.py:367-391 | a claim with a name and a limit of 1 to 500 takes, by columns alone, the open, due, unlocked rows not claimed within 60 seconds, earliest first up to the limit, and marks just these; any other claim changes nothing |
| `Leases.CloseExactly` | src/provable_agent_reference/control_plane/store.py:393-402 | a row is closed iff it is open and claimed by the caller; its columns afterwards, and no other row changes |
| `Leases.RetryExactly` | src/provable_agent_reference/control_plane/store.py:404-415 | a row is handed back iff error and delay are within bounds and the caller holds it; due again after the delay, and no other row changes |
| `Outbox.OutboxStore.ClaimOutbox` | src/provable_agent_reference/control_plane/store.py:367-391 | refuses bad arguments; otherwise claims exactly the picked rows and returns them |
| `Outbox.OutboxStore.CompleteOutbox` | src/provable_agent_reference/control_plane/store.py:393-402 | succeeds iff the worker holds the unpublished row; fails without change |
| `Outbox.OutboxStore.RetryOutbox` | src/provable_agent_reference/control_plane/store.py:404-415 | succeeds iff arguments are bounded and the worker holds the unpublished row; fails without change |
| `Outbox.BackoffBounds` | src/provable_agent_reference/control_plane/outbox.py:28 | the backoff is monotone and within the bounds the store enforces |
| `Outbox.BackoffDoubles` | src/provable_agent_reference/control_plane/outbox.py:28 | from one second on it doubles with each attempt up to the tenth, and is 1024 seconds from then on |
| `Outbox.RetryArgumentsExactly` | src/provable_agent_reference/control_plane/outbox.py:29-34 | the worker's retry is refused for its arguments iff the exception's type name is longer than 1980 characters |
| `Outbox.CallAcceptedExactly` | src/provable_agent_reference/control_plane/outbox.py:23-38 | the store accepts the worker's call for an item iff it holds the open row then, and the item was published or the error's name has at most 1980 characters |
| `Outbox.OutboxWorker.Process` | src/provable_agent_reference/control_plane/outbox.py:23-38 | the loop, with others active around each publication: its state and counts are those of the calls made, and it stops at the first refusal |
| `Outbox.OutboxWorker.RunOnce` | src/provable_agent_reference/control_plane/outbox.py:20-38 | a whole run keeps every row's history legal; the counts add up to the claimed rows |
| `Outbox.CompletedWasPublished` | src/provable_agent_reference/control_plane/outbox.py:24-37 | a row the worker completes had its callback return, one it retries did not; each such event is in the log the run leaves |
| `Outbox.OwnEventsCount` | src/provable_agent_reference/control_plane/outbox.py:23-38 | the worker adds one event for each item it deals with |
| `ArtifactFiles.NextKeeps` | src/provable_agent_reference/control_plane/artifacts.py:16-39 | step by step, with crashes after any step and one in-flight publish per (digest, pid): every file under its digest hashes to its name |
| `ArtifactFiles.TargetStable` | src/provable_agent_reference/control_plane/artifacts.py:35-36 | published files are never removed, and never change unless two contents being published clash |
| `ArtifactFiles.PublishedReadsBack` | src/provable_agent_reference/control_plane/artifacts.py:16-49 | reading a published digest returns exactly the published bytes, or another content that was to be published clashes with them |
| `ArtifactFiles.PublicationSucceeds` | src/provable_agent_reference/control_plane/artifacts.py:16-39 | a publication that nothing disturbs publishes its content, leaves no staging file and changes no other file |
| `ArtifactFiles.ExistingTarget` | src/provable_agent_reference/control_plane/artifacts.py:23-26 | a publication that finds a file of its name returns if the file is intact and raises if not, without writing |
| `ArtifactFiles.WrongStaging` | src/provable_agent_reference/control_plane/artifacts.py:33-34 | a staging file that is missing or does not hash to its name is never renamed |
| `ArtifactFiles.BeginsExactly` | src/provable_agent_reference/control_plane/artifacts.py:27 | one publication of a digest per process at a time, as the staging name intends |
| `ArtifactFiles.SharedStagingCorrupts` | src/provable_agent_reference/control_plane/artifacts.py:27-38 | the one-writer rule is needed: a run from the empty store, of three publications of one content by one process, ends with a file that does not hash to its name |
| `ArtifactFiles.LocalArtifactStore.Publish` | src/provable_agent_reference/control_plane/artifacts.py:16-39 | an undisturbed publication: each outcome, the files afterwards, and no staging file left |
| `Artifacts.MoveKeeps` | src/provable_agent_reference/control_plane/store.py:427-502 | every move of writers and reconcilers keeps available rows backed by verified bytes, unless contents to be published clash |
| `Artifacts.AvailableIsSound` | src/provable_agent_reference/control_plane/store.py:461-472 | over every interleaving from the empty system on, a row is available only if its bytes are stored, hash to its digest and have its length, or two contents to be published clash |
| `Artifacts.StartIsSound` | migrations/0001_control_plane.sql:90-106 | the empty system satisfies what every move keeps |
| `Artifacts.StatusFinal` | src/provable_agent_reference/control_plane/store.py:461-485 | once available or unavailable, a row never changes |
| `Artifacts.RunKeeps` | src/provable_agent_reference/control_plane/artifacts.py:62-84 | a reconciler run keeps every row sound whatever others do before, between and after its reads, unless contents to be published clash |
| `Artifacts.RoundKeeps` | src/provable_agent_reference/control_plane/artifacts.py:65-83 | a verdict is still sound when the row is written, although files and rows moved since the read |
| `Artifacts.ArtifactReconciler.Reconcile` | src/provable_agent_reference/control_plane/artifacts.py:64-83 | one iteration: read, check digest and length, then the matching update if the lease is held |
| `Artifacts.ArtifactReconciler.RunOnce` | src/provable_agent_reference/control_plane/artifacts.py:62-84 | `run_once`: refused without change, or claims the picked rows and leaves the state and counts of the run over them |
| `Artifacts.ArtifactReconciler.Process` | src/provable_agent_reference/control_plane/artifacts.py:62-84 | the loop's counts and final state; it ends early when a lease was lost |
| `Verdicts.RoundDecides` | src/provable_agent_reference/control_plane/artifacts.py:64-83 | one iteration with the lease held, from the files at the reading: the row becomes available iff there was no I/O error and the bytes hash to the digest and have the length, unavailable iff no I/O error and they do not; after an I/O error it is open, unclaimed and due again after the backoff; nothing else changes |
| `Verdicts.RoundWithoutLease` | src/provable_agent_reference/control_plane/store.py:461-502 | without the lease nothing changes |
| `Verdicts.MovesDecide` | src/provable_agent_reference/control_plane/artifacts.py:64-83 | the same of a reading and the decision upon it, as two moves of the interleaved system |
| `Verdicts.StagesExactly` | src/provable_agent_reference/control_plane/store.py:417-425 | staging adds an open row, due at once and unclaimed, unless the digest has one |
| `Verdicts.ClosedForCause` | src/provable_agent_reference/control_plane/artifacts.py:70-83 | over every interleaving from the empty system on, a row is unavailable only if a reading of it without I/O error found its bytes missing or wrong, and available only if one found them right |
| `Contracts.ObjectColumns` | src/provable_agent_reference/assurance_packet.py:87-97 | an object with exactly the expected fields gives back their values |
| `Contracts.IdentifiedBinds` | src/provable_agent_reference/audit.py:20-27 | an identifier cut from a digest decides the values it was made of, or the two objects clash |
| `Contracts.FalsyExactly` | src/provable_agent_reference/contracts.py:53-56 | what Python's truth test refuses |
| `Checks.ContextChecked` | src/provable_agent_reference/contracts.py:77-82 | the constructor accepts a run context iff its fields fit a table of types: identifiers of 3 to 128 characters, sized texts |
| `Checks.DraftChecked` | src/provable_agent_reference/contracts.py:97-110 | a draft, with its lists of different limitations and categories |
| `Checks.EvidenceChecked` | src/provable_agent_reference/contracts.py:133-138 | an evidence record |
| `Checks.BundleChecked` | src/provable_agent_reference/contracts.py:174-188 | a bundle: typed, not empty, each identifier once, one scope, and the hash of its content |
| `Checks.FindingChecked` | src/provable_agent_reference/contracts.py:290-296 | a finding |
| `Checks.ResultChecked` | src/provable_agent_reference/contracts.py:314-330 | a verification result: typed, findings with different codes, and the verdict its error findings give |
| `Contracts.CheckRecords` | src/provable_agent_reference/contracts.py:180-186 | the constructor's loop passes iff evidence ids are distinct and every record is in scope |
| `Contracts.FoundExactly` | src/provable_agent_reference/contracts.py:224-228 | in a valid bundle the identifier decides the record |
| `Contracts.Require` | src/provable_agent_reference/contracts.py:224-228 | the early-returning loop finds the first record of that identifier |
| `Contracts.SealBinds` | src/provable_agent_reference/contracts.py:276-277 | a verified record hash decides the whole record, or the two payloads clash |
| `Contracts.CandidateSealBinds` | src/provable_agent_reference/contracts.py:258-277 | the candidate hash decides the candidate, or the two candidates' payloads clash |
| `Contracts.BundleSealBinds` | src/provable_agent_reference/contracts.py:187-222 | the bundle hash decides the bundle, or the two bundles' payloads clash |
| `Contracts.CandidateInjective` | src/provable_agent_reference/contracts.py:258-274 | different candidates have different JSON forms |
| `Contracts.VerificationInjective` | src/provable_agent_reference/contracts.py:340-350 | different verification results have different JSON forms |
| `Contracts.BundleInjective` | src/provable_agent_reference/contracts.py:214-222 | different bundles have different JSON forms |
| `Chain.SealCandidate` | src/provable_agent_reference/compiler.py:53-72 | filling in the hash changes nothing else and makes the record verify, though the provisional hash was hashed around |
| `Chain.CompiledCarries` | src/provable_agent_reference/compiler.py:53-72 | what a compiled candidate says: the run's context, the draft's content, the bundle's own record of the selected evidence, and the hash of it all |
| `Chain.CandidateIdBinds` | src/provable_agent_reference/compiler.py:45-52 | a candidate id decides run, draft and bundle hash, or the identities clash |
| `Chain.RankIsPlace` | src/provable_agent_reference/contracts.py:17-23 | ranks are the places in the list of five classifications |
| `Chain.OutcomesExactly` | src/provable_agent_reference/verification.py:28-89 | each check's outcome, from the records alone |
| `Chain.VerifiedCarries` | src/provable_agent_reference/verification.py:91-117 | what a result says: whose it is, six findings by code and severity with their outcomes, and its own hash |
| `Chain.RunVerifier` | src/provable_agent_reference/verification.py:20-117 | the findings appended one after another, the status and the identifier are those of the specification, or it raises |
| `Chain.VerifierPassesExactly` | src/provable_agent_reference/verification.py:91-95 | the status is pass iff the candidate is hashed, bound to the bundle, resolves in it, is in scope and discloses safely |
| `Chain.VerifiableExactly` | src/provable_agent_reference/verification.py:73-117 | the verifier raises iff a category is unhashable, redaction is no flag where it matters, or an identifier, hash or time is malformed |
| `Audit.OverturnedRefusalRejected` | src/provable_agent_reference/audit.py:100-116 | a refused use whose flag is turned over, hashed anew and bound by a new manifest is rejected, unless the requested output clashes with the candidate's |
| `Audit.AuditErrorsExactly` | src/provable_agent_reference/audit.py:53-116 | the errors reported are exactly the rules broken; none iff it accepts |
| `Audit.ApprovesExactly` | src/provable_agent_reference/approvals.py:8-55 | a decision is recorded iff candidate and result are intact, belong together and fit, it is one of three, someone made it, and only what passed is approved; and what the record says |
| `Audit.AuthorizesExactly` | src/provable_agent_reference/authorization.py:8-63 | a use is decided upon iff candidate and approval are intact, belong together and the decision is approved; it is authorized iff purpose, audience and output are the candidate's; and what the record says |
| `Audit.ManifestNames` | src/provable_agent_reference/audit.py:13-42 | a manifest names the four records by their hashes |
| `Audit.HashErrorsMean` | src/provable_agent_reference/audit.py:62-71 | which hash error is reported for which record |
| `Audit.BindingErrorsMean` | src/provable_agent_reference/audit.py:72-79 | which binding error is reported for which record of the manifest |
| `Audit.LinkErrorsMean` | src/provable_agent_reference/audit.py:80-99 | which link error is reported for which pair of records |
| `Audit.VerdictErrorsMean` | src/provable_agent_reference/audit.py:84-93 | the two errors about verdicts |
| `Audit.UseErrorsMean` | src/provable_agent_reference/audit.py:98-115 | the four errors about the authorized use |
| `Audit.IssuedRecordsAudit` | src/provable_agent_reference/audit.py:53-116 | whatever decision and use were recorded, records issued one from the other audit without error |
| `Audit.ManifestBinds` | src/provable_agent_reference/audit.py:53-116 | two accepted chains with one manifest hash are equal in all five records, or two records of one kind in them clash |
| `Audit.AcceptedUseIsApproved` | src/provable_agent_reference/audit.py:92-101 | an accepted chain that authorizes rests on an approval of a passing verification |
| `Audit.AcceptedUseIsExact` | src/provable_agent_reference/audit.py:102-110 | and authorizes only the candidate's purpose, audience and output, or an output that clashes with it |
| `Audit.AuditTrustsFindings` | src/provable_agent_reference/audit.py:84-85 | the auditor does not re-verify: every hashed candidate on which the verifier does not raise (`Chain.VerifiableExactly`) has an accepted, authorizing chain |
| `Pipeline.CompilesExactly` | src/provable_agent_reference/compiler.py:28-36 | compilation succeeds iff scopes match and the selected record is in the bundle and not above the ceiling |
| `Pipeline.CompiledPasses` | src/provable_agent_reference/compiler.py:53-72 | what was compiled verifies against its bundle iff it is not sensitive or explicitly redacted |
| `Pipeline.RunsExactly` | src/provable_agent_reference/pipeline.py:49-103 | when `run` returns, as a condition on its inputs alone |
| `Pipeline.ResultsAreComplete` | src/provable_agent_reference/pipeline.py:49-103 | every result is supported by its bundle, audit-valid and without errors |
| `Pipeline.ResultsAnswerTheCall` | src/provable_agent_reference/pipeline.py:49-103 | every result is passing, approved by the given approver, and authorized for exactly the requested use |
| `Packets.ProfileErrors` | src/provable_agent_reference/assurance_packet.py:53-66 | the appending checks report exactly the violated profile rules, in order |
| `Packets.ProfilesExactly` | src/provable_agent_reference/assurance_packet.py:53-66 | a claim has no error iff it is a non-empty initial run of the supported profiles |
| `Packets.PacketAcceptedExactly` | src/provable_agent_reference/assurance_packet.py:437-574 | a packet is accepted iff its form, evidence and use are sound: the candidate verifies against the bundle now, findings match, the chain audits |
| `Packets.FormErrorsMean` | src/provable_agent_reference/assurance_packet.py:437-470 | which error about the packet's own fields is reported for what |
| `Packets.SealErrorsMean` | src/provable_agent_reference/assurance_packet.py:444-456 | the two errors about the packet's hash and identifier |
| `Packets.LimitationErrorsMean` | src/provable_agent_reference/assurance_packet.py:457-468 | which error about limitations |
| `Packets.ProfileErrorsMean` | src/provable_agent_reference/assurance_packet.py:53-66 | which error about claimed profiles |
| `Packets.EvidenceErrorsMean` | src/provable_agent_reference/assurance_packet.py:472-509 | which error about candidate, result and bundle |
| `Packets.SemanticErrorsMean` | src/provable_agent_reference/assurance_packet.py:530-556 | the two errors about recomputing the findings: each code's last finding is compared by severity and outcome |
| `Packets.UseErrorsMean` | src/provable_agent_reference/assurance_packet.py:491-574 | which error about the use; the audit's errors are passed on |
| `Packets.PacketIdBinds` | src/provable_agent_reference/assurance_packet.py:38-50 | a packet id decides candidate, manifest and bundle hashes, or the identities clash |
| `Packets.ResultsBuildExactly` | src/provable_agent_reference/assurance_packet.py:384-434 | a result can be packaged iff redaction is a flag, all bundle classifications are known, and the governed profile is unclaimed or the approver is visible and not the agent |
| `Packets.CandidateDecidesUse` | src/provable_agent_reference/assurance_packet.py:510-522 | an accepted packet's output, purpose and audience are the candidate's |
| `Packets.CandidateDecidesEvidence` | src/provable_agent_reference/assurance_packet.py:502-555 | its evidence, scope and findings are those the bundle gives the candidate |
| `Packets.CandidateHashBinds` | src/provable_agent_reference/assurance_packet.py:437-574 | two accepted packets with one candidate hash agree in candidate, bundle, output, findings and use, or their candidates' or bundles' payloads clash |
| `Packets.PacketHashBinds` | src/provable_agent_reference/assurance_packet.py:444-450 | the packet hash decides the packet, or the two packets' payloads clash |
| `PacketLimits.UnknownClassificationBlocksPackaging` | src/provable_agent_reference/assurance_packet.py:478-488 | an input on which `run` succeeds and packaging cannot: an unselected record of unknown classification |
| `PacketLimits.RedactionValueBlocksPackaging` | src/provable_agent_reference/assurance_packet.py:489-490 | another: a redaction value that is no flag, where nothing needs redaction |
| `PacketJson.LoadFindings` | src/provable_agent_reference/assurance_packet.py:294-302 | the loader's loop parses all findings or raises |
| `PacketJson.LoadExactly` | src/provable_agent_reference/assurance_packet.py:159-381 | loading gives a packet iff the value is that packet's `to_dict`, its records are well formed and it is accepted: both inverses |
| `PacketJson.BuiltPacketsReload` | src/provable_agent_reference/assurance_packet.py:155-156 | a packet built from a run survives printing and loading unchanged |
| `ReleaseTags.ParseTagExactly` | scripts/verify_release.py:88-93 | a tag's text and its parts decide each other, so leading zeros are impossible |
| `ReleaseTags.LineExactly` | scripts/verify_release.py:45-47 | the text of a line decides its two numbers |
| `ReleaseTags.StableByVersion` | scripts/verify_release.py:49-51 | a stable tag is known by its version triple |
| `ReleaseTags.LessExactly` | scripts/verify_release.py:49-51 | versions compare at the first component in which they differ |
| `ReleaseTags.ListReleaseTags` | scripts/verify_release.py:266-274 | the listing loop parses the names the grammar accepts, in order |
| `ReleaseTags.ReleaseTagsExactly` | scripts/verify_release.py:266-274 | a release tag is listed iff its text is among the names |
| `Releases.ParseEntries` | scripts/verify_release.py:126-146 | the loop with its `seen` set accepts iff every entry is well formed, none is the main line and none repeats |
| `Releases.ParseReleaseLines` | scripts/verify_release.py:105-146 | the parser accepts exactly the well-formed lists, and returns what they say |
| `Releases.EntryExactly` | scripts/verify_release.py:126-141 | an entry is accepted iff it is an object of a line of two numbers, the branch of that line and a commit of 40 hexadecimal digits, and nothing else |
| `Releases.MainRouteExactly` | scripts/verify_release.py:177-203 | the main route is taken iff both lists name the tag's line as main line |
| `Releases.RouteExactly` | scripts/verify_release.py:177-203 | a maintenance route is taken iff both lists share the entry and the line is not the main line |
| `Releases.NewestPatchExactly` | scripts/verify_release.py:287-291 | comparing with the newest patch finds exactly the stable tags that stand in the way |
| `Releases.ClassifyExactly` | scripts/verify_release.py:283-303 | when a release is accepted and flagged latest, in terms of the other stable tags |
| `Releases.PatchesIncrease` | scripts/verify_release.py:287-295 | over every history of accepted tags, stable patches strictly increase within each line |
| `Releases.NoLatePrerelease` | scripts/verify_release.py:296-299 | no prerelease follows its stable version |
| `Releases.LatestIncreases` | scripts/verify_release.py:300-302 | versions flagged latest strictly increase |
| `Releases.LatestIsHighestExactly` | scripts/verify_release.py:300-303 | the last release flagged latest always carries the highest stable version released iff no release is shadowed by a stable tag that was pushed but never released |
| `Releases.ReleasedTagsDoNotShadow` | scripts/verify_release.py:285-286 | if every stable tag present is that of a release, nothing is shadowed |
| `Releases.UnreleasedTagShadows` | scripts/verify_release.py:300-303 | a pushed, unreleased tag can keep the flag from the highest release: the unconditional claim is false |
| `SemanticRules.MonotonicRunSequence` | scripts/validate_agentic_contracts.py:51-59 | one pass over interleaved runs: passes iff each run on its own is consecutive |
| `SemanticRules.PreviousHashChain` | scripts/validate_agentic_contracts.py:60-73 | one pass: passes iff each run on its own is linked |
| `SemanticRules.InterleavingsAgree` | scripts/validate_agentic_contracts.py:51-73 | every interleaving of the same runs gets the same verdicts |
| `SemanticRules.IdempotencyInputBinding` | scripts/validate_agentic_contracts.py:91-103 | one pass: passes iff records with one key agree pairwise |
| `SemanticRules.AgreeingPermutes` | scripts/validate_agentic_contracts.py:91-103 | the verdict does not depend on the order of records |
| `SemanticRules.SortedBlockedExactly` | scripts/validate_agentic_contracts.py:116 | a stable sort by attempt number puts an unknown attempt before one of its operation iff it precedes it in the given list |
| `SemanticRules.UnknownEffectRetryBlocked` | scripts/validate_agentic_contracts.py:114-122 | passes iff no unknown attempt precedes another attempt of its operation |
| `StoredActivities.ReconstructedPasses` | scripts/validate_agentic_contracts.py:51-73 | any list the store reconstructs passes the sequence and hash-chain rules |
| `Mutations.DecodeInvertsEscape` | scripts/validate_agentic_contracts.py:134-135 | token decoding inverts RFC 6901 escaping, on every token |
| `Mutations.TokensRoundTrip` | scripts/validate_agentic_contracts.py:139 | any token list is that of its pointer text |
| `Mutations.ReplaceThenRead` | scripts/validate_agentic_contracts.py:138-173 | a replacement succeeds iff something can be read there, and is read there afterwards |
| `Mutations.ReplaceFrame` | scripts/validate_agentic_contracts.py:138-173 | every path that parts from the target's reads as before |
| `Mutations.UnrelatedPathsPart` | scripts/validate_agentic_contracts.py:143-148 | with plain indices, a readable path parts from every path, resolving or not, unless one extends the other |
| `Mutations.AddThenRemove` | scripts/validate_agentic_contracts.py:154-175 | adding and then removing at one path gives back the document iff the parent can be read and the last token is a new member of a dictionary, or an index i of a list of n items with 0 <= i <= n, i = -(n + 1), or -n <= i < 0 and items[n + i] already the value; there the addition is read back at the path |
| `Mutations.NegativeIndexDoesNotRestore` | scripts/validate_agentic_contracts.py:153-161 | a place outside that condition: index -1 of [0] gives back [7] after 7 was added |
| `Mutations.AddsExactly` | scripts/validate_agentic_contracts.py:153-165 | an addition succeeds iff the parent can be read and is a dictionary, or a list not shorter than the index |
| `Mutations.InsertsExactly` | scripts/validate_agentic_contracts.py:153-161 | where an added element goes: at the index, counted from the end if negative, or at the start if it counts beyond it; the others keep their order |
| `Mutations.RemovesExactly` | scripts/validate_agentic_contracts.py:153-175 | a removal succeeds iff something can be read there |
| `Mutations.RemoveThenAdd` | scripts/validate_agentic_contracts.py:153-175 | putting back what was removed from a dictionary, or from a place counted from a list's start, restores the document |
| `Mutations.OthersFail` | scripts/validate_agentic_contracts.py:138-177 | the whole document and any other operation are refused |
| `Documents.InPlaceIsApply` | scripts/validate_agentic_contracts.py:138-177 | walking to one container and writing to it changes the value of the whole document as the mutation of values does, and fails when it does, provided no container is used twice |
| `Documents.SharedContainerSpreads` | scripts/validate_agentic_contracts.py:143-148 | the proviso is needed: what is written through one use of a container is read through the other |
| `Documents.Document.ApplyMutation` | scripts/validate_agentic_contracts.py:138-177 | the walk along the path and the edit in place: one container differs, the value is that of the mutation, and nothing changes if it raises |
| `Documents.Document.Mutate` | scripts/validate_agentic_contracts.py:230-232 | the loop applies mutations in order, in place, and ends at the first that raises |

## Left out

- Floating-point numbers: JSON numbers are integers here; the signing profile refuses the rest, and `canonical_json` of a fraction is not modelled.
- Lone surrogates in JSON strings: Dafny strings hold Unicode scalar values; an escaped lone surrogate is a read error here. Python reads it and then fails to encode it; TypeScript prints it escaped again and can accept it.
- Envelope and trust-bundle field sets, time syntax of key windows and the type test on `packet_hash` before comparison: single-branch checks on shapes; envelopes and keys are typed here.
- Serializer limits: recursion depth, digits of huge integers, and the error for cyclic values after the key walk.
- Database isolation: transactions are atomic steps, justified by the row lock on the run; rows locked by others are a parameter of a claim.
- Hash-format CHECK constraints and bounded-text checks of the control-plane models, except the bounds on idempotency keys and grants.
- Leases: two rows, of the outbox and of the artifact table, share one model; clock readings are parameters, and nothing is assumed about their order across calls except what the claims themselves test.
- `storage_key` matching in `finalize_artifact`, uniqueness of storage keys and the run reference of staged rows.
- Transitive revocation: only the direct parent's `revoked_at` is read, and nothing sets it.
- How root grants come to be: no code inserts them; `Delegation.InsertRoot` is an operator's insert that meets the table's constraints.
- Creation times: a grant's `created_at` is the instant of the expiry check of its parent.
- `chmod`, `fsync` and directory creation in artifact publication; a crash loses no file written before it.
- ArtifactFiles.PublishedReadsBack: holds for one in-flight publication per digest and process, as the staging name intends; without it see `ArtifactFiles.SharedStagingCorrupts`.
- Text order of record ids: by code point, where a database may collate otherwise.
- Text forms of dates: `isoformat` and `fromisoformat` are a pair of functions of which only the round trip is required.
- Audit.AuditErrorsExactly: the conditional appends of the source are one filter over the list of checks, in its order.
- Packets.PacketAcceptedExactly: says which errors are present and that none means acceptance, not the order of the packet's error list.
- Python's `1 == True`: values of different JSON types are different here. In accepted packets hashes tell them apart.
- `verify_release.py` beyond tags, allow-list, route and classification: git, metadata files, ancestry and output.
- JSON reading of the allow-list with its duplicate-key test: `Releases.ParseReleaseLines` starts from what the text denotes.
- Releases.PatchesIncrease: says "strictly, or the same tag", because verifying one tag again is accepted.
- SemanticRules.MonotonicRunSequence: reads typed entries; a record without one of the members makes the script raise before any verdict.
- The remaining semantic rules (scope, event identity, receipt binding, attenuation, time order): one expression each.
- Documents.Document.Mutate: the values to be inserted share no container with the document or each other, as separately parsed JSON does not; `int` on text is a parameter.
- Schema validation, Codex adapters, the synthetic effect gateway, memory query, readiness reports, demos and examples: library semantics or single-branch claims.
