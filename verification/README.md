# Takoform form packages: model and proofs

This project models the Go library that verifies data-only Form Packages, compiles
them into an immutable snapshot and drives a fenced resource lifecycle, and proves
what its static checks promise. `dafny verify dfyconfig.toml` checks all of it.

How it is laid out:

- `Json`, `Pointers`, `SchemaGraph`: JSON documents, RFC 6901 pointers, and a JSON
  Schema as the graph that is traversed.
- `Closure`, `ProofGraph`, `AdmissionFolds`, `ExactLiterals`, `ClosureMemo`,
  `ClosureValidator`: the portable closure proof. `Closure.Prove` is the plain
  recursion over the unfolded graph; `PortableSchemaValidator` is the memoised,
  budgeted traversal, and `ProveClosure` ties the two together in both directions.
- `Evaluator`, `AdmissionSoundness`, `EvaluationStability`: a reference evaluator for
  the applicators of JSON Schema 2020-12 (Core, sections 8.2.3.1 and 10) and what
  acceptance by the proof means for the instances it accepts.
- `SchemaWork`, `InstanceWork`, `PortableStructure`: the two work estimators and the
  structural check and fixture guard that use them.
- `RegexAnchors`, `Revocation`, `Incarnation`: anchor analysis, the revocation
  checkpoint chain, and deletes and observations under a replay-first host as
  interleaved steps.
- `Ordering`, `Identities`, `ContractAnnotations`, `AnnotationReach`,
  `AnnotationCollision`, `TargetReferences`, `SnapshotGraph`, `SnapshotOrder`,
  `SnapshotClosure`, `SnapshotCompiler`, `Materialization`, `EffectiveDocuments`: the
  snapshot compiler.
  `SnapshotGraph` says what a compilation is, `SnapshotCompiler` does it.
- `StrictGrammar`, `StrictGuesses`, `StrictParser`: the strict I-JSON parser against a
  grammar of parse trees that are written out byte for byte.
- `Base32`, `PublicationIdentity`: release identities and publication tags.

- `PointerRules`, `ClosureRules`, `EvaluationRules`, `WorkRules`, `StrictSpelling`,
  `ArtifactRules`, `SnapshotReports`, `AnnotationRules`, `MaterializationRules`,
  `OrderRules`, `RevocationRules`, `IncarnationRules`, `PublicationRules`: what the
  specification functions of the other modules mean, over literal keywords, characters,
  fields and codes, so that nothing rests on a function shared by code and theorem.

Code that updates state in the library is a class or a method with loops here, proved
against a specification function; the specification is what the lemmas are about.

Five promises turned out to need a condition. The code is modelled as it is; the
exact condition or a counterexample stands beside each:

- The order of Forms is total if and only if no unreadable version is straddled
  (`Identities.FormOrderIff`). A version with a number beyond 64 bits is well formed
  under the published pattern, is refused by the version reader, and can be straddled
  (`Identities.WideVersionBreaksTheOrder`); then the order, and with it the snapshot
  digest, can depend on the order in which a map is read.
- Materialisation is idempotent on a document if and only if the tags its first pass
  leaves are settled (`EffectiveDocuments.IdempotentIff`), which every document meets
  when no union branch without a tag defaults the discriminator
  (`Materialization.TagStable`).
- The annotation walk misses nothing when the binding names it collects hold no NUL
  byte; the published pattern of Binding names rules it out for accepted Bindings, and
  a successful compile makes every collected name one of those.
- A tag is read back in its own lane if and only if its index is one the lane
  describes (`PublicationIdentity.Recoverable`).
- An answered delete is final only for an incarnation the host has issued to the
  client (`Incarnation.GuessedUidLosesADelete`), and an answered observation is of the
  incarnation it names if and only if that one was alive when it was first answered
  (`Incarnation.ObservedIncarnationIff`).

Digests are collision-free only among the documents or requests of the run in hand: a
digest of fixed length cannot be injective on all documents.

## Model

| member | source | states |
|---|---|---|
| Pointers.EscapesAgree | snapshot/snapshot.go:618-620 | the two-pass escape of the snapshot package and the one-pass escape of the schema proof write the same token, for every token |
| Pointers.DecodeTokenLoop | formpackage/schema.go:2197-2215 | the token decoding loop computes the recursive decoding, with both of its refusals |
| Pointers.DecodeEscape | formpackage/schema.go:2197-2215 | decoding undoes escaping, and an escaped token holds no separator |
| Pointers.EscapeDecode | formpackage/schema.go:2197-2215 | a separator-free raw token that decodes is the only spelling of what it decodes to |
| Pointers.TokensRoundTrip | formpackage/schema.go:1681-1689 | every token list survives being written as a pointer and read back (RFC 6901, sections 3 and 4) |
| Pointers.PointersInjective | formpackage/schema.go:1681-1689 | two token lists with one pointer are the same list |
| Pointers.IndexRoundTrip | formpackage/schema.go:2181-2188 | the decimal written for an array position is accepted as that position |
| Pointers.SignedTokenAliases | formpackage/schema.go:2181-2188 | `+1` and `1` select the same element under different pointers: a node does not determine its pointer |
| Pointers.ResolveReference | formpackage/schema.go:2155-2195 | the reference resolver computes the declarative resolution, with each of its refusals |
| Pointers.ResolveAddresses | formpackage/schema.go:2155-2195 | the pointer a resolved reference returns is canonical and names exactly the node returned |
| Pointers.AddressesAppend | formpackage/schema.go:1681-1689 | a pointer extended structurally names the node the traversal went to |
| PointerRules.EscapeSpelling | formpackage/schema.go:2197-2215 | a tilde is written `~0`, a slash `~1`, every other character as itself, and a token character by character (RFC 6901, section 3) |
| PointerRules.DecodesIff | formpackage/schema.go:2197-2215 | a slash-free raw token reads as a token if and only if it is that token escaped |
| PointerRules.ArrayIndexIff | formpackage/schema.go:2181-2188 | a token is a position of an array if and only if it is its decimal, that behind a plus sign and any zeros, or, for the first, zeros behind a minus sign |
| PointerRules.WrittenIsRead | formpackage/schema.go:2155-2165 | a fragment in which any bytes are written plainly or as percent escapes, in either case, is read as those bytes |
| PointerRules.ReadIsWritten | formpackage/schema.go:2155-2165 | and nothing else is read |
| PointerRules.ResolvesIff | formpackage/schema.go:2155-2195 | a reference resolves to a node if and only if it is `#`, or its unescaped fragment is the pointer of tokens that can be walked to that node; the pointer returned is the canonical one |
| PointerRules.SpelledReferenceResolves | formpackage/schema.go:2155-2195 | whatever can be walked to is reached by its reference, however the fragment spells it |
| PointerRules.StepIff | formpackage/schema.go:2166-2192 | a token leads to the member of that name or the item at that position, and nowhere else |
| SchemaGraph.EdgeAddresses | formpackage/schema.go:1531-1620 | along every keyword edge, `$ref` included, the pointer the traversal computes names the subschema it holds there |
| Closure.Prove | formpackage/schema.go:1446-1641 | the unmemoised closure proof; a proved node is never open |
| Closure.ProveMonotone | formpackage/schema.go:1410-1436 | more depth than a proof needs never changes its verdict |
| AdmissionFolds.FoldIntersectMeaning | formpackage/schema.go:2135-2143 | an intersection excludes objects when one part does, and is open only when all parts are |
| AdmissionFolds.FoldUnionMeaning | formpackage/schema.go:2145-2153 | a union is open when one part is, and excludes objects only when all parts do |
| AdmissionFolds.ModeMeaning | formpackage/schema.go:1446-1641 | the admission folded out of type, const, enum, `$ref`, allOf, anyOf and oneOf is the declarative admission of the node, and the fold is open exactly when the proof refuses it |
| ProofGraph.RankUnique | formpackage/schema.go:1368-1376 | the longest-path depth of a proved node is well defined |
| ProofGraph.PathsAreBounded | formpackage/schema.go:1410-1436 | every path of child and `$ref` edges from an accepted root has at most 64 edges, those behind memo hits included, and leaves the rest of the depth to the node it ends at |
| ProofGraph.AcceptedIsAcyclic | formpackage/schema.go:1410-1436 | no node of an accepted schema is below itself |
| ProofGraph.LongestPath | formpackage/schema.go:1620-1641 | the reported depth is attained by a path, which ends at a leaf or at the exact object literal that accounts for the rest |
| ProofGraph.ReachClosed | formpackage/schema.go:1531-1620 | the visited pointers are closed under child and `$ref` edges |
| ProofGraph.ReachAddressed | formpackage/schema.go:1410-1436 | every visited pointer names a proved node |
| ClosureMemo.ReachVisited | formpackage/schema.go:1410-1436 | when the traversal ends, the memo table holds every pointer reachable from its start |
| ClosureMemo.NodeVerdict | formpackage/schema.go:1446-1641 | memo entries that are right for the children make the computed mode and depth right for the node, whether they were computed now or found in the table |
| ClosureValidator.PortableSchemaValidator.ConsumeOperation | formpackage/schema.go:1438-1444 | one operation is charged, and refused exactly beyond 4096 |
| ClosureValidator.PortableSchemaValidator.Validate | formpackage/schema.go:1410-1436 | the memoised step keeps the table right, reports the mode and depth of the unmemoised recursion, charges exactly the new entries, and cannot fail on an acceptable schema within budget |
| ClosureValidator.PortableSchemaValidator.ValidateUncached | formpackage/schema.go:1446-1641 | the same for a node that is not in the table yet |
| ClosureValidator.PortableSchemaValidator.ValidateRef | formpackage/schema.go:1602-1620 | a `$ref` is charged, resolved and followed, and its verdict is the verdict of its target |
| ClosureValidator.PortableSchemaValidator.CombineModes | formpackage/schema.go:1446-1641 | the loop over keyword modes computes the fold |
| ClosureValidator.PortableSchemaValidator.ValidateExactObjectConst | formpackage/schema.go:1647-1679 | an exact object literal is charged once for every node and returns its depth; it fails only beyond the depth limit or the budget |
| ClosureValidator.ProveClosure | formpackage/schema.go:1388-1408 | the memoised, budgeted proof accepts if and only if the unmemoised recursion accepts within 64 edges and the visited pointers, `$ref` occurrences and literal nodes number at most 4096; on acceptance the counter is exactly that number, whatever order maps are read in |
| AdmissionSoundness.AdmissionSound | formpackage/schema.go:1388-1641 | for every proved node and every instance the reference evaluator accepts there, each nested object has a visited node that accepts it and either holds it as a literal or closes its names, by declaring them all or as a typed map under the key policy; a node marked excluded accepts no object |
| AdmissionSoundness.AcceptedInstancesAreGoverned | formpackage/schema.go:1388-1408 | in every instance an accepted schema admits, each nested object outside literals is accepted by a visited node that has it as a const or enum literal, or refuses additional members and declares all its names, or is a typed map whose reviewed key policy all its names satisfy |
| AdmissionSoundness.OpenSchemaGovernsNothing | formpackage/schema.go:1388-1408 | the guarantee is not free: the empty schema, which the proof refuses, governs no object whatever its names are |
| ClosureRules.RulesIff | formpackage/schema.go:1446-1600 | what the proof asks of a node besides its subschemas is exactly this, key by key: none of eleven named keywords, the one dialect, allowed field names, known types with `properties` only on objects and a closed or typed map, and the shapes of its keywords |
| ClosureRules.AcceptedNodesFollowTheRules | formpackage/schema.go:1446-1600 | every schema object below an accepted root, through `$ref` too, follows those rules; `patternProperties` and the other ten are nowhere in it |
| ClosureRules.SubschemasAreTheEdges | formpackage/schema.go:1531-1620 | the proof visits exactly the subschemas the document holds under the eighteen literal keywords, and the target of `$ref` |
| ClosureRules.ProveByRules | formpackage/schema.go:1446-1641 | the verdict on a schema object, read off its literal keywords and the verdicts on its subschemas |
| ClosureRules.LiteralNodesArePlaces | formpackage/schema.go:1647-1679 | the nodes charged for an object literal are its places, each once |
| ClosureRules.OperationsAreCounted | formpackage/schema.go:1388-1444 | the operations of an accepted schema are the visited pointers, the `$ref`s among them and the places of the object literals among them |
| EvaluationRules.AcceptsByRules | formpackage/schema.go:1824-2060 | the reference evaluator accepts a value if and only if each keyword of the literal schema holds of it: an array satisfies `contains` when at least `minContains`, by default one, and at most `maxContains` of its items are accepted, and so for the sixteen other applicators, evaluated members and items included |
| EvaluationRules.AcceptsPlain | formpackage/schema.go:1824-1840 | `true` accepts everything, `false` nothing, and nothing else is a schema |
| SchemaWork.SaturatingAddLaws | formpackage/schema.go:1798-1804 | saturating addition is associative, commutative and absorbing at the limit |
| SchemaWork.SaturatingAddIsSum | formpackage/schema.go:1798-1804 | adding saturated numbers gives the saturated sum |
| SchemaWork.WorkStable | formpackage/schema.go:1706-1796 | the expanded work of a proved node does not depend on spare depth, so it is defined by the schema alone |
| SchemaWork.FullWorkUnfold | formpackage/schema.go:1706-1796 | the expanded work of a node is one plus the work of every non-definition edge, `$ref` targets counted at each occurrence |
| SchemaWork.SchemaValidationWorkEstimator.Estimate | formpackage/schema.go:1706-1796 | on a proved schema the memoised estimator, early breaks included, returns exactly min(16385, W) with W the expanded work; it reports no cycle, bad reference or non-schema |
| InstanceWork.PartNamed | formpackage/schema.go:1925-1935 | the pointer and role built for a part of an instance name exactly that part |
| InstanceWork.NamesOneValue | formpackage/schema.go:1806-1822 | instance pointer and role determine the instance value, so the memo key is functional |
| InstanceWork.RoleIsNeeded | formpackage/schema.go:1806-1822 | without the role the key would not be: a document with one pointer naming two values |
| InstanceWork.ApplicationsStable | formpackage/schema.go:1824-2060 | the unmemoised count over schema and instance does not depend on spare depth |
| InstanceWork.EvaluationCostBound | formpackage/schema.go:1824-2060 | a reference evaluation costs at most the unmemoised count, on every schema and instance |
| InstanceWork.SchemaInstanceValidationWorkEstimator.Estimate | formpackage/schema.go:1824-2060 | on a proved schema the memoised estimator returns exactly min(16385, U) with U the unmemoised count over schema and instance, and reports no error |
| EvaluationStability.EvaluationStable | formpackage/schema.go:1824-2060 | on a proved schema the reference evaluator gives one outcome, however much depth it is given |
| WorkRules.ApplicationsByRules | formpackage/schema.go:1824-2060 | the count of a schema object on a value is one plus, for each of the seventeen applicator keywords, the counts of its subschemas on the members, items or names the document gives them; `contains` adds one application for every item |
| WorkRules.FullApplicationsByRules | formpackage/schema.go:1824-2060 | on a proved schema that equation holds of the count itself, without a depth |
| WorkRules.FullWorkByRules | formpackage/schema.go:1706-1796 | the expanded work of a proved schema object, by the same literal keywords |
| WorkRules.BooleanWork | formpackage/schema.go:1706-1725 | a boolean schema is one evaluation |
| PortableStructure.ValidatePortableSchemaStructure | formpackage/schema.go:1388-1408 | a schema is accepted if and only if it is provably closed, within the operation budget, and its expanded work is at most 16384 |
| PortableStructure.GuardFixture | formpackage/verify.go:368-387 | a fixture passes the guard if and only if its count is at most 16384, and then evaluating it costs at most 16384 schema evaluations whatever the opaque assertions answer |
| PortableStructure.FixtureCost | formpackage/verify.go:368-387 | evaluating any fixture of an accepted schema costs at most its count |
| RegexAnchors.BeginTextSound | formpackage/schema.go:858-882 | a match of an expression that structurally requires begin-of-text starts at 0, in every text |
| RegexAnchors.EndTextSound | formpackage/schema.go:884-908 | a match of an expression that structurally requires end-of-text ends at the end of the text |
| RegexAnchors.AnchoredMatchesWholeText | formpackage/schema.go:828-856 | an interface grammar that passes both checks only matches whole names |
| RegexAnchors.SourceBytesAreNotEnough | formpackage/schema.go:853-857 | an expression written with `^` first and `$` last that fails the structural check and matches inside a text |
| RegexAnchors.AnchoredGrammarsPass | formpackage/schema.go:858-908 | alternatives of bodies between the text anchors pass both checks, captured or repeated at least once too, and fail when they may be skipped |
| RegexAnchors.UnanchoredGrammarsFail | formpackage/schema.go:858-908 | one alternative that fails makes the expression fail, and line anchors do not count: they match inside a text |
| Revocation.ValidateRevocationCheckpoint | formpackage/schema.go:1083-1153 | the pass over the entries with its two seen-sets accepts exactly the well-formed checkpoints: lane, previous digest, one entry per sequence, pairwise distinct statement versions and statement digests |
| Revocation.RunShape | formpackage/schema.go:1155-1235 | an accepted run from no pin keeps one profile, grows by one each time, and its pin is that of its last checkpoint |
| Revocation.RunIsAppendOnly | formpackage/schema.go:1216-1229 | every earlier entry list of an accepted run is a prefix of every later one |
| Revocation.RunLinks | formpackage/schema.go:1219-1221 | each accepted checkpoint names the digest of the one before it, and every shorter run is accepted |
| Revocation.SamePinSameHistory | formpackage/schema.go:1155-1235 | two accepted runs that end in the same pinned digest accepted identical histories |
| Revocation.CurrentRunStartsAtGenesis | formpackage/schema.go:1237-1264 | a run of the current profile starts at the one signed genesis |
| Revocation.SuccessorAccepted | formpackage/schema.go:1155-1235 | a valid successor that links to the last checkpoint and keeps its entries is accepted: no pin is a dead end |
| Revocation.CheckNotRevoked | trust/revocation.go:101-118 | the scan answers with the first entry of the package |
| Revocation.RevocationIsPermanent | trust/revocation.go:41-56 | once an accepted checkpoint reports a package revoked, every later one does, by the same statement and sequence |
| Revocation.RevokedByItsEntry | trust/revocation.go:101-118 | a reported revocation is the entry standing at the reported sequence |
| RevocationRules.ValidIff | formpackage/schema.go:1083-1153 | a checkpoint is valid if and only if it follows the literal rules of one of the two profiles and its entries are numbered from one without gaps, with distinct statements, canonical digests and the last version its own |
| RevocationRules.FirstPinIff | formpackage/schema.go:1155-1190 | without a pin, exactly a valid sequence one of the first profile and the one genesis of the current profile are accepted, and the pin is of that checkpoint |
| RevocationRules.NextPinIff | formpackage/schema.go:1190-1235 | from a pin, exactly the valid next checkpoint of its profile is accepted that names its digest and repeats the entries it digested; a pin at sequence zero must be of the genesis |
| RevocationRules.AnsweredIff | trust/revocation.go:101-118 | each of the four answers is given exactly when: the query is not canonical; no entry names the package; its first entry names another Form; its first entry names this Form |
| Incarnation.IncarnationHost.HandlePut | hostclient/incarnation_key_test.go:121-135 | a put stores the resource at its place under a number above every number counted so far |
| Incarnation.PutIssuesANewNumber | hostclient/incarnation_key_test.go:121-135 | in every run, the number a put issues belongs to no incarnation issued before, at any place |
| Incarnation.IncarnationHost.HandleDelete | hostclient/incarnation_key_test.go:146-161 | a recorded key is replayed before the resource is resolved; otherwise the delete happens and is recorded |
| Incarnation.IncarnationHost.HandleObserve | hostclient/incarnation_key_test.go:162-178 | a recorded key is replayed; otherwise the present representation is recorded and returned |
| Incarnation.StepKeepsSound | hostclient/hostclient.go:511-548 | every interleaved step keeps: live numbers were issued at their place, and a recorded key belongs to a sent request whose incarnation is gone |
| Incarnation.RunIsSound | hostclient/hostclient.go:511-548 | so does every run |
| Incarnation.AnsweredDeleteIsFinal | hostclient/resources.go:550-588 | in every run, once a delete naming a host-issued incarnation is answered, executed, replayed or not found, that incarnation is dead for the rest of the run |
| Incarnation.KeyExecutesOnce | hostclient/hostclient.go:511-548 | no key executes twice, however often and in whichever order it is delivered |
| Incarnation.ObservedIncarnationIff | hostclient/resources.go:462-505 | in every run, an answered observation returns the incarnation it names if and only if that incarnation was alive at the first answered delivery of its key; every later delivery repeats that answer |
| Incarnation.LiveIncarnationIsObserved | hostclient/resources.go:462-505 | so while an incarnation lives, every observation naming it returns it, from the record or not |
| Incarnation.LateObserveReadsAnother | hostclient/resources.go:462-505 | an observation first delivered after its incarnation is gone reads, and then repeats, the one that took its place |
| Incarnation.RetryReplays | hostclient/incarnation_key_test.go:343-369 | a delete retried after a lost response gets the same answer and changes nothing |
| Incarnation.CounterAloneLosesADelete | hostclient/incarnation_key_test.go:293-341 | with the number left out of the key, a run in which the second delete is answered and the second incarnation lives on |
| Incarnation.GuessedUidLosesADelete | hostclient/resources.go:550-588 | a client that names an incarnation it was never given can be answered while the resource lives: the precondition is needed |
| IncarnationRules.PartsNameTheRequest | hostclient/hostclient.go:511-548 | the parts of a key determine the request and the operation: operation, group, kind, name, space, uid and generation |
| Materialization.MaterializeKeeps | snapshot/snapshot.go:729-800 | materialisation keeps every supplied member and item, at any depth, for any schema |
| Materialization.NormalForm | snapshot/snapshot.go:698-819 | two documents have the same effective document if and only if they differ only in which declared defaults they write out, for schemas whose tags are stable |
| EffectiveDocuments.NormalFormIff | snapshot/snapshot.go:698-819 | for every schema, two documents have the same effective document if and only if they say the same under the branches each selects, an omitted member standing for its declared default at any depth |
| EffectiveDocuments.SameEffectIff | snapshot/snapshot.go:729-800 | the same for two values under two schemas |
| EffectiveDocuments.UnchangedIff | snapshot/snapshot.go:729-800 | materialisation leaves a document alone if and only if it writes out every default declared for it |
| EffectiveDocuments.IdempotentIff | snapshot/snapshot.go:698-819 | for every schema and document, the effective document is its own effective document if and only if at every union the tag the first pass leaves selects the same branch again, none, or one with nothing to add |
| EffectiveDocuments.TagStableSettles | snapshot/snapshot.go:729-745 | which holds for every document when no untagged branch defaults the discriminator |
| Materialization.MaterializeIdempotent | snapshot/snapshot.go:698-819 | the effective document is its own effective document, for schemas whose tags are stable |
| Materialization.WrittenDefault | snapshot/snapshot.go:729-800 | writing out one omitted default leaves the effective document unchanged, for any object schema |
| Materialization.TagsAllDeclared | snapshot/snapshot.go:729-745 | unions whose branches all carry a non-empty const tag meet the condition of the normal form |
| Materialization.UntaggedUnionIsNotIdempotent | snapshot/snapshot.go:729-745 | a union with an untagged branch that defaults the discriminator: a second pass selects another branch and adds a member |
| MaterializationRules.MaterializeByRules | snapshot/snapshot.go:729-800 | the effective value is the only one that follows the literal rules: a supplied member goes through its declared property, else through `additionalProperties` when that is an object, and is kept otherwise; an omitted member with a `default` is added through its property; a tagged union goes through the first `oneOf` branch whose `const` is the tag; items go through `items`; all else is kept |
| MaterializationRules.RulesFixTheValue | snapshot/snapshot.go:729-800 | and any account of effective values that follows those rules at every schema is the computed one, at any depth |
| Ordering.SortIsUnique | snapshot/snapshot.go:564-606 | under a strict total order the outcome of a sort depends only on what is sorted |
| Ordering.SortedListing | snapshot/snapshot.go:564-571 | listing a map's keys in any order and sorting them gives the one sorted listing |
| Ordering.BytesOrder | snapshot/snapshot.go:573-589 | byte-wise string comparison is a strict total order |
| Identities.PrecedenceOrder | snapshot/snapshot.go:573-589 | precedence of semantic versions (Semantic Versioning 2.0.0, section 11) is a strict total order on parsed versions |
| Identities.ContractOrder | snapshot/contracts.go:529-569 | the order of Interface and Binding identities is strict and total |
| Identities.DiagnosticOrder | snapshot/snapshot.go:591-606 | diagnostics are strictly and totally ordered by subject, pointer, code and message |
| Identities.FormsAreRanked | snapshot/snapshot.go:573-589 | any two different Forms compare in exactly one direction, readable versions or not |
| Identities.FormOrderIff | snapshot/snapshot.go:573-589 | `lessKey` is a strict total order on a set of Forms if and only if no unreadable version lies, as text, between two readable ones that precedence puts the other way round |
| Identities.ReadableFormsAreComparable | snapshot/snapshot.go:573-589 | it is whenever every version can be read |
| Identities.WideVersionBreaksTheOrder | snapshot/snapshot.go:573-589 | it is not for the three well-formed versions 2.0.0, 10.0.0 and 18446744073709551616.0.0 of one Form, since a reader of 64-bit numbers refuses the last |
| Identities.StraddleShowsTheListing | snapshot/snapshot.go:564-571 | then two listings of the same three Forms are both left as they are by the sort: the snapshot order shows the order of map iteration |
| OrderRules.FormsCompare | snapshot/snapshot.go:573-589 | Forms compare by group, kind, version and digest; versions by precedence when both are read and differ, and as text otherwise |
| OrderRules.ContractsCompare | snapshot/contracts.go:529-570 | Interfaces and Bindings compare by the first of API version, name, version and digest in which they differ, byte by byte, a prefix first |
| OrderRules.DiagnosticsCompare | snapshot/snapshot.go:591-606 | diagnostics compare by subject, pointer, code text and message |
| OrderRules.PrecedesIff | snapshot/snapshot.go:580-584 | precedence is that of Semantic Versioning 2.0.0, section 11: numbers, then a release after its pre-releases, then identifiers, numbers before text |
| OrderRules.PublishedPrecedence | snapshot/snapshot.go:580-584 | the example chain of that section |
| ContractAnnotations.ResolveLocal | snapshot/contracts.go:446-506 | the local resolver of the compiler is the resolver of the schema proof, with pointers written under where the document stands |
| ContractAnnotations.AnnotationWalker.WalkNode | snapshot/contracts.go:373-444 | the walk that inserts into and deletes from the shared jump set returns the annotations of the specification and leaves the set as it was; it ends because each jump uses up one of finitely many (target, binding) keys |
| ContractAnnotations.AnnotationWalker.WalkMember | snapshot/contracts.go:396-434 | each member is read as its key says; a jump already being followed is cut |
| AnnotationReach.CollectedIffReachable | snapshot/contracts.go:369-444 | an interface annotation is collected, with its pointer and binding, if and only if it is reachable from the document by members, items and local references, although references may cycle |
| AnnotationReach.BindingCollectedIffReachable | snapshot/contracts.go:369-444 | the same for binding annotations |
| AnnotationReach.Straighten | snapshot/contracts.go:421-429 | whatever a path reaches is reached without repeating a jump, so cutting repeated jumps loses nothing |
| AnnotationReach.ReachedPlacesAreNamed | snapshot/contracts.go:446-486 | every pointer written into an annotation names the node that carries it |
| AnnotationRules.CollectedByRules | snapshot/contracts.go:369-444 | the walk collects exactly the `x-takoform-required-interface` and `x-takoform-binding` annotations at places reached from the root by members other than those two and `$ref`, by items, and by `$ref` where a binding is in force |
| AnnotationRules.StepIff | snapshot/contracts.go:373-444 | a hop of the walk is such a step, with its pointer and the binding in force after it |
| AnnotationCollision.NulHidesARequirement | snapshot/contracts.go:421-424 | a document in which a binding name holds a NUL: two different jumps share a key, and a reachable required Interface is not collected |
| TargetReferences.CollectTargets | snapshot/snapshot.go:464-501 | the recursive collection over sorted keys computes the specification |
| TargetReferences.TargetsCollected | snapshot/snapshot.go:464-501 | an exact target Form is collected, at its pointer, if and only if an annotation entry that decodes to it stands there |
| SnapshotCompiler.CompileEach | snapshot/snapshot.go:179-191 | every artifact is compiled, its problem reported or its value grouped under its identity |
| SnapshotCompiler.SelectUnique | snapshot/snapshot.go:193-212 | identities supplied once are selected; the others are reported with their sorted origins |
| SnapshotCompiler.CompileContracts | snapshot/contracts.go:114-199 | the Interfaces and Bindings, their orders, or the report of the first of its three stages that finds anything |
| SnapshotCompiler.CloseContractReferences | snapshot/contracts.go:267-334 | the report of everything the Forms name among Interfaces and Bindings and do not find, or find under another role or target |
| SnapshotCompiler.CheckTargets | snapshot/snapshot.go:241-255 | the absent target Forms, at their pointers |
| SnapshotCompiler.CompileDefaults | snapshot/snapshot.go:390-457 | the defaults of every group and kind in use, and the report of those with no pin, several pins, a foreign pin or an absent Form |
| SnapshotCompiler.Compile | snapshot/snapshot.go:153-282 | the staged compiler returns an outcome of the specification; Forms are visited in their order when they have one |
| ArtifactRules.PackageCompilesIff | snapshot/snapshot.go:290-379 | a package compiles if and only if it is verified, its own digest is canonical and the expected one, it has a Definition entry, and the Definition reads, digests, canonicalises and is the Form its index names; the Form then carries the digest of that package |
| ArtifactRules.PackageRefusal | snapshot/snapshot.go:290-379 | otherwise the diagnostic names the first of those conditions that fails, with its code, subject, pointer and cause |
| ArtifactRules.InterfaceCompilesIff | snapshot/contracts.go:201-233 | an Interface compiles if and only if its expected digest is canonical and its own, and it passes its schema, reads and canonicalises; its identity and operations are what it says |
| ArtifactRules.BindingCompilesIff | snapshot/contracts.go:235-265 | the same for a Binding |
| ArtifactRules.ContractRefusals | snapshot/contracts.go:201-265 | and what is reported otherwise |
| SnapshotOrder.ProblemsPermute | snapshot/snapshot.go:153-282 | permuting packages, Interfaces, Bindings and pins, and visiting Forms in any order, gives the identical list of diagnostics |
| SnapshotOrder.OrderIndependence | snapshot/snapshot.go:153-282 | outcomes of permuted inputs fail with the same diagnostics or hold the same graph; they are equal, digest and orders included, when the Forms are comparable |
| SnapshotClosure.CompilesIff | snapshot/snapshot.go:153-282 | the compiler succeeds if and only if the lane is `forms.takoform.com/v1`, every artifact stands on its own over its own fields (a package is verified, is the expected one and is what its index names), no identity is supplied twice, and the graph and the defaults are closed, unless only the encoding of the digested summary fails; a failure is never silent |
| SnapshotClosure.CompiledIsClosed | snapshot/contracts.go:168-198 | in a compiled snapshot every provided Interface, accepted Binding with its role, Binding target and operation, annotated Interface and target Form is in the snapshot; it holds exactly what was supplied, every Form under the identity and with the digest of the package it came from |
| SnapshotClosure.FormClosedIff | snapshot/contracts.go:267-334 | the reference checks of a Form are silent if and only if it is closed |
| SnapshotClosure.DefaultsAreExact | snapshot/snapshot.go:390-457 | the defaults are exactly one existing Form of its own for each group and kind in use, the one pinned for it |
| SnapshotClosure.RequirementsMeetTheirBinding | snapshot/contracts.go:292-331 | after a successful compile, whatever is required at any place a desired schema reaches, through references too, is in the snapshot and, under a binding, is the target of the one accepted Binding of that name, given that the Definition check admits no NUL in accepted Binding names, as its published pattern ensures |
| SnapshotReports.LaneReport | snapshot/snapshot.go:156-177 | exactly the lane `forms.takoform.com/v1` passes; the two lanes before it are reported as unserved and all else as invalid |
| SnapshotReports.ReportedIff | snapshot/snapshot.go:179-260 | what is reported is exactly what the earliest of nine stages that finds anything finds |
| SnapshotReports.FormReports | snapshot/contracts.go:267-334 | the reports on one Form are exactly those on its provided Interfaces, accepted Bindings, required Interfaces and binding names, each at its pointer |
| SnapshotReports.BindingReports | snapshot/contracts.go:168-196 | a Binding is reported for an absent target, or for each operation, in its access modes too, that the target does not have |
| SnapshotReports.DefaultReport | snapshot/snapshot.go:417-457 | a group and kind is reported as missing, ambiguous, mismatched or unresolved exactly as its pins are |
| SnapshotReports.DigestFixesContents | snapshot/snapshot.go:503-562 | where the digest does not collide on the two, snapshots have equal digests if and only if they agree on the lane, the Forms in order with their package digests, the Interfaces, the Bindings with their targets and the defaults |
| StrictGrammar.DecodedIsEncoded | formpackage/canonical.go:222-229 | what the rune decoder reads is a scalar value and its only encoding |
| StrictGrammar.EncodedIsDecoded | formpackage/canonical.go:222-229 | and it reads every encoded scalar value, whatever follows |
| StrictGrammar.DecodedIsFaithful | formpackage/canonical.go:134-137 | decoded names are equal only when they mean the same characters, however each is escaped |
| StrictParser.Parser.SkipWhitespace | formpackage/canonical.go:331-340 | whitespace is consumed and nothing else, up to the first other byte |
| StrictParser.Parser.ParseHexCodeUnit | formpackage/canonical.go:261-271 | exactly four hexadecimal digits are consumed, and refused exactly when they do not stand there |
| StrictParser.Parser.ParseUnicodeEscape | formpackage/canonical.go:235-259 | accepts exactly the unit escapes and paired surrogates, with their meaning |
| StrictParser.Parser.ParseString | formpackage/canonical.go:180-233 | accepts exactly the well-formed strings and returns the bytes they decode to |
| StrictParser.Parser.ParseNumber | formpackage/canonical.go:281-329 | accepts exactly the numbers of the grammar whose value is finite and no negative zero |
| StrictParser.Parser.ParseValue | formpackage/canonical.go:92-114 | consumes one value, makes progress and restores the depth; it accepts whenever a value of the grammar stands there |
| StrictParser.Parser.ParseArray | formpackage/canonical.go:155-178 | the same for arrays, one level deeper |
| StrictParser.Parser.ParseObject | formpackage/canonical.go:116-153 | the same for objects, with pairwise distinct decoded names |
| StrictParser.Parser.ParseDocument | formpackage/canonical.go:80-90 | the whole text is one value with whitespace around it |
| StrictParser.Accepts | formpackage/canonical.go:30-37 | a text is accepted if and only if it is a document of RFC 8259 with distinct decoded names, paired surrogates, representable numbers and at most 256 nested containers |
| StrictSpelling.EscapeMeans | formpackage/canonical.go:235-259 | the escape computed from a code point, four digits or a surrogate pair in either case, is well formed and means that code point, for every scalar value |
| StrictSpelling.ReadEscape | formpackage/canonical.go:180-259 | the parser reads that escape as the UTF-8 bytes of the code point |
| StrictSpelling.ShortEscapes | formpackage/canonical.go:205-228 | the eight short escapes and the code points they stand for |
| StrictSpelling.EscapedTwinIsRefused | formpackage/canonical.go:134-137 | an object with a member named by an escape and another named by the character itself is refused |
| StrictSpelling.DocumentsNestWithin256 | formpackage/canonical.go:116-125 | a document is a value that is well formed at some depth and nests at most 256 containers |
| Base32.RoundTrip | formpackage/publication_identity.go:207-209 | every byte string survives unpadded base32 (RFC 4648, section 6) |
| PublicationIdentity.ReleaseIdIff | formpackage/publication_identity.go:235-252 | a release ID decodes to a kind if and only if it is what the encoder writes for that kind |
| PublicationIdentity.ReleaseIdsAreInjective | formpackage/publication_identity.go:207-209 | no two kinds share a release ID |
| PublicationIdentity.FamilyIdsRoundTrip | formpackage/publication_identity.go:194-233 | a family release ID gives back its group and kind, a central one is no family, and the two never coincide |
| PublicationIdentity.FamilyLaneIff | formpackage/publication_identity.go:129-138 | the lane read from a decoded family name is the versioned one if and only if the group, or the kind, holds a slash |
| PublicationIdentity.LocatorRoundTrip | formpackage/publication_identity.go:33-67 | a locator's tag, parsed under its own package version, gives the same locator if and only if the index is one that lane describes, in all five lanes; otherwise it is refused |
| PublicationIdentity.ParsedTagIsCanonical | formpackage/publication_identity.go:148-181 | whatever is parsed from a tag writes that tag again |
| PublicationIdentity.CentralTagsAreShared | formpackage/publication_identity.go:108-128 | the two central content-addressed lanes write the same tag, and that tag alone is refused |
| PublicationIdentity.TagsDoNotCollide | formpackage/publication_identity.go:33-67 | apart from that pair, packages with equal tags have the same lane, kind, group and artifact |
| PublicationRules.GroupsAreNumbers | formpackage/publication_identity.go:207-209 | eight letters are the base-32 digits of the number whose base-256 digits are the five bytes |
| PublicationRules.PublishedExamples | formpackage/publication_identity.go:207-209 | the examples of RFC 4648, section 10, without padding |
| PublicationRules.VersionIff | formpackage/publication_identity.go:10-13 | the version pattern accepts exactly three decimals, an optional pre-release and an optional build, spelled as Semantic Versioning 2.0.0 has them |
| PublicationRules.LocatedIff | formpackage/publication_identity.go:33-67 | which packages have a locator in each of the five lanes, and its literal tag, artifact and release name |
| PublicationRules.ParsedIff | formpackage/publication_identity.go:108-146 | a tag tells its own lane if and only if it carries a plain kind with a version or a family name with a digest, and it is read as that |

## Left out

- Materialization.NormalForm: requires `TagStable`; without it two documents may select different branches and still agree, which `EffectiveDocuments.NormalFormIff` covers exactly. `Materialization.MaterializeIdempotent` has the same condition, and `EffectiveDocuments.IdempotentIff` the exact one.
- SnapshotClosure.RequirementsMeetTheirBinding: that the Definition check admits no NUL in accepted Binding names is a hypothesis on the schema library, read off its published pattern.
- AnnotationReach.CollectedIffReachable: requires NUL-free collected binding names, which is sufficient and not necessary, because two names that could collide may never be jumped under together.
- PortableStructure.GuardFixture: requires an accepted schema, as the package verifier guarantees before it guards a fixture; cycles and bad references are therefore not reached.
- SnapshotOrder.OrderIndependence: where the Forms are not comparable it promises the same graph and diagnostics but not the same order and digest, because the code does not.
- SnapshotCompiler.Compile: decoding, schema validation, canonical bytes, digests and the wording of messages are functions of a `Library` value.
- InstanceWork.EvaluationCostBound: counts one evaluation for each application of a subschema, which is how the estimator counts; time spent inside one assertion is not modelled.
- AdmissionSoundness.AcceptedInstancesAreGoverned: assertion keywords other than type, const, enum, bounds of `contains` and the applicators are an uninterpreted predicate that can only refuse; which names `patternProperties` matches is uninterpreted too, and so is what its subschemas refuse.
- StrictParser.Accepts: reading a numeral as a binary64 number is a parameter; the check that the input is valid UTF-8, made before parsing, is implied by the grammar.
- PublicationIdentity.LocatorRoundTrip: Unicode case mapping is a parameter that agrees with the letterwise mapping on ASCII, the group pattern a parameter that refuses the empty group, and path joining a parameter.
- Error texts: accept or reject, or a diagnostic code with subject and pointer, is kept; wording is a function of the cause.
- Locations in error messages: the prefix that tells a desired schema from the others is a flag of the field-name policy.
- Forbidden-field word lists and reviewed exceptions: two predicates that only add rejections.
- `sort.Slice`: an insertion sort stands for it; by uniqueness any sort gives the same where the order is total.
- RFC 8785 canonical bytes and SHA-256: functions, with collision-freedom as a hypothesis where digests are compared.
- Reading of semantic versions: a function; its precedence is modelled.
- `hasUnescapedRegexSuffix` and the parsing of regular expressions: the anchor analysis starts from a parsed expression.
- Publisher policy and signature verification of checkpoints; only the unsigned extension and the revocation answer are modelled.
- Package verification on disk, staging, transport, discovery, uploads, retries and timers.
- Returned copies: the model is built on values, so it does not show that callers cannot change a snapshot through a returned slice.
- Asynchronous operations of the host: deletes and observations are answered at once.
