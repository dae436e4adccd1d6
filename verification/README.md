# Evidence pipeline verification

A Dafny model of the deterministic parts of the Assay evidence pipeline, with proofs about them.
Most results relate several programs or a whole run.

**Evidence bundles** (`JsonValues`, `JsonText`, `JsonReader`, `JsonRoundTrip`, `JsonBytes`, `CanonicalJson`, `Utf8`,
`EvidenceBundle`, `BundleVerification`, `BundleContents`).
Payload records become events. Each event has a content hash over its canonical JSON. The events become
lines of `events.ndjson`, the content hashes become `run_root`, and the manifest commits to the stored
bytes. The model has the printer in its two layouts, `json.loads` on integer-valued documents and its
exact forms, the bundle builder with its two fault
flags, and the documented order of integrity checks. SHA-256 is the parameter `sha`. No result assumes
that it is collision-free: a conclusion about digests says "or these two messages collide".

**Mapper values** (`PythonValues`, `BoundedStruct`, `PythonText`). The mapper's normalisation of Python
values before hashing, and its depth-bounded validator.

**The proof pack** (`PrettyJson`, `ProofPack`, `Decimal`). A manifest that records the size of the
directory that contains it, written in a loop until the size stops changing.

**Runner diffs** (`RunnerEvidence`, `CategoryDiffs`, `CapabilityDiffs`, `WorkDirPaths`,
`CrossRuntimeDiffs`, `CrossRuntimeValidation`, `SdkMetadata`). The two projectors over runner evidence,
their path canonicalisation, their status rules and their validators.

**The coverage chain** (`CoverageAnnotation`, `DriftAnnotator`, `ClaimsGate`, `FleetSummary`,
`CoverageChain`). Three programs over the same claim cells, and what holds of them together. The
descriptor table is a parameter.

**The conformance pack checker** (`PackWalk`, `PackPaths`, `PackChecksums`, `DefinitionList`, `DefinitionTrace`,
`DefinitionText`).
The worklist walk over the pack directory, the checksum list, and the HTML definition-list extractor.

**Span ids and sweep workers** (`SpanRefs`, `SpanRecords`, `SweepWorkers`). First-seen renaming of span
ids, and the strided workers as a state machine under any interleaving.

Five properties that a reader might expect do not hold of the code as it stands. Each is stated with
the exact condition and an input that fails.

- Splitting the events file at line feeds gives the event lines back exactly when there is at least one
  payload: an empty list is stored as one empty line (`EventLinesRecovered`, `VerdictOnEmptyBundle`).
- The size loop settles exactly from starting sizes up to a limit. A directory without a manifest is
  always within it and settles by the fourth pass; every payload has a left-over manifest that is not
  (`SettlesExactly`, `NoPassCountIsEnough`). The limit is of mathematical interest only: with c bytes
  besides the size's digits, four passes are enough from every start below ten to the 9c, and
  `build_manifest` removes the directory before it starts.
- Merging two published fleet summaries is the published summary of all runs exactly when both fleets
  have runs or both published floors are `missing` (`MergePublished`, `MergeWithEmptyFleet`).
- Canonicalising a path again under a different prefix changes nothing exactly when the path was under
  the first prefix or is not under the second (`CanonicalizeAgain`, `SecondPrefixApplies`).
- The changed decisions of two consecutive diffs determine those over both exactly when no shared id
  changed its decision while it was gone in between; with such an id no rule can recover them
  (`ChangesCompose`, `NoRuleComposes`, `ChangeWhileGone`).

Python quirks that matter are kept: `False == 0` in the health and scope comparisons, the last entry
winning when two dict keys have the same text, and `.pyc` having no suffix.

## Model

| member | source | states |
|---|---|---|
| `CanonicalJson.RoundTrip` | conformance/privileged-mcp-action-v0/gen_vectors.py:63-66 | `json.loads` of the canonical text of any value gives back that value |
| `CanonicalJson.CanonicalExact` | conformance/privileged-mcp-action-v0/gen_vectors.py:63-66 | of all the texts that read as a value, the printed one is the only one that a reader of the compact layout takes: names in increasing order, no blanks, only what must be escaped escaped and in its short form, no leading zeros and no minus zero |
| `JsonRoundTrip.ExactRoundTrip` | conformance/privileged-mcp-action-v0/gen_vectors.py:63-66 | for both layouts, the exact reader reads a text as a value if and only if the text is what is printed for the value |
| `JsonRoundTrip.RoundTrip` | scripts/ci/assay_runner_delegated_proof_pack.py:354-355 | for both layouts, the loose reader reads back what was printed, with blanks after it or not |
| `Lexicographic.LessExact` | conformance/privileged-mcp-action-v0/gen_vectors.py:64-64 | the order of names: a proper prefix, or the smaller code point at the first difference |
| `CanonicalJson.PrintIdentifies` | conformance/privileged-mcp-action-v0/gen_vectors.py:63-66 | two values print the same text exactly when they are equal; member order cannot matter |
| `CanonicalJson.PrintPrintable` | conformance/privileged-mcp-action-v0/gen_vectors.py:63-66 | no canonical text holds a raw control character |
| `Utf8.Injective` | conformance/privileged-mcp-action-v0/gen_vectors.py:63-66 | different texts have different UTF-8 bytes |
| `Utf8.SplitTerminated` | conformance/privileged-mcp-action-v0/gen_vectors.py:156-158 | lines without line feeds are recovered from their concatenation with line feeds |
| `EvidenceBundle.JsonLine` | conformance/privileged-mcp-action-v0/gen_vectors.py:63-66 | the canonical bytes of a value hold no line feed |
| `EvidenceBundle.JcsInjective` | conformance/privileged-mcp-action-v0/gen_vectors.py:63-66 | different values have different canonical bytes |
| `EvidenceBundle.BundleBytes` | conformance/privileged-mcp-action-v0/gen_vectors.py:146-191 | the builder's loops give the manifest and events of the specified bundle, for every payload list and both fault flags, and raise exactly when a payload has no schema |
| `BundleContents.EventReadBack` | conformance/privileged-mcp-action-v0/gen_vectors.py:119-143 | every line of an untampered bundle reads back to an object with exactly the fifteen names: what the payload, the run and the place give, the fixed source, time, git and flag values, and as producer the name and version that the manifest carries |
| `BundleContents.ManifestReadBack` | conformance/privileged-mcp-action-v0/gen_vectors.py:159-184 | the manifest reads back with exactly its eight names: the generator as producer, the algorithms, the one file with its digest and length, and the run's id, count and root, with the bundle id equal to the root or to the zero digest |
| `BundleContents.TamperedText` | conformance/privileged-mcp-action-v0/gen_vectors.py:187-191 | the bytes replaced are those of the quoted agent name, and their replacement differs in the last letter |
| `EvidenceBundle.EventLinesRecovered` | conformance/privileged-mcp-action-v0/gen_vectors.py:153-155 | splitting the events file gives exactly the event lines, in order, if and only if the payload list is not empty |
| `EvidenceBundle.RootInputInjective` | conformance/privileged-mcp-action-v0/gen_vectors.py:156-158 | the text hashed into a root decodes to one list of content hashes only |
| `EvidenceBundle.RootIdentifies` | conformance/privileged-mcp-action-v0/gen_vectors.py:156-158 | equal roots over two lists of hashed values mean equal lists, or two of the hashed messages collide |
| `EvidenceBundle.RunRootIdentifies` | conformance/privileged-mcp-action-v0/gen_vectors.py:119-158 | equal run roots mean equal ordered payload lists, whatever the run ids, or two of the hashed messages collide; equal payload lists have equal roots |
| `EvidenceBundle.ReplaceFirstExact` | conformance/privileged-mcp-action-v0/gen_vectors.py:187-191 | replacing puts the new bytes in place of the first occurrence and leaves all others as they are |
| `EvidenceBundle.ReplaceFirstChanges` | conformance/privileged-mcp-action-v0/gen_vectors.py:187-191 | replacing the first occurrence by another text of the same length changes the bytes exactly when there is an occurrence |
| `EvidenceBundle.TamperKeepsLength` | conformance/privileged-mcp-action-v0/gen_vectors.py:187-191 | tampering keeps the file's length, and changes it exactly when the quoted agent name occurs |
| `BundleVerification.ReadJcs` | docs/profiles/privileged-mcp-action/v0.md:117-119 | `json.loads` of canonical bytes gives the value that was written |
| `BundleVerification.LoadReadsCanonical` | docs/profiles/privileged-mcp-action/v0.md:117-119 | so `json.loads` is one of the readers for which the verdicts below hold: any that reads canonical bytes back, however lenient it is on others |
| `BundleVerification.VerdictOnBuiltBundle` | conformance/privileged-mcp-action-v0/gen_vectors.py:146-186 | whatever such reader the verifier uses, every check on an unchanged bundle recomputes the manifest's value and passes; with the mismatch flag all but the last still pass, and the last fails unless the root is the zero digest; a changed file digest is found first |
| `BundleVerification.VerdictOnEmptyBundle` | conformance/privileged-mcp-action-v0/gen_vectors.py:153-155 | a bundle of no payloads is never accepted, because its one empty line is not an event |
| `BundleVerification.TamperDetection` | conformance/privileged-mcp-action-v0/gen_vectors.py:187-191 | an untampered bundle passes; a tampered one is refused by its file digest exactly when the agent name occurs, or the two files collide |
| `BundleVerification.BundleIdIdentifies` | docs/profiles/privileged-mcp-action/v0.md:121-138 | for any reader at all, two bundles that both pass, however they were made, and carry the same bundle id hold the same specversion, type, datacontenttype, subject and data in the same order, or two hashed messages collide |
| `PythonValues.EntriesMeaning` | examples/vercel-ai-uimessage-evidence/map_to_assay.py:99-100 | a dict normalises exactly when all its values do, to the set of its key texts, each with the value of the last entry with that text |
| `PythonValues.EntryOrderIrrelevant` | examples/vercel-ai-uimessage-evidence/map_to_assay.py:99-100 | reordering a dict with distinct key texts changes neither whether it normalises nor what it normalises to, whatever its values are |
| `PythonValues.NormalizeIdempotent` | examples/vercel-ai-uimessage-evidence/map_to_assay.py:90-119 | normalising twice equals normalising once, and the canonical text does not change |
| `PythonValues.TextIdentifies` | examples/vercel-ai-uimessage-evidence/map_to_assay.py:90-119 | two values that normalise have the same canonical text exactly when they are alike at every depth: numbers by their integer, lists and tuples item by item, dicts by the last value of each key text in any order |
| `PythonValues.TidyTextIdentifies` | examples/vercel-ai-uimessage-evidence/map_to_assay.py:81-119 | on values without repeated key texts, being alike is exactly both having a canonical text, and the same one |
| `BoundedStruct.ValidateBoundedStruct` | examples/vercel-ai-uimessage-evidence/map_to_assay.py:163-193 | accepts exactly the values whose every node is allowed and lies within the depth limit, and returns them unchanged |
| `BoundedStruct.ValidateList` | examples/vercel-ai-uimessage-evidence/map_to_assay.py:174-180 | the same for a list, item by item |
| `BoundedStruct.ValidateDict` | examples/vercel-ai-uimessage-evidence/map_to_assay.py:181-192 | the same for a dict, with its key rules |
| `BoundedStruct.AcceptedSize` | examples/vercel-ai-uimessage-evidence/map_to_assay.py:163-193 | no accepted value has more than 43 nodes, and one has exactly 43 |
| `BoundedStruct.AcceptedHashable` | examples/vercel-ai-uimessage-evidence/map_to_assay.py:108-119 | whatever the validator accepts has a canonical text |
| `PrettyJson.RoundTrip` | scripts/ci/assay_runner_delegated_proof_pack.py:354-355 | `json.loads` of the indented text and its line feed gives the value back |
| `PrettyJson.PrettyExact` | scripts/ci/assay_runner_delegated_proof_pack.py:354-354 | of all the texts that read as a value, the printed one is the only one with names in increasing order, every item and member on its own line indented by two blanks a level, and every character outside printable ASCII escaped |
| `PrettyJson.MemberLength` | scripts/ci/assay_runner_delegated_proof_pack.py:354-355 | replacing one member changes the indented text's length by the difference of the two members' texts |
| `ProofPack.TotalSizeSplit` | scripts/ci/assay_runner_delegated_proof_pack.py:346-347 | a directory's size is one file's size plus that of the rest, whichever file is taken |
| `ProofPack.TotalSizeListed` | scripts/ci/assay_runner_delegated_proof_pack.py:346-347 | in whatever order the files are listed, the size is the sum over them, each taken once |
| `ProofPack.ManifestSize` | scripts/ci/assay_runner_delegated_proof_pack.py:350-356 | the stored manifest takes a fixed length plus the number of digits of the recorded size |
| `ProofPack.SettlesExactly` | scripts/ci/assay_runner_delegated_proof_pack.py:350-359 | four passes or more settle from a starting size exactly up to a limit: the greatest stable size for one pass, and one less than ten to the digits allowed before for each pass more |
| `ProofPack.ShrinksAbove` | scripts/ci/assay_runner_delegated_proof_pack.py:353-357 | above the greatest stable size every pass makes the size smaller and never jumps below it |
| `ProofPack.FreshDirectorySettles` | scripts/ci/assay_runner_delegated_proof_pack.py:350-359 | from a directory without a manifest it always settles within four passes |
| `ProofPack.NoPassCountIsEnough` | scripts/ci/assay_runner_delegated_proof_pack.py:352-359 | for every payload, manifest and number of passes there is a directory with a left-over manifest from which that many passes do not settle |
| `ProofPack.Pack.RecordSize` | scripts/ci/assay_runner_delegated_proof_pack.py:353-356 | one pass records the present size, rewrites only the manifest, and gives the next size of the iteration |
| `ProofPack.Pack.WriteManifest` | scripts/ci/assay_runner_delegated_proof_pack.py:350-359 | succeeds exactly when the directory's starting size is at most the limit of ten passes, after the first pass that settles it; on return the recorded size is the directory's size, nothing else changed, and reading manifest.json gives back the manifest; a directory without a manifest succeeds by the fourth pass with the least consistent size |
| `ProofPack.Pack.Seal` | scripts/ci/assay_runner_delegated_proof_pack.py:455-457 | after the checksum file is written the directory exceeds the size recorded in the stored manifest by exactly that file |
| `RunnerEvidence.BindingIdsSet` | scripts/ci/assay_runner_cross_runtime_diff_validate.py:177-191 | returns exactly the binding ids, and raises exactly when a binding is malformed, has no stable id or repeats one |
| `RunnerEvidence.ReadBindingMap` | scripts/ci/assay_runner_capability_diff_validate.py:89-106 | returns the map from each binding id to its decision, and raises exactly when a binding or a decision is not readable |
| `RunnerEvidence.ReadBinding` | scripts/ci/assay_runner_capability_diff_validate.py:95-105 | one binding is added with its decision exactly when it is an object with a non-empty id that is new and a decision that is a string or null |
| `RunnerEvidence.CheckEvidence` | scripts/ci/assay_runner_capability_diff_validate.py:74-86 | the schema, run id and list checks pass exactly on readable evidence |
| `RunnerEvidence.DecisionsExact` | scripts/ci/assay_runner_capability_diff_validate.py:89-106 | an id has a decision in the map exactly when some binding of the report has both |
| `RunnerEvidence.ZeroExact` | scripts/ci/assay_runner_capability_diff_validate.py:113-113 | the drop count passes exactly when Python takes it to equal zero |
| `CategoryDiffs.DiffPartitions` | scripts/ci/assay_runner_capability_diff_validate.py:130-135 | the three lists are strictly sorted and pairwise disjoint; removed and kept make up the base, added and kept the head |
| `CategoryDiffs.DiffAlgebra` | scripts/ci/assay_runner_cross_runtime_diff_validate.py:309-314 | applying a diff to the base gives the head, swapping sides swaps added and removed, and base to mid composed with mid to head is base to head |
| `CapabilityDiffs.PolicyChanges` | scripts/ci/assay_runner_capability_diff_validate.py:183-194 | the loop lists, in id order, every shared id whose decision differs, with both decisions |
| `CapabilityDiffs.OverwriteGivesHead` | scripts/ci/assay_runner_capability_diff_validate.py:183-194 | overwriting the base decisions with the changes gives the head decisions on all shared ids and leaves the others |
| `CapabilityDiffs.ProjectCapabilityDiff` | scripts/ci/assay_runner_capability_diff_validate.py:138-253 | the projector's checks and loops give the specified diff for every pair of evidence sets, or raise |
| `CapabilityDiffs.SectionsExact` | scripts/ci/assay_runner_capability_diff_validate.py:130-181 | a string is added, removed or kept exactly as it stands in the lists of the head's and the base's evidence |
| `CapabilityDiffs.BindingsExact` | scripts/ci/assay_runner_capability_diff_validate.py:169-253 | the run ids, the binding sections and every change, in terms of the bindings and decisions that the reports list |
| `CapabilityDiffs.ProjectedApplies` | scripts/ci/assay_runner_capability_diff_validate.py:169-253 | the head's surface sets, binding ids and shared decisions are the base's with the diff applied |
| `CapabilityDiffs.ProjectedComposes` | scripts/ci/assay_runner_capability_diff_validate.py:169-253 | the diffs base to mid and mid to head determine every section and the binding ids of the diff base to head, and the changed decisions exactly when no shared id changed while it was gone in mid |
| `CapabilityDiffs.ChangesCompose` | scripts/ci/assay_runner_capability_diff_validate.py:183-194 | linking the changes of two steps gives the changes over both exactly under that condition |
| `CapabilityDiffs.NoRuleComposes` | scripts/ci/assay_runner_capability_diff_validate.py:183-194 | with such an id no rule whatever over the changes and binding ids of the two steps is right: it fails for this head or for another with the same ids |
| `CapabilityDiffs.HiddenUndetermined` | scripts/ci/assay_runner_capability_diff_validate.py:183-194 | a head that keeps the base's decision on that id gives the same second step and other changes over both |
| `CapabilityDiffs.ChangeWhileGone` | scripts/ci/assay_runner_capability_diff_validate.py:183-194 | an id allowed before, gone in between and denied after, whose change two steps do not show |
| `CapabilityDiffs.IdempotenceExact` | scripts/ci/assay_runner_capability_diff_validate.py:220-286 | the idempotence note appears, and the idempotence validator accepts, exactly when the status is clean, the surface lists hold the same strings and the decision maps are equal; such diffs are also policy consistent |
| `CapabilityDiffs.PolicyConsistencyExact` | scripts/ci/assay_runner_capability_diff_validate.py:256-268 | the policy check rejects exactly the pairs with equal decision maps and different strings in their policy decision lists |
| `CapabilityDiffs.ProjectSwap` | scripts/ci/assay_runner_capability_diff_validate.py:138-253 | swapping base and head keeps the status, swaps every section and the binding ids, and swaps both decisions in every change |
| `WorkDirPaths.CanonicalizeAgain` | scripts/ci/assay_runner_cross_runtime_diff_validate.py:278-301 | canonicalising again under another accepted prefix changes nothing exactly when the path was under the first prefix or is not under the second |
| `WorkDirPaths.CanonicalizeExamples` | scripts/ci/assay_runner_cross_runtime_diff_validate.py:288-297 | a path under the work directory gets the placeholder, one that only shares its beginning does not |
| `WorkDirPaths.NormalizePrefix` | scripts/ci/assay_runner_cross_runtime_diff_validate.py:278-285 | accepts exactly the absolute prefixes that end with a slash |
| `WorkDirPaths.SecondPrefixApplies` | scripts/ci/assay_runner_cross_runtime_diff_validate.py:288-301 | a path of the second work directory that canonicalising under another prefix first does not protect |
| `WorkDirPaths.CanonicalizeCollision` | scripts/ci/assay_runner_cross_runtime_diff_validate.py:288-301 | exactly which two paths get the same canonical form; on absolute paths canonicalisation is injective |
| `WorkDirPaths.RelocateInvariant` | scripts/ci/assay_runner_cross_runtime_diff_validate.py:278-301 | moving a path to a new prefix keeps its canonical form exactly when it was under the old prefix or is not under the new one |
| `CrossRuntimeDiffs.ProjectCrossRuntimeDiff` | scripts/ci/assay_runner_cross_runtime_diff_validate.py:322-453 | the projector accepts exactly the specified pairs of sides and returns the specified diff |
| `CrossRuntimeDiffs.ReadSide` | scripts/ci/assay_runner_cross_runtime_diff_validate.py:337-381 | one side's checks pass exactly when the side is acceptable, and give its binding ids |
| `CrossRuntimeDiffs.DiffSurface` | scripts/ci/assay_runner_cross_runtime_diff_validate.py:382-396 | one section for each category, the paths canonicalised and the others, from the loop, as they are |
| `CrossRuntimeDiffs.SectionsExact` | scripts/ci/assay_runner_cross_runtime_diff_validate.py:382-396 | a string is added, removed or kept exactly as the lists of the head's and the base's evidence show it, for paths as the canonical form of one that stands there |
| `CrossRuntimeDiffs.ProjectedApplies` | scripts/ci/assay_runner_cross_runtime_diff_validate.py:374-453 | the head's canonical values are the base's with the diff applied, and runtimes and SDK pairs stand on their own side |
| `CrossRuntimeDiffs.ProjectSwap` | scripts/ci/assay_runner_cross_runtime_diff_validate.py:322-453 | swapping the sides keeps the status and swaps every section |
| `CrossRuntimeDiffs.ProjectedComposes` | scripts/ci/assay_runner_cross_runtime_diff_validate.py:322-453 | the sections of two consecutive comparisons compose to those of the outer sides, which the projector itself refuses because they share a runtime |
| `CrossRuntimeDiffs.RelocationInvariant` | scripts/ci/assay_runner_cross_runtime_diff_validate.py:382-396 | moving each side's work directory to any accepted prefix that no outside path starts with leaves the whole result unchanged |
| `CrossRuntimeDiffs.RelocatedInPlace` | scripts/ci/assay_runner_cross_runtime_diff_validate.py:278-301 | moving a side to its own prefix changes nothing and always has room, so one side can be moved alone |
| `CrossRuntimeDiffs.ProjectorsAgree` | scripts/ci/assay_runner_cross_runtime_diff_validate.py:374-417 | when both projectors accept, their separate tests of health, correlation and ids give the same status and the same six shared preconditions, and the surface sections agree once paths are canonicalised |
| `CrossRuntimeValidation.ProjectorMeetsValidator` | scripts/ci/assay_runner_cross_runtime_diff_validate.py:461-651 | a projected diff passes the structural validator exactly when both SDK pairs are well formed and none of their strings is an observed value |
| `CrossRuntimeValidation.CleanValidatorExact` | scripts/ci/assay_runner_cross_runtime_diff_validate.py:654-672 | on a structurally valid projection the clean validator accepts exactly the clean status, which is exactly when all seven preconditions are true |
| `CrossRuntimeValidation.SidesInObject` | scripts/ci/assay_runner_cross_runtime_diff_validate.py:419-453 | in the returned object each side's run id, runtime and SDK pair stand under that side's names |
| `CrossRuntimeValidation.ScopeExact` | scripts/ci/assay_runner_cross_runtime_diff_validate.py:530-536 | the scope passes exactly when it equals, in Python's sense, the one that the projector writes |
| `CrossRuntimeValidation.CheckCanonicalization` | scripts/ci/assay_runner_cross_runtime_diff_validate.py:538-552 | the loop accepts exactly the objects that name the path rule for paths and none for every other category |
| `CrossRuntimeValidation.CheckPreconditions` | scripts/ci/assay_runner_cross_runtime_diff_validate.py:508-528 | the loop accepts exactly the objects with the seven names, each a boolean |
| `CrossRuntimeValidation.CheckList` | scripts/ci/assay_runner_cross_runtime_diff_validate.py:559-580 | comparing a list with the sorted list of its values accepts exactly the lists of strings in order without duplicates |
| `CrossRuntimeValidation.ValidateDiffStructure` | scripts/ci/assay_runner_cross_runtime_diff_validate.py:461-651 | the checking loops accept exactly the structurally valid objects, whatever object they are given |
| `CrossRuntimeValidation.ValidateCleanDiff` | scripts/ci/assay_runner_cross_runtime_diff_validate.py:654-672 | accepts exactly the structurally valid objects with a clean status and seven true preconditions |
| `SdkMetadata.ParseSdkMetadata` | scripts/ci/assay_runner_cross_runtime_diff_validate.py:220-262 | returns exactly when every line is well formed and all agree on one SDK pair, and then the pair is valid for the validator |
| `SdkMetadata.ReadPair` | scripts/ci/assay_runner_cross_runtime_diff_validate.py:230-249 | one line raises exactly when it is not well formed, and adds its pair exactly when it is an SDK event that carries both names |
| `DriftAnnotator.AnnotateRow` | examples/coverage-aware-drift-annotation/annotate_drift.py:109-244 | one row's branches append the specified cells, blocked claims and caveats, and fail exactly when the table lacks the row's descriptor |
| `DriftAnnotator.Annotate` | examples/coverage-aware-drift-annotation/annotate_drift.py:95-262 | the loop over rows gives the specified annotation, and raises exactly when the report is not a drift report or a row is not described |
| `DriftAnnotator.CellsExact` | examples/coverage-aware-drift-annotation/annotate_drift.py:109-224 | a cell stands in an annotation exactly when some row with something observed yields it: one partial cell for a reported dimension, a partial and a derived one for a measured dimension, the latter weak unless the descriptor is complete |
| `DriftAnnotator.BlockedExact` | examples/coverage-aware-drift-annotation/annotate_drift.py:226-239 | exactly the dimensions with a measured row have their bounded negative blocked |
| `DriftAnnotator.CaveatsExact` | examples/coverage-aware-drift-annotation/annotate_drift.py:243-254 | a caveat stands exactly for each measured row that is classified as task-induced |
| `ClaimsGate.SpecExact` | examples/coverage-claims-gate/check_claims.py:91-104 | a spec parses to a claim exactly when it is one of the three types and a non-empty dimension on the two sides of its first colon, with white space around each or not; otherwise it raises |
| `ClaimsGate.SpecRoundTrip` | examples/coverage-claims-gate/check_claims.py:91-104 | a type, a colon and a dimension with any white space around both parse to that claim |
| `ClaimsGate.SpecRaises` | examples/coverage-claims-gate/check_claims.py:93-103 | a spec without a colon, of another type or with a blank dimension raises |
| `PythonText.StripExact` | examples/coverage-claims-gate/check_claims.py:96-97 | stripping takes away all outer white space and nothing else |
| `ClaimsGate.Gate` | examples/coverage-claims-gate/check_claims.py:107-125 | for each spec in order the claim it says and whether that is permitted, passed exactly when all are; raises exactly on another schema or a spec that says no claim |
| `FleetSummary.CountPositive` | examples/coverage-fleet-summary/aggregate_coverage.py:87-102 | one run adds one to one positive counter and keeps the floor the weakest seen |
| `FleetSummary.CountExhaustive` | examples/coverage-fleet-summary/aggregate_coverage.py:104-112 | one run adds one to one exhaustive counter, the missing one when there is no cell or an unknown strength |
| `FleetSummary.FoldDimensions` | examples/coverage-fleet-summary/aggregate_coverage.py:86-115 | one more annotation takes every dimension from the counters of the first runs to those of one run more |
| `FleetSummary.Fold` | examples/coverage-fleet-summary/aggregate_coverage.py:76-126 | the two loops give, for each dimension, the histogram of the multiset of levels, the blocked count and the weakest level; raises exactly on an annotation of another schema |
| `CoverageChain.PositivePermitted` | examples/coverage-claims-gate/check_claims.py:45-88 | on annotator output, for every report and table, `positive` is permitted exactly when the dimension is measured and some row of it is not empty |
| `CoverageChain.ExhaustivePermitted` | examples/coverage-aware-drift-annotation/annotate_drift.py:82-262 | `exhaustive` additionally needs a descriptor with full completeness and no blind spots |
| `CoverageChain.SeedNeverExhaustive` | examples/coverage-aware-drift-annotation/annotate_drift.py:34-92 | with the seed table every drift report can be annotated and `exhaustive` is never permitted |
| `CoverageChain.BoundedNegativePermitted` | examples/coverage-claims-gate/check_claims.py:45-88 | `bounded_negative` is permitted exactly when the dimension is measured and the report has no row for it |
| `CoverageChain.CheckReport` | examples/coverage-claims-gate/check_claims.py:107-125 | annotating a report and gating a list of specs gives, for each spec as written, exactly what the report's rows and the descriptor table support |
| `CoverageChain.FleetAgreesWithGate` | examples/coverage-fleet-summary/aggregate_coverage.py:76-126 | over any annotations the floor is partial or strong exactly when there are runs and the gate permits `positive` on each; the exhaustive partial count and the blocked count are the runs the gate permits or refuses |
| `CoverageChain.HistogramsConserveRuns` | examples/coverage-fleet-summary/aggregate_coverage.py:76-126 | both histograms sum to the run count, and the observed runs are those not missing |
| `CoverageChain.FoldOrderIrrelevant` | examples/coverage-fleet-summary/aggregate_coverage.py:76-126 | the summary does not depend on the order of the annotations |
| `CoverageChain.FoldConcat` | examples/coverage-fleet-summary/aggregate_coverage.py:76-126 | the counters of a concatenation are the merge of the counters of its parts |
| `CoverageChain.MergePublished` | examples/coverage-fleet-summary/aggregate_coverage.py:117-126 | merging two published summaries gives the published summary of all runs exactly when both fleets have runs or both published floors are missing |
| `CoverageChain.MergeWithEmptyFleet` | examples/coverage-fleet-summary/aggregate_coverage.py:117-126 | an empty fleet and one run with a partial cell, whose published summaries do not merge |
| `CoverageChain.FleetOfReports` | examples/coverage-fleet-summary/aggregate_coverage.py:49-126 | over annotator output the floor is partial or missing, and partial exactly when there are reports and each has a non-empty row of the dimension; the exhaustive count is the number of reports with such a row where the table is complete for the dimension and zero otherwise; the blocked count is the number of reports with any row |
| `PackWalk.VisitChild` | examples/mcp-jsonrpc-id-conformance/check.py:169-187 | one entry keeps the relation between worklist, files, count and tree, and refuses only trees that are not allowed |
| `PackWalk.PublicPackFiles` | examples/mcp-jsonrpc-id-conformance/check.py:161-190 | for every tree the worklist terminates, accepts exactly the trees the recursive definition allows within the entry limit, and returns exactly the public files |
| `PackWalk.OrderIrrelevant` | examples/mcp-jsonrpc-id-conformance/check.py:161-190 | listing any directory in another order changes neither the decision nor the files |
| `PackWalk.PublicNameExact` | examples/mcp-jsonrpc-id-conformance/check.py:185-186 | the hidden names are the checksum list's and those of a non-empty stem with a compiled file's ending |
| `PackPaths.FilesExact` | examples/mcp-jsonrpc-id-conformance/check.py:161-190 | the public files are the paths of exactly the regular files with public names that can be reached without passing through a skipped directory |
| `PackPaths.AllowedExact` | examples/mcp-jsonrpc-id-conformance/check.py:174-184 | a tree is allowed exactly when every entry so reached is not too deep, not a link and of a supported type |
| `PackChecksums.ReadDeclarations` | examples/mcp-jsonrpc-id-conformance/check.py:204-218 | returns the declared map, and raises exactly on a malformed line, a repeated path or a refused path |
| `PackChecksums.LineExact` | examples/mcp-jsonrpc-id-conformance/check.py:206-209 | a line declares a file exactly when it is 64 lower-case hexadecimal digits, two blanks and the path |
| `PackChecksums.CheckDigests` | examples/mcp-jsonrpc-id-conformance/check.py:222-225 | accepts exactly when the declared digests are those of the files and every file is within the size limit |
| `PackChecksums.ValidateChecksums` | examples/mcp-jsonrpc-id-conformance/check.py:193-225 | accepts exactly when the lines parse without repeats, the tree is allowed within its limits, and the declared map equals the file-to-digest map |
| `PackChecksums.PathChecksRedundant` | examples/mcp-jsonrpc-id-conformance/check.py:210-217 | whenever the declared map is right, every declared path passes the path checks |
| `PackChecksums.PublicFileReadable` | examples/mcp-jsonrpc-id-conformance/check.py:161-190 | every public path of a tree leads back to a file of that tree and is an accepted path |
| `DefinitionList.DefinitionExtractor.HandleStartTag` | examples/mcp-jsonrpc-id-conformance/check.py:65-76 | after the event the fields are those that the whole list of events determines |
| `DefinitionList.DefinitionExtractor.HandleData` | examples/mcp-jsonrpc-id-conformance/check.py:78-82 | the same for character data |
| `DefinitionList.DefinitionExtractor.HandleEndTag` | examples/mcp-jsonrpc-id-conformance/check.py:84-98 | the same for an end tag |
| `DefinitionTrace.EmittedExactly` | examples/mcp-jsonrpc-id-conformance/check.py:52-98 | over every list of events, the definitions are exactly the descriptions that close while a term is pending, with that last closed term and the last closed heading |
| `DefinitionTrace.TermsUsedOnce` | examples/mcp-jsonrpc-id-conformance/check.py:84-98 | definitions come in order and no closed term feeds two of them |
| `DefinitionTrace.NoMoreThanTerms` | examples/mcp-jsonrpc-id-conformance/check.py:84-98 | definitions, with the term still pending, never outnumber the terms closed |
| `DefinitionText.NormalTextExact` | examples/mcp-jsonrpc-id-conformance/check.py:84-98 | the text of an element is the one text with the words of its parts, one blank between them and no other white space |
| `SpanRefs.Refs.SpanRef` | examples/openai-agents-trace-evidence/generate_synthetic_run.py:162-165 | keeps the dictionary a bijection from the seen ids to span_1 .. span_n in first-seen order, and returns the id's name in it |
| `SpanRefs.ValidInjective` | examples/openai-agents-trace-evidence/generate_synthetic_run.py:162-165 | two ids with the same reference are the same id |
| `SpanRefs.FirstName` | examples/openai-agents-trace-evidence/generate_synthetic_run.py:164-164 | names are counted from one |
| `SpanRefs.CanonExact` | examples/openai-agents-trace-evidence/generate_synthetic_run.py:162-165 | two id lists get the same references exactly when their ids are equal at the same places |
| `SpanRecords.NormalizeRecords` | examples/openai-agents-trace-evidence/generate_synthetic_run.py:247-298 | raises exactly on a wrong event count or an unsupported kind; otherwise each record is that of its event and place, member by member, names its ids by their first-seen place among all lookups, and says failed exactly when it ends with an error that is not a false value |
| `SpanRecords.BuildRecord` | examples/openai-agents-trace-evidence/generate_synthetic_run.py:168-244 | one event's record, and the dictionary's order extended by the ids the event looks up |
| `SpanRecords.LookUp` | examples/openai-agents-trace-evidence/generate_synthetic_run.py:222-225 | the span's own id is named before its parent's, and an empty or absent parent is not looked up |
| `SpanRecords.RecordsCanonical` | examples/openai-agents-trace-evidence/generate_synthetic_run.py:168-298 | two runs give the same records exactly when their events are of the same kinds with the same recorded content and parents at the same places, and their raw ids are equal at the same places |
| `SpanRecords.RenamingInvariant` | examples/openai-agents-trace-evidence/generate_synthetic_run.py:196-298 | renaming the raw ids by any map that keeps them apart and parents non-empty leaves the records unchanged |
| `SweepWorkers.Plan` | runner-fixtures/openai-agents/fixture-agent.js:75-81 | there is nothing to do exactly for no events; otherwise at least one worker, none without an index, and a payload of exactly the asked number of x's, at least one |
| `SweepWorkers.StepKeepsInv` | runner-fixtures/openai-agents/fixture-agent.js:86-90 | every step of every worker keeps what the log, the files and the loop indices say about each other |
| `SweepWorkers.RunKeepsInv` | runner-fixtures/openai-agents/fixture-agent.js:83-93 | so does every run from its start, and the log has one entry for each step |
| `SweepWorkers.RunProgress` | runner-fixtures/openai-agents/fixture-agent.js:83-93 | every run makes one access a step, never more than three for each event; it is finished exactly when it has made them all, which is exactly when no worker can go on |
| `SweepWorkers.ReadsSeePayload` | runner-fixtures/openai-agents/fixture-agent.js:86-89 | at every moment of every run each access is by the index's own worker, and whatever was read back was the payload |
| `SweepWorkers.SweepFinished` | runner-fixtures/openai-agents/fixture-agent.js:83-93 | a finished sweep opened, wrote and read back each index exactly once in that order by its one worker; each worker did what its loop does; each target holds the payload; other files are untouched |
| `SweepWorkers.TargetsDistinct` | runner-fixtures/openai-agents/fixture-agent.js:87-88 | no two indices share a file |
| `SweepWorkers.FileNameExample` | runner-fixtures/openai-agents/fixture-agent.js:87-87 | in a file name the worker comes before the index |

## Left out

- Tar, gzip, file and HTTP input and output, argument parsing and the `main` functions: only bytes, sizes and parsed values are modelled.
- The internals of SHA-256: it is a parameter of fixed output length.
- Lone surrogates: text is a sequence of Unicode scalar values.
- Texts of error messages, of claim details and of notes that do not decide anything: an error carries its exception class only.
- Non-integer numbers in evidence and bundle JSON, and Python's limit on the length of integer texts; the mapper's floats are modelled as reals or non-finite.
- Non-integer numbers and lone surrogates in the JSON reader: it is `json.loads` on documents without them, and refuses text that has them.
- The privileged-action profile semantics after the integrity checks: the verifier itself is not part of this model, and `Verify` follows the documented order of checks.
- Two-file allowlist, path safety and the manifest's `algorithms` block in `Verify`: the modelled bundle has exactly the two files.
- Failing writes and reads in the sweep: an operation that the file system refuses ends the original with an error.
- Decoding and line splitting of the checksum file: its lines are given, and a file that cannot be read or decoded is given as absent.
- Regex scanners and the extraction of constraints from specification sources: they would mostly model a regex library.
- `evaluate_message` and the counts of `reproduce`: small branch tables over one message, and a tally of their results.
- The other interop mappers, `report_from_archive.py` and `compose_attested.py`: they repeat the same canonical form or are small branch tables.
- The validator's acceptance of an object where the two fixed lists stand, which Python's `list` turns into its keys: the projector never produces one.
- Claim strengths that are not strings: the annotator never produces one.
- Constant members of the trace records (schema, framework, workflow and group names): they are determined by the scenario.
