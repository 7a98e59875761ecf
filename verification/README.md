# Verification of the Weave engine's core

This project models the parts of the Weave repository whose correctness no single function body
shows, and proves what they promise. It is a set of Dafny 4.11 modules; `dafny verify dfyconfig.toml`
checks all of them.

## What is modelled

* **Lazy cluster hierarchy** (`Orders`, `Forests`, `Levels`, `Runs`, `LevelOrder`, `Progress`,
  `Navigation`, `Hierarchies`, `Lineages`, `Overlaps`). `Hierarchies.Hierarchy` is a class with the fields of the
  Rust struct; `Advance` is proved to take exactly the step of the state machine in `Runs`, and the
  theorems are about every run of that machine. Cluster ids are an injective function of perspective,
  context and the sorted leaves.
* **Exact bounded decimals** (`Decimals`, `Divisibility`, `DecimalArithmetic`, `DecimalQuotient`,
  `DecimalText`, `DecimalParsing`, `DecimalPrinting`). The reference is `Decimals.Exactly(x)`: the
  unique normal decimal equal to a real number, or the reason there is none. Every operation is a
  loop over 128-bit and 32-bit newtypes proved equal to the reference for the exact result.
* **Restriction carriers** (`Restrictions`, `Carriers`, `Renaming`, `CarrierCosts`,
  `CarrierBudget`, `CarrierLaws`, `Explanations`, `CarrierExamples`). A carrier is an AND of flat references and an
  OR of ANDs. Pure functions give the value of each operation, and the methods of the class `Budget`
  are proved to succeed exactly when limits and budget allow and to take exactly the stated cost.
* **Graph-value algebra** (`GraphValues`, `GraphUnion`, `GraphKeys`, `GraphRenewal`, `GraphLaws`, `GraphDiff`,
  `GraphMarks`, `GraphSupport`, `GraphExamples`). Content keys are an injective function of the
  tuples the Rust code hashes, under its own prefixes.
* **Reference oracles** (`Distances`, `Components`, `LinearSystems`, `Pagerank`). In-place matrices
  and rows, with distances as optional naturals and linear algebra over exact reals.
* **Browser host worker** (`BrowserHost`, `DurableProtocol`). The class `Worker` has the worker's
  module variables and one method for each segment between awaits; `DurableProtocol` adds the durable
  store, the decision to commit or abort, and crashes at every point.
* **Strict context decoder** (`StrictContext`). The class `Strict` has the shared byte budget.

Digests and texts appear as function parameters that are assumed injective, and serialised sizes as
function parameters that are not constrained. Both assumptions have models: nothing bounds the length
of a digest.

## Where the code and the expectation differ

* Starting from no nodes, the evidence boundary still needs one call of `advance`; otherwise one call
  per node is enough (`Progress.BoundaryWithin`).
* `from_str` refuses more than 18 significant digits as too precise before it looks at the number of
  places, so the error can be `Precision` where the exact value also has too many places
  (`DecimalParsing.ParseExactly` states which texts are accepted, `DecimalParsing.TooManyDigits` that no
  such text is representable).
* `union` and `diff` look up a node by id in two ways, first match and last match, and preflight does
  not reject two nodes with one id. Three things follow; distinct node ids avoid all of them.
  * The key of a synthetic edge is not a fixed point when the two matches have different keys
    (`GraphRenewal.EdgeKeyExactly`). Union is then not idempotent, and it is associative and absorbing
    only when the members it changes are the same on both sides (`GraphLaws.UnionIdempotent`,
    `UnionAssociates`, `UnionAbsorbs`; `GraphExamples.LawsFail` is an input).
  * `diff` looks for a labelled edge under an id made from the first matches, and the union stores it
    under one made from the last. When no edge is there, the lookup guarded by "union retains members"
    panics: exactly when a side is not `GraphDiff.Locatable` (`GraphDiff.Diff`; `GraphExamples.DiffPanics`
    is an input).
  * A label can land on another edge than its own, and then an edge only one side has is left without
    one (`GraphDiff.Covering` in `GraphDiff.EdgesReversible`).
* `diff` counts one attachment for every label against the object limit, beside the members of the
  union, and so it can be refused where the union is not (`GraphDiff.LabelsFit`;
  `GraphExamples.LabelsCrowdOut` is an input).
* `diff` decides edge labels by the content key alone. Content keys of derived and source edges do not
  include endpoints, so the labels rebuild both sides only when shared keys belong to the same edge;
  `GraphExamples.SharedKeyWithoutEdge` is a pair of values for which they do not.
* Conjunction of carriers returns one side unchanged when both sides are equal, and conjoins every pair
  of alternatives otherwise. Multiplying out is associative for all carriers
  (`CarrierLaws.MultiplyAssociates`); the early exit is not, and `CarrierLaws.ConjoinAssociatesExactly`
  says exactly when that shows. It can show with two alternatives and with one
  (`CarrierExamples.SeveralDoNotAssociate`, `CarrierExamples.OneDoesNotAssociate`), but not over
  carriers that each have one alternative and no flat gate (`Carriers.FoldsAgree`).
* `distribute` of two unconditional carriers is refused as an empty group, and `disjunction` of an
  unconditional and a conditional carrier is refused rather than simplified.
* The second running reference check in `conjunction` can never fail once the total was checked
  (`CarrierBudget.Budget.MakeProducts`).
* A database version change that arrives while the worker waits poisons it but does not recall a write
  already handed to the store; the model lets such a write commit and be acknowledged, which is the
  larger set of behaviours. One that arrives while a store is being opened makes the open fail.

## Model

| member | source | states |
|---|---|---|
| Hierarchies.CanonicalValid | crates/weave-cluster/src/lib.rs:129-195 | a snapshot with distinct link ids and no dangling end, put in canonical order, is a world every run theorem applies to |
| Hierarchies.OrderIrrelevant | crates/weave-cluster/src/lib.rs:129-195 | two snapshots with the same nodes and links in any order are the same hierarchy input |
| Hierarchies.Hierarchy.WithBudget | crates/weave-cluster/src/lib.rs:129-195 | accepted exactly within the work, node and link limits, with distinct node and link ids and no dangling link; the two error codes; the new hierarchy is in the initial state over the canonical snapshot |
| Hierarchies.Hierarchy.Owners | crates/weave-cluster/src/lib.rs:220-225 | the map sends every node to the one frontier member that covers it |
| Hierarchies.Hierarchy.CandidatePairs | crates/weave-cluster/src/lib.rs:243-254 | exactly the unordered pairs of distinct frontier members that some source link joins |
| Hierarchies.Hierarchy.MatchGreedily | crates/weave-cluster/src/lib.rs:255-295 | the pass over the ordered pairs yields the records, used members and new members of the greedy matching |
| Hierarchies.Hierarchy.Contribute | crates/weave-cluster/src/lib.rs:300-315 | one pass over the links gives each new cluster exactly the links with both ends among its leaves, in link order |
| Hierarchies.Hierarchy.BuildLevel | crates/weave-cluster/src/lib.rs:255-341 | what a paid level does to the fields: boundary when nothing matched, refusal without change when the records do not fit, otherwise the contracted forest |
| Hierarchies.Hierarchy.Advance | crates/weave-cluster/src/lib.rs:229-341 | the whole new object state is the step function of the old one, the manifest with the fields of the new state is returned exactly when the step succeeds, and no cluster precedes a leaf in the frontier, the ids of one kind being in byte order |
| Hierarchies.Hierarchy.Zoom | crates/weave-cluster/src/lib.rs:343-348 | for a known cluster two members of lower level that share out its leaves, none lost and none twice; an error for any other id |
| Hierarchies.Hierarchy.EvidencePage | crates/weave-cluster/src/lib.rs:349-362 | the page, cursor and three error cases of one evidence call |
| Hierarchies.Hierarchy.AggregateLinks | crates/weave-cluster/src/lib.rs:365-384 | the aggregates of the frontier by kind and id of their ends, with all contributors, or the budget error when they do not fit |
| Forests.FreshId | crates/weave-cluster/src/lib.rs:268-282 | a newly made cluster id is never already present |
| Forests.ContractKeeps | crates/weave-cluster/src/lib.rs:264-341 | contracting two linked frontier members keeps partition, laminarity, digest ids, connectedness and the count |
| Forests.MemberConnected | crates/weave-cluster/src/lib.rs:214-219 | the leaves of every known member are connected by source links |
| Levels.GreedyMaximal | crates/weave-cluster/src/lib.rs:264-295 | the greedy choice is a matching among the candidates and no candidate is left with both ends unused |
| Levels.ContractAllKeeps | crates/weave-cluster/src/lib.rs:264-341 | contracting a whole matching removes its parts, adds the made clusters, keeps every other member and the invariant |
| Runs.RunGood | crates/weave-cluster/src/lib.rs:229-341 | every state of every run satisfies the invariant, the byte bound and the work limit |
| Runs.ReachableForest | crates/weave-cluster/src/lib.rs:183-341 | in every reachable state each node has one owner, clusters are nested or disjoint, ids are digests of leaf lists, and frontier plus clusters count the nodes |
| Runs.SameOwnerJoined | crates/weave-cluster/src/lib.rs:229-341 | in every reachable state two nodes with one owner are joined by source links inside that owner |
| Runs.BoundaryIsComponents | crates/weave-cluster/src/lib.rs:229-341 | once the boundary is declared, two nodes share an owner exactly when an undirected path of source links joins them |
| Runs.FailureOnlyCharges | crates/weave-cluster/src/lib.rs:229-263 | a failed call changes only `work`, which never falls and never passes the limit |
| Runs.LevelIsMaximalMatching | crates/weave-cluster/src/lib.rs:243-341 | the boundary is declared exactly when no link crosses the frontier; otherwise the frontier shrinks by one per cluster made and no link joins two members that both persist |
| LevelOrder.LevelMergesFirst | crates/weave-cluster/src/lib.rs:243-341 | the merged pairs of a level are linked frontier members, share no member, and every linked pair left out shares a member with a merged pair that comes earlier by kind, id, kind, id; each new cluster is named by the digest of perspective, context and its leaves in byte order, one level up |
| LevelOrder.FirstChoiceUnique | crates/weave-cluster/src/lib.rs:264-267 | only one choice of pairs is like that, so the matching is determined |
| Progress.BoundaryWithin | crates/weave-cluster/src/lib.rs:226-341 | if calls succeed, the boundary is reached within one call per node, or one call when there is no node |
| Progress.RecordedExactly | crates/weave-cluster/src/lib.rs:300-341 | the bytes are the sizes of the stored cluster records, each counted once |
| Progress.BoundaryExactlyWhenRecordsFit | crates/weave-cluster/src/lib.rs:229-341 | with a work limit of twice nodes plus links for each call, one call per node reaches the boundary exactly when the records the run makes fit the output limit together |
| Progress.BudgetSuffices | crates/weave-cluster/src/lib.rs:229-341 | the same work limit, and a size bound on the records a run can store under which one per node fits, are enough to reach the boundary |
| Progress.TextSizeBound | crates/weave-cluster/src/lib.rs:300-341 | the texts of any record a run can store are bounded by nodes, links and the longest id |
| Navigation.ExpandIsLeaves | crates/weave-cluster/src/lib.rs:343-348 | recursive zoom ends because levels fall, and yields exactly the leaves |
| Navigation.PagesAreComplete | crates/weave-cluster/src/lib.rs:349-362 | following the cursor from an offset returns the rest of the contributing links once each, in order |
| Navigation.EvidenceInOrder | crates/weave-cluster/src/lib.rs:300-313 | the evidence of a cluster is the ids of exactly the links between its leaves, each once, in byte order |
| Navigation.ContributorsInOrder | crates/weave-cluster/src/lib.rs:365-384 | the contributors of an aggregate link are in byte order |
| Navigation.LinkPlacedOnce | crates/weave-cluster/src/lib.rs:300-384 | every source link is in exactly one place: an aggregate link, a frontier cluster, or a loop on a frontier leaf |
| Lineages.LineageConserves | crates/weave-cluster/src/lineage.rs:114-142 | shared counts total the common leaves, and per old and new member the surviving and carried-over leaves |
| Lineages.OverlapsExactly | crates/weave-cluster/src/lineage.rs:114-142 | the overlaps are exactly the pairs of an old and a new member with a common leaf, each once, with the number of common leaves, by kind and id |
| Lineages.ChangesExactly | crates/weave-cluster/src/lineage.rs:143-182 | split are the old members with leaves in two new ones, retired those none of whose leaves is left, merged and created the same the other way round; removed and added are the leaves only one side has; all in order |
| Lineages.LaterLineage | crates/weave-cluster/src/lineage.rs:94-182 | between two states of one run splits, retired, created, removed and added are empty and merges are exactly the new frontier members |
| Overlaps.CountShared | crates/weave-cluster/src/lineage.rs:114-123 | one pass over the old owners counts the shared leaves of every pair and lists the leaves now gone, in order |
| Overlaps.AddedLeaves | crates/weave-cluster/src/lineage.rs:124-126 | the leaves only the later side has, in order |
| Overlaps.CountsAreShared | crates/weave-cluster/src/lineage.rs:114-123 | the counted pairs are exactly the overlapping members, each with the number of leaves it shares |
| Overlaps.OverlapsAndDegrees | crates/weave-cluster/src/lineage.rs:127-142 | the overlap list in pair order, with the exact in and out degree of every member |
| Overlaps.ByDegree | crates/weave-cluster/src/lineage.rs:143-160 | the members of degree zero and of degree above one, in frontier order |
| Overlaps.ChargeAll | crates/weave-cluster/src/lineage.rs:105-160 | every retained item is charged once against the output limit |
| Overlaps.LineageTo | crates/weave-cluster/src/lineage.rs:94-182 | the reference lineage exactly when both sides are in scope and everything retained fits; which error otherwise |
| Decimals.NormalUnique | crates/weave-contract/src/decimal.rs:39-64 | equal normal decimals are identical |
| Decimals.ExactlyOk | crates/weave-contract/src/decimal.rs:39-64 | the reference answer for a representable value is its normal decimal |
| Decimals.ExactlyScale | crates/weave-contract/src/decimal.rs:39-64 | a coefficient not divisible by ten with too many places has no other expansion within 18 places |
| Decimals.ExactlyPrecision | crates/weave-contract/src/decimal.rs:39-64 | a coefficient that cannot be shortened and is too long has no representation |
| DecimalArithmetic.Normalized | crates/weave-contract/src/decimal.rs:39-64 | the loops give the reference answer for the exact value of the pair, without leaving 128 bits |
| DecimalArithmetic.CheckedAdd | crates/weave-contract/src/decimal.rs:65-71 | the reference answer for the exact sum: Ok exactly when representable, then the unique normal form, otherwise the reason |
| DecimalArithmetic.CheckedSub | crates/weave-contract/src/decimal.rs:72-77 | the reference answer for the exact difference |
| DecimalArithmetic.CheckedMul | crates/weave-contract/src/decimal.rs:78-83 | the reference answer for the exact product |
| DecimalQuotient.Gcd | crates/weave-contract/src/decimal.rs:155-160 | the greatest common divisor |
| DecimalQuotient.Quotient | crates/weave-contract/src/decimal.rs:106-154 | the reference answer for the exact rational value; no intermediate leaves 128 bits |
| DecimalQuotient.CheckedDiv | crates/weave-contract/src/decimal.rs:84-91 | division by zero exactly for a zero divisor, otherwise the reference answer for the exact quotient |
| DecimalQuotient.CheckedMulRatio | crates/weave-contract/src/decimal.rs:92-102 | division by zero exactly for a zero denominator, otherwise the reference answer for the exact scaled value |
| DecimalQuotient.NoExpansion | crates/weave-contract/src/decimal.rs:106-154 | a reduced fraction whose denominator has a factor prime to ten has no finite expansion |
| DecimalQuotient.TerminatingExactly | crates/weave-contract/src/decimal.rs:106-154 | a reduced fraction terminates exactly when its denominator is a product of twos and fives |
| DecimalQuotient.DivisionInverts | crates/weave-contract/src/decimal.rs:78-91 | multiplying a successful quotient by the divisor gives the dividend |
| DecimalText.ScanSound | crates/weave-contract/src/decimal.rs:163-224 | a scanned literal is well formed and renders back to the text |
| DecimalText.ScanComplete | crates/weave-contract/src/decimal.rs:163-224 | every literal scans to itself, and a too large exponent is noticed at once |
| DecimalText.TooLargeExactly | crates/weave-contract/src/decimal.rs:163-224 | scanning stops at a too large exponent exactly when a prefix of the text is a literal with one |
| DecimalParsing.TooManyDigits | crates/weave-contract/src/decimal.rs:225-236 | a literal with more than 18 significant digits is not representable |
| DecimalParsing.ParseExactly | crates/weave-contract/src/decimal.rs:161-237 | a text is accepted exactly when it is a literal within the limits with a representable value, and then parses to that value |
| DecimalParsing.ParseErrors | crates/weave-contract/src/decimal.rs:161-237 | exactly when the error is the input limit and exactly when it is a syntax error |
| DecimalPrinting.FromStr | crates/weave-contract/src/decimal.rs:161-237 | the index-moving loop gives exactly the reference parse |
| DecimalPrinting.Display | crates/weave-contract/src/decimal.rs:238-259 | the piecewise writer gives exactly the reference text |
| DecimalPrinting.PrintedValue | crates/weave-contract/src/decimal.rs:238-259 | the printed literal denotes the value of the decimal |
| DecimalPrinting.RoundTrip | crates/weave-contract/src/decimal.rs:161-259 | parsing what was printed gives the decimal back, for every decimal |
| DecimalPrinting.Deserialize | crates/weave-contract/src/decimal.rs:265-283 | accepts exactly the canonical texts |
| DecimalPrinting.CanonicalBijection | crates/weave-contract/src/decimal.rs:238-283 | canonical texts and decimals are in bijection |
| DecimalPrinting.CanonicalExactly | crates/weave-contract/src/decimal.rs:238-283 | the canonical texts are exactly those with no plus sign, no sign on zero, no superfluous leading zero, a point only before digits that do not end in zero, at most 18 places and a coefficient of at most 18 digits |
| Restrictions.CanonicalExactly | crates/weave-contract/src/carrier_algebra.rs:193-238 | two carriers have one canonical form exactly when they differ only in order and repetition of references and alternatives |
| Restrictions.CanonicalIdempotent | crates/weave-contract/src/carrier_algebra.rs:212-227 | canonicalising again changes nothing |
| Restrictions.CanonicalEvaluates | crates/weave-contract/src/carrier_algebra.rs:212-227 | canonicalising keeps the meaning for every set of authorised references |
| Explanations.CanonicalInOrder | crates/weave-contract/src/carrier_algebra.rs:193-238 | a canonical form lists references by graph, revision and record and alternatives by their text, in byte order, none twice |
| Explanations.ValidExactly | crates/weave-contract/src/carrier_algebra.rs:145-192 | a carrier is valid exactly when alternatives and references are within the limits, every alternative has gates, at most a thousand of them and of described snapshots, ids have 1 to 512 bytes and parameters are at most 32 deep |
| Explanations.WithinExactly | crates/weave-contract/src/carrier_algebra.rs:124-143 | the depth limit is on the length of the longest way down into a value |
| Carriers.ConjoinEvaluates | crates/weave-contract/src/carrier_algebra.rs:349-405 | conjunction means both, for every pair of carriers and every set of authorised references |
| Carriers.DistributeEvaluates | crates/weave-contract/src/carrier_algebra.rs:406-446 | distribution means both, and every gate ends up inside an alternative |
| Carriers.DisjoinEvaluates | crates/weave-contract/src/carrier_algebra.rs:450-491 | disjunction means either, for every pair of carriers and every set of authorised references |
| Explanations.AndExplains | crates/weave-contract/src/carrier_algebra.rs:259-400 | a conjunction of alternatives rests on the gates of both, describes the snapshots those are in or name, and names the inputs of both, nested conjunctions flattened, each once, by text with revisions blanked |
| Explanations.BranchExplains | crates/weave-contract/src/carrier_algebra.rs:406-435 | a branch rests on the flat gates and those of its alternative and names both |
| Explanations.FlatExplains | crates/weave-contract/src/carrier_algebra.rs:406-422 | flat gates alone become one alternative with these gates that names them |
| Explanations.GroupJsonInjective | crates/weave-contract/src/carrier_algebra.rs:331-338 | different alternatives are written differently, so an input names exactly one |
| Explanations.ProductCounts | crates/weave-contract/src/carrier_algebra.rs:364-389 | the reference counter of a conjunction is the references of both sides of every pair, and of the flat gates |
| Explanations.BranchCounts | crates/weave-contract/src/carrier_algebra.rs:406-413 | the reference counter of a distribution is the flat gates once for every branch and the gates of each alternative |
| Carriers.ProductsContain | crates/weave-contract/src/carrier_algebra.rs:384-402 | the product of alternatives holds exactly the conjunctions of one of each side |
| Carriers.ConjoinCommutes | crates/weave-contract/src/carrier_algebra.rs:301-405 | conjunction is commutative as a value, explanations included |
| Carriers.FoldIsJoint | crates/weave-contract/src/carrier_algebra.rs:301-405 | any fold over carriers with one alternative and no flat gate is the one conjunction of their alternatives |
| Carriers.FoldsAgree | crates/weave-contract/src/carrier_algebra.rs:301-405 | two folds over the same alternatives give one explanation whatever their order, bracketing or repetition |
| CarrierLaws.AndAssociates | crates/weave-contract/src/carrier_algebra.rs:301-346 | conjoining alternatives is associative, explanations included, for all alternatives |
| CarrierLaws.MultiplyAssociates | crates/weave-contract/src/carrier_algebra.rs:349-405 | without the early exit for equal sides conjunction is associative for all carriers, with any alternatives and gates |
| CarrierLaws.ConjoinAssociatesExactly | crates/weave-contract/src/carrier_algebra.rs:349-405 | the two bracketings of three carriers agree exactly when the early exit is not taken, or is taken where multiplying out changes nothing |
| CarrierLaws.SquareExactly | crates/weave-contract/src/carrier_algebra.rs:349-405 | multiplying a carrier with itself changes nothing exactly when it has no alternatives or they are closed under conjunction |
| CarrierLaws.RepeatExactly | crates/weave-contract/src/carrier_algebra.rs:349-405 | multiplying one side in again changes nothing exactly when it has no alternatives, or the other has none and they are closed, or the other already spans the pairs |
| CarrierLaws.OneRepeats | crates/weave-contract/src/carrier_algebra.rs:349-405 | one alternative, multiplied in beside others, changes nothing when multiplied in again |
| CarrierLaws.DifferentAssociate | crates/weave-contract/src/carrier_algebra.rs:349-405 | conjunction is associative whenever no two carriers that meet are equal |
| CarrierExamples.SeveralDoNotAssociate | crates/weave-contract/src/carrier_algebra.rs:349-405 | a carrier with two alternatives, repeated, for which the two bracketings differ |
| CarrierExamples.OneDoesNotAssociate | crates/weave-contract/src/carrier_algebra.rs:349-405 | a carrier with one alternative, repeated beside a gate, for which the two bracketings differ |
| CarrierExamples.BracketingsFit | crates/weave-contract/src/carrier_algebra.rs:349-405 | every conjunction of the first example is within the limits on groups, references, identifiers and depth |
| Renaming.InputsRenamed | crates/weave-contract/src/carrier_algebra.rs:332-339 | the explanation inputs of a renamed alternative are the renamed inputs |
| Renaming.BlankRenamed | crates/weave-contract/src/carrier_algebra.rs:311-330 | blanking hides any renaming of revisions |
| Renaming.ConjunctsHideRevisions | crates/weave-contract/src/carrier_algebra.rs:303-346 | an injective renaming of revisions leaves the blanked list of conjunction inputs unchanged |
| CarrierBudget.Budget.constructor | crates/weave-contract/src/carrier_algebra.rs:52-65 | every limit is capped and the budget starts full |
| CarrierBudget.Budget.Charge | crates/weave-contract/src/carrier_algebra.rs:66-86 | one step and the length of the text, exactly when both are left |
| CarrierBudget.Budget.ValueDepth | crates/weave-contract/src/carrier_algebra.rs:124-143 | accepts exactly values nested at most 32 deep, and takes one step per value |
| CarrierBudget.Budget.CheckGroup | crates/weave-contract/src/carrier_algebra.rs:166-184 | the validity of one alternative and the steps its parameters take |
| CarrierBudget.Budget.Validate | crates/weave-contract/src/carrier_algebra.rs:145-192 | passes exactly valid carriers the budget can pay for, and takes exactly their cost; the empty-group error only for an empty group |
| CarrierBudget.Budget.CollectGroups | crates/weave-contract/src/carrier_algebra.rs:217-225 | one canonical copy of every alternative in text order, at exactly its cost |
| CarrierBudget.Budget.Canonicalize | crates/weave-contract/src/carrier_algebra.rs:212-227 | succeeds exactly for valid, affordable carriers, returns the canonical form and takes exactly its cost |
| CarrierBudget.Budget.UniteRefs | crates/weave-contract/src/carrier_algebra.rs:239-250 | the canonical union of two reference sets exactly when both together are within the limit |
| CarrierBudget.Budget.Make | crates/weave-contract/src/carrier_algebra.rs:259-299 | an alternative from gates exactly when there are gates and the copies can be paid |
| CarrierBudget.Budget.MakeProducts | crates/weave-contract/src/carrier_algebra.rs:384-402 | all products of alternatives; the running reference count inside the loop never trips once the total was checked |
| CarrierBudget.Budget.Conjunction | crates/weave-contract/src/carrier_algebra.rs:349-405 | succeeds exactly within the limits and the budget, returns the conjunction and takes exactly its cost |
| CarrierBudget.Budget.MakeBranches | crates/weave-contract/src/carrier_algebra.rs:406-435 | the flat gates inside every alternative, exactly when no branch would be empty |
| CarrierBudget.Budget.Distribute | crates/weave-contract/src/carrier_algebra.rs:437-447 | succeeds exactly within the limits and the budget, returns the distribution and takes exactly its cost |
| CarrierBudget.Budget.Disjunction | crates/weave-contract/src/carrier_algebra.rs:450-491 | succeeds exactly within the limits and the budget; the profile error only when exactly one side is unconditional |
| GraphUnion.MergeSchema | crates/weave-contract/src/algebra.rs:233-283 | the loops give exactly the merged schema, or the mismatch or collision error |
| GraphUnion.GatherNodes | crates/weave-contract/src/algebra.rs:439-462 | all nodes of an input absorbed by key, refused exactly for a missing origin, a disagreement or a full budget |
| GraphUnion.GatherEdges | crates/weave-contract/src/algebra.rs:463-495 | all edges of an input absorbed by id, refused exactly for a missing key or endpoint, a disagreement or a full budget |
| GraphUnion.GatherAttachments | crates/weave-contract/src/algebra.rs:496-537 | all attachments of an input under rewritten hosts, refused exactly for an unknown host or a full budget |
| GraphUnion.Union | crates/weave-contract/src/algebra.rs:418-543 | succeeds exactly when the two values can be united, and returns their union |
| GraphUnion.CheckedExactly | crates/weave-contract/src/algebra.rs:64-124 | the closing check passes exactly when members are within the object limit, no node has more than a thousand influences, no edge lacks an endpoint, types are there exactly where there is a schema that has them, and the other validators accept |
| GraphValues.JoinsIsAgree | crates/weave-contract/src/algebra.rs:449-461 | comparing with the first member of each key finds every disagreement |
| GraphKeys.NodeKeyShared | crates/weave-contract/src/algebra.rs:284-321 | two nodes share a key exactly when they have the same origins, or none and the same id, at the same entity, space and scope; an id that is a synthetic key already is that key |
| GraphKeys.EdgeKeyShared | crates/weave-contract/src/algebra.rs:322-415 | two edges share a content key exactly when both are stored with the same origins and interval, or both are conclusions that say and rest on the same, or both are relations of values between nodes with the same keys that say the same |
| GraphKeys.EdgeIdShared | crates/weave-contract/src/algebra.rs:463-475 | two edges get one id exactly when content key and both endpoint keys agree |
| GraphKeys.EndpointExactly | crates/weave-contract/src/algebra.rs:327-353 | an endpoint of a synthetic edge has a key exactly when the first node with its id has origins or was derived from something, and then it is that node's |
| GraphKeys.EdgeKeyKnown | crates/weave-contract/src/algebra.rs:322-415 | an edge has a content key exactly when it is stored, or a conclusion, or synthetic with such endpoints |
| GraphKeys.TypeKeyShared | crates/weave-contract/src/algebra.rs:226-232 | canonical type names stay; others share one exactly when they are the same name in the same schema |
| GraphKeys.AttachmentIdShared | crates/weave-contract/src/algebra.rs:496-535 | two attachments get one id exactly when they say the same of the same host with the same origins |
| GraphRenewal.UnionNode | crates/weave-contract/src/algebra.rs:284-321 | the key of every node of a union is its id: node keys are fixed points |
| GraphRenewal.EdgeKeyExactly | crates/weave-contract/src/algebra.rs:322-416 | the content key of an edge is a fixed point exactly when its endpoints meet: always for derived and source edges, and for a synthetic edge exactly when the first and the last node with each endpoint id have one key |
| GraphRenewal.AgainMeets | crates/weave-contract/src/algebra.rs:322-416 | an id that a second union gives belongs only to edges whose endpoints meet |
| GraphRenewal.AttachmentAgain | crates/weave-contract/src/algebra.rs:496-537 | what a second union makes of an attachment, whatever its host |
| GraphRenewal.AttachmentKept | crates/weave-contract/src/algebra.rs:496-537 | a second union keeps an attachment exactly when it keeps its host |
| GraphRenewal.UnionKeyedExactly | crates/weave-contract/src/algebra.rs:418-543 | the members of a union all have keys exactly when every synthetic edge of the inputs is renamed to grounded endpoints |
| GraphRenewal.UnionMeets | crates/weave-contract/src/algebra.rs:418-543 | in a union whose edges have keys all endpoints meet, so a third normalisation changes nothing |
| GraphLaws.BundlePairs | crates/weave-contract/src/algebra.rs:225-283 | a merged schema merged again adds the same definitions |
| GraphLaws.UnionContent | crates/weave-contract/src/algebra.rs:418-543 | the members of a union are the normalised members of both inputs, with types rewritten exactly when the schemas differ |
| GraphLaws.TripleContent | crates/weave-contract/src/algebra.rs:418-543 | the members of a union of three: those of the inner union normalised twice, those of the third value once, whichever side is nested |
| GraphLaws.ChangingExactly | crates/weave-contract/src/algebra.rs:322-378 | the edges a second union changes are the synthetic ones whose endpoints do not meet |
| GraphLaws.UnionCommutes | crates/weave-contract/src/algebra.rs:418-543 | union is commutative on nodes, edges, attachments and schema |
| GraphLaws.UnionAssociates | crates/weave-contract/src/algebra.rs:418-543 | union is associative on nodes and schema, and on edges and attachments exactly when the outer two values bring the same members that a second union changes |
| GraphLaws.UnionAbsorbs | crates/weave-contract/src/algebra.rs:418-543 | uniting an input again keeps nodes and schema, and changes nothing at all exactly when that input brings every member that a second union changes and what those become is there already |
| GraphLaws.UnionIdempotent | crates/weave-contract/src/algebra.rs:418-543 | a union united with itself is itself exactly when the endpoints of every synthetic edge of the inputs meet |
| GraphLaws.LawsHold | crates/weave-contract/src/algebra.rs:418-543 | where no two nodes of a value share an id, union is associative and absorbs its inputs |
| GraphExamples.LawsFail | crates/weave-contract/src/algebra.rs:418-543 | one accepted value, with two nodes of one id and a synthetic edge, for which all three laws fail |
| GraphDiff.LabelNodes | crates/weave-contract/src/algebra.rs:641-647 | every node key only this side has gets the label |
| GraphDiff.LabelEdges | crates/weave-contract/src/algebra.rs:648-671 | every edge whose content key only this side has gets the label, refused exactly for a missing endpoint |
| GraphDiff.NeverBoth | crates/weave-contract/src/algebra.rs:639-672 | no edge is labelled both removed and added |
| GraphDiff.Diff | crates/weave-contract/src/algebra.rs:602-825 | the union with exactly the labels of the symmetric difference, shown as attachments; it panics exactly when the inputs are accepted and some label lands on no edge of its side, and otherwise succeeds exactly when the labels fit the object limit beside the union and the validators take the result |
| GraphDiff.FitsExactly | crates/weave-contract/src/algebra.rs:673-825 | the closing check passes exactly when all members of the union and one attachment for each label are within the object limit and the validators take the result |
| GraphMarks.StampEdges | crates/weave-contract/src/algebra.rs:687-745 | an attachment with its origins for every edge label in id order, exactly when every search finds its edge; the room never runs out before a search fails |
| GraphMarks.StampNodes | crates/weave-contract/src/algebra.rs:746-823 | an attachment for every node label in id order, exactly when there is room for them |
| GraphDiff.DeltaReadsBack | crates/weave-contract/src/algebra.rs:687-824 | the result is the union with attachments added, and a member carries the attachment of a label exactly when it has that label |
| GraphDiff.DeltaSays | crates/weave-contract/src/algebra.rs:639-824 | a node key or edge label only the first value has is hosted by an attachment under `weave:diff:membership` with the value `removed`, one only the second has by one with `added`; there is one for each and no other new attachment |
| GraphDiff.DeltaOrigins | crates/weave-contract/src/algebra.rs:687-745 | the attachment of an edge label has the origins of its edge, and no other origins are new |
| GraphDiff.LabelsFound | crates/weave-contract/src/algebra.rs:673-700 | every labelled edge is in the union exactly when every label lands on an edge of its side |
| GraphDiff.ConsistentLands | crates/weave-contract/src/algebra.rs:648-671 | where nodes that share an id share a key, every label lands, and every edge only one side has carries one |
| GraphExamples.DiffPanics | crates/weave-contract/src/algebra.rs:673-700 | two accepted values for which the guarded lookup fails |
| GraphExamples.LabelsCrowdOut | crates/weave-contract/src/algebra.rs:673-825 | two accepted values whose union fits the object limit and whose labels do not |
| GraphDiff.SelfDiff | crates/weave-contract/src/algebra.rs:602-673 | a value compared with itself gets no labels |
| GraphDiff.NodesReversible | crates/weave-contract/src/algebra.rs:602-673 | the union without the added nodes is the first value, without the removed nodes the second |
| GraphDiff.EdgesReversible | crates/weave-contract/src/algebra.rs:602-673 | the same for edges exactly when every shared content key belongs to the same edge on both sides and a label lands on every edge only the other side has |
| GraphExamples.SharedKeyWithoutEdge | crates/weave-contract/src/algebra.rs:639-672 | two accepted values with consistent ids whose delta has no edge label, so that the union without the added edges is not the first value |
| GraphSupport.EdgeAlternatives | crates/weave-contract/src/algebra.rs:1167-1213 | every stored alternative under the gates of its edge, refused exactly when the references of one cannot be merged |
| GraphSupport.AlternativesGranted | crates/weave-contract/src/algebra.rs:1167-1213 | an edge holds exactly when one of its alternatives and its own gates do |
| GraphSupport.GuardedExactly | crates/weave-contract/src/algebra.rs:1167-1213 | what an alternative is under the gates of its edge, field by field, described snapshots included |
| GraphSupport.CombineDerivations | crates/weave-contract/src/algebra.rs:1233-1282 | succeeds exactly within the limits, with every pairing of the alternatives |
| GraphSupport.CombineGrantedBoth | crates/weave-contract/src/algebra.rs:1233-1282 | the combined alternatives hold exactly when both edges do, for every set of authorised references |
| GraphSupport.PairExactly | crates/weave-contract/src/algebra.rs:1233-1282 | a joint derivation rests on what either parent rests on, describes the snapshots that is in or names, and records both parents |
| GraphSupport.Support | crates/weave-contract/src/algebra.rs:827-948 | succeeds exactly when the input passes preflight, every edge asked about is usable and the derivations fit; the answer is what the bearing edges say, for when one speaks for it and against when one speaks against it |
| GraphSupport.AnswersGranted | crates/weave-contract/src/algebra.rs:895-948 | the derivations of an answer hold exactly when each side it rests on has authorised evidence |
| GraphSupport.SupportExactly | crates/weave-contract/src/algebra.rs:840-879 | supported exactly when some edge with the asked relation, in force at the instant, between the asked endpoints is positive and none is negative; the other three answers likewise |
| GraphSupport.AnswerVouched | crates/weave-contract/src/algebra.rs:836-948 | the derivations of an answer hold for an authority exactly when, on each side on which an edge speaks, some edge that speaks holds for it |
| GraphSupport.AnswersFitExactly | crates/weave-contract/src/algebra.rs:895-948 | an answer fits exactly when it has at most 128 valid derivations and there is an object for each, for its node and for its evidence edge |
| GraphSupport.JoinIsLeast | crates/weave-contract/src/algebra.rs:874-879 | the join of two answers is their least upper bound in the information order |
| GraphSupport.SupportJoins | crates/weave-contract/src/algebra.rs:418-543 | support over a union is the join of the supports, for every predicate, endpoint pair and instant |
| Distances.BestIsDistance | scripts/check_science.py:177-182 | the last stage of the recurrence is the exact shortest path length or infinity |
| Distances.PivotUnchanged | scripts/check_science.py:177-182 | a stage leaves its own row and column alone, so overwriting one matrix is safe |
| Distances.MatrixDistances | scripts/check_science.py:167-182 | every entry of the returned matrix is the exact distance, directed or undirected |
| Components.UndirectedMutual | scripts/check_science.py:185-195 | reading pairs both ways makes reachability symmetric |
| Components.ComponentOracle | scripts/check_science.py:185-195 | the groups are exactly the mutual-reachability classes, each in ascending order, disjoint, covering, and already in sorted order |
| LinearSystems.PivotRow | scripts/check_science.py:203 | the first row with the largest entry in the column |
| LinearSystems.ClearColumn | scripts/check_science.py:208-212 | the column becomes a unit column, every other row is the old one less its share of the pivot row, and the solutions stay the same |
| LinearSystems.EliminationDominant | scripts/check_science.py:200-212 | elimination keeps the remaining columns dominant by the same margin |
| LinearSystems.LinearSolve | scripts/check_science.py:198-213 | the answer is the unique solution of the original system; it is refused exactly when the elimination meets a pivot that is too small, and never where the diagonal dominates every column by more than the pivot limit |
| LinearSystems.SmallPivot | scripts/check_science.py:203-205 | the pivot of a column is too small exactly when all that is left of the column is |
| Pagerank.TransitionsStochastic | scripts/check_science.py:222-229 | the transition rows sum to one, with dangling vertices and parallel edges |
| Pagerank.RankSumsToOne | scripts/check_science.py:216-231 | every solution sums to one unless the damping is exactly one |
| Pagerank.RankNonnegative | scripts/check_science.py:216-231 | with damping in [0, 1) no rank of a solution is negative |
| Pagerank.RankUnique | scripts/check_science.py:216-231 | with damping in [0, 1) there is at most one solution |
| Pagerank.SystemIsRank | scripts/check_science.py:225-231 | the solutions of the built system are exactly those of the rank equations |
| Pagerank.RankOverPairs | scripts/check_science.py:222-231 | a solution satisfies, vertex by vertex, the rank equation as a sum over the pairs and the dangling vertices |
| Pagerank.Tally | scripts/check_science.py:222-224 | the count matrix holds how often each pair occurs |
| Pagerank.BuildSystem | scripts/check_science.py:222-230 | the matrix is identity minus damped transitions, transposed |
| Pagerank.SystemDominant | scripts/check_science.py:222-230 | in every column of the system the diagonal exceeds the rest by exactly one minus the damping |
| Pagerank.PagerankOracle | scripts/check_science.py:216-231 | empty for no identifiers; otherwise the one solution of the rank equations, which sums to one and is not negative; every rank is the teleport share, and damping times what the incoming pairs carry (each its start's rank over the number of pairs with that start) and what vertices without outgoing pairs send; never refused for damping from zero to below one by more than the pivot limit |
| BrowserHost.Worker.constructor | examples/browser-host/worker.js:12-13 | a fresh worker |
| BrowserHost.Worker.Begin | examples/browser-host/worker.js:68-87 | the checks of a write and the record handed to the store |
| BrowserHost.Worker.OnMessage | examples/browser-host/worker.js:136-173 | the whole effect of one message: poison, busy, preflight refusals, operation, start of a write |
| BrowserHost.Worker.OnLoad | examples/browser-host/worker.js:98-134 | the whole effect of having read the store |
| BrowserHost.Worker.OnComplete | examples/browser-host/worker.js:94-96 | generation and journal are adopted only after the store confirmed |
| BrowserHost.Worker.OnAbort | examples/browser-host/worker.js:167-171 | an aborted write poisons |
| DurableProtocol.StepKeeps | examples/browser-host/worker.js:68-173 | every step of worker, store and crashes keeps the invariant |
| DurableProtocol.AcknowledgedIsDurable | examples/browser-host/worker.js:68-173 | in every run the store holds the last acknowledged state, or that with the one operation in flight |
| DurableProtocol.FlightWasSent | examples/browser-host/worker.js:136-173 | the operation in flight is a request that was delivered, with no acknowledgement since |
| DurableProtocol.ResumeIsDurable | examples/browser-host/worker.js:90-96 | right after an acknowledgement the store holds exactly what was acknowledged |
| DurableProtocol.AcknowledgedRequest | examples/browser-host/worker.js:147-163 | after the acknowledgement of a request the store holds what the engine made of it: an installed actor or handler or a retained SDK that the engine took is in the durable journal after all that was there before, and a call or a refused request adds nothing |
| DurableProtocol.AskedExactly | examples/browser-host/worker.js:141-161 | an opened, idle worker asks the engine exactly about texts within their limits whose artifact the journal has room for, and otherwise refuses and stays as it is |
| DurableProtocol.SessionIsAcknowledged | examples/browser-host/worker.js:136-173 | an idle opened session shows exactly the acknowledged, durable state and generation |
| DurableProtocol.ReopenedState | examples/browser-host/worker.js:98-134 | reopening brings back the last acknowledged state or that with the one operation in flight |
| DurableProtocol.GenerationCountsWrites | examples/browser-host/worker.js:80-94 | the generation is the number of durable writes |
| DurableProtocol.JournalOnlyExtends | examples/browser-host/worker.js:155-160 | the durable journal only extends, without repeats, up to sixteen entries |
| DurableProtocol.DurableHistory | examples/browser-host/worker.js:68-96 | each durable write repeats the previous state or applies to it exactly the operation in flight, which was delivered and not acknowledged before |
| DurableProtocol.RefusalChangesNothing | examples/browser-host/worker.js:136-161 | a run without one delivery that was turned down before the engine was asked is a run through the same worlds |
| DurableProtocol.HeededRun | examples/browser-host/worker.js:136-173 | every run ends as the run of its heeded messages alone |
| DurableProtocol.PoisonIsFinal | examples/browser-host/worker.js:138-139 | a poisoned worker never asks the engine or starts a write again |
| DurableProtocol.WriteCanFail | examples/browser-host/worker.js:68-96 | a write or an open in progress can be aborted in any run, which poisons the worker and leaves store and acknowledgements as they were; a write can be stored, and is not acknowledged before |
| DurableProtocol.CrashKeepsStore | examples/browser-host/worker.js:68-173 | a crash can come at any moment of any run, and takes the worker only |
| StrictContext.Strict.Decode | crates/weave-contract/src/context_axes.rs:298-440 | accepts exactly documents within depth, size and string limits, without repeated names and within the budget, and takes exactly their charge |
| StrictContext.Strict.DecodeItems | crates/weave-contract/src/context_axes.rs:423-440 | the element loop, including the depth passed after 128 elements |
| StrictContext.Strict.DecodeMembers | crates/weave-contract/src/context_axes.rs:404-422 | the member loop: key limit, member limit, repeated names, separators |
| StrictContext.ObjectLength | crates/weave-contract/src/context_axes.rs:404-422 | the compact length of an object, whatever order its members arrived in |
| StrictContext.ChargeIsLength | crates/weave-contract/src/context_axes.rs:302-440 | what is charged is exactly the length of the compact text of the value returned |
| StrictContext.BoundedExactly | crates/weave-contract/src/context_axes.rs:327-440 | the limits hold exactly when every part of the document is at most eight levels down and has at most 128 elements or members under different names, with names of at most 512 and strings of at most 4096 bytes |
| StrictContext.StrictJson | crates/weave-contract/src/context_axes.rs:475-490 | accepts exactly documents within 64 KiB as given and in compact form, of which every part is within the limits and at most eight levels down |

## Left out

- Hierarchies.Hierarchy.WithBudget: does not model the checks of identifiers, evidence counts, pins and the context text, nor the serialised size of the input; they are flat validation before the state machine starts.
- Hierarchies.Hierarchy.Advance: does not model the snapshot and record revisions, which are digests nothing else reads.
- Overlaps.LineageTo: does not model the check of the domain identifier's spelling; `lineage_to`, which computes the domain and calls it, is left out.
- Overlaps.ChargeAll: charges the items list by list after they are collected, where the source charges each as it is kept; the sum and the outcome are the same.
- DecimalPrinting.FromStr: text is one character a byte, and text positions are unbounded naturals.
- LinearSystems.LinearSolve: works over exact reals, so rounding is not modelled; the pivot limit is kept.
- CarrierBudget.Budget.Charge: on failure the source may already have taken part of the text from the byte counter; the model leaves the bytes as they were. Nothing is stated about the budget after a failure.
- CarrierBudget.Budget.Validate: which of several applicable error codes is given is stated only for the empty group.
- GraphUnion.Union: any member the loops cannot absorb gives one error code; the byte counter, envelope, influence, context typing and provenance of a result are not modelled, nor is which of two equal-keyed origin lists survives part of the laws.
- GraphUnion.Union: `Context.accepts` and `Context.conforms` stand for the validators in other files; of the schema checks only endpoints, presence of types and known type names are opened.
- GraphDiff.Diff: of the attachment built for each label the identifier, host, status, readers and origins are modelled; its influence, context and validity time and its byte charge are not.
- CarrierExamples.BracketingsFit: leaves the bytes and steps of the calls to `CarrierCosts.ConjoinCost`, because the length of a text is a parameter.
- GraphSupport.Support: returns the state and its derivations; the node, edge and schema that carry them and the validation of that result are not modelled.
- BrowserHost.Worker.OnLoad: a record is taken to be intact when it is read; the format and digest checks, the lock, the module and the database handles are not modelled, and a second worker that finds the lock taken does nothing to the store.
- DurableProtocol.AcknowledgedIsDurable: assumes that an operation that does not ask for a fence leaves the engine as it was; docs/BROWSER_HOST.md:46 exports the image after every outcome that asks for one, and the engine that decides which do is not part of this model.
- StrictContext.StrictJson: the byte-level JSON reader is a parameter that yields a document with its repeated members or nothing; a non-finite number is one of the inputs it does not yield.
- The typed-context rules behind the strict decoder, embeddings, identity, quantities, temporal rules, policy, spaces and the SQLite engine are not part of this model.
- Project, query operators, benchmarks and host bindings of the repository would add only filters and plumbing.
