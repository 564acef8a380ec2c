# Governance analysis engine: a verified model

The repository scans data sources, compares snapshots of their metadata, finds conflicts between
observations, classifies drift and reviews the outcome in a CI run. This project models the
vendor-neutral engine behind that and proves what its parts promise each other.

- **Canonical text.** `Texts`, `Sorting`, `JsonText`, `JsonOrder`, `PythonStrings`,
  `CanonicalOrders`: compact JSON with sorted members and ASCII escapes, as the engine hashes and
  sorts it (sections 2 to 7 of RFC 8259). A Python string is a sequence of code points, and a high
  surrogate directly before a low one prints like the character they stand for. The text determines
  a value exactly up to joining such pairs, and its byte order survives appending an item. What
  order it puts nodes, edges, rules and results in is stated field by field.
- **Pointers.** `Pointers`: property paths as JSON pointers (sections 3 and 4 of RFC 6901), with
  both round trips.
- **Graphs and downstream impact.** `Graphs`, `Walks`, `Impact`, `ImpactResults`, `ImpactFacts`:
  merging graph parts, and the layered search for everything downstream of a set of changed nodes.
  The recorded path of a node is the least of all shortest walks in the graph, not only of those the
  search builds, and the nodes found are the least set that the stored edges do not lead out of.
- **Snapshot comparison.** `Identities`, `Snapshots`, `Declarations`, `Registry`, `Projection`,
  `ProjectionProofs`, `PropertyChecks`, `Comparisons`, `Inversion`, `Artifacts`, `ComparisonCheck`,
  `Build`, `ProducerSoundness`, `Directions`, `ModelFacts`, `ComparisonFacts`, `AcceptanceFacts`:
  two snapshots are projected into comparable objects, compared, and written as an artifact; an
  independent check reads it back. Everything the producer builds is accepted, and the other
  direction gives exactly the inverse. What a comparison lists, with which values, and when it is
  identical, is stated on the fields of the two models.
- **Observations, authority, conflicts.** `Observations`, `Authority`, `RuleKeyOrder`, `Conflicts`,
  `ConflictFacts`: pooling observed values, loading authority rules, and settling conflicts. Nothing
  depends on input order, and a rule set can leave a property ambiguous exactly if the loader
  refuses it. On keys with unjoined surrogates the order of rules can depend on input order;
  `RuleKeyOrder` says exactly when.
- **Drift, review, history.** `DriftPolicies`, `Drift`, `DriftProofs`, `DriftFacts`, `Review`,
  `ReportFacts`, `History`, `HistoryFacts`: classifying differences against a policy, counting them
  again in a review, and the append-only history.

The modules named `…Facts` state results on the fields of the inputs and outputs alone, without the
functions that the algorithms share.

Code that fills dictionaries and lists in loops is modelled as methods with loops, and checked against
predicates that do not mention the loops. A loop over a dictionary takes its keys in an arbitrary
order, so results hold for every order. Errors are failures of a `Result` or a `false`; their wording
is not modelled. A content identity is modelled by the content it was computed from.

`dafny verify dfyconfig.toml` checks the whole project.

## Model

| member | source | states |
|---|---|---|
| `JsonText.EscapeUnique` | src/governance/identity/canonicalize.py:9-16 | for any two code points, one escape starts the other only where a high surrogate stands before the text of a low one |
| `JsonText.BodyUnique` | src/governance/identity/canonicalize.py:9-16 | strings of code points without a high surrogate directly before a low one are told apart by their text, and so is what follows the closing quote |
| `JsonOrder.RenderUnique` | src/governance/identity/canonicalize.py:9-16 | whatever strings are made of: if quoted strings delimit themselves, the text of a value followed by a delimiter determines the value and where it ends |
| `JsonOrder.RenderInjective` | src/governance/identity/canonicalize.py:9-16 | different values over scalar texts never have the same canonical text; all values are in `PythonStrings.SameValueTextExactly` |
| `JsonOrder.EscapesExactly` | src/governance/identity/canonicalize.py:9-16 | the short escapes are those of RFC 8259 section 7, printable ASCII stands for itself, everything else is one long escape or a surrogate pair |
| `JsonOrder.UnitSpelled` | src/governance/identity/canonicalize.py:9-16 | a long escape spells its code unit in four lower-case hexadecimal digits |
| `JsonOrder.Printed` | src/governance/identity/canonicalize.py:9-16 | a concrete value with members, items, a number and truth values, and its text |
| `JsonOrder.RenderApart` | src/governance/identity/canonicalize.py:9-16 | the text of a value that is not a number is never a proper prefix of the text of another such value |
| `JsonOrder.AppendKeepsOrder` | src/governance/domain/impact.py:60-76 | appending the same item to two nested arrays of equal length keeps the byte order of the two texts, both ways |
| `CanonicalOrders.ArrayOrder` | src/governance/identity/canonicalize.py:9-16 | canonical texts of arrays compare by the first item that differs |
| `CanonicalOrders.ObjectOrder` | src/governance/identity/canonicalize.py:9-16 | canonical texts of objects compare by the first member whose value differs |
| `CanonicalOrders.NodeOrderExactly` | src/governance/domain/graph.py:88-97 | nodes are ordered by namespace, kind, logical id, and parent, those without parent last |
| `CanonicalOrders.EdgeOrderExactly` | src/governance/domain/graph.py:240-250 | edges are ordered by source, kind and target |
| `CanonicalOrders.RecordOrderExactly` | src/governance/domain/graph.py:148-157 | provenance records are ordered by provider, source, version, those without version last, and mode |
| `CanonicalOrders.HopOrderExactly` | src/governance/domain/impact.py:301-304 | the hops of a node are ordered by target, edge and traversal |
| `CanonicalOrders.PathOrderByRoot` | src/governance/domain/impact.py:60-76 | path keys compare by the root first |
| `CanonicalOrders.PathOrderByStep` | src/governance/domain/impact.py:60-76 | path keys from one root compare by the first step that differs: its ends, its edge, its traversal |
| `CanonicalOrders.ResultOrderExactly` | src/governance/domain/conflicts.py:86-99 | conflict results are ordered by object, then by pointer |
| `CanonicalOrders.DeclarationOrderExactly` | src/governance/domain/authority.py:161-162 | declarations are ordered by id, then by description |
| `CanonicalOrders.AuthorityOrderExactly` | src/governance/domain/authority.py:131-138 | rules are ordered by provider, source, kind, namespace and pointer, those that name a source or namespace before those that do not |
| `CanonicalOrders.ObservationOrder` | src/governance/domain/observations.py:184-189 | observations of different properties are ordered by kind, logical id, namespace, parent and pointer |
| `CanonicalOrders.ObservationOrderByRecord` | src/governance/domain/observations.py:184-189 | observations of one property are ordered by the first record that differs: mode, provider, source, version |
| `CanonicalOrders.ObservationOrderByValue` | src/governance/domain/observations.py:184-189 | with the same records they are ordered by the texts of their values |
| `PythonStrings.SameTextExactly` | src/governance/identity/canonicalize.py:9-16 | two Python strings have one text if and only if they are equal after each high surrogate directly before a low one is joined with it |
| `PythonStrings.JoinedExactly` | src/governance/identity/canonicalize.py:9-16 | a string has no such pair if and only if it is the only string without one that has its text |
| `PythonStrings.SurrogatesCollide` | src/governance/identity/canonicalize.py:9-16 | a concrete input: U+D83D U+DE00 and U+1F600 have one text |
| `PythonStrings.SameValueTextExactly` | src/governance/identity/canonicalize.py:9-16 | two JSON values have one canonical text if and only if they are equal once all their strings are joined, names included |
| `PythonStrings.CanonicalOrderExactly` | src/governance/identity/canonicalize.py:9-16 | sorting different values by canonical text forgets their input order if and only if no two of them are equal once joined |
| `Sorting.ForgetsOrderExactly` | src/governance/domain/authority.py:229-229 | a stable sort of different elements gives one result for every input order if and only if their keys differ |
| `Pointers.DecodeSegment` | src/governance/domain/observations.py:44-57 | the character loop undoes the escapes of one segment and refuses exactly the malformed ones |
| `Pointers.ParsePointer` | src/governance/domain/observations.py:34-58 | the parser refuses the root pointer, a missing slash and bad escapes, and otherwise yields the decoded segments |
| `Pointers.ParsePrinted` | src/governance/domain/observations.py:34-65 | parsing a printed path gives the path back |
| `Pointers.PrintParsed` | src/governance/domain/observations.py:34-65 | printing a parsed pointer gives the same text, so the guards against non-canonical pointers cannot fire |
| `Pointers.PrintInjective` | src/governance/domain/observations.py:60-65 | different paths print differently |
| `Graphs.CollectAncestors` | src/governance/domain/graph.py:107-117 | the walk collects all parents, nearest first; its cycle guard never cuts it short |
| `Graphs.NodeKeyInjective` | src/governance/domain/graph.py:88-97 | canonical bytes tell node identities apart |
| `Graphs.EdgeKeyInjective` | src/governance/domain/graph.py:240-250 | canonical bytes tell logical edges apart |
| `Graphs.MergeProvenance` | src/governance/domain/graph.py:56-60 | the distinct records, in canonical order |
| `Graphs.MergeGroup` | src/governance/domain/graph.py:278-299 | a group of duplicates merges exactly when all payloads agree, and pools exactly their provenance |
| `Graphs.MergeGroups` | src/governance/domain/graph.py:271-299 | grouping and merging in any order gives one part for each identity; it is refused exactly on a payload conflict |
| `Graphs.MergeParts` | src/governance/domain/graph.py:271-341 | the merged parts stand in identity order |
| `Graphs.MergeIgnoresOrder` | src/governance/domain/graph.py:266-341 | the merge does not depend on the order or repetition of its parts |
| `Graphs.MergeIdempotent` | src/governance/domain/graph.py:266-341 | a merge is its own merge |
| `Graphs.MergeOfMerges` | src/governance/domain/graph.py:266-341 | merging two merges is refused exactly when a payload disagrees, and otherwise equals merging everything at once |
| `Graphs.CheckAncestors` | src/governance/domain/graph.py:301-307 | the loop finds a missing ancestor exactly when there is one |
| `Graphs.CheckEndpoints` | src/governance/domain/graph.py:316-321 | the loop finds a missing endpoint exactly when there is one |
| `Graphs.NormalizeGraph` | src/governance/domain/graph.py:266-341 | a graph is built exactly from consistent parts closed under parents and endpoints, and is then in normal form |
| `Graphs.NormalFormIsValid` | src/governance/domain/graph.py:345-360 | normalizing a normalized graph is never refused and changes nothing |
| `Graphs.NormalizationIgnoresOrder` | src/governance/domain/graph.py:266-341 | the same parts in any order and with any repetition give the same graph |
| `Graphs.JoinGraphs` | src/governance/domain/graph.py:266-341 | joining two valid graphs is refused exactly on a node payload or edge attribute conflict, and otherwise gives the graph of all original parts |
| `Graphs.JoinKeepsProvenance` | src/governance/domain/graph.py:266-341 | a join loses no provenance record and invents none |
| `Walks.ExtendAccepted` | src/governance/domain/impact.py:79-93 | extending a recorded path along an effective hop never trips the step and path constructors |
| `Walks.ExtensionKeepsOrder` | src/governance/domain/impact.py:60-76 | for paths of equal length, appending the same hop keeps the order of the path keys, both ways |
| `Walks.CanonicalPathUnique` | src/governance/domain/impact.py:60-76 | at most one path is the least shortest path to a node |
| `Walks.CoreClosed` | src/governance/domain/impact.py:281-304 | the reached nodes are closed under effective hops |
| `Walks.CoreAdditive` | src/governance/domain/impact.py:428-491 | the core of a union of roots is the union of the cores |
| `Impact.BuildEffectiveAdjacency` | src/governance/domain/impact.py:281-304 | the adjacency holds exactly the effective hops, by source, each bucket non-empty and in hop order |
| `Impact.Relax` | src/governance/domain/impact.py:444-460 | one candidate: skipped, improved or discovered, keeping the least candidate seen for each new node |
| `Impact.ScanLayer` | src/governance/domain/impact.py:438-460 | one layer: every hop of the frontier is tried once and the least candidate of each newly met node is kept |
| `Impact.RescanLayer` | src/governance/domain/impact.py:464-475 | the second tie-break scan of a layer changes nothing |
| `Impact.CandidateLeast` | src/governance/domain/impact.py:342-354 | the candidate through a node with a least path is below every walk of that length through the same hop: optimal substructure |
| `Impact.LayerAdvances` | src/governance/domain/impact.py:436-477 | after a layer every walk of one more hop is covered and every newly kept path is shortest and least |
| `Impact.SearchComplete` | src/governance/domain/impact.py:435-477 | with an empty frontier every walk of any length ends at a known node |
| `Impact.Search` | src/governance/domain/impact.py:432-477 | the search terminates on every graph; its distances are the least hop counts of exactly the reached nodes, and each recorded path is the least shortest one over all walks |
| `ImpactResults.NormalizeChangedRoots` | src/governance/domain/impact.py:307-330 | roots are the distinct given nodes in order; refused exactly when empty or absent from the graph |
| `ImpactResults.CollectAffectedEdges` | src/governance/domain/impact.py:357-366 | the affected edges are exactly the effective edges that leave the core, in order |
| `ImpactResults.AssociateGovernanceAssets` | src/governance/domain/impact.py:369-382 | the assets are exactly the core nodes and their present ancestors that are not contracts |
| `ImpactResults.AssociateContracts` | src/governance/domain/impact.py:385-410 | the contracts are exactly those in the core and those governing a core node or an ancestor of one |
| `ImpactResults.PolicyRelevantNodes` | src/governance/domain/impact.py:413-417 | exactly the assets of a policy-relevant kind |
| `ImpactResults.AnalyzeDownstreamImpact` | src/governance/domain/impact.py:420-513 | the whole result: direct nodes at distance 1, transitive ones beyond, one canonical path for each, edges, assets and contracts |
| `ImpactResults.ImpactDetermined` | src/governance/domain/impact.py:420-513 | graph and set of roots determine the result |
| `ImpactFacts.HopsExactly` | src/governance/domain/impact.py:281-304 | the effective hops are exactly the steps over stored edges that the step constructor accepts |
| `ImpactFacts.EdgesByKind` | src/governance/domain/impact.py:286-299 | containment and governance carry impact from source to target, dependencies from target to source, other edges none; exactly the carrying edges of touched nodes are listed |
| `ImpactFacts.EdgesExactly` | src/governance/domain/impact.py:357-366 | an edge is listed exactly if it carries impact from a root or affected node, and then the node it leads to is one too |
| `ImpactFacts.TouchedLeast` | src/governance/domain/impact.py:428-491 | roots and affected nodes are the least set that contains the roots and that no stored edge leads out of |
| `ImpactFacts.DirectExactly` | src/governance/domain/impact.py:478-491 | a node is direct exactly if one stored edge leads to it from a root, transitive if it is affected otherwise |
| `ImpactFacts.PathsFollowEdges` | src/governance/domain/impact.py:79-134 | a recorded path runs from a root to its target over stored edges, each in the direction it carries impact |
| `ImpactFacts.AttachedExactly` | src/governance/domain/impact.py:369-417 | assets, contracts and policy-relevant nodes, by node kinds, ancestors and stored governance edges |
| `Identities.ParseIdentityJson` | src/governance/comparison/load.py:215-258 | the dictionary form of an identity reads back exactly when its constructor accepts it |
| `Identities.ParsedIdentity` | src/governance/comparison/load.py:215-258 | whatever reads as an identity is its dictionary form |
| `Identities.IdentityKeyInjective` | src/governance/comparison/projection.py:77-86 | canonical bytes tell identities apart |
| `Identities.CollectIdentityAncestors` | src/governance/comparison/load.py:456-469 | the listed ancestors are the chain of expected parents |
| `Declarations.AddTechProps` | src/governance/comparison/projection.py:530-538 | each technical attribute becomes one property under its own pointer, in any order of the dictionary |
| `Projection.Projector.constructor` | src/governance/comparison/projection.py:241-244 | an empty projection |
| `Projection.Projector.Register` | src/governance/comparison/projection.py:246-275 | refuses a taken raw id or identity without a trace, otherwise enters both directories and the object |
| `Projection.Projector.Declare` | src/governance/comparison/projection.py:312-334 | no error exactly when the back reference is right and both ids are new; all dictionaries stay in step |
| `Projection.Projector.DeclareTable` | src/governance/comparison/projection.py:336-455 | a table, its columns and its keys are declared without error exactly when nothing repeats and every link is right |
| `Projection.Projector.DeclareSchema` | src/governance/comparison/projection.py:312-455 | the same for a schema with its tables |
| `Projection.Projector.DeclareRelationship` | src/governance/comparison/projection.py:457-495 | a relationship goes under the table it starts from; an error exactly when that table is unknown or an id repeats |
| `Projection.Projector.ResolveColumnRefs` | src/governance/comparison/projection.py:541-586 | column ids resolve exactly when all are columns of the expected table, to the identities of those columns |
| `Projection.Projector.PatchPrimaryKey` | src/governance/comparison/projection.py:598-623 | the resolved references replace the placeholder of a primary key and of no other object; unresolved ones are an error |
| `Projection.Projector.ResolveForeignKey` | src/governance/comparison/projection.py:625-679 | a foreign key resolves exactly when its columns, its table and as many columns of that table do |
| `Projection.Projector.PatchForeignKey` | src/governance/comparison/projection.py:625-691 | a resolved foreign key gets all its references at once; an unresolved one is an error |
| `Projection.Projector.ResolveRelationship` | src/governance/comparison/projection.py:705-790 | a relationship resolves exactly when its target table does and its foreign key, if any, joins the same two tables |
| `Projection.Projector.PatchRelationship` | src/governance/comparison/projection.py:705-808 | a resolved relationship gets its references; an unresolved one is an error |
| `Projection.Projector.PatchTables` | src/governance/comparison/projection.py:589-691 | all keys are patched, in any order of the tables, without error exactly when all resolve |
| `Projection.DeclareAll` | src/governance/comparison/projection.py:276-498 | the first pass succeeds exactly when all ids and identities are distinct, all links are right and every relationship has an owner |
| `Projection.ProjectSnapshot` | src/governance/comparison/projection.py:234-527 | a projection succeeds exactly for projectable snapshots and holds exactly what the snapshot declares |
| `ProjectionProofs.ProjectionSound` | src/governance/comparison/projection.py:234-527 | a projection has both roots, is closed under parents, and every object carries the properties of its kind with well-formed values |
| `ProjectionProofs.IdsBijective` | src/governance/comparison/projection.py:241-275 | raw ids and structured identities are in bijection |
| `ProjectionProofs.ReferencesRegistered` | src/governance/comparison/projection.py:541-808 | every reference of a key, foreign key or relationship names a registered object |
| `ProjectionProofs.ForeignKeyValues` | src/governance/comparison/projection.py:589-691 | the references of a foreign key are columns of its own table, a table, and columns of that table |
| `ProjectionProofs.RelationshipValues` | src/governance/comparison/projection.py:694-808 | the references of a relationship are a table and a foreign key of its own table |
| `ProjectionProofs.RelationshipFollowsForeignKey` | src/governance/comparison/projection.py:694-808 | a relationship and the foreign key it names lead to the same table |
| `ProjectionProofs.ProjectionUnique` | src/governance/comparison/projection.py:234-527 | a snapshot has one projection |
| `ModelFacts.ProjectionTells` | src/governance/comparison/projection.py:276-808 | every property of every projected object is the field of the domain model it stands for, references given by names |
| `ModelFacts.ToldInjective` | src/governance/comparison/projection.py:276-808 | two facts about one object that tell the same properties agree in every field |
| `PropertyChecks.CheckColumnList` | src/governance/comparison/properties.py:95-119 | the loop accepts exactly the non-empty lists of columns of the required table, or of one table |
| `PropertyChecks.TechPointerCompatible` | src/governance/comparison/properties.py:32-55 | the pointer of any technical attribute parses to its key and is accepted for every kind that has such attributes |
| `Comparisons.SidesEqualSame` | src/governance/comparison/compare.py:16-25 | comparing canonical texts is comparing presence-aware values |
| `Comparisons.DiffProperties` | src/governance/comparison/compare.py:28-50 | lists exactly the properties that differ, each once, in pointer order, with both sides |
| `Comparisons.DiffUnique` | src/governance/comparison/compare.py:28-50 | two property maps have one diff |
| `Comparisons.DiffSwaps` | src/governance/comparison/compare.py:28-50 | swapping the sides of a diff gives the diff of the other direction |
| `Comparisons.DiffApplies` | src/governance/comparison/compare.py:28-50 | applying the listed changes to the baseline properties gives exactly those of the candidate |
| `Comparisons.ListOneSided` | src/governance/comparison/compare.py:73-97 | one entry without property changes for each identity of one side |
| `Comparisons.ListChanged` | src/governance/comparison/compare.py:99-117 | one entry for each matched object that differs; changed, unchanged and property counts are exact |
| `Comparisons.CompareProjected` | src/governance/comparison/compare.py:56-136 | lists exactly the identities that differ, once each, in canonical order, with exact counts |
| `Comparisons.Conservation` | src/governance/comparison/compare.py:129-135 | unchanged, changed and removed add up to the baseline; unchanged, changed and added to the candidate |
| `Comparisons.ListedChangesApply` | src/governance/comparison/compare.py:99-117 | a matched object is unlisted exactly when it is equal on both sides; listed changes rebuild the candidate |
| `Inversion.ListingUnique` | src/governance/comparison/compare.py:56-136 | two projections have one comparison |
| `Inversion.ComparisonInverts` | src/governance/comparison/compare.py:56-136 | the other direction lists the inverse of every entry in canonical order, with added and removed swapped |
| `ComparisonCheck.CheckForeignKey` | src/governance/comparison/properties.py:207-240 | accepts exactly when on both sides the referenced columns belong to the referenced table |
| `ComparisonCheck.CheckProperties` | src/governance/comparison/load.py:695-826 | accepts exactly non-empty, strictly ordered lists of fitting, materially different property changes |
| `ComparisonCheck.CheckEntries` | src/governance/comparison/load.py:639-837 | accepts exactly entries with readable, distinct identities, the implied parents and acceptable changes |
| `ComparisonCheck.CheckRoots` | src/governance/comparison/load.py:499-516 | accepts exactly when no root is added or removed |
| `ComparisonCheck.FindNameChange` | src/governance/comparison/load.py:519-531 | finds the first name change of a root |
| `ComparisonCheck.CheckName` | src/governance/comparison/load.py:534-584 | accepts exactly when the name change of a root tells the names in the metadata |
| `ComparisonCheck.CheckHierarchy` | src/governance/comparison/load.py:472-496 | accepts exactly when whatever lies below an added or removed object shares its change |
| `ComparisonCheck.CheckOrder` | src/governance/comparison/load.py:843-861 | accepts exactly the canonically ordered lists |
| `ComparisonCheck.CheckProducers` | src/governance/comparison/load.py:335-382 | accepts exactly matching system types and scanners under the supported contract |
| `ComparisonCheck.CheckAlignment` | src/governance/comparison/load.py:385-453 | accepts exactly the alignment block that the metadata implies |
| `ComparisonCheck.ValidateComparison` | src/governance/comparison/load.py:587-943 | the whole check accepts exactly the declared conditions, with recounted summary and fitting status |
| `AcceptanceFacts.ParentExactly` | src/governance/comparison/load.py:261-291 | a stored parent is accepted exactly if it is the persisted identity one level up on the same path |
| `AcceptanceFacts.AcceptedEntryNamed` | src/governance/comparison/load.py:639-680 | every entry of an accepted comparison names an object of one of eight kinds, and its container |
| `AcceptanceFacts.ChangeAcceptedExactly` | src/governance/comparison/properties.py:32-204 | a property change is accepted exactly if the values differ and are those of a technical attribute, or of the form its kind of object allows |
| `Build.ResolveRootAlignment` | src/governance/comparison/align.py:35-85 | refused exactly when a differing root was not acknowledged; flags for equal roots leave no trace |
| `Build.ValidatePairwiseScanner` | src/governance/comparison/result.py:39-66 | accepts exactly matching system types and scanners |
| `Build.BuildComparisonResult` | src/governance/comparison/result.py:69-106 | built exactly for projectable, acknowledged pairs of one scanner; the inconsistent-summary error cannot be raised |
| `ComparisonFacts.EnvelopeExactly` | src/governance/comparison/projection.py:61-232 | a snapshot can be compared only if its envelope repeats the model and names a scanner under contract 1 |
| `ComparisonFacts.EnvelopeTold` | src/governance/comparison/result.py:69-106 | the two sides of a comparison carry the envelopes of their own snapshots |
| `ComparisonFacts.MatchedExactly` | src/governance/comparison/compare.py:99-117 | an object of both snapshots is listed exactly if they say different things of it, with exactly the differing properties and both values |
| `ComparisonFacts.AddedExactly` | src/governance/comparison/compare.py:73-97 | an object of the candidate is listed as added, under its container, exactly if the baseline has none of that name |
| `ComparisonFacts.RemovedExactly` | src/governance/comparison/compare.py:73-97 | the same for removed |
| `ComparisonFacts.EntryKnown` | src/governance/comparison/compare.py:56-136 | nothing else is listed |
| `ComparisonFacts.IdenticalExactly` | src/governance/comparison/result.py:69-106 | the status is identical exactly if the two models say the same, up to raw ids and order |
| `ComparisonFacts.ColumnsCompared` | src/governance/comparison/compare.py:99-117 | a column is unlisted exactly if type, position, nullability, description and technical attributes agree; a type change carries both types |
| `ComparisonFacts.SummaryTold` | src/governance/comparison/compare.py:129-135 | the summary counts added, removed and changed entries and all property changes in them |
| `ComparisonFacts.ListedInOrder` | src/governance/comparison/compare.py:118-127 | entries stand in the order added, removed, changed, and by identity text within each |
| `ComparisonFacts.NamedOrder` | src/governance/comparison/projection.py:77-86 | identity texts compare by kind, then by the first name that differs |
| `ProducerSoundness.BuiltIsAccepted` | src/governance/comparison/result.py:69-106 | every comparison that is built passes the independent check |
| `ProducerSoundness.PropertiesAcceptable` | src/governance/comparison/properties.py:177-240 | every property diff of two projected objects has pointers, values and foreign-key sides that the check accepts |
| `ProducerSoundness.HierarchyKept` | src/governance/comparison/load.py:472-496 | a comparison of two projections never breaks the hierarchy rule |
| `ProducerSoundness.RootNameTold` | src/governance/comparison/load.py:534-584 | the name entries of the roots tell the names of the two projections |
| `ProducerSoundness.BuildAndValidate` | src/governance/comparison/result.py:69-106 | building and checking one after the other never fails at the check |
| `Directions.BuiltInverse` | src/governance/comparison/result.py:109-154 | the result of the other direction is exactly the inverse of the result |
| `Directions.BuiltAreInverse` | src/governance/comparison/result.py:109-154 | the two results satisfy everything the inversion assertion demands, both ways round |
| `Directions.ComparableSymmetric` | src/governance/comparison/result.py:69-106 | one direction can be built exactly when the other can |
| `Directions.BuiltConserves` | src/governance/comparison/compare.py:56-136 | a built comparison accounts for every object of both snapshots and rebuilds every matched object |
| `Observations.EntryKeyTellsObserved` | src/governance/domain/observations.py:184-189 | the sort text of an observation determines object, path and value |
| `Observations.NormalizeObservations` | src/governance/domain/observations.py:160-189 | one observation for each observed value with exactly the pooled provenance, in canonical order |
| `Observations.NormalizedUnique` | src/governance/domain/observations.py:160-189 | the normalized set does not depend on order or repetition |
| `Observations.NormalizedFixed` | src/governance/domain/observations.py:128-129 | normalizing again changes nothing |
| `Observations.NothingLost` | src/governance/domain/observations.py:160-189 | every observation keeps all its records |
| `Observations.MergeSets` | src/governance/domain/observations.py:138-147 | merging sets is normalizing all their observations |
| `Observations.MergeOfSets` | src/governance/domain/observations.py:138-147 | merging two normalized sets equals normalizing the raw observations of both |
| `Observations.Builder.constructor` | src/governance/domain/observations.py:192-198 | a builder starts empty |
| `Observations.Builder.Observe` | src/governance/domain/observations.py:200-213 | appends one pending observation |
| `Observations.Builder.Build` | src/governance/domain/observations.py:215-225 | the built set is the normalization of what was observed |
| `Observations.BuiltRecords` | src/governance/domain/observations.py:192-225 | a record is in the built set under a value exactly when it was observed with that value |
| `Authority.KeyTextInjective` | src/governance/domain/authority.py:131-138 | canonical bytes tell rule keys of scalar texts apart |
| `RuleKeyOrder.KeyTextPoints` | src/governance/domain/authority.py:131-138 | the canonical bytes of such a key are those of the same key over code points |
| `RuleKeyOrder.SameKeyTextExactly` | src/governance/domain/authority.py:131-138 | two rule keys over code points have the same canonical bytes if and only if they are equal once joined |
| `RuleKeyOrder.RuleOrderExactly` | src/governance/domain/authority.py:215-229 | the order of the rules does not depend on the order of loading if and only if no two keys are equal once joined |
| `RuleKeyOrder.NamespacesTie` | src/governance/domain/authority.py:215-229 | a concrete input: rules for the namespaces U+D83D U+DE00 and U+1F600 stay in the order in which they were loaded |
| `Authority.NormalizeRules` | src/governance/domain/authority.py:215-229 | one rule for each key with exactly its declarations, in canonical order |
| `Authority.RulesUnique` | src/governance/domain/authority.py:215-229 | the normalized rule set does not depend on order or repetition |
| `Authority.ReadFile` | src/governance/authority/load.py:110-123 | an entry is kept exactly when its id is new |
| `Authority.CheckAmbiguity` | src/governance/authority/load.py:128-166 | refuses exactly when one selector has two targets |
| `Authority.LoadRules` | src/governance/authority/load.py:66-172 | loads exactly when every file reads, ids are distinct and no selector is ambiguous |
| `Authority.PermutedRearranged` | src/governance/authority/load.py:66-106 | files in another order have the same entries and the same unreadable files |
| `Authority.LoadIgnoresOrder` | src/governance/authority/load.py:66-172 | whether files load, and to what, does not depend on the order of the files, readable or not, nor on which file holds which rule |
| `Authority.SelectorDetermined` | src/governance/domain/authority.py:65-74 | two matching selectors of equal specificity are the same |
| `Authority.TopUnique` | src/governance/domain/authority.py:205-212 | among loaded rules at most one is the most specific for any object and property |
| `Authority.UntiedExactly` | src/governance/domain/authority.py:205-212 | no object and property has two most specific rules if and only if no selector has two targets: the check of the loader is necessary and sufficient |
| `Authority.SelectorTies` | src/governance/domain/authority.py:205-212 | two targets of one selector tie for an object of its kind with any logical id and parent |
| `Conflicts.WinnersAreTop` | src/governance/domain/conflicts.py:169-180 | filtering by the highest rank keeps exactly the most specific matching rules |
| `Conflicts.AuthorizedValues` | src/governance/domain/conflicts.py:197-200 | exactly the values that a record of the authority backs |
| `Conflicts.Arbitrate` | src/governance/domain/conflicts.py:169-229 | with several values the verdict follows from the matching rules as declared |
| `Conflicts.AnalyzeGroup` | src/governance/domain/conflicts.py:136-229 | the result of one property is the declared verdict on all its values |
| `Conflicts.AnalyzeConflicts` | src/governance/domain/conflicts.py:112-133 | one result for each observed property, in canonical order |
| `Conflicts.ResultUnique` | src/governance/domain/conflicts.py:136-229 | observations and rules determine the result of a property |
| `Conflicts.ReportIgnoresOrder` | src/governance/domain/conflicts.py:112-133 | the report is the same for any order and repetition of observations and rules |
| `Conflicts.OneResultEach` | src/governance/domain/conflicts.py:80-133 | a property has a result exactly when it was observed, and only one |
| `Conflicts.EffectiveExactly` | src/governance/domain/conflicts.py:147-229 | there is an effective value exactly for one observed value, or one value backed by the unique most specific rule |
| `ConflictFacts.DecidedExactly` | src/governance/domain/conflicts.py:169-229 | with several values and one most specific rule: a value is effective exactly if it alone has a record of the provider and, if named, the source of that rule; the other reasons follow likewise |
| `ConflictFacts.UndecidedExactly` | src/governance/domain/conflicts.py:169-193 | with several values: no rule applies, or two different most specific ones do |
| `ConflictFacts.SingleValue` | src/governance/domain/conflicts.py:147-167 | one value is effective, whoever observed it |
| `ConflictFacts.GroupsExactly` | src/governance/domain/conflicts.py:112-146 | the value groups are the observations of that object and path, one for each value |
| `Conflicts.AmbiguousExactly` | src/governance/domain/conflicts.py:179-193 | no observations whatever lead to the ambiguous state if and only if no selector of the rules has two targets |
| `Conflicts.LoadedNeverAmbiguous` | src/governance/domain/conflicts.py:179-193 | with rules that the loader accepted the ambiguous state cannot appear |
| `Conflicts.Report` | src/governance/domain/conflicts.py:112-133 | from raw observations and files to a report without an ambiguous result |
| `DriftPolicies.ProjectionInjective` | src/governance/drift/models.py:38-41 | the projection text of an expectation determines the expectation, and never equals the marker for none |
| `DriftFacts.ExpectationNamed` | src/governance/drift/models.py:38-41 | the projection is the text of an object with exactly the stated sides, each telling whether there is a value and which |
| `DriftPolicies.NormalizeRule` | src/governance/drift/policy.py:137-385 | a rule is accepted exactly under the stated constraints |
| `DriftPolicies.CheckAmbiguity` | src/governance/drift/policy.py:116-134 | refuses exactly when rules of one selector expect different things |
| `DriftPolicies.SelectorsComparable` | src/governance/drift/policy.py:122-122 | sorting the selectors of accepted rules, ambiguous or not, never compares an absent property with a text |
| `DriftPolicies.ParsePolicy` | src/governance/drift/policy.py:87-113 | a policy is accepted exactly when all rules are, ids are distinct and no selector is ambiguous |
| `Drift.ClassifySound` | src/governance/drift/classify.py:45-123 | for a normalized policy the ambiguity error is not raised, the presence-only assertion holds, and the verdict is the declared one |
| `Drift.JudgedUnique` | src/governance/drift/classify.py:45-123 | the verdict on a difference does not depend on the order of the rules, although only the first expectation is read |
| `Drift.ClassifyDifference` | src/governance/drift/classify.py:45-123 | looking rules up in the index classifies as declared |
| `Drift.ClassifyDrift` | src/governance/drift/classify.py:19-33 | the classified list is the sorted list of all differences of the comparison, each with its verdict |
| `Drift.CoversAll` | src/governance/drift/classify.py:19-33 | every difference is classified exactly once, and the list is in order |
| `DriftFacts.ObjectExpectedExactly` | src/governance/drift/classify.py:45-72 | an added or removed object is expected exactly if some rule of the document has that change, reads as that identity and names no property |
| `DriftFacts.PropertyExpectedExactly` | src/governance/drift/classify.py:75-147 | a property change is expected exactly if some rule names that object and pointer, and the stated sides of every such rule are the actual ones |
| `DriftFacts.VerdictsExactly` | src/governance/drift/classify.py:45-123 | classification, reason and reported rule ids of every entry, by the rules of the document |
| `DriftFacts.ClassifiedInOrder` | src/governance/drift/classify.py:150-160 | unexpected drift comes first, then identities by text, then pointers |
| `DriftFacts.StripExactly` | src/governance/drift/policy.py:137-160 | a rule id loses the white space at its ends and nothing else |
| `Drift.StatusInvariants` | src/governance/drift/result.py:103-115 | the checks on status and summary cannot fail |
| `Drift.CountsAddUp` | src/governance/drift/result.py:80-94 | expected and unexpected counts add up to the list; property drift is part of the unexpected |
| `DriftFacts.CountsExactly` | src/governance/drift/result.py:80-94 | the counts are the numbers of expected entries, unexpected entries, unexpected property changes, and objects |
| `Drift.BuildDriftResult` | src/governance/drift/result.py:12-77 | a result is built exactly when the comparison is identical or there is a policy |
| `DriftProofs.ClassifiedOnce` | src/governance/drift/classify.py:19-33 | on an accepted comparison classified entries and differences correspond one to one |
| `DriftProofs.ClassifiedStrict` | src/governance/drift/classify.py:28-33 | on an accepted comparison no two entries of the classified list have the same sort key |
| `DriftProofs.ClassifiedIgnoresRuleOrder` | src/governance/drift/classify.py:19-33 | for every comparison the classified list is the same for any order of the rules |
| `DriftProofs.PolicyIdentityIgnoresOrder` | src/governance/drift/models.py:60-69 | the identity of a policy does not depend on the order of its rules |
| `DriftFacts.PolicyInOrder` | src/governance/drift/models.py:84-95 | the identity of a policy lists all its rules, ordered by change, identity text, pointer, expectation text and id |
| `DriftProofs.DriftIgnoresRuleOrder` | src/governance/drift/result.py:12-53 | for every comparison the whole drift result is the same for any order of the rules |
| `DriftProofs.NoDifferenceExactly` | src/governance/drift/result.py:12-53 | on an accepted comparison the status is no_difference exactly when the comparison is identical |
| `DriftProofs.DriftCounts` | src/governance/drift/result.py:80-94 | every changed object is affected once, the counts cover all differences, and the status follows from them |
| `Review.BuildConflictsBlock` | src/governance/github_ci/review.py:106-158 | built exactly for aligned assessments, with the counts of states and verdicts |
| `ReportFacts.EntryNamed` | src/governance/domain/conflicts.py:65-77 | an entry of the report names object and property and carries every value with its records |
| `ReportFacts.WinnerNamed` | src/governance/domain/conflicts.py:65-77 | and the target and selector of the rule that decided |
| `ReportFacts.StatesExactly` | src/governance/domain/conflicts.py:136-229 | the state text of an entry, by the number of values, the effective value and tied rules |
| `ReportFacts.ReasonsExactly` | src/governance/domain/conflicts.py:136-229 | the reason text of an entry, by the rules that decide and the records of the values |
| `ReportFacts.AssessmentsNamed` | src/governance/github_ci/review.py:106-158 | each assessment stands at the place of its result and repeats it |
| `ReportFacts.LaneCounted` | src/governance/github_ci/review.py:106-158 | the counts are the numbers of entries of each state and of assessments of each verdict |
| `ReportFacts.LaneStatusExactly` | src/governance/github_ci/review.py:106-158 | blocked by an unsafe applicable assessment, else findings on an open conflict, else clear |
| `Review.AssertActiveConflicts` | src/governance/github_ci/review.py:318-470 | accepts exactly the conflict lanes whose counts, status and identity can be recomputed |
| `Review.AssertActiveDrift` | src/governance/github_ci/review.py:473-528 | accepts exactly the drift lanes whose status fits its counts and policy |
| `Review.AssertLaneInvariants` | src/governance/github_ci/review.py:644-685 | accepts exactly consistent review results |
| `Review.BuiltConflictsPass` | src/governance/github_ci/review.py:106-158 | a conflict lane that is built passes its check |
| `Review.DriftBlockTold` | src/governance/github_ci/review.py:161-191 | the drift lane names baseline and candidate each on its own side, and the comparison, policy, result, status and summary behind it |
| `Review.BuiltDriftPasses` | src/governance/github_ci/review.py:161-191 | a drift lane that is built from a drift result passes its check |
| `Review.BuiltReviewPasses` | src/governance/github_ci/review.py:200-218 | every review result that is built passes the check of both lanes |
| `Review.BlockedExactly` | src/governance/github_ci/review.py:194-197 | a review is blocked exactly when an applicable reconciliation is not safe or some difference is unexpected drift |
| `History.HistoryFile.constructor` | src/governance/history/append.py:142-143 | no history is stored at first |
| `History.HistoryFile.Append` | src/governance/history/append.py:58-242 | adds the entry exactly when it is admissible, otherwise changes nothing |
| `HistoryFacts.FirstCall` | src/governance/history/append.py:168-172 | the first call is admitted exactly if everything reads; each root is then aligned exactly if the call said so, and the entry records the call |
| `History.StepGrows` | src/governance/history/append.py:231-241 | one call keeps the policy, the old entries and the chain |
| `History.RunGrows` | src/governance/history/append.py:142-242 | at every point of a run the history is chained and extends every earlier one |
| `HistoryFacts.RunRecorded` | src/governance/history/append.py:142-242 | over any run from no history the entries are those of the admitted calls, in order, with their snapshots, labels and contexts, and the policy is that of the first |
| `HistoryFacts.NamesStay` | src/governance/history/append.py:200-211 | over any run from no history a root keeps its name unless the first admitted call aligned it |
| `HistoryFacts.AdmittedExactly` | src/governance/history/append.py:142-229 | a later call is admitted exactly if it reads, repeats the flags of the first, compares with the last snapshot, with another root name only if aligned, and differs in state |
| `History.ChainAlike` | src/governance/history/append.py:200-211 | any two entries share system type and scanner, and the names of roots that are not aligned |
| `History.ChainProjectable` | src/governance/history/append.py:200-211 | with two or more entries every stored snapshot can be projected |
| `History.RunInvariants` | src/governance/history/append.py:142-242 | over any run: old entries stay a prefix, the policy never changes, neighbours differ, snapshots stay alike |

## Left out

- Outside `JsonText`, `PythonStrings` and `RuleKeyOrder` strings are sequences of Unicode scalar values, so their results are about inputs without unpaired surrogates. Where such a result rests on canonical text telling values apart, `PythonStrings.SameValueTextExactly` says for which other inputs that holds, and `RuleKeyOrder.NamespacesTie` gives one for which it does not.
- Authority.RulesUnique: stated for rule keys of scalar texts; on keys with unpaired surrogates it can fail, and `RuleKeyOrder.RuleOrderExactly` says exactly when.
- Authority.LoadIgnoresOrder: what it says of the loaded rules is stated for keys of scalar texts, for the same reason.
- Parsing of YAML and JSON, JSON Schema validation, files, and checks of runtime types: the model starts from parsed documents of the right shape. An artifact side such as `has_value` without a value, or an identity whose path is not a list of texts, is not representable or simply does not read as an identity.
- Constructors that strip white space or refuse empty texts in graph identities, provenance records, selectors and targets: the model takes the texts they leave. The domain models of a snapshot keep their checks (`ModelOk`).
- `identity/json_values.py`: rejecting values that are not JSON and tagging objects and arrays are not modelled; its fingerprint of a value is the canonical text, as in the model.
- `identity/hashing.py`: the digests are not modelled. A content identity is compared by the content it was computed from, which takes the hash to be free of collisions.
- `reconciliation/`: how safe an action is, is not modelled; assessments are arbitrary inputs of a review.
- `history/load.py` and `history/context.py`: reading a stored history back resolves every entry and compares neighbours once more; a stored entry stands for the snapshot it was made from, and loaded files are inputs of a call.
- `history/models.py`: normalizing paths, labels and time stamps is not modelled; a call has them normalized.
- Schema name, version and integrity checks when an artifact is read, which compare constants or digests.
- Result objects that sort or deduplicate their own fields again: the fields arrive sorted, so nothing changes.
- Diagnostics: codes, paths, messages and their order. A loop that collects diagnostics is modelled by counting them.
- Technical and graph attributes are normalized JSON values; normalizing them is not modelled.
- Command line, GitHub runner, comments, reports, configuration, conformance runs and vendor adapters.
