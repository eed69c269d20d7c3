# otelcol-config-lint, modelled in Dafny

This project models the parts of the OpenTelemetry Collector configuration linter whose correctness does not show from
reading one function at a time, and proves what each of them is for.

- **Loading a configuration** (`yaml_graph`, `preflight`, `acceptance`, `merge`, `reading`, `merge_shape`, `resolver`,
  `load`). A document is a graph of nodes: content joins them into a tree, and aliases add edges that share nodes. The
  preflight accepts it when its unfolding is finite, decodable and not too large; the resolver then rewrites every
  reachable node once, in place, replacing aliases and `<<` keys. Both work on the mutable graph; what the document
  means is a function of its unfolding.
- **Linting many files** (`lint_all`). A dispatcher, an unbuffered channel, workers, and a cancellation at any moment,
  as a step relation.
- **Pipelines** (`config_index`, `upstream`). The index over a configuration, and the memoised search that decides
  whether everything arriving at a pipeline has already passed a given processor.
- **The schema registry** (`retry`, `cache_protocol`, `cache_history`, `cache_reads`, `text`, `decimal`, `version`,
  `semver`, `loose_versions`, `spans`, `availability`). The disk cache and HTTP revalidation under any interleaving
  and any crash, the version order, and the compressed index of which releases ship a component.
- **Field schemas** (`field_schema`, `field_walker`, `visited`, `coverage`, `conformance`, `partial_schemas`,
  `enrich`). The walk the field rules share, what its silence proves, and the merging of two schemas in place.
- **Suggestions, credentials, annotations and quantities** (`edit_distance`, `secrets`, `annotations`, `quantity`).

Objects that the program updates are classes whose methods are proved against functions of the old state; loops over
arrays, sets and maps stay loops; what the functions mean is proved beside them as lemmas. `dafny verify dfyconfig.toml`
checks the whole project.

## Assumptions taken from outside

- The YAML parser hands over one document whose content edges form a tree, with every alias naming an earlier node
  (section 7.1 of YAML 1.2). `Preflight.ParserShape` says this with a numbering of the nodes in document order. Whether a
  scalar decodes under its tag is a field of the node.
- File renames are atomic, a temporary file is created under a name nobody else uses, and a cache entry's encoding
  determines its body and validator (`CacheProtocol.Faithful`). Where a read is said to be current, the registry answers
  "not modified" only to its current validator (section 15.4.5 of RFC 9110).
- Floating-point arithmetic appears only through `Quantity.IsFloat64`, which `Quantity.TenthsWillDo` shows can be met.
- An expansion written in the place of a pipeline's list leaves the list without references of its own
  (`Upstream.ListsAreRead`).
- What a confmap expansion looks like, which scalars the number and duration readers accept, which key opens a headers
  map and which value is a credential are functions the theorems hold for any choice of.
- In the generic modules keys, versions, nodes and text elements are type parameters. Settings paths are sequences of
  keys and indices, so no two of them are confused as dotted texts may be.

## Model

| member | source | states |
|---|---|---|
| `Preflight.AliasTarget` | pkg/config/resolve.go:113-119 | an alias chain ends at the node its unfolding stands for |
| `Preflight.ValidateNode` | pkg/config/resolve.go:65-110 | true exactly when the node's own constraints hold of its unfolding: tags decode, keys are scalars, merge keys list mappings |
| `Preflight.SourcesAreMappings` | pkg/config/resolve.go:65-110 | true exactly when everything a merge key lists is a mapping, behind aliases too |
| `Preflight.Sizer.ExpandedSize` | pkg/config/resolve.go:18-62 | succeeds exactly when the unfolding from the node exists, satisfies every constraint and has at most 100,000 nodes; then returns its exact size. A refusal names an alias that leads back to itself, a node that fails its own constraints, or an edge out of a node whose unfolding is too large |
| `Preflight.Sizer.CountChildren` | pkg/config/resolve.go:36-61 | the running count never exceeds the unfolding, and meets it when every child is acceptable |
| `YamlGraph.CycleHasNoTree` | pkg/config/resolve.go:18-34 | a node with a successor on the way down to it has no finite unfolding |
| `YamlGraph.UnfoldingIsUnique` | pkg/config/resolve.go:18-62 | a graph has at most one unfolding from a node |
| `Acceptance.BoundedIsFewPaths` | pkg/config/resolve.go:18-62 | there is an unfolding of so many nodes if and only if the document has so many paths from there, counted edge by edge |
| `Acceptance.AcceptedIsDecodable` | pkg/config/resolve.go:18-111 | what the preflight accepts, on the graph as written: at most 100,000 paths, and at the end of each no scalar that is tagged and does not decode, no key that ends its alias chain at a mapping or a sequence, and no merge source that ends its chain at anything but a mapping |
| `Acceptance.ExplainedIsBlamed` | pkg/config/resolve.go:30-57 | and what a refusal says, told by paths |
| `Merge.FindResolved` | pkg/config/resolve.go:194-263 | first-match lookup in a rewritten mapping equals the recursive reading of the written one: own entry first, otherwise the first source in document order that has the key |
| `Merge.MergedResolved` | pkg/config/resolve.go:218-263 | the same for what the merge keys of one mapping supply |
| `Reading.FindIs` | pkg/config/resolve.go:194-263 | the reading itself, on the entries: the first entry not tagged as a merge whose key stands for the name; failing that what the first source, in document order, that has the name means by it; otherwise nothing |
| `Reading.KeysAsWritten` | pkg/config/resolve.go:196-263 | a rewritten mapping holds a key as often as the mapping writes it itself, once where it is only merged in, and otherwise not at all |
| `Merge.ResolutionPreservesMeaning` | pkg/config/resolve.go:142-263 | along every path of keys and indices, plain reading of the rewritten document reaches what the written one means, and nothing where it means nothing |
| `MergeShape.ResolvedHasNoAliases` | pkg/config/resolve.go:157-173 | the rewritten document holds no alias |
| `MergeShape.ResolvedHasNoMergeKeys` | pkg/config/resolve.go:194-216 | nor a merge key, when no mapping has a key that is an alias of one; an alias of one anywhere else does no harm |
| `MergeShape.MergeKeySurvives` | pkg/config/resolve.go:194-216 | and of one mapping, with everything under it as it should be, exactly then: an alias of a merge key, as a key, leaves a merge key behind |
| `MergeShape.ResolvedFits` | pkg/config/resolve.go:121-141 | the rewrite never enlarges the unfolding |
| `Resolver.Resolver.Value` | pkg/config/resolve.go:157-173 | returns the node an alias chain ends at, finished; no node finished before is touched again |
| `Resolver.Resolver.Walk` | pkg/config/resolve.go:176-192 | after it the node is walked and every walked node that is not in progress holds exactly its resolved entries; an unfinished node is never entered again |
| `Resolver.Resolver.Items` | pkg/config/resolve.go:176-192 | overwrites the slots of a sequence one by one with what they stand for |
| `Resolver.Resolver.Mapping` | pkg/config/resolve.go:196-216 | assigns a mapping its own entries followed by what its merge keys supply |
| `Resolver.Resolver.MergeSources` | pkg/config/resolve.go:221-232 | the sources a merge key names, each already fully rewritten when it is read |
| `Resolver.Resolver.MergedEntries` | pkg/config/resolve.go:238-263 | of the sources' entries, in order, the first for each key the mapping does not write itself |
| `Load.DoneUnfolds` | pkg/config/resolve.go:142-216 | with nothing in progress, a walked node of the mutated graph unfolds into its resolved tree |
| `Load.ResolvedResolves` | pkg/config/resolve.go:121-263 | the resolved tree means what the written one did, is no larger, and is free of aliases, and of merge keys where no key is an alias of one |
| `Load.Parse` | pkg/config/parse.go:202-266 | preflight, then rewrite: accepted exactly when there are at most 100,000 paths and nothing on them that cannot be decoded; an accepted graph then unfolds into a document with the written meaning and at most 100,000 nodes; a refused one is untouched, and the reason given is one |
| `LintAll.StepKeeps` | pkg/lint/linter.go:232-282 | every step of dispatcher, worker or cancellation keeps the invariant |
| `LintAll.RunInv` | pkg/lint/linter.go:232-282 | so it holds at every point of every run |
| `LintAll.NothingTwice` | pkg/lint/linter.go:226-282 | in every interleaving each index is handed out at most once, no two workers hold the same one, and no slot is written twice |
| `LintAll.ReturnsEverything` | pkg/lint/linter.go:226-282 | a run that returns results returns the right one for every path in input order, after every worker has left; one that returns none was cancelled |
| `LintAll.CollectsUncancelled` | pkg/lint/linter.go:275-282 | what is collected is every result if the call is not cancelled by then, and nothing if it is |
| `LintAll.StopsWhenCancelled` | pkg/lint/linter.go:240-272 | after a cancellation no file is begun, at most one more index is handed out, and nothing is returned |
| `LintAll.UncancelledSoFar` | pkg/lint/linter.go:226-282 | a state is cancelled exactly when a cancellation step came before it |
| `LintAll.NeverStuck` | pkg/lint/linter.go:232-282 | until it returns, some step other than a cancellation is possible |
| `LintAll.StepFalls` | pkg/lint/linter.go:232-282 | every step but a cancellation brings a measure down |
| `LintAll.EveryRunReturns` | pkg/lint/linter.go:226-282 | every run takes at most five steps per path and five more, one that can go no further has returned, and one never cancelled returns every result |
| `ConfigIndex.Index.constructor` | pkg/rule/index.go:38-101 | the maps built by the loops hold exactly what the file declares, what its references resolve to, what is enabled and what feeds each connector |
| `ConfigIndex.Index.Resolve` | pkg/rule/index.go:143-159 | a reference resolves to a component of the slot's kind, failing that to a connector, and to nothing otherwise |
| `ConfigIndex.Index.WirePipeline` | pkg/rule/index.go:75-98 | one pipeline adds exactly its own references, as receiver and as exporter |
| `ConfigIndex.Index.MarkUsed` | pkg/rule/index.go:214-220 | marks one component of one kind and no other |
| `Upstream.Search.Walk` | pkg/rule/upstream.go:13-72 | with false remembered on entry, a yes rests on yeses found before it and a no is final or depends only on visits still unfinished |
| `Upstream.Search.Producers` | pkg/rule/upstream.go:13-72 | looks through exactly the pipelines whose exporters resolve to the connector |
| `Upstream.Search.PassesProcessor` | pkg/rule/upstream.go:74-83 | whether a listed processor type is in the pipeline |
| `Upstream.ExplainedNosFail` | pkg/rule/upstream.go:13-72 | visits that are each a no because of another among them are derivable in no number of steps, so an unfinished false never changes the answer |
| `Upstream.ProvenHolds` | pkg/rule/upstream.go:13-72 | yeses that each rest on earlier ones are derivable |
| `Upstream.StatesAreFew` | pkg/rule/upstream.go:13-72 | there are at most two states a pipeline, which is what bounds the recursion |
| `Upstream.UpstreamCovered` | pkg/rule/upstream.go:13-72 | for every file, true exactly when every exporter reference is written out and coverage is derivable in the least fixed point, pipelines written under one key being taken for one of them; where keys are distinct that is coverage itself, and coverage in every file the Collector may come to read in place of this one |
| `Upstream.CoveredWhateverExpands` | pkg/rule/upstream.go:14-16 | what is covered stays covered whatever stands in the place of the expansions: a reference, a list, a pipeline or all pipelines |
| `Upstream.SharedKeyFeeder` | pkg/rule/upstream.go:24-35 | a pipeline fed by another one under its own key is never covered, whichever is chosen, unless it has a processor itself |
| `Upstream.SharedKeyMisleads` | pkg/rule/upstream.go:24-35 | so there is a file in which a covered pipeline is answered with no, because a key is written twice |
| `Upstream.CoveredIsEveryWalk` | pkg/rule/upstream.go:13-72 | coverage is exactly: backward walks end, and every one keeps its signal, goes through allowed connectors, ends at a real receiver and has passed a listed processor |
| `Retry.RetryDelay` | pkg/schema/retry.go:68-75 | a wait is what was asked for or the backoff, never above ten seconds |
| `CacheProtocol.StepKeeps` | pkg/schema/cache.go:115-177 | every step of every reader and writer, every failure and every registry change keeps the invariant |
| `CacheProtocol.EntriesAreWhole` | pkg/schema/cache.go:46-177 | at every point of every run, whatever loads is a body and a validator that one response for that location carried together |
| `CacheProtocol.EntriesChangeOnlyWhole` | pkg/schema/cache.go:131-177 | what a location loads changes only by renaming a complete entry into place, or by a reader that found a bad entry dropping whatever is there by then |
| `CacheHistory.LoadsLastWrite` | pkg/schema/cache.go:131-177 | in every run, what a location loads is exactly the entry of the last rename into place that no drop has undone |
| `CacheHistory.DropFollowsLoad` | pkg/schema/store.go:745-766 | a reader about to drop an entry loaded one that failed validation |
| `CacheHistory.DropsWhatFailed` | pkg/schema/store.go:745-766 | what it drops is that very entry if and only if nothing was renamed into place or dropped there in between, and is a good one if and only if the last rename in between put one there |
| `CacheHistory.GoodEntryLost` | pkg/schema/store.go:745-766 | a run in which it drops a good one: bad entry loaded, good one renamed into place by another process, file removed |
| `CacheHistory.TempsAreCleared` | pkg/schema/cache.go:149-176 | a temporary file is left over only by a crash or a failed clean-up |
| `CacheProtocol.ReadsAreRight` | pkg/schema/store.go:691-815 | a revalidated read returns the body current at its answer, an immutable one only a validated body, within three requests and two waits of at most ten seconds |
| `CacheReads.ReadTells` | pkg/schema/store.go:691-815 | in every run, however many other reads run beside it, a read stands where what it met says: what the cache held when it looked and what the registry answered decide whether it ends, with which body or failure, after how many requests, with which validator offered and which waits between |
| `CacheReads.LoadDecides` | pkg/schema/store.go:702-763 | a valid immutable entry is returned at once and without a request, one that fails validation is dropped first, one to be revalidated is offered with its validator |
| `CacheReads.NoRequestMeansTrusted` | pkg/schema/store.go:702-763 | and only such an entry is returned without a request |
| `Decimal.ValOfDigits` | pkg/quantity/quantity.go:126-129 | reading the decimal digits of a number gives the number |
| `Version.CompareNumericIsNumeric` | pkg/schema/store.go:1093-1100 | digit strings of any length compare as the numbers they write |
| `Version.CompareIsTotalPreorder` | pkg/schema/store.go:1033-1052 | on all strings Compare is antisymmetric in sign, reflexive and transitive |
| `Version.CoreFits` | pkg/schema/store.go:1137-1158 | parsed segments are never negative and fit an int, so their difference does not wrap |
| `Semver.CompareIsPrecedence` | pkg/schema/store.go:1028-1158 | on well-formed versions without build metadata whose segments fit, with or without a leading v, the sign is that of section 11 of Semantic Versioning 2.0.0 |
| `Semver.TextParses` | pkg/schema/store.go:1137-1158 | the text of such a version is taken apart into its core and its pre-release identifiers |
| `LooseVersions.AnyTextParses` | pkg/schema/store.go:1013-1158 | any other text: a missing segment, one that is no number or too large, and a third one with dots in it count as zero, and space around does not count |
| `Spans.CompareOrders` | pkg/schema/store.go:1033-1052 | Compare is an order in the sense the spans need |
| `Spans.SpansOf` | pkg/schema/components.go:73-102 | the loop compresses the releases that are present, oldest first, into the runs of consecutive ones, the last left open when it reaches the newest |
| `Spans.RunsAreCanonical` | pkg/schema/components.go:66-102 | the runs are ascending, disjoint, cover exactly the marked releases and are separated by unmarked ones |
| `Spans.CanonicalIsUnique` | pkg/schema/components.go:66-102 | there is only one such list of runs |
| `Spans.SpansAreOpenLast` | pkg/schema/components.go:73-102 | only the last span can be open |
| `Spans.Covered` | pkg/schema/components.go:111-156 | reading spans back keeps exactly the covered releases, in order |
| `Spans.ExactUnlessOpenEarly` | pkg/schema/components.go:40-137 | for ascending releases, compressing and expanding loses nothing exactly when no span but the last ends at the release that stands for no version |
| `Spans.ExactForSubset` | pkg/schema/components.go:104-137 | expanding against any subset of distinct, named releases gives exactly those present in it |
| `Spans.ExactForEveryComponent` | pkg/schema/components.go:40-137 | compression is exact for every component if and only if no two releases compare equal and an unnamed one, if any, is the newest |
| `Spans.StillShippedIsStable` | pkg/schema/components.go:66-102 | a newer release that still ships a currently shipped component leaves its spans unchanged |
| `Spans.AscendingIsUnique` | pkg/schema/components.go:158-167 | distinct releases have one ascending order, whichever sort is used |
| `Availability.SpansIn` | pkg/cmd/schemagen/write.go:176-214 | fails exactly when a listed release has no schema; otherwise holds the spans of every component some release lists |
| `Availability.Expand` | pkg/schema/components.go:111-137 | every component of the index with the releases its spans cover, oldest first |
| `Availability.VersionIndex.Versions` | pkg/lint/availability.go:56-74 | answers from the index, built once by a run that was not cancelled; a cancelled run is answered nothing, and what it saw of the store, which may lack anything, is never answered from |
| `Availability.VersionIndex.Build` | pkg/lint/availability.go:76-84 | fills the map with what the asking run sees: the published index if there is one, the schemas otherwise |
| `Availability.VersionIndex.Published` | pkg/lint/availability.go:88-101 | takes every component of the published index over |
| `Availability.VersionIndex.Walk` | pkg/lint/availability.go:105-140 | appends each release to what its schema lists, and forgets everything when too many of a remote store's schemas fail |
| `Availability.WalkedAreNewest` | pkg/lint/availability.go:105-113 | the releases walked are the named ones, each once and newest first: all of them, or of a remote store the twelve newest |
| `Availability.AnswerIs` | pkg/lint/availability.go:56-140 | for any store: the listed releases some published span covers; with nothing published, those walked whose schemas list the component, unless half or more fail to load; oldest first either way |
| `Availability.AnswersAgree` | pkg/lint/availability.go:86-140 | for a local registry whose releases load and are pairwise distinct, the published index and the schema walk answer the same list of releases if and only if the component is not shipped in the release without a name |
| `Availability.CollectorAnswersAgree` | pkg/lint/availability.go:86-140 | for Collector versions under Compare they do for every component if and only if the empty version is not listed or ships nothing |
| `FieldSchema.DecodingIsConversion` | pkg/rule/fieldwalker.go:230-250 | matching the decoded scalar is the same as the value being one the Collector takes for the type, quoted or not |
| `FieldSchema.ResolvedIsMeant` | pkg/rule/node.go:115-121 | where the bounded alias chase ends at a value, it is the value meant |
| `FieldWalk.FieldWalker.WalkComponents` | pkg/rule/fieldwalker.go:49-73 | a rule hears exactly the events of the file that go to the callbacks it set, in order |
| `FieldWalk.FieldWalker.Walk` | pkg/rule/fieldwalker.go:75-112 | the same for one value |
| `FieldWalk.FieldWalker.WalkMap` | pkg/rule/fieldwalker.go:115-140 | the same for the entries of a mapping and the keys it lacks |
| `FieldWalk.FieldWalker.WalkList` | pkg/rule/fieldwalker.go:144-159 | the same for the items of a list |
| `FieldWalk.FieldWalker.CheckRequired` | pkg/rule/fieldwalker.go:161-171 | one event for every required key that was not written |
| `FieldWalk.FieldWalker.CheckType` | pkg/rule/fieldwalker.go:174-206 | what the type check reports and whether the walk goes on |
| `FieldWalk.HeardIsFilter` | pkg/rule/fieldwalker.go:25-44 | a rule hears an event exactly when the walk raises it and the rule set its callback |
| `Visited.WhatPasses` | pkg/rule/fieldwalker.go:174-250 | type by type, what the check lets through, skips or finds invalid: a duration is text that parses, an integer that fits or a number whose whole part fits, and never a mapping or a list |
| `Visited.RaisedIsVisited` | pkg/rule/fieldwalker.go:75-206 | an event is raised exactly for what is the matter with a value the walk visits: an undescribed key, a missing or deprecated one, an invalid value, an open or missing schema |
| `Visited.RaisedInFile` | pkg/rule/fieldwalker.go:46-206 | the same for every component a file declares, or that it has no schema |
| `Coverages.Coverage.constructor` | pkg/lint/coverage.go:42-84 | which field rules are on, the skips recorded and the status they come to |
| `Coverages.Coverage.RuntimeValues` | pkg/lint/coverage.go:86-115 | appends one skip for every runtime value and every structure past the depth bound |
| `Coverages.SkippedAre` | pkg/lint/coverage.go:42-115 | a skip is listed exactly for a schema or decoder that is not known, a value the walk skips, and a setting that is settled only at runtime or lies past sixteen levels |
| `Coverages.CompleteMeansChecked` | pkg/lint/coverage.go:42-84 | the report is complete exactly when a field rule is on, schema and decoder are known and nothing is skipped |
| `Conformance.ConformingIsNeverReported` | pkg/rule/fieldwalker.go:46-206 | in a file that conforms to its schemas, no set of rules finds an unknown, missing or invalid setting, however much was skipped |
| `Conformance.MeetingIsNeverReported` | pkg/rule/fieldwalker.go:46-206 | whichever rules are on, a value that meets what they stand for raises no finding of theirs, however partial the schema |
| `Conformance.UnreportedMeets` | pkg/rule/fieldwalker.go:46-206 | whichever rules are on, a value of which nothing was skipped and in which they find nothing meets what they stand for, all the way down, given the enumerations of fields without a type |
| `Conformance.CompleteMeansExact` | pkg/lint/coverage.go:58-115 | when the report says complete, for any rules and any schema: the rules that are on stay silent, and with invalid-value among them the enumerations of fields without a type are met, if and only if every declared component has a schema and meets what those rules stand for |
| `Conformance.CompleteMeansConforming` | pkg/lint/coverage.go:58-115 | with the three fault-finding rules on and no declared component in whose schema a field needs a type, silence is conformance |
| `Conformance.EnumsNeedAType` | pkg/rule/fieldwalker.go:174-206 | of one field: every scalar that is neither reported nor skipped conforms, if and only if the field is not a closed one with keys and an enumeration and no type |
| `PartialSchemas.LoosenedAddsNothing` | pkg/rule/fieldwalker.go:75-228 | a subfield made unconstrained, a map opened, children dropped: every finding that remains was there before |
| `PartialSchemas.PartialSchemasAddNothing` | pkg/rule/fieldwalker.go:46-73 | the same for whole files, also when a component's fields are dropped |
| `Enrich.Enrich` | pkg/cmd/schemagen/fields.go:462-490 | in whatever order the keys are visited, the primary's tree of fields comes to say what enriching one schema by the other means, also where the two share the subtrees an earlier run attached; everything else stays as it was |
| `Enrich.SettleOpenness` | pkg/cmd/schemagen/fields.go:439-457 | open afterwards exactly when the secondary is open, or the primary was and the secondary names no key it lacks |
| `Enrich.EnrichedAt` | pkg/cmd/schemagen/fields.go:462-490 | at every path: both fields enriched, or the one there is, or none |
| `Enrich.NothingIsLost` | pkg/cmd/schemagen/fields.go:459-490 | at no path is a primary field lost, retyped or stripped of what it stated |
| `Enrich.WhereBothSpeak` | pkg/cmd/schemagen/fields.go:421-457 | at a shared path the keys are the union, an open map closes exactly when the secondary is closed there and names a new key, and a description, enumeration or extension role the primary lacks is the secondary's |
| `Enrich.EnrichedTwice` | pkg/cmd/schemagen/fields.go:462-490 | enriching again changes nothing |
| `Enrich.SecondRun` | pkg/cmd/schemagen/fields.go:462-490 | nor does a second run on the nodes the first one left, which the two schemas now share: it is covered, and leaves the same tree saying the same |
| `Enrich.EnrichedIsApart` | pkg/cmd/schemagen/fields.go:462-490 | the attached children are shared with no other key |
| `EditDistance.Distance` | pkg/rule/text.go:126-150 | the two swapped rows compute the recurrence |
| `EditDistance.LevIsShortest` | pkg/rule/text.go:126-150 | which is the length of a shortest script of insertions, deletions and substitutions: one is that long and none is shorter |
| `EditDistance.Suggest` | pkg/rule/text.go:94-123 | what follows, for component names and the kinds appended to them |
| `EditDistance.BestMatch` | pkg/rule/text.go:94-123 | the first candidate that differs in underscores only, failing that the first of least distance under three, and nothing when that one is the empty text |
| `EditDistance.NonemptyCandidates` | pkg/rule/text.go:94-123 | with no empty candidate, something is suggested exactly when one matches or is at most two edits away |
| `EditDistance.FirstIsTaken` | pkg/rule/text.go:106-120 | of several candidates that would do it is the first |
| `EditDistance.TrimmedIs` | pkg/rule/text.go:94-103 | the first suffix that leaves something is cut off |
| `EditDistance.SquashedIs` | pkg/rule/text.go:104-104 | squashing keeps exactly what is no underscore, in order |
| `Secrets.Finder.Find` | pkg/rule/hardcodedsecret/rule.go:104-139 | every context it newly visits is reachable from its own, once, and leads to nothing unvisited but what callers are still in; returns the credentials among them |
| `Secrets.Finder.Check` | pkg/rule/hardcodedsecret/rule.go:43-80 | across all components, what is reported is exactly the scalars to which some way of entries and items leads whose last key, or whose passing a headers key, makes them a credential, each once |
| `Secrets.CannotLeave` | pkg/rule/hardcodedsecret/rule.go:104-139 | a set of contexts closed under the walk holds everything any path reaches |
| `Secrets.SecretIsWritten` | pkg/rule/hardcodedsecret/rule.go:104-139 | being reached in a context that makes a scalar a credential is being led to by such a way |
| `Annotations.PickAnnotations` | pkg/lint/output.go:508-541 | the candidates picked are the earliest, in order: the first of each file by position, then the first of each rule and file, then the rest; as many as the limit allows, covering as many files and at the same time as many rule and file groups as it allows |
| `Annotations.NoSelectionCoversMore` | pkg/lint/output.go:506-541 | no selection within the limit covers more files or more groups |
| `Annotations.PickByKey` | pkg/lint/output.go:508-541 | the same with the grouping by text that is used, and no NUL in rule names: as many pairs of rule and file as the limit allows |
| `Annotations.KeyTellsApart` | pkg/lint/output.go:526-526 | without a NUL in rule names, group texts are equal if and only if rule and file are |
| `Quantity.Split` | pkg/quantity/quantity.go:103-110 | cuts where the longest run of digits and points ends |
| `Quantity.Parse` | pkg/quantity/quantity.go:75-100 | the method computes the reading the lemmas are about, error cases included, and every count it reads lies in [0, 2^63) |
| `Quantity.ReadsBinary` | pkg/quantity/quantity.go:52-100 | a count with Ki to Ei is so many powers of 1024, or does not fit in 63 bits, with any space around |
| `Quantity.ReadsDecimal` | pkg/quantity/quantity.go:52-100 | with k to E, so many powers of 1000, where a float64 holds the product |
| `Quantity.ReadsNothingElse` | pkg/quantity/quantity.go:73-122 | any other suffix is refused |
| `Quantity.RefusesNumbers` | pkg/quantity/quantity.go:88-97 | and with a known one: what is no number, a negative one, and what does not fit |
| `Quantity.LargestWholeUnit` | pkg/quantity/quantity.go:126-147 | a count is written in the largest binary unit of which it is a whole number |
| `Quantity.WritesWhole` | pkg/quantity/quantity.go:126-147 | divided by the largest power of 1024 that divides it |
| `Quantity.WritesDecimals` | pkg/quantity/quantity.go:149-154 | where none does, in tenths of Mi from 2^20 on and of Ki below |
| `Quantity.RoundTrip` | pkg/quantity/quantity.go:73-155 | below 1024 and at every multiple of 1024 under 2^63, reading back what was written gives the count |
| `Quantity.DecimalRead` | pkg/quantity/quantity.go:149-154 | any other count is read back as the count nearest to the tenths of a unit it was written with |
| `Quantity.RoundTripExactly` | pkg/quantity/quantity.go:73-155 | up to 2^49, a count survives being written and read if and only if it is below 1024, a multiple of 1024, or within half a byte of a whole number of tenths of its unit |

## Left out

- docMemo.do: a per-root memo of successful reads; its one branch adds nothing to the cache protocol.
- Parsing YAML, encoding JSON, HTTP transport, TLS and redirect rules, size limits on bodies, and the file system appear
  only as the contracts above.
- Null schema children: the generator may emit one under a list, on which the walk and enrich would dereference nothing
  or stop; schemas in the model have none.
- collectDuplicates: duplicate keys are recorded between the preflight and the rewrite and change neither.
- Messages, hints and paths in findings: findings are kept by kind, key, node and path, and secrets by node.
- HasDynamicRefs and the settings walk for extension references: what a component's settings name is given to the index.
- Component identifiers: splitting a key into type and name, and the kind and type of a component are taken as one key in
  the availability index.
- retryAfter: the delay a server asks for is an arbitrary number; dates and clocks are not modelled.
- merge, settleShape and field of the schema generator: the conversion of a published JSON schema into fields.
- Enrich.Enrich: where the two schemas share fields, it is whole subtrees under the same keys, as one run leaves them; the
  generator reads every schema from its own file.
- EditDistance.Suggest: putting the written name in lower case is left to the caller.
- Quantity.ReadsDecimal: products above 2^53, which a float64 may have to round, are not claimed.
- Quantity.RoundTripExactly: above 2^49, where a float64 is off by about a tenth, only the whole multiples of RoundTrip are
  claimed, because which of the others survive there depends on how each one rounds.
- Coverages.Coverage.constructor: the names of the rules, the distribution and the rendering of the report are not
  modelled.
- The individual small rules, endpoint classification, output formats, and the command line.
