# Verified model of the observability control plane

The control plane keeps collector configurations, alert rules, alert events, agents and metrics sources, and pushes
configurations out to collectors. This project models the parts of it that run long or see arbitrary input, and proves
what they promise.

Reading order, from the repository's parts to the modules here:

- **Configuration merge** (`YamlTree`, `YamlNodes`, `Pipelines`, `PipelineNodes`). A patch document is overlaid on a base
  in place; `YamlNodes` does that on a heap of mutable nodes and is tied to the pure merge of `YamlTree`, whose laws are
  proved on trees. Associativity fails in general; the exact condition is `NoSandwich`. `Pipelines` normalises the lists
  of every pipeline.
- **Alert rules** (`RuleSpecs`, `QueryScanner`, `QueryCompiler`, `RuleTexts`, `AlertStore`, `RuleProtocol`,
  `AppliedMarks`, `AlertService`). The two
  bracket scanners are proved against a grammar, and compilation is proved to keep the grouping of what it splices. The
  lifecycle is a protocol: any number of clients read, prepare and submit in any order while publications mark rules.
  A publication stamps whatever update is current, and a stale save takes a stamp back; `AppliedMarks` says exactly when.
- **Alert events** (`AlertEvents`). A log that keeps each event once, a table of latest states, and batches that stop at
  a bad alert and are sent again. A retry is invisible except where an alert's end was crossed (`NormalizeStableIff`).
- **Rate limiter** (`RateLimiter`). Bounds over every trace of requests.
- **Remote configuration** (`OpampFleet`, `OpampManager`, `CollectorPublish`, `PublishProtocol`, `RolloutReports`). `OpampFleet` is the
  manager's state as a value, with one step per critical section, so a run is any interleaving of requests;
  `OpampManager` is the class whose methods take those steps. `CollectorPublish` is the persisted publish state under
  calls made one at a time, `PublishProtocol` lets their reads and writes mix, and `RolloutReports` joins both with agents. Messages follow "AgentToServer Message" in the OpAMP specification.
- **Log collector publishing** (`ManifestText`, `ManifestDecoder`, `ResourceCheck`, `BlockText`, `CollectorBundle`,
  `CollectorManifest`, `LogsPublish`). Texts with several documents, cut in one way by the filter, in another by the deployment
  service's check and in a third by the apply engine; the ConfigMaps and the DaemonSet
  they carry, each file an indented block; and the publish that sends only what changed, followed from the text it writes to
  the files the collector sees.
- **Metrics sources** (`MetricsSources`). Reconciliation with the environment's bindings.

`Text` holds the string functions of the Go standard library that the code leans on, written out, and `Sorting` a stable sort
over any order.

Where the code falls short of what its comments or tests suggest, the model keeps the code and a lemma says exactly when the
promise holds; where a run leads there, another lemma gives it:

- merging is not always associative: `MergeAssociativeIff`, `MergeNotAssociative`;
- a retried alert may turn from firing to resolved, and then shows: `NormalizeStableIff`, `TracelessIff`, `ExtraEventsIff`,
  `CrossedLeavesTrace`;
- a save may take back a publication's mark: `SaveKeepsMarkIff`, `AppliedCanGoBack`;
- the connection indexes of the OpAMP manager may disagree, and a late close may cut off an agent: `ReceiveConnectedIff`,
  `CloseConnectedIff`, `CloseLeavesOthersIff`, with `SharedConnectionDisagrees`, `EmptyUidStaysBound`, `LateCloseCutsOff`;
- two instance uids may read as one agent: `SameAgentIff`;
- overlapping publishes and reports undo each other: `LatePublishIff`, `LateReportIff`, with `TwoPublishesOneVersion`,
  `ReportTakesVersionBack`;
- an incremental publish relies on what it does not send: `ApplyServesIff`, `RevertKeepsBrokenFile`, `RepublishRepairsNothing`;
- a line reading `---` in a file cuts it when it is published incrementally, and it stays cut: `IncrementalServesIff`, `ApplyServesIff`,
  with `CutFileStaysCut`, `DamagedConfigMap`, `OpeningSeparator`; dashes in a row may keep a manifest from being let through:
  `ManifestAcceptedIff`, `ServiceAcceptedIff`;
- overlapping publishes of one cluster may leave another's file: `LateApplyServesIff`, `OverlapKeepsOtherFile`.

Four conditions are not met by any caller in the repository, and are stated as the limits of the functions themselves: hashes
that are not hexadecimal (`HonestAcknowledgementIff`; callers pass the digest of a configuration), the zero time
(`ZeroTimeUnlimited`; the handler passes the current time), a published hash with space around it (`LatestIsDesired`; it is
a digest too), and a new file that is empty (`NewEmptyFileIsMissed`; `RenderedWellFormed` shows that no rendered file is).

## Model

| member | source | states |
|---|---|---|
| YamlTree.MergeAssociativeIff | internal/collectorconfig/renderer.go:707-726 | for all well-keyed trees, merging is associative, key order included, if and only if at no shared path a list (or a mapping) of the first and the third surrounds something of another kind in the second, unless the third absorbs it |
| YamlTree.MergeNotAssociative | internal/collectorconfig/renderer.go:707-726 | a list, a scalar, a list: three documents for which it is not |
| YamlTree.SameShapeNoSandwich | internal/collectorconfig/renderer.go:707-726 | equal node kinds at every path a document shares with the other two are enough for associativity |
| YamlTree.AbsorbedIff | internal/collectorconfig/renderer.go:707-726 | exactly when merging `c` over `a` gives `c` itself |
| YamlTree.MergeWellKeyed | internal/collectorconfig/renderer.go:707-726 | merging keeps the keys of every mapping distinct |
| YamlTree.MergeMappings | internal/collectorconfig/renderer.go:714-725 | merging two mappings overlays the values of shared keys in place and appends the new keys in the patch's order |
| YamlTree.FindMerged | internal/collectorconfig/renderer.go:714-738 | what looking up any key in a merged mapping finds |
| YamlTree.FoldEqualsPremerged | internal/collectorconfig/renderer.go:90-101 | for documents of one shape, folding the patches into the base one by one equals merging the base with the patches merged beforehand |
| YamlNodes.Clone | internal/collectorconfig/renderer.go:759-768 | a copy holds the same tree and consists of new nodes only |
| YamlNodes.MappingValue | internal/collectorconfig/renderer.go:728-738 | the value node of the first entry with that key, or nothing |
| YamlNodes.MergeNode | internal/collectorconfig/renderer.go:707-726 | the in-place merge leaves the base holding the pure merge of the two trees, the patch unchanged, and no node shared with the patch |
| YamlNodes.MergeDocuments | internal/collectorconfig/renderer.go:570-573 | the merged document holds the pure merge, is made of new nodes only, and both inputs are left as they were |
| Pipelines.UniqueScalarNames | internal/collectorconfig/renderer.go:618-633 | the loop with its seen-set computes the first-occurrence list of trimmed, non-empty names |
| Pipelines.UniqueHas | internal/collectorconfig/renderer.go:618-633 | that list has exactly the trimmed non-empty names mentioned, each once |
| Pipelines.SortIsStable | internal/collectorconfig/renderer.go:635-661 | the sort permutes its names, leaves them ordered by rank, and keeps names of one rank in their order |
| Pipelines.StableOrderUnique | internal/collectorconfig/renderer.go:635-640 | only one list is ranked and keeps each rank's order, so the result does not depend on the sorting algorithm |
| Pipelines.NormalNamesAre | internal/collectorconfig/renderer.go:591-605 | what a normalised component list contains and how it is ordered |
| Pipelines.NormalizeIdempotent | internal/collectorconfig/renderer.go:582-616 | normalising a normalised configuration changes nothing |
| Pipelines.ListedNormal | internal/collectorconfig/renderer.go:588-606 | for every pipeline and component, what normalising makes of its list |
| Pipelines.MergeTwiceAt | internal/collectorconfig/renderer.go:707-726 | along every path, merging a patch a second time at most repeats the patch's own list |
| Pipelines.MergeTwiceNormalizesOnce | internal/collectorconfig/renderer.go:582-726 | merging a patch twice and normalising lists the same receivers, processors and exporters as merging it once |
| Pipelines.ProcessorsInOrder | internal/collectorconfig/renderer.go:635-661 | in every normalised pipeline nothing precedes memory_limiter, nothing follows batch, k8sattributes follows only memory_limiter, then come filter/, transform/enrich, transform/parser and transform/ in that order, and all other names between those and batch |
| Pipelines.ProcessorsKeepOrder | internal/collectorconfig/renderer.go:635-661 | processors of one such kind, and the unknown ones, keep the order of their first mention |
| Pipelines.NormalizeElsewhere | internal/collectorconfig/renderer.go:582-616 | outside the pipelines nothing is touched, along any path |
| Pipelines.PipelineElsewhere | internal/collectorconfig/renderer.go:588-606 | in a pipeline nothing but receivers, processors and exporters is touched |
| PipelineNodes.ReplaceNames | internal/collectorconfig/renderer.go:592-594 | overwriting a list node's content in place leaves it holding the normal names |
| PipelineNodes.NormalizeProcessorChain | internal/collectorconfig/renderer.go:582-616 | normalising in place leaves the root holding the normal form of the tree it held |
| PipelineNodes.RenderParts | internal/collectorconfig/renderer.go:90-104 | rendering is the normal form of the fold of the parts, an error exactly when there is none, and leaves the parts unchanged |
| QueryScanner.BalancedMetricQuery | internal/alerting/model.go:467-502 | the stack scanner's loop accepts exactly what the MetricsQL scan accepts |
| QueryScanner.BalancedLogsQLFilter | internal/alerting/model.go:434-465 | the counting loop accepts exactly what a scan with a stack of parentheses accepts: the counter is the stack's height |
| QueryScanner.ParseSound | internal/alerting/model.go:467-502 | what is read off an accepted text is well formed in the grammar and prints back as the text |
| QueryScanner.ParseComplete | internal/alerting/model.go:467-502 | every well-formed forest is read back from its print, so the grammar is unambiguous |
| QueryScanner.AcceptsIffDerived | internal/alerting/model.go:434-502 | for both dialects, a text is accepted if and only if the grammar of plain characters, quoted strings with escapes and matched brackets derives it |
| QueryScanner.CounterAgreesWithStack | internal/alerting/model.go:434-502 | on texts whose unquoted brackets are all parentheses the two scanners agree |
| RuleSpecs.NormalizeSpec | internal/alerting/model.go:208-274 | normalising, label loop included, yields a possible normal form: under each trimmed label key the value of a key with space around it, if there is one, and only among several of these the order decides |
| RuleSpecs.NormalizedIsNormal | internal/alerting/model.go:208-274 | every result of normalising is normal |
| RuleSpecs.NormalFixed | internal/alerting/model.go:208-274 | a normal specification normalises to itself and to nothing else |
| RuleSpecs.NormalizeDeterministic | internal/alerting/model.go:225-232 | the order in which the loop meets the labels does not show if and only if keys with space around them that trim alike have values that trim alike |
| RuleSpecs.NormalizedFields | internal/alerting/model.go:208-274 | threshold, window and derived metric stay; each text field is the text of the same field of the request without the space around it, lower-cased for signal, mode and severity; a blank signal is logs |
| RuleSpecs.NormalizedScope | internal/alerting/model.go:221-239 | so are the fields of the scope; each label of the result comes from a label of the request, and none with a key is lost |
| RuleSpecs.NormalizedTrigger | internal/alerting/model.go:240-264 | what is given of mode, aggregation, operator, interval and delays stays, and what is blank becomes its default; no limit on instances becomes 100 |
| RuleSpecs.NormalizedGrouping | internal/alerting/model.go:265-268 | the grouping fields are the trimmed ones of the request, ascending, each as often as given |
| RuleTexts.CommonValidIff | internal/alerting/model.go:276-371 | which specifications are valid, but for scope, query and trigger, written out |
| RuleTexts.TriggerValidIff | internal/alerting/model.go:290-319 | which triggers are: kinds, a positive threshold, and durations in their ranges |
| RuleTexts.LogScopeValidIff | internal/alerting/model.go:373-386 | a log rule names service, endpoint, account and project, and exactly one of route and target |
| RuleTexts.MetricScopeValidIff | internal/alerting/model.go:387-401 | a metric rule names environment and endpoint, nothing of logs, and a few labels only |
| RuleTexts.LogQueryValidIff | internal/alerting/model.go:403-418 | the text of a log rule is at most 16 KiB; as LogsQL it has no pipe, says nothing of time and is complete |
| RuleTexts.MetricQueryValidIff | internal/alerting/model.go:419-431 | the text of a metric rule is at most 16 KiB, has no dollar sign and is complete |
| RuleTexts.BaseFilterValidIff | internal/logs/service.go:2765-2811 | a base filter is at most 8 KiB, has no pipe, says nothing of time and is complete |
| RuleTexts.GroupedByIff | internal/alerting/compiler.go:13-60 | which field names a log query may group by |
| QueryCompiler.QuoteFaithful | internal/alerting/compiler.go:32-103 | quoting yields one complete string token that stands for exactly the quoted text |
| QueryCompiler.LogTextStructure | internal/alerting/compiler.go:32-77 | for every valid specification the compiled log query reads as the intended forest: each parenthesis opened before a spliced expression closes right after it; 2 stages without a threshold, 4 with one, and no pipe inside a group |
| QueryCompiler.CompiledQueriesAreComplete | internal/alerting/compiler.go:15-103 | end to end: whatever specification is compiled, a resulting query is accepted by the scanner of its language, and a log query has 2 or 4 stages |
| QueryCompiler.SplicedFilterMustBeComplete | internal/logs/service.go:2765-2811 | why base filters are checked by themselves: one that is not complete passes the scanner once spliced, with its parentheses matched across the seam |
| QueryCompiler.FilterHasNoPipe | internal/alerting/model.go:403-432 | a filter that passed its check contributes no pipe, quoted ones included |
| QueryCompiler.MetricTextStructure | internal/alerting/compiler.go:79-103 | the same for metric queries: the expression is grouped as it was written, and the label matchers and the comparison stay outside it |
| QueryCompiler.SortedKeys | internal/alerting/compiler.go:85-89 | the label keys come out ascending, each once |
| QueryCompiler.AscendingUnique | internal/alerting/compiler.go:85-89 | there is one such order, so the text does not depend on map iteration |
| QueryCompiler.CompileQuery | internal/alerting/compiler.go:32-103 | compiling succeeds exactly for specifications whose normal form is valid, and then writes exactly the analysed text |
| QueryCompiler.CompileTestQuery | internal/alerting/compiler.go:15-17 | a test query has neither time window nor threshold |
| QueryCompiler.CompileAlertQuery | internal/alerting/compiler.go:19-21 | an alert query has both, and compares with the threshold of the request by > where its operator is gt and by >= where it is gte or blank |
| QueryCompiler.CompileRecordingQuery | internal/alerting/compiler.go:23-30 | a recorded series counts, or rates where the derived metric asks for it, in its window and without threshold |
| RuleTexts.LogQueryText | internal/alerting/compiler.go:32-77 | the log query in the fields of the request: window, scope, filter, grouping, aggregation, operator and threshold |
| RuleTexts.MetricQueryText | internal/alerting/compiler.go:79-103 | the metric query in the fields of the request |
| RuleTexts.MetricQueryLabels | internal/alerting/compiler.go:80-92 | the labels it is restricted to, in the order of their keys, and the value each is matched with |
| AlertStore.AlertingStore.SaveChange | internal/database/memstore/store.go:1274-1328 | a change goes through exactly when it is based on the rule's current update (or creates a rule under a free id and name); rule, record and audit event are stored together or not at all |
| AlertStore.AlertingStore.MarkRuntimeRulesApplied | internal/database/memstore/store.go:1433-1465 | exactly the rules whose endpoint is the given one and whose signal, logs where blank, is the given one are stamped, at whatever update is current by then, and counted |
| AlertStore.AlertingStore.FindUpdate | internal/database/memstore/store.go:1372-1389 | a record is found only under its own rule |
| RuleProtocol.StepKeepsInv | internal/alerting/service.go:156-450 | every step of every client and of publication keeps the whole invariant and only adds records |
| RuleProtocol.ReachableRule | internal/alerting/service.go:156-450 | in every reachable state of every interleaving a rule's records form one chain from its creation to its current update; it says what its current record says; "applied" means applied at the current update; a non-empty applied update is on the chain; its specification is normal |
| RuleProtocol.NoForks | internal/database/memstore/store.go:1274-1328 | two saved changes of one rule were never based on the same update |
| RuleProtocol.SubmitIsCompareAndSet | internal/alerting/service.go:411-450 | a save succeeds exactly when the update it was based on is still current; then one record and one audit event are added and the record becomes current, else nothing changes |
| RuleProtocol.RecordsForever | internal/database/memstore/store.go:1274-1328 | no lost update: whatever happens next, saved records and audit events stay as they are |
| RuleProtocol.RollbackRestores | internal/alerting/service.go:245-271 | rolling back to the record that was current at an earlier time restores exactly the specification and state of that time, whatever happened in between |
| RuleProtocol.DisableFollowsEnabled | internal/alerting/service.go:286-295 | a rule is never disabled twice in a row |
| RuleProtocol.AppliedCanGoBack | internal/database/memstore/store.go:1433-1465 | the applied update is not monotone: for every normal specification a run in which a stale save erases a mark |
| AppliedMarks.SaveKeepsMarkIff | internal/alerting/service.go:411-450 | in every run a saved change to a rule keeps its applied update if and only if no publication stamped the rule with a new value between the client's read and its submission |
| AppliedMarks.MarkHistory | internal/database/memstore/store.go:1433-1465 | while a rule stays at the update it was read at, its applied update is the one it had, or that update once a publication has stamped it |
| AppliedMarks.PublicationMarks | internal/database/memstore/store.go:1433-1465 | in every reachable state a publication marks exactly the rules on its endpoint and of its signal, at their current update; for another endpoint or another signal a rule stays as it is |
| AlertService.Service.ResolveSpec | internal/alerting/service.go:357-368 | the resolved specification is the normal form of the request with the resolver's scope, or there is none |
| AlertService.Service.Enable | internal/alerting/service.go:156-216 | a rule is created exactly when its scope resolves, the resolved specification is valid and allowed, policy and receipt hold, and the store has no conflict; otherwise nothing changes |
| AlertService.Service.Update | internal/alerting/service.go:218-243 | the exact conditions under which an update is missing, refused or done, and the change it then saves |
| AlertService.Service.Disable | internal/alerting/service.go:273-295 | a rule is disabled exactly when it is there, allowed, of the expected signal and not disabled already; the specification is kept |
| AlertService.Service.Rollback | internal/alerting/service.go:245-271 | a rollback is done exactly when rule and record belong together, both scopes are allowed and the policy exists; it saves the record's specification and state |
| AlertService.Service.SaveExistingChange | internal/alerting/service.go:411-450 | the change is built on the copy that was read and submitted against that copy's current update |
| AlertService.ReachableInOrder | internal/alerting/service.go:156-450 | after every run each rule is stored under its id and has a current update, which is what the service's operations rely on |
| AlertService.OperationsAreRuns | internal/alerting/service.go:218-295 | update, disable and rollback, run by themselves, do what a client of the protocol does that reads, prepares and submits with nobody in between |
| AlertEvents.EventStore.ApplyAlertEvent | internal/database/memstore/store.go:1487-1513 | a delivery is refused without fingerprint or event id; otherwise the event is stored once, with the previous state, and the instance becomes the latest |
| AlertEvents.IngestAlerts | internal/alerting/events.go:99-141 | a batch delivers its good alerts up to the first bad one and reports success exactly when there is none |
| AlertEvents.GoodIff | internal/alerting/events.go:123-203 | what an alert needs to be delivered, written out |
| AlertEvents.DeliveredStates | internal/alerting/events.go:152-163 | delivery by delivery: resolved exactly when the status is resolved, in whatever case, or blank with an end not after receipt; firing exactly when it is firing, or blank otherwise; any other status ends the batch |
| AlertEvents.DeliveredFields | internal/alerting/events.go:143-191 | what a delivery carries of its alert, field by field |
| AlertEvents.DeliveredTime | internal/alerting/events.go:170-177 | when an event is taken to have occurred |
| AlertEvents.DeliveredIdentity | internal/alerting/events.go:222-226 | the id of an event is made of its fingerprint, state and times |
| AlertEvents.LatestWins | internal/database/memstore/store.go:1487-1513 | after any deliveries the table holds each instance's last delivery |
| AlertEvents.FirstDeliveryStays | internal/database/memstore/store.go:1487-1513 | an event is stored at its first delivery, with the state its instance had then, and never changes |
| AlertEvents.DeliverTwice | internal/alerting/events.go:99-121 | delivering a batch twice is delivering it once |
| AlertEvents.RetryEquivalence | internal/alerting/events.go:99-121 | a run aborted after a prefix and sent again as a whole leaves what sending it once leaves, times of receipt aside, and with them the occurrence times of events whose alerts have no time of their own |
| AlertEvents.NormalizeStableIff | internal/alerting/events.go:151-162 | an alert normalises alike at two receipts if and only if it has a status, or no end, or its end does not lie between them |
| AlertEvents.TracelessIff | internal/alerting/events.go:99-191 | for any two sendings, however far each got: the second leaves what it would have left alone, receipt times aside, if and only if the first changed no table entry the second does not overwrite, stored no event the second would not store with the same content, and changed no state the second's events were stored with |
| AlertEvents.BatchRetry | internal/alerting/events.go:99-191 | sending a batch again that then gets at least as far, rules possibly changed in between, leaves no trace of the first sending unless an alert's end was crossed; occurrence times the alerts bring count |
| AlertEvents.ExtraEventsIff | internal/alerting/events.go:99-191 | when the second sending gets at least as far, the first leaves no event more if and only if each alert whose end was crossed had its firing event in the log before, or the second brings that event too |
| AlertEvents.CrossedLeavesTrace | internal/alerting/events.go:99-191 | an alert whose end is crossed between two receipts leaves a firing event that one receipt would not have left, unless the log has it already |
| AlertEvents.LastNul | internal/alerting/events.go:222-226 | a text splits at its last NUL in one way only |
| AlertEvents.IdentityInjective | internal/alerting/events.go:222-226 | equal event identities come from equal fingerprints, states and printed times, even if fingerprints contain NUL |
| AlertEvents.TableAgreesWithLog | internal/database/memstore/store.go:1487-1513 | in every reachable state each instance's last event id names a stored event with the same fingerprint and state |
| RateLimiter.Limiter.Allow | internal/httpapi/alert_events.go:57-74 | the request is counted in its window, expired windows are swept once there are more than 1024, and it is allowed exactly up to the limit |
| RateLimiter.SweepingIsInvisible | internal/httpapi/alert_events.go:66-72 | over every trace with non-decreasing times the limiter decides as one that never sweeps |
| RateLimiter.WindowExact | internal/httpapi/alert_events.go:57-74 | within a window exactly the first 600 requests of a key are admitted |
| RateLimiter.AtMostTwiceTheLimit | internal/httpapi/alert_events.go:57-74 | in no half-open minute, wherever it starts, are more than 1200 admitted |
| RateLimiter.AdmitsIff | internal/httpapi/alert_events.go:57-74 | a request is turned away exactly when its key has had 600 in a window that started less than a minute ago |
| RateLimiter.ZeroTimeUnlimited | internal/httpapi/alert_events.go:60-63 | at the zero time, which marks a missing window, nothing is limited |
| OpampFleet.ReportTakenIn | internal/opamp/manager.go:224-289 | the state of an agent after its report, field by field, and that no other agent is touched |
| OpampFleet.ReportIndexed | internal/opamp/manager.go:224-289 | what a report does to what is pending, to the groups and to the connections |
| OpampFleet.ReportShown | internal/opamp/manager.go:224-289 | what is shown of an agent after its report |
| OpampFleet.AnswerIs | internal/opamp/manager.go:278-303 | only an agent that accepts configurations is answered, with its group's deployment first, else its own |
| OpampFleet.CloseTakesOffline | internal/opamp/manager.go:305-326 | closing puts the agent offline and unhealthy, forgets both ways of the connection, and touches no other |
| OpampFleet.MembershipsMoved | internal/opamp/manager.go:154-164 | entering a group leaves the service, and the other way round |
| OpampFleet.MembershipsLeft | internal/opamp/manager.go:166-174 | leaving one does not touch the other |
| OpampFleet.DeploymentsKept | internal/opamp/manager.go:138-180 | queueing and recording a deployment touch one entry each |
| OpampFleet.DescribedGroupIs | internal/opamp/manager.go:469-506 | the group an agent describes is the last non-blank text of the first key that has one |
| OpampFleet.NoGroupDescribed | internal/opamp/manager.go:469-506 | without such a text it describes none |
| OpampFleet.ReachableIndexed | internal/opamp/manager.go:154-375 | after every run of requests, reports, deliveries and closings, interleaved at the lock, each agent's group and service are those of the indexes, and all indexes are about known agents |
| OpampFleet.DetailIsCurrent | internal/opamp/manager.go:346-363 | the detail shown for an agent carries its current state, and there is one exactly for the known agents |
| OpampFleet.ReceiveConnectedIff | internal/opamp/manager.go:228-231 | a message keeps the two connection indexes in agreement if and only if its connection was not the one another agent is reached by |
| OpampFleet.CloseConnectedIff | internal/opamp/manager.go:305-326 | closing a connection keeps them in agreement if and only if it was not the one of the agent with the empty uid, for which closing returns early |
| OpampFleet.CloseLeavesOthersIff | internal/opamp/manager.go:305-326 | closing a connection leaves all agents on other connections reachable if and only if its agent has not reconnected meanwhile |
| OpampFleet.LateCloseCutsOff | internal/opamp/manager.go:305-326 | from an empty fleet: an agent that has reconnected is offline and unreachable once its old connection is closed late, though its new one is still bound to it |
| OpampFleet.SharedConnectionDisagrees | internal/opamp/manager.go:228-231 | from an empty fleet: a connection that reports as two agents leaves the first reached over a connection bound to the second |
| OpampFleet.EmptyUidStaysBound | internal/opamp/manager.go:305-314 | from an empty fleet: an agent with the empty uid stays bound to a connection that is closed |
| OpampFleet.ReachableConnected | internal/opamp/manager.go:224-331 | over every run in which each connection reports as one agent with a non-empty uid, the connection indexes agree |
| OpampFleet.PendingUntilAcknowledged | internal/opamp/manager.go:176-281 | a deployment queued for a group and not replaced is pending if and only if no message counting for that group has reported exactly its hash as applied |
| OpampFleet.PendingIsLastQueued | internal/opamp/manager.go:176-189 | whatever is pending for a group is the last deployment queued for it |
| OpampFleet.MemberIsAnswered | internal/opamp/manager.go:282-302 | a capable member is answered with the group's deployment, whatever is pending for itself |
| OpampFleet.RolloutReachesMembers | internal/opamp/manager.go:176-303 | from queueing to acknowledgement, over every run, every message of every capable member is answered with the deployment |
| OpampFleet.EchoedHashIff | internal/opamp/manager.go:621-638 | an echoed hash reads as the hash sent if and only if it consists of hex digits |
| OpampFleet.HonestAcknowledgementIff | internal/opamp/manager.go:268-281 | an honest acknowledgement ends the rollout if and only if the hash consists of hex digits, as the hashes of rendered configurations do |
| OpampFleet.SameAgentIff | internal/opamp/manager.go:640-647 | two instance uids read as the same agent if and only if they are equal or one is the hex text of the other, unprintable one |
| OpampManager.Manager.TakeIn | internal/opamp/manager.go:224-289 | the locked part of taking in a message, field by field, is the fleet's receive step and chooses the answer |
| OpampManager.Manager.HandleConnectionMessage | internal/opamp/manager.go:224-303 | answer, reported state and final maps: the receive step, and a recorded delivery when there is an answer |
| OpampManager.Manager.MarkConnectionClosed | internal/opamp/manager.go:305-326 | closing updates the maps as the fleet's close step |
| OpampManager.Manager.QueueDeployment | internal/opamp/manager.go:138-146 | an agent's own deployment is queued, under a default uid if it names none, as the fleet's queue step does |
| OpampManager.Manager.QueueGroupDeployment | internal/opamp/manager.go:176-180 | a group's deployment replaces the one queued for it, as the step the rollout theorems start from |
| OpampManager.Manager.RegisterInstanceGroup | internal/opamp/manager.go:154-164 | registering an agent in a group takes it out of its service |
| OpampManager.Manager.RegisterInstanceService | internal/opamp/manager.go:649-659 | registering an agent for a service takes it out of its group |
| OpampManager.Manager.UnregisterInstanceGroup | internal/opamp/manager.go:166-174 | index and agent forget the group together, as the run theorems have it |
| OpampManager.Manager.UnregisterInstanceService | internal/opamp/manager.go:661-669 | and so for the service |
| OpampManager.Manager.SendGroupDeployment | internal/opamp/manager.go:182-212 | the group is queued for first; then exactly the known agents of that group that are online, capable and connected are sent to, until the first failure; without one their number is returned, and no other agent's details change |
| OpampManager.Manager.GetAgentDetail | internal/opamp/manager.go:346-363 | the method returns the detail the properties are about |
| OpampManager.DescribeGroup | internal/opamp/manager.go:469-506 | the attribute loops find the last non-blank text of the first key that has one |
| CollectorPublish.Service.MarkGroupPublishPending | internal/collectormanagement/service.go:126-142 | a publish raises the version by one and sets the trimmed hash as desired |
| CollectorPublish.Service.CreateConfigVersion | internal/collectormanagement/service.go:308-335 | when a record is refused, and which number and status a stored one gets |
| CollectorPublish.Service.PublishGroup | internal/httpapi/collector_config.go:138-151 | the handler's two calls together are the publish step |
| CollectorPublish.Service.MarkGroupConfigStatus | internal/collectormanagement/service.go:337-386 | a report changes the store exactly as the report step; it ends in "not found" exactly when it counts but no record carries its hash |
| CollectorPublish.Service.UpdateStatusByGroupAndHash | internal/database/memstore/store.go:482-496 | one record with that group and hash, if there is any, takes the status |
| CollectorPublish.Service.LatestConfigVersion | internal/collectormanagement/service.go:399-422 | the running maximum finds a published record with the highest number, if there is any |
| CollectorPublish.PublishWrites | internal/collectormanagement/service.go:126-142 | group and record after a publish, field by field |
| CollectorPublish.ReportWrites | internal/collectormanagement/service.go:337-386 | group and records after a report, field by field, and which reports change nothing |
| CollectorPublish.VersionCountsPublishes | internal/collectormanagement/service.go:126-142 | over every run the version grows by exactly one per publish of the group |
| CollectorPublish.LatestIsDesired | internal/collectormanagement/service.go:126-142 | over every run the latest record carries the group's version and the hash last published, which is the desired one if and only if it has no space around it |
| CollectorPublish.SomethingIsPublished | internal/collectormanagement/service.go:126-142 | once a group was published, a latest record is there to be found |
| CollectorPublish.AppliedIsDesired | internal/collectormanagement/service.go:337-386 | in every reachable state "applied" means that the desired configuration is the one last applied |
| CollectorPublish.ReportsTouchStatusOnly | internal/collectormanagement/service.go:337-386 | a report changes statuses, messages and the applied hash at most, and nothing unless it is about the desired hash |
| PublishProtocol.ReachableCoherent | internal/collectormanagement/service.go:126-142 | however calls overlap: "applied" means the desired configuration is the one last applied, version and desired hash are those of one publish, the version is at most the number of publishes, and every record is of a publish |
| PublishProtocol.LatePublishIff | internal/collectormanagement/service.go:126-142 | with any steps of others between its read and its write, a publish gets a higher version than the group has by then if and only if nobody wrote meanwhile, or the last who did had read an older version, if a publish, or no newer one |
| PublishProtocol.LateReportIff | internal/collectormanagement/service.go:337-374 | with any steps of others in between, a report, or a change of other fields, keeps version and desired hash if and only if the last who wrote meanwhile left them as they were read; otherwise it takes the publish back |
| PublishProtocol.TwoPublishesOneVersion | internal/collectormanagement/service.go:126-142 | from every unpublished group a run in which two publishes of different hashes get one version, so that the latest record is ambiguous |
| PublishProtocol.ReportTakesVersionBack | internal/collectormanagement/service.go:337-374 | from every unpublished group a run in which a report takes version and desired hash back and marks the group applied |
| PublishProtocol.PublishAlone | internal/httpapi/collector_config.go:138-151 | a publish with nobody in between does what the publish of the sequential runs does |
| PublishProtocol.ReportAlone | internal/collectormanagement/service.go:337-386 | and so does a report |
| RolloutReports.NotedIs | internal/httpapi/router.go:104-106 | an agent without group or hash passes nothing on; any other changes its own group at most, and only with a known status of the desired configuration |
| RolloutReports.RolloutEndsApplied | internal/httpapi/router.go:104-106 | when a member reports that it applied the published deployment, the deployment stops being pending and the group counts as published |
| RolloutReports.EarlyAcknowledgementIsRepeated | internal/httpapi/collector_config.go:127-151 | an acknowledgement that arrives between sending and marking changes nothing; the agent's next message completes the publish if and only if it carries no status or again says that this configuration is applied |
| ManifestText.SplitYAMLDocuments | internal/logs/renderer.go:296-316 | the loop over the lines computes the documents of the text |
| ManifestText.SplitGivesDocuments | internal/logs/renderer.go:296-316 | each has text, no space around it and no separator line |
| ManifestText.SplitPrinted | internal/logs/renderer.go:280-316 | splitting undoes printing |
| ManifestText.SplitOfPrint | internal/logs/renderer.go:280-316 | whatever texts are printed, splitting gives the documents in each of them, in order |
| ManifestText.SeparatorInside | internal/logs/renderer.go:310-314 | a separator line cuts a text in two however far it is indented |
| ManifestText.FilterYAMLDocuments | internal/logs/renderer.go:280-294 | filtering prints the kept documents of the text |
| ManifestText.SplitFiltered | internal/logs/renderer.go:280-316 | splitting a filtered text gives exactly the kept documents of the original, unaltered and in order |
| ManifestText.FilterTwice | internal/logs/renderer.go:280-294 | filtering by one condition and then another equals filtering once by both, down to the text |
| CollectorBundle.RenderK8sCollectorConfigFiles | internal/logs/renderer.go:438-470 | rendering fails exactly when some fragment does, and otherwise gives the base file and one file and reference per route |
| CollectorBundle.RenderedWellFormed | internal/logs/renderer.go:438-470 | with distinct file ids and ConfigMap names, files and references correspond, the name follows from the path, and no file is empty or has space around it |
| CollectorBundle.OrderedInOrder | internal/logs/renderer.go:1230-1242 | the base file comes first and the others by path |
| CollectorBundle.RenderedEach | internal/logs/renderer.go:438-470 | path, ConfigMap name, file and reference of each route and of the base |
| CollectorBundle.ManifestEach | internal/logs/templates/collector_daemonset_manifest.yaml:1-90 | the documents of a manifest, one by one |
| CollectorBundle.WorkloadEach | internal/logs/templates/collector_daemonset_manifest.yaml:80-200 | the arguments and mounts of the DaemonSet |
| CollectorBundle.FullServes | internal/logs/templates/collector_daemonset_manifest.yaml:34-170 | deploying the whole manifest makes the collector see exactly the rendered files, whatever was there |
| ManifestDecoder.DecodeDocuments | internal/modules/k8sops/kubeclient/resource_operation_engine.go:338-365 | the apply engine's loop takes a text apart at lines that start with dashes, unless they are the first of a document |
| ManifestDecoder.DecodedPrint | internal/modules/k8sops/kubeclient/resource_operation_engine.go:338-365 | decoding undoes printing, whatever indented separator lines the documents have |
| ResourceCheck.ParseResourceIdentities | internal/modules/k8sops/deployment/history_service.go:649-688 | a text is let through exactly when it has parts between its dashes, wherever these are, and each names a resource completely |
| ResourceCheck.AcceptsPrint | internal/modules/k8sops/deployment/history_service.go:649-688 | a print of documents is let through exactly when every part of every document is complete |
| ResourceCheck.NoDashesClean | internal/logs/renderer.go:310-314 | a file without three dashes in a row has no separator line |
| BlockText.IndentYAMLBlock | internal/logs/renderer.go:1274-1284 | the loop over the lines indents each of them |
| BlockText.SplitBlock | internal/logs/renderer.go:296-316 | cutting a ConfigMap's text leaves in it the part of its file before the first separator line; the lines after that are cut into documents of their own |
| BlockText.SeparatedFile | internal/logs/renderer.go:310-314 | a separator line inside a file, however far indented: exactly what is before it is left |
| BlockText.OpeningSeparator | internal/logs/renderer.go:310-314 | a file that opens with a separator line, as a YAML document may, is left empty |
| CollectorManifest.RenderK8sRuntimeServiceConfigManifest | internal/logs/renderer.go:233-251 | the text of an incremental publish is the filtered manifest, or the whole one if nothing is left |
| CollectorManifest.DecodeOperationObjects | internal/modules/k8sops/kubeclient/resource_operation_engine.go:338-365 | the objects applied are what each decoded document reads as |
| CollectorManifest.ManifestDecoded | internal/logs/templates/collector_daemonset_manifest.yaml:34-170 | what the apply engine decodes off the whole manifest is its documents exactly, whatever lines there are in their files; whether the text gets that far is another matter |
| CollectorManifest.ManifestAcceptedIff | internal/modules/k8sops/deployment/history_service.go:649-688 | the deployment service lets the whole manifest through exactly when every part between dashes in the document of every file is complete |
| CollectorManifest.ServiceAcceptedIff | internal/modules/k8sops/deployment/history_service.go:649-688 | it lets the text of an incremental publish through exactly when every part between dashes in what filtering keeps is complete |
| CollectorManifest.DashFreeAccepted | internal/modules/k8sops/deployment/history_service.go:649-688 | a bundle whose files have no dashes in a row is let through, in full and in part |
| CollectorManifest.ServiceDecoded | internal/logs/renderer.go:233-251 | an incremental publish applies each selected document up to the first separator line in its file, and what is kept of the lines after such a line in any file, selected or not |
| CollectorManifest.SentData | internal/logs/renderer.go:233-316 | a selected ConfigMap ends up with what such a leftover puts there after it, or else with its file up to the first separator line |
| CollectorManifest.UnsentData | internal/logs/renderer.go:233-316 | a ConfigMap that is not selected is left alone, also by leftovers |
| CollectorManifest.IncrementalServesIff | internal/logs/renderer.go:233-251 | sending the filtered text makes the collector see exactly the rendered files if and only if each selected file arrives whole -- it has no separator line, or a leftover mends it -- and every other ConfigMap is already right, on every cluster |
| CollectorManifest.CleanFilesArrive | internal/logs/renderer.go:233-251 | where no file has a separator line, exactly the selected documents are applied, whole |
| CollectorManifest.FilteredManifest | internal/logs/renderer.go:233-251 | filtering leaves exactly the texts of the selected documents if and only if each of these is free of separator lines and no part of another document is kept |
| CollectorManifest.FilteredText | internal/logs/renderer.go:233-251 | where no document has a separator line in it, the filtered text is the print of the selected documents |
| CollectorManifest.DamagedConfigMap | internal/logs/renderer.go:280-316 | a selected ConfigMap whose file has a line reading --- is sent with what comes before that line, and only that |
| LogsPublish.ConfigMapNameForPath | internal/logs/service.go:1858-1866 | the trimmed name of the first reference for the path, or none |
| LogsPublish.ConfigMapNamesForRefs | internal/logs/service.go:1847-1856 | all trimmed non-empty names |
| LogsPublish.ChangedK8sRuntimeConfigMapNames | internal/logs/service.go:1798-1821 | all names without a usable baseline, else those of the files that differ from it |
| LogsPublish.ChangedIff | internal/logs/service.go:1798-1821 | a reference's ConfigMap is sent if and only if its file differs from the baseline or there is none |
| LogsPublish.Service.PersistRenderedArtifacts | internal/logs/service.go:1255-1272 | rendered files are stored under their hash unless hash or configuration is blank |
| LogsPublish.Service.PublishK8sCollectorRuntime | internal/logs/service.go:1503-1610 | when a publish is refused, that an incremental one sends the filtered text of the manifest, that a text the deployment service does not let through fails before anything is sent, and how preview and apply change the recorded runtime, the stored versions and the cluster, also when they break off: an apply that fails may have put any number of its documents, or all of them, into the cluster without being recorded |
| LogsPublish.Service.ApplyDocuments | internal/modules/k8sops/kubeclient/resource_operation_engine.go:248-287 | the documents are applied in order, and the first failure leaves those before it in the cluster |
| LogsPublish.IncrementalPublishIff | internal/logs/service.go:1545-1554 | on every cluster, an incremental publish serves the bundle if and only if every changed file arrives whole and every file that counts as unchanged sits in its ConfigMap already |
| LogsPublish.NewEmptyFileIsMissed | internal/logs/service.go:1811-1814 | a new file that is empty counts as unchanged and is not sent |
| LogsPublish.RepublishRepairsNothing | internal/logs/service.go:1798-1821 | publishing the baseline again sends no ConfigMap, so it serves the bundle if and only if the cluster still holds all of it |
| LogsPublish.PreviewKeepsBaseline | internal/logs/service.go:1562-1589 | a preview leaves the cluster and the published baseline as they were |
| LogsPublish.ApplyServesIff | internal/logs/service.go:1503-1610 | over every run, with applies that break off at any document or are not recorded, an apply that is let through and recorded leaves the collector with exactly the rendered files if and only if it is a full one, or every file it sent arrived whole and no file it took for unchanged had been wiped, overwritten or sent cut since |
| LogsPublish.CleanApplyServesIff | internal/logs/service.go:1503-1610 | with files free of separator lines this is about the files taken for unchanged alone |
| LogsPublish.RevertKeepsBrokenFile | internal/logs/service.go:1594-1604 | publish a bundle, publish another whose changed file is applied whole before the DaemonSet fails, publish the first again: nothing but the DaemonSet is sent, and the collector keeps the other's file |
| LogsPublish.CutFileStaysCut | internal/logs/service.go:1545-1610 | publish a bundle, then another incrementally in which a changed file has a line reading ---: the collector is left with what comes before that line, the publish is recorded, and publishing again sends no ConfigMap; the whole manifest would not be let through, if a part between the dashes of that file is incomplete |
| LogsPublish.IncrementalEqualsFull | internal/logs/service.go:1503-1610 | over every run of previews, applies, wipes, and applies that fail before anything is sent, in which no file of a bundle published incrementally has a line reading ---, every apply, full or incremental, leaves the collector with exactly the rendered files |
| LogsPublish.ServedUntilNext | internal/logs/service.go:1503-1610 | what the collector sees stays until something is sent to the cluster or it is wiped |
| LogsPublish.LateAlone | internal/logs/service.go:1503-1610 | an apply that read its baseline earlier is the apply of the runs when nobody came in between |
| LogsPublish.LateApplyServesIff | internal/logs/service.go:1538-1554 | whatever happened since it read its baseline, such an apply serves the bundle if and only if every file that differs from that baseline arrives whole and every other one is in its ConfigMap by then |
| LogsPublish.OverlapKeepsOtherFile | internal/logs/service.go:1503-1610 | two publishes read one baseline, and the first changes a file the second leaves alone: the second is recorded, the collector keeps the first one's file, and publishing the second again does not repair it |
| MetricsSources.MemoryRepository.CreateIntegration | internal/metrics/integration_repository.go:95-105 | at most one integration per environment |
| MetricsSources.MemoryRepository.DeleteIntegration | internal/metrics/integration_repository.go:117-130 | an integration goes together with exactly its own sources |
| MetricsSources.MemoryRepository.CreateSourceAccess | internal/metrics/integration_repository.go:164-174 | at most one source per integration, binding and kind |
| MetricsSources.MemoryRepository.UpdateSourceAccess | internal/metrics/integration_repository.go:176-184 | only a stored source is replaced |
| MetricsSources.MemoryRepository.DeleteSourceAccess | internal/metrics/integration_repository.go:186-194 | exactly that source is removed, if it is there |
| MetricsSources.MemoryRepository.ListSourceAccesses | internal/metrics/integration_repository.go:196-207 | the sources of the integration, each once |
| MetricsSources.IntegrationService.CreateIntegration | internal/metrics/integration_service.go:181-242 | an integration starts with exactly the sources a reconciliation would give it, or a failure half way leaves the repository as it was |
| MetricsSources.IntegrationService.ReconcileSources | internal/metrics/integration_service.go:404-459 | when it is refused; otherwise stale sources are gone and missing ones made, all of them unless one clashes with what is there by then, and up to the first such if one does, which happens only if bindings share an id or have none |
| MetricsSources.IntegrationService.EnableLogDerivedSource | internal/metrics/integration_service.go:517-540 | the log-derived source is made at most once, without conflict |
| MetricsSources.IntegrationService.UpdateSourceAccess | internal/metrics/integration_service.go:480-515 | which changes are refused, and that integration, binding and kind never change |
| MetricsSources.NoClash | internal/metrics/integration_repository.go:164-174 | a missing source never clashes with a surviving or newly made one |
| MetricsSources.ReconciledIs | internal/metrics/integration_service.go:404-459 | a Kubernetes cluster and a host group each get a source of their kind where they have none, other bindings get none, and infrastructure sources whose binding is gone are deleted |
| MetricsSources.ReconcileConverges | internal/metrics/integration_service.go:404-459 | one run makes infrastructure sources and bindings of a mapped kind correspond one to one |
| MetricsSources.ReconcileLeavesOthers | internal/metrics/integration_service.go:431-457 | surviving and log-derived sources and those of other integrations stay as they are |
| MetricsSources.ReconcileTwice | internal/metrics/integration_service.go:404-459 | a second run changes nothing |
| MetricsSources.ReachableTidy | internal/metrics/integration_repository.go:95-207 | in every reachable repository each source has the kind its binding calls for, and an integration has one source per binding and one log-derived source at most |
| MetricsSources.StepsAreOperations | internal/metrics/integration_service.go:480-540 | what removing an integration, enabling log-derived metrics and changing a source do in the runs, written out |
| MetricsSources.ReconciliationConverges | internal/metrics/integration_service.go:404-459 | both hold after every run of operations from an empty repository |

## Left out

- YAML and JSON text: trees of scalar, sequence and mapping nodes are given, printing is abstract; aliases, anchors and node styles are not part of this model.
- Hashes: SHA-256, also where it is truncated, is a function taken as injective wherever equal hashes are read as equal contents; the derived fingerprint is any non-empty text.
- Library functions: duration and number formatting, URL checks and the label hash are parameters of the modules that use them, constrained by the characters they can yield.
- Case folding: `ToLower` folds ASCII letters only, so texts that reach "firing" or "logs" through other Unicode letters are read as different.
- Query quoting: `Quote` escapes the quote and the backslash; the other escapes of the library also begin with a backslash and do not change the structure.
- Query scanners: they know neither single quotes nor comments, and neither does the grammar.
- Validation messages, audit contents beyond rule and action, actors, timestamps of rules, change summaries and input hashes.
- Authorization, policies, receipts and scope resolution are answers handed to the operations; MongoDB, HTTP handlers and websockets are not part of this model.
- Names of rules are compared when a rule is created, as in the memory store; an update may take another rule's name there.
- AlertEvents.BatchRetry: is the simple case of a second sending that gets at least as far, with no end crossed; `TracelessIff` is exact for any two sendings.
- OpampManager.Manager.HandleConnectionMessage: is one call by itself; runs in which calls overlap are those of `OpampFleet`, where taking in and recording are separate steps.
- Agent descriptions: only the group id is read from them; host, pod and node attributes, and the runtime identity made of them, are not modelled.
- Clearing an agent's own pending deployment: any report of "applied" clears it, whatever the hash, so nothing is claimed of it.
- Sending to the agents of a service runs the same loop as sending to a group, without a pending deployment.
- Overlapping calls on a collector group: `PublishProtocol` follows one group, whose other fields and whose creation and deletion are not modelled.
- Patches to a group's publish fields, group creation and deletion, and instance bookkeeping.
- LogsPublish.IncrementalEqualsFull: is about runs in which no apply breaks off with part of it in the cluster and no bundle published incrementally has a file with a line reading `---`; `ApplyServesIff` covers the others. Both take ConfigMap names to be distinct per path, and the cluster to change only through publishes and complete wipes.
- Reading manifests: `WireOk` takes what the template writes to read back, the block under a ConfigMap's head as the file; line breaks other than a line feed, which YAML would turn into one, are not modelled, nor are labels, annotations and namespaces. Image placeholders are replaced in the whole text, files included, so a fragment that contains one does not arrive as rendered, not even by a full publish; files are taken to contain none. Lines left over from a cut file may read as anything; a text that cannot be decoded is an apply that breaks off before it sends anything.
- Runs of publishes take them one at a time; what one that overlaps others leaves is `LateApplyServesIff`, with its documents sent in one go.
- Overlapping reconciliations of one integration, which may meet `AlreadyExists` with proper bindings as each reads the sources before the other creates its own, are not modelled.
- A manifest whose first document is JSON, which the decoder would read as a stream, is not modelled.
- A deployment service without an applier, which accepts an apply and sends nothing, is not modelled; nor are previews and confirmations beyond their being made.
- Publishing filtered by route ids: it records the full hash after a partial apply, so the theorem would not hold for it.
- Cluster state that cannot be read refuses both kinds of publish; one cluster and namespace is modelled, and the publish state of routes is not.
- Component suffixes of routes: whether crafted workload names can collide is not examined; distinct file ids are assumed where needed.
- The order in which sources are listed, collector releases, health snapshots, handoff artifacts and dashboards.
- MetricsSources.ReconciliationConverges: takes a binding's kind as fixed, as the resource bindings are not edited in place.
- Environment, product and service catalogues, image templates, and all read-only views.
