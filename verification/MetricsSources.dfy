/** The metrics sources of an integration, and the reconciliation that makes them follow the
    environment's resource bindings. */
module MetricsSources {
  import opened Text

  type Id = string

  datatype Kind = KubernetesInfra | HostInfra | LogDerived

  datatype Binding = Binding(id: Id, resourceKind: string)

  datatype Source = Source(id: Id, integrationID: Id, bindingID: Id, kind: Kind, mode: string, desired: string)

  datatype Integration = Integration(id: Id, environmentID: Id)

  datatype Outcome = Ok | AlreadyExists | NotFound | PermissionDenied | EnvironmentUnavailable | DestinationUnavailable | InvalidRequest | Failed

  /** Resource kinds without a metrics source map to none. */
  function SourceKindForResource(kind: string): Option<Kind> {
    if kind == "k8s_cluster" then Some(KubernetesInfra)
    else if kind == "host_group" then Some(HostInfra)
    else None
  }

  // ---------- The memory repository ----------

  predicate Clashes(sources: map<Id, Source>, item: Source) {
    exists id :: id in sources && sources[id].integrationID == item.integrationID
                 && sources[id].bindingID == item.bindingID && sources[id].kind == item.kind
  }

  predicate HasEnvironment(integrations: map<Id, Integration>, environmentID: Id) {
    exists id :: id in integrations && integrations[id].environmentID == environmentID
  }

  class MemoryRepository {
    var integrations: map<Id, Integration>
    var sources: map<Id, Source>

    constructor ()
      ensures integrations == map[] && sources == map[]
    {
      integrations, sources := map[], map[];
    }

    /** Every entry is stored under its own id. */
    ghost predicate Keyed()
      reads this
    {
      (forall id :: id in sources ==> sources[id].id == id) && forall id :: id in integrations ==> integrations[id].id == id
    }

    method CreateIntegration(item: Integration) returns (outcome: Outcome)
      modifies this`integrations
      ensures outcome == if HasEnvironment(old(integrations), item.environmentID) then AlreadyExists else Ok
      ensures outcome == Ok <==> forall id :: id in old(integrations) ==> old(integrations)[id].environmentID != item.environmentID
      ensures integrations == if outcome == Ok then old(integrations)[item.id := item] else old(integrations)
    {
      var todo := integrations.Keys;
      while todo != {}
        invariant todo <= integrations.Keys
        invariant forall id :: id in integrations && id !in todo ==> integrations[id].environmentID != item.environmentID
      {
        var id :| id in todo;
        if integrations[id].environmentID == item.environmentID {
          return AlreadyExists;
        }
        todo := todo - {id};
      }
      integrations := integrations[item.id := item];
      return Ok;
    }

    /** Deleting an integration deletes its sources with it. */
    method DeleteIntegration(id: Id) returns (outcome: Outcome)
      modifies this
      ensures outcome == if id in old(integrations) then Ok else NotFound
      ensures integrations == old(integrations) - {id}
      ensures outcome == Ok ==> sources == map s | s in old(sources) && old(sources)[s].integrationID != id :: old(sources)[s]
      ensures outcome != Ok ==> sources == old(sources)
    {
      if id !in integrations {
        return NotFound;
      }
      integrations := integrations - {id};
      var todo := sources.Keys;
      while todo != {}
        invariant todo <= old(sources).Keys && integrations == old(integrations) - {id}
        invariant sources == map s | s in old(sources) && (s in todo || old(sources)[s].integrationID != id) :: old(sources)[s]
      {
        var sourceID :| sourceID in todo;
        todo := todo - {sourceID};
        if sources[sourceID].integrationID == id {
          sources := sources - {sourceID};
        }
      }
      return Ok;
    }

    method CreateSourceAccess(item: Source) returns (outcome: Outcome)
      modifies this`sources
      ensures outcome == if Clashes(old(sources), item) then AlreadyExists else Ok
      ensures outcome == Ok <==> forall id :: id in old(sources) ==>
                                   !(old(sources)[id].integrationID == item.integrationID && old(sources)[id].bindingID == item.bindingID
                                     && old(sources)[id].kind == item.kind)
      ensures sources == if outcome == Ok then old(sources)[item.id := item] else old(sources)
    {
      var todo := sources.Keys;
      while todo != {}
        invariant todo <= sources.Keys
        invariant forall id :: id in sources && id !in todo ==>
                    !(sources[id].integrationID == item.integrationID && sources[id].bindingID == item.bindingID && sources[id].kind == item.kind)
      {
        var id :| id in todo;
        var current := sources[id];
        if current.integrationID == item.integrationID && current.bindingID == item.bindingID && current.kind == item.kind {
          return AlreadyExists;
        }
        todo := todo - {id};
      }
      sources := sources[item.id := item];
      return Ok;
    }

    method UpdateSourceAccess(item: Source) returns (outcome: Outcome)
      modifies this`sources
      ensures outcome == if item.id in old(sources) then Ok else NotFound
      ensures sources == if outcome == Ok then old(sources)[item.id := item] else old(sources)
    {
      if item.id !in sources {
        return NotFound;
      }
      sources := sources[item.id := item];
      return Ok;
    }

    method DeleteSourceAccess(id: Id) returns (outcome: Outcome)
      modifies this`sources
      ensures outcome == if id in old(sources) then Ok else NotFound
      ensures sources == old(sources) - {id}
    {
      if id !in sources {
        return NotFound;
      }
      sources := sources - {id};
      return Ok;
    }

    /** The sources of an integration, each once. */
    method ListSourceAccesses(integrationID: Id) returns (items: seq<Source>)
      requires Keyed()
      ensures forall s :: s in items <==> s.id in sources && sources[s.id] == s && s.integrationID == integrationID
      ensures forall i, j :: 0 <= i < j < |items| ==> items[i].id != items[j].id
    {
      items := [];
      var todo := sources.Keys;
      while todo != {}
        invariant todo <= sources.Keys
        invariant forall s :: s in items <==> s.id in sources && s.id !in todo && sources[s.id] == s && s.integrationID == integrationID
        invariant forall i, j :: 0 <= i < j < |items| ==> items[i].id != items[j].id
      {
        var id :| id in todo;
        todo := todo - {id};
        if sources[id].integrationID == integrationID {
          assert forall s :: s in items ==> s.id != id;
          items := items + [sources[id]];
        }
      }
    }
  }

  // ---------- What reconciling does ----------

  predicate Bound(bindings: seq<Binding>, id: Id) { exists i :: 0 <= i < |bindings| && bindings[i].id == id }

  /** A source whose binding is gone. */
  predicate Stale(s: Source, integrationID: Id, bindings: seq<Binding>) {
    s.integrationID == integrationID && s.kind != LogDerived && !Bound(bindings, s.bindingID)
  }

  predicate Covered(sources: map<Id, Source>, integrationID: Id, bindingID: Id) {
    exists id :: id in sources && sources[id].integrationID == integrationID
                 && sources[id].bindingID != "" && sources[id].bindingID == bindingID
  }

  function Kept(sources: map<Id, Source>, integrationID: Id, bindings: seq<Binding>): map<Id, Source> {
    map id | id in sources && !Stale(sources[id], integrationID, bindings) :: sources[id]
  }

  /** What is left once the stale sources with an id in `seen` are deleted. */
  ghost function Purged(sources: map<Id, Source>, seen: set<Id>, integrationID: Id, bindings: seq<Binding>): map<Id, Source> {
    map id | id in sources && !(id in seen && Stale(sources[id], integrationID, bindings)) :: sources[id]
  }

  predicate Wanted(sources: map<Id, Source>, integrationID: Id, b: Binding) {
    !Covered(sources, integrationID, b.id) && SourceKindForResource(b.resourceKind).Some?
  }

  function SourceFor(id: Id, integrationID: Id, b: Binding): Source
    requires SourceKindForResource(b.resourceKind).Some?
  {
    Source(id, integrationID, b.id, SourceKindForResource(b.resourceKind).value, "external_collector", "connected")
  }

  /** New sources for the first `n` bindings that lack one; binding `i` would get the id `newIDs[i]`. */
  function Added(sources: map<Id, Source>, integrationID: Id, bindings: seq<Binding>, newIDs: seq<Id>, n: nat): map<Id, Source>
    requires n <= |bindings| == |newIDs|
  {
    if n == 0 then map[]
    else
      var earlier := Added(sources, integrationID, bindings, newIDs, n - 1);
      if Wanted(sources, integrationID, bindings[n - 1])
      then earlier[newIDs[n - 1] := SourceFor(newIDs[n - 1], integrationID, bindings[n - 1])]
      else earlier
  }

  function Reconciled(sources: map<Id, Source>, integrationID: Id, bindings: seq<Binding>, newIDs: seq<Id>): map<Id, Source>
    requires |bindings| == |newIDs|
  {
    Kept(sources, integrationID, bindings) + Added(sources, integrationID, bindings, newIDs, |bindings|)
  }

  /** The sources once the stale ones are gone and the first `n` bindings have been seen to. */
  function Halfway(sources: map<Id, Source>, integrationID: Id, bindings: seq<Binding>, newIDs: seq<Id>, n: nat): map<Id, Source>
    requires n <= |bindings| == |newIDs|
  {
    Kept(sources, integrationID, bindings) + Added(sources, integrationID, bindings, newIDs, n)
  }

  /** The source that binding `n` should get clashes with one that is there by then. */
  predicate ClashAt(sources: map<Id, Source>, integrationID: Id, bindings: seq<Binding>, newIDs: seq<Id>, n: nat)
    requires n < |bindings| == |newIDs|
  {
    Wanted(sources, integrationID, bindings[n])
    && Clashes(Halfway(sources, integrationID, bindings, newIDs, n), SourceFor(newIDs[n], integrationID, bindings[n]))
  }

  /** The first binding to meet a clash ends the reconciliation. */
  predicate StopsAt(sources: map<Id, Source>, integrationID: Id, bindings: seq<Binding>, newIDs: seq<Id>, n: nat)
    requires n < |bindings| == |newIDs|
  {
    ClashAt(sources, integrationID, bindings, newIDs, n) && forall k :: 0 <= k < n ==> !ClashAt(sources, integrationID, bindings, newIDs, k)
  }

  /** What the environment's binding list gives: every binding once, under a non-empty id. */
  predicate Proper(bindings: seq<Binding>) {
    && (forall i :: 0 <= i < |bindings| ==> bindings[i].id != "")
    && (forall i, j :: 0 <= i < j < |bindings| ==> bindings[i].id != bindings[j].id)
  }

  predicate Distinct(ids: seq<Id>) { forall i, j :: 0 <= i < j < |ids| ==> ids[i] != ids[j] }

  /** Generated ids: different from one another and from every id in use. */
  predicate Fresh(newIDs: seq<Id>, sources: map<Id, Source>) {
    Distinct(newIDs) && forall i :: 0 <= i < |newIDs| ==> newIDs[i] !in sources
  }

  lemma {:induction false} AddedAt(sources: map<Id, Source>, integrationID: Id, bindings: seq<Binding>, newIDs: seq<Id>, n: nat)
    requires n <= |bindings| == |newIDs| && Distinct(newIDs)
    ensures forall id :: id in Added(sources, integrationID, bindings, newIDs, n) <==>
                         exists j :: 0 <= j < n && newIDs[j] == id && Wanted(sources, integrationID, bindings[j])
    ensures forall j :: 0 <= j < n && Wanted(sources, integrationID, bindings[j]) ==>
                          newIDs[j] in Added(sources, integrationID, bindings, newIDs, n)
                          && Added(sources, integrationID, bindings, newIDs, n)[newIDs[j]] == SourceFor(newIDs[j], integrationID, bindings[j])
  {
    hide Wanted;
    if n > 0 {
      AddedAt(sources, integrationID, bindings, newIDs, n - 1);
      var a := Added(sources, integrationID, bindings, newIDs, n);
      var earlier := Added(sources, integrationID, bindings, newIDs, n - 1);
      forall id ensures id in a <==> exists j :: 0 <= j < n && newIDs[j] == id && Wanted(sources, integrationID, bindings[j]) {
        if id in earlier {
          var j :| 0 <= j < n - 1 && newIDs[j] == id && Wanted(sources, integrationID, bindings[j]);
          assert id in a;
        } else if id in a {
          assert newIDs[n - 1] == id && Wanted(sources, integrationID, bindings[n - 1]);
        }
      }
    }
  }

  /** A wanted source never clashes with what is there: its binding has no source yet, and the sources created before it
      belong to other bindings. */
  lemma NoClash(sources: map<Id, Source>, integrationID: Id, bindings: seq<Binding>, newIDs: seq<Id>, n: nat)
    requires n < |bindings| == |newIDs| && Distinct(newIDs) && Proper(bindings)
    requires Wanted(sources, integrationID, bindings[n])
    ensures !Clashes(Kept(sources, integrationID, bindings) + Added(sources, integrationID, bindings, newIDs, n),
                     SourceFor(newIDs[n], integrationID, bindings[n]))
  {
    AddedAt(sources, integrationID, bindings, newIDs, n);
    var kept := Kept(sources, integrationID, bindings);
    var added := Added(sources, integrationID, bindings, newIDs, n);
    var all: map<Id, Source> := kept + added;
    forall id | id in all
      ensures !(all[id].integrationID == integrationID && all[id].bindingID == bindings[n].id)
    {
      if id in added {
        var j :| 0 <= j < n && newIDs[j] == id && Wanted(sources, integrationID, bindings[j]);
        assert added[id].bindingID == bindings[j].id;
      } else {
        assert kept[id] == sources[id];
      }
    }
  }

  lemma AddedBelongs(sources: map<Id, Source>, integrationID: Id, bindings: seq<Binding>, newIDs: seq<Id>, n: nat)
    requires n <= |bindings| == |newIDs| && Fresh(newIDs, sources)
    ensures var added := Added(sources, integrationID, bindings, newIDs, n);
            forall id :: id in added ==> id !in sources && added[id].id == id && Infra(added[id], integrationID)
  {
    AddedAt(sources, integrationID, bindings, newIDs, n);
  }

  /** Deleting the integration takes back exactly the sources made for it. */
  lemma RollBack(sources: map<Id, Source>, added: map<Id, Source>, integrationID: Id)
    requires forall id :: id in sources ==> sources[id].integrationID != integrationID
    requires forall id :: id in added ==> id !in sources && added[id].integrationID == integrationID
    ensures (map id | id in sources + added && (sources + added)[id].integrationID != integrationID :: (sources + added)[id]) == sources
  {
  }

  predicate Tunable(s: Source, mode: string, state: string) {
    && mode in {"", "external_collector", "managed_collector"} && (mode == "managed_collector" ==> s.kind == KubernetesInfra)
    && state in {"", "connected", "disconnected"}
  }

  function Retuned(sources: map<Id, Source>, id: Id, mode: string, state: string): map<Id, Source>
    requires id in sources
  {
    sources[id := sources[id].(mode := if mode == "" then sources[id].mode else mode,
                               desired := if state == "" then sources[id].desired else state)]
  }

  predicate HasLogDerived(sources: map<Id, Source>, integrationID: Id) {
    exists id :: id in sources && sources[id].integrationID == integrationID && sources[id].kind == LogDerived
  }

  function LogSource(id: Id, integrationID: Id): Source {
    Source(id, integrationID, "", LogDerived, "external_collector", "connected")
  }

  function LogEnabled(sources: map<Id, Source>, integrationID: Id, newID: Id): map<Id, Source> {
    if HasLogDerived(sources, integrationID) then sources else sources[newID := LogSource(newID, integrationID)]
  }

  // ---------- What every run keeps ----------

  /** `kinds` says what each binding binds, once and for all; a binding list agrees with it. */
  predicate Agree(bindings: seq<Binding>, kinds: map<Id, string>) {
    Proper(bindings) && forall i :: 0 <= i < |bindings| ==> bindings[i].id in kinds && kinds[bindings[i].id] == bindings[i].resourceKind
  }

  predicate SourceOk(s: Source, id: Id, kinds: map<Id, string>) {
    && s.id == id
    && (if s.kind == LogDerived then s.bindingID == ""
        else s.bindingID != "" && s.bindingID in kinds && SourceKindForResource(kinds[s.bindingID]) == Some(s.kind))
  }

  /** What every reachable set of sources satisfies: each is of the kind its binding calls for, and an integration has at
      most one source per binding and at most one log-derived source. */
  predicate Tidy(sources: map<Id, Source>, kinds: map<Id, string>) {
    && (forall id :: id in sources ==> SourceOk(sources[id], id, kinds))
    && (forall id, other | id in sources && other in sources && sources[id].integrationID == sources[other].integrationID
          :: sources[id].bindingID == sources[other].bindingID ==> id == other)
  }

  predicate Infra(s: Source, integrationID: Id) { s.integrationID == integrationID && s.kind != LogDerived }

  /** Source `id` is what the integration should have for `b`. */
  predicate Serves(sources: map<Id, Source>, integrationID: Id, id: Id, b: Binding) {
    id in sources && Infra(sources[id], integrationID) && sources[id].bindingID == b.id
    && SourceKindForResource(b.resourceKind) == Some(sources[id].kind)
  }

  /** The integration's infrastructure sources and the bindings of a mapped kind correspond one to one. */
  ghost predicate OneToOne(sources: map<Id, Source>, integrationID: Id, bindings: seq<Binding>) {
    && (forall i :: 0 <= i < |bindings| && SourceKindForResource(bindings[i].resourceKind).Some? ==>
                      exists id :: Serves(sources, integrationID, id, bindings[i]))
    && (forall id :: id in sources && Infra(sources[id], integrationID) ==>
                       exists i :: 0 <= i < |bindings| && Serves(sources, integrationID, id, bindings[i]))
    && (forall id, other, i, j | 0 <= i < |bindings| && 0 <= j < |bindings|
          :: Serves(sources, integrationID, id, bindings[i]) && Serves(sources, integrationID, other, bindings[j]) ==>
               (id == other <==> i == j))
  }

  // ---------- The service ----------

  /** Why a new integration is turned away, or `Ok`. */
  function Admission(environmentID: string, destinationRef: string, allowed: bool, active: bool, available: bool,
                     integrations: map<Id, Integration>): Outcome
  {
    if environmentID == "" || destinationRef == "" then InvalidRequest
    else if !allowed then PermissionDenied
    else if !active then EnvironmentUnavailable
    else if !available then DestinationUnavailable
    else if HasEnvironment(integrations, environmentID) then AlreadyExists
    else Ok
  }

  class IntegrationService {
    const repository: MemoryRepository

    constructor (repository: MemoryRepository)
      ensures this.repository == repository
    {
      this.repository := repository;
    }

    /** `allowed`, `active` and `bindings` are what the authorizer and the environment service answer;
        `newIDs` are the generated ids. */
    method ReconcileSources(id: Id, allowed: bool, active: bool, bindings: seq<Binding>, newIDs: seq<Id>) returns (outcome: Outcome)
      requires repository.Keyed()
      requires |newIDs| == |bindings| && Fresh(newIDs, repository.sources)
      modifies repository`sources
      ensures outcome == NotFound <==> TrimSpace(id) !in repository.integrations
      ensures outcome != NotFound ==> (outcome == PermissionDenied <==> !allowed)
      ensures outcome != NotFound && allowed ==> (outcome == EnvironmentUnavailable <==> !active)
      ensures outcome in {NotFound, PermissionDenied, EnvironmentUnavailable} ==> repository.sources == old(repository.sources)
      ensures outcome == Ok ==> repository.sources == Reconciled(old(repository.sources), TrimSpace(id), bindings, newIDs)
      ensures outcome == Ok ==> forall n :: 0 <= n < |bindings| ==> !ClashAt(old(repository.sources), TrimSpace(id), bindings, newIDs, n)
      ensures outcome == AlreadyExists ==> !Proper(bindings)
      ensures outcome == AlreadyExists ==>
                exists n :: 0 <= n < |bindings| && StopsAt(old(repository.sources), TrimSpace(id), bindings, newIDs, n)
                            && repository.sources == Halfway(old(repository.sources), TrimSpace(id), bindings, newIDs, n)
      ensures outcome in {Ok, NotFound, PermissionDenied, EnvironmentUnavailable, AlreadyExists}
    {
      hide TrimSpace, Proper, Kept, Added, Fresh, Halfway, ClashAt;
      var integrationID := TrimSpace(id);
      if integrationID !in repository.integrations {
        return NotFound;
      }
      if !allowed {
        return PermissionDenied;
      }
      if !active {
        return EnvironmentUnavailable;
      }
      ghost var before := repository.sources;
      var items := repository.ListSourceAccesses(integrationID);
      var bindingByID := IndexBindings(bindings);
      var sourceByBinding := IndexSources(items);
      IndexCovers(before, integrationID, items, sourceByBinding);
      DeleteStale(integrationID, items, bindings, bindingByID);
      outcome := CreateMissing(before, integrationID, bindings, newIDs, sourceByBinding);
    }

    /** The log-derived source of an integration is created at most once. */
    method EnableLogDerivedSource(id: Id, allowed: bool, newID: Id) returns (outcome: Outcome, result: Option<Source>)
      requires repository.Keyed() && newID !in repository.sources
      modifies repository`sources
      ensures outcome == if TrimSpace(id) !in repository.integrations then NotFound else if !allowed then PermissionDenied else Ok
      ensures repository.sources == if outcome == Ok then LogEnabled(old(repository.sources), TrimSpace(id), newID) else old(repository.sources)
      ensures outcome == Ok <==> result.Some?
      ensures outcome == Ok ==>
                && (forall s :: s in old(repository.sources) ==> s in repository.sources && repository.sources[s] == old(repository.sources)[s])
                && if exists s :: s in old(repository.sources) && old(repository.sources)[s].integrationID == TrimSpace(id)
                                  && old(repository.sources)[s].kind == LogDerived
                   then repository.sources == old(repository.sources)
                   else repository.sources == old(repository.sources)[newID :=
                          Source(newID, TrimSpace(id), "", LogDerived, "external_collector", "connected")]
      ensures outcome == Ok ==> result.value.id in repository.sources && repository.sources[result.value.id] == result.value
                                && result.value.integrationID == TrimSpace(id) && result.value.kind == LogDerived
    {
      hide TrimSpace;
      var integrationID := TrimSpace(id);
      if integrationID !in repository.integrations {
        return NotFound, None;
      }
      if !allowed {
        return PermissionDenied, None;
      }
      var items := repository.ListSourceAccesses(integrationID);
      for k := 0 to |items|
        invariant forall j :: 0 <= j < k ==> items[j].kind != LogDerived
        invariant repository.sources == old(repository.sources)
      {
        assert items[k] in items;
        if items[k].kind == LogDerived {
          return Ok, Some(items[k]);
        }
      }
      forall s | s in repository.sources && repository.sources[s].integrationID == integrationID
        ensures repository.sources[s].kind != LogDerived
      {
        assert repository.sources[s] in items;
      }
      var source := LogSource(newID, integrationID);
      outcome := repository.CreateSourceAccess(source);
      result := Some(source);
    }

    /** A source keeps its integration, its binding and its kind; a blank mode or state leaves the old one. */
    method UpdateSourceAccess(id: Id, allowed: bool, mode: string, state: string) returns (outcome: Outcome)
      requires repository.Keyed()
      modifies repository`sources
      ensures outcome == NotFound <==> TrimSpace(id) !in old(repository.sources)
                                       || old(repository.sources)[TrimSpace(id)].integrationID !in repository.integrations
      ensures outcome != NotFound ==> (outcome == PermissionDenied <==> !allowed)
      ensures outcome !in {NotFound, PermissionDenied} ==>
                (outcome == InvalidRequest <==> !Tunable(old(repository.sources)[TrimSpace(id)], TrimSpace(mode), TrimSpace(state)))
      ensures outcome in {NotFound, PermissionDenied, InvalidRequest, Ok}
      ensures outcome !in {NotFound, PermissionDenied} ==>
                var newMode, newState := TrimSpace(mode), TrimSpace(state);
                outcome == if newMode in {"", "external_collector"}
                              || (newMode == "managed_collector" && old(repository.sources)[TrimSpace(id)].kind == KubernetesInfra)
                           then if newState in {"", "connected", "disconnected"} then Ok else InvalidRequest
                           else InvalidRequest
      ensures outcome == Ok ==>
                var was, newMode, newState := old(repository.sources)[TrimSpace(id)], TrimSpace(mode), TrimSpace(state);
                repository.sources == old(repository.sources)[TrimSpace(id) :=
                  Source(was.id, was.integrationID, was.bindingID, was.kind, if newMode == "" then was.mode else newMode,
                         if newState == "" then was.desired else newState)]
      ensures repository.sources == if outcome == Ok then Retuned(old(repository.sources), TrimSpace(id), TrimSpace(mode), TrimSpace(state))
                                    else old(repository.sources)
    {
      hide TrimSpace;
      var sourceID := TrimSpace(id);
      if sourceID !in repository.sources {
        return NotFound;
      }
      var item := repository.sources[sourceID];
      if item.integrationID !in repository.integrations {
        return NotFound;
      }
      if !allowed {
        return PermissionDenied;
      }
      var newMode, newState := TrimSpace(mode), TrimSpace(state);
      if newMode != "" {
        if newMode != "external_collector" && newMode != "managed_collector" {
          return InvalidRequest;
        }
        if newMode == "managed_collector" && item.kind != KubernetesInfra {
          return InvalidRequest;
        }
        item := item.(mode := newMode);
      }
      if newState != "" {
        if newState != "connected" && newState != "disconnected" {
          return InvalidRequest;
        }
        item := item.(desired := newState);
      }
      outcome := repository.UpdateSourceAccess(item);
    }

    /** Creating an integration either leaves it with exactly the sources a reconciliation would give it, or leaves the
        repository as it was: a failure half way deletes the integration and every source made so far. */
    method CreateIntegration(environmentID: Id, destinationRef: string, allowed: bool, active: bool, available: bool,
                             bindings: Option<seq<Binding>>, newID: Id, newIDs: seq<Id>)
      returns (outcome: Outcome)
      requires repository.Keyed() && newID !in repository.integrations
      requires forall s :: s in repository.sources ==> repository.sources[s].integrationID != newID
      requires bindings.Some? ==> |newIDs| == |bindings.value| && Fresh(newIDs, repository.sources)
      modifies repository
      ensures outcome != Ok ==> repository.integrations == old(repository.integrations) && repository.sources == old(repository.sources)
      ensures outcome == Ok ==> bindings.Some?
      ensures outcome == Ok ==> repository.integrations == old(repository.integrations)[newID := Integration(newID, TrimSpace(environmentID))]
      ensures outcome == Ok ==> repository.sources == Reconciled(old(repository.sources), newID, bindings.value, newIDs)
      ensures var admission := Admission(TrimSpace(environmentID), TrimSpace(destinationRef), allowed, active, available,
                                         old(repository.integrations));
              && (admission != Ok ==> outcome == admission)
              && (admission == Ok && bindings.None? ==> outcome == Failed)
              && (admission == Ok && bindings.Some? && Proper(bindings.value) ==> outcome == Ok)
      ensures var taken := exists i :: i in old(repository.integrations) && old(repository.integrations)[i].environmentID == TrimSpace(environmentID);
              && (TrimSpace(environmentID) == "" || TrimSpace(destinationRef) == "" <==> outcome == InvalidRequest)
              && (outcome != InvalidRequest && !allowed <==> outcome == PermissionDenied)
              && (outcome != InvalidRequest && allowed && !active <==> outcome == EnvironmentUnavailable)
              && (outcome != InvalidRequest && allowed && active && !available <==> outcome == DestinationUnavailable)
              && (outcome == Ok ==> !taken)
              && (outcome != InvalidRequest && allowed && active && available && taken ==> outcome == AlreadyExists)
    {
      hide TrimSpace, Proper, Fresh, Kept;
      var environment := TrimSpace(environmentID);
      if environment == "" || TrimSpace(destinationRef) == "" {
        return InvalidRequest;
      }
      if !allowed {
        return PermissionDenied;
      }
      if !active {
        return EnvironmentUnavailable;
      }
      if !available {
        return DestinationUnavailable;
      }
      outcome := repository.CreateIntegration(Integration(newID, environment));
      if outcome != Ok {
        return;
      }
      if bindings.None? {
        var _ := repository.DeleteIntegration(newID);
        RollBack(old(repository.sources), map[], newID);
        return Failed;
      }
      outcome := CreateSources(newID, bindings.value, newIDs);
    }

    method CreateSources(newID: Id, bindings: seq<Binding>, newIDs: seq<Id>) returns (outcome: Outcome)
      requires newID in repository.integrations && |newIDs| == |bindings| && Fresh(newIDs, repository.sources)
      requires forall s :: s in repository.sources ==> repository.sources[s].integrationID != newID
      modifies repository
      ensures outcome == Ok || (outcome == AlreadyExists && !Proper(bindings))
      ensures outcome == Ok ==> repository.integrations == old(repository.integrations)
      ensures outcome == Ok ==> repository.sources == Reconciled(old(repository.sources), newID, bindings, newIDs)
      ensures outcome != Ok ==> repository.integrations == old(repository.integrations) - {newID}
      ensures outcome != Ok ==> repository.sources == old(repository.sources)
    {
      hide Proper;
      ghost var before := repository.sources;
      assert Kept(before, newID, bindings) == before;
      for k := 0 to |bindings|
        invariant repository.integrations == old(repository.integrations)
        invariant repository.sources == before + Added(before, newID, bindings, newIDs, k)
      {
        var resourceKind := SourceKindForResource(bindings[k].resourceKind);
        if resourceKind.Some? {
          var source := Source(newIDs[k], newID, bindings[k].id, resourceKind.value, "external_collector", "connected");
          outcome := repository.CreateSourceAccess(source);
          if outcome != Ok {
            if Proper(bindings) {
              NoClash(before, newID, bindings, newIDs, k);
            }
            var _ := repository.DeleteIntegration(newID);
            AddedBelongs(before, newID, bindings, newIDs, k);
            RollBack(before, Added(before, newID, bindings, newIDs, k), newID);
            return;
          }
        }
      }
      outcome := Ok;
    }

    method DeleteStale(integrationID: Id, items: seq<Source>, bindings: seq<Binding>, bindingByID: map<Id, Binding>)
      requires forall s :: s in items <==> s.id in repository.sources && repository.sources[s.id] == s && s.integrationID == integrationID
      requires forall i, j :: 0 <= i < j < |items| ==> items[i].id != items[j].id
      requires repository.Keyed() && forall b :: b in bindingByID <==> Bound(bindings, b)
      modifies repository`sources
      ensures repository.sources == Kept(old(repository.sources), integrationID, bindings)
    {
      ghost var before := repository.sources;
      ghost var seen: set<Id> := {};
      assert Purged(before, seen, integrationID, bindings) == before;
      for k := 0 to |items|
        invariant seen == set j | 0 <= j < k :: items[j].id
        invariant repository.sources == Purged(before, seen, integrationID, bindings)
      {
        var source := items[k];
        assert source in items && source.id !in seen;
        seen := seen + {source.id};
        if source.kind != LogDerived && source.bindingID !in bindingByID {
          var _ := repository.DeleteSourceAccess(source.id);
        }
      }
      forall id | id in before && before[id].integrationID == integrationID ensures id in seen {
        assert before[id] in items;
        var j :| 0 <= j < |items| && items[j] == before[id];
        assert items[j].id == id;
      }
    }

    method CreateMissing(ghost before: map<Id, Source>, integrationID: Id, bindings: seq<Binding>, newIDs: seq<Id>,
                         sourceByBinding: map<Id, Source>)
      returns (outcome: Outcome)
      requires repository.sources == Kept(before, integrationID, bindings)
      requires |newIDs| == |bindings| && Fresh(newIDs, before)
      requires forall b :: b in sourceByBinding <==> Covered(before, integrationID, b)
      modifies repository`sources
      ensures outcome == Ok ==> repository.sources == Reconciled(before, integrationID, bindings, newIDs)
      ensures outcome == Ok || (outcome == AlreadyExists && !Proper(bindings))
      ensures outcome == Ok ==> forall n :: 0 <= n < |bindings| ==> !ClashAt(before, integrationID, bindings, newIDs, n)
      ensures outcome == AlreadyExists ==>
                exists n :: 0 <= n < |bindings| && StopsAt(before, integrationID, bindings, newIDs, n)
                            && repository.sources == Halfway(before, integrationID, bindings, newIDs, n)
    {
      hide Proper, Kept, Covered, Clashes;
      for k := 0 to |bindings|
        invariant forall n :: 0 <= n < k ==> !ClashAt(before, integrationID, bindings, newIDs, n)
        invariant repository.sources == Kept(before, integrationID, bindings) + Added(before, integrationID, bindings, newIDs, k)
      {
        var resourceKind := SourceKindForResource(bindings[k].resourceKind);
        if bindings[k].id !in sourceByBinding && resourceKind.Some? {
          var source := Source(newIDs[k], integrationID, bindings[k].id, resourceKind.value, "external_collector", "connected");
          outcome := repository.CreateSourceAccess(source);
          if outcome != Ok {
            if Proper(bindings) {
              NoClash(before, integrationID, bindings, newIDs, k);
            }
            assert StopsAt(before, integrationID, bindings, newIDs, k);
            return;
          }
        }
      }
      outcome := Ok;
    }
  }

  method IndexBindings(bindings: seq<Binding>) returns (bindingByID: map<Id, Binding>)
    ensures forall b :: b in bindingByID <==> Bound(bindings, b)
  {
    bindingByID := map[];
    for k := 0 to |bindings|
      invariant forall b :: b in bindingByID <==> Bound(bindings[..k], b)
    {
      BoundSnoc(bindings, k);
      bindingByID := bindingByID[bindings[k].id := bindings[k]];
    }
    assert bindings[..|bindings|] == bindings;
  }

  method IndexSources(items: seq<Source>) returns (sourceByBinding: map<Id, Source>)
    ensures forall b :: b in sourceByBinding <==> b != "" && exists j :: 0 <= j < |items| && items[j].bindingID == b
  {
    sourceByBinding := map[];
    for k := 0 to |items|
      invariant forall b :: b in sourceByBinding <==> b != "" && exists j :: 0 <= j < k && items[j].bindingID == b
    {
      if items[k].bindingID != "" {
        sourceByBinding := sourceByBinding[items[k].bindingID := items[k]];
      }
    }
  }

  lemma IndexCovers(sources: map<Id, Source>, integrationID: Id, items: seq<Source>, sourceByBinding: map<Id, Source>)
    requires forall id :: id in sources ==> sources[id].id == id
    requires forall s :: s in items <==> s.id in sources && sources[s.id] == s && s.integrationID == integrationID
    requires forall b :: b in sourceByBinding <==> b != "" && exists j :: 0 <= j < |items| && items[j].bindingID == b
    ensures forall b :: b in sourceByBinding <==> Covered(sources, integrationID, b)
  {
    forall b ensures b in sourceByBinding <==> Covered(sources, integrationID, b) {
      if b in sourceByBinding {
        var j :| 0 <= j < |items| && items[j].bindingID == b;
        assert items[j] in items;
      }
      if Covered(sources, integrationID, b) {
        var id :| id in sources && sources[id].integrationID == integrationID && sources[id].bindingID != "" && sources[id].bindingID == b;
        assert sources[id] in items;
      }
    }
  }

  lemma BoundSnoc(bindings: seq<Binding>, k: nat)
    requires k < |bindings|
    ensures forall id :: Bound(bindings[..k + 1], id) <==> Bound(bindings[..k], id) || id == bindings[k].id
  {
    forall id ensures Bound(bindings[..k + 1], id) <==> Bound(bindings[..k], id) || id == bindings[k].id {
      if Bound(bindings[..k], id) {
        var i :| 0 <= i < k && bindings[..k][i].id == id;
        assert bindings[..k + 1][i].id == id;
      }
      if id == bindings[k].id {
        assert bindings[..k + 1][k].id == id;
      }
      if Bound(bindings[..k + 1], id) && id != bindings[k].id {
        var i :| 0 <= i < k + 1 && bindings[..k + 1][i].id == id;
        assert bindings[..k][i].id == id;
      }
    }
  }

  // ---------- Convergence ----------

  /** A source after reconciling is one that was there and is not stale, or a new one for a binding that lacked one. */
  lemma ReconciledAt(sources: map<Id, Source>, integrationID: Id, bindings: seq<Binding>, newIDs: seq<Id>)
    requires |bindings| == |newIDs| && Fresh(newIDs, sources)
    ensures var after := Reconciled(sources, integrationID, bindings, newIDs);
            && (forall id :: id in sources ==> (id in after <==> !Stale(sources[id], integrationID, bindings)))
            && (forall id :: id in sources && id in after ==> after[id] == sources[id])
            && (forall id :: id in after && id !in sources ==> IsNew(sources, integrationID, bindings, newIDs, id, after[id]))
            && (forall j :: 0 <= j < |bindings| && Wanted(sources, integrationID, bindings[j]) ==>
                              newIDs[j] in after && after[newIDs[j]] == SourceFor(newIDs[j], integrationID, bindings[j]))
  {
    hide Wanted, Stale;
    AddedAt(sources, integrationID, bindings, newIDs, |bindings|);
    var kept, added := Kept(sources, integrationID, bindings), Added(sources, integrationID, bindings, newIDs, |bindings|);
    forall id | id in added ensures IsNew(sources, integrationID, bindings, newIDs, id, added[id]) {
      var j :| 0 <= j < |bindings| && newIDs[j] == id && Wanted(sources, integrationID, bindings[j]);
      assert NewAt(sources, integrationID, bindings, newIDs, j, id);
    }
  }

  predicate NewAt(sources: map<Id, Source>, integrationID: Id, bindings: seq<Binding>, newIDs: seq<Id>, j: int, id: Id)
    requires |bindings| == |newIDs|
  {
    0 <= j < |bindings| && newIDs[j] == id && Wanted(sources, integrationID, bindings[j])
  }

  ghost predicate IsNew(sources: map<Id, Source>, integrationID: Id, bindings: seq<Binding>, newIDs: seq<Id>, id: Id, s: Source)
    requires |bindings| == |newIDs|
  {
    exists j :: NewAt(sources, integrationID, bindings, newIDs, j, id) && s == SourceFor(id, integrationID, bindings[j])
  }

  lemma ReconcileKeepsTidy(sources: map<Id, Source>, integrationID: Id, bindings: seq<Binding>, newIDs: seq<Id>, kinds: map<Id, string>)
    requires |bindings| == |newIDs| && Fresh(newIDs, sources) && Tidy(sources, kinds) && Agree(bindings, kinds)
    ensures Tidy(Reconciled(sources, integrationID, bindings, newIDs), kinds)
  {
    hide Reconciled, Stale;
    var after := Reconciled(sources, integrationID, bindings, newIDs);
    ReconciledAt(sources, integrationID, bindings, newIDs);
    forall id | id in after ensures SourceOk(after[id], id, kinds) {
      if id in sources {
        assert SourceOk(sources[id], id, kinds);
      } else {
        var j :| NewAt(sources, integrationID, bindings, newIDs, j, id) && after[id] == SourceFor(id, integrationID, bindings[j]);
      }
    }
    forall id, other | id in after && other in after && after[id].integrationID == after[other].integrationID
                       && after[id].bindingID == after[other].bindingID
      ensures id == other
    {
      if id !in sources {
        NewOrOld(sources, integrationID, bindings, newIDs, id, other);
      } else if other !in sources {
        NewOrOld(sources, integrationID, bindings, newIDs, other, id);
      }
    }
  }

  /** A new source shares its binding with no other source. */
  lemma NewOrOld(sources: map<Id, Source>, integrationID: Id, bindings: seq<Binding>, newIDs: seq<Id>, id: Id, other: Id)
    requires |bindings| == |newIDs| && Fresh(newIDs, sources) && Proper(bindings)
    requires id in Reconciled(sources, integrationID, bindings, newIDs) && other in Reconciled(sources, integrationID, bindings, newIDs)
    requires id !in sources
    ensures var after := Reconciled(sources, integrationID, bindings, newIDs);
            after[id].integrationID == after[other].integrationID && after[id].bindingID == after[other].bindingID ==> id == other
  {
    hide Reconciled, Stale;
    var after := Reconciled(sources, integrationID, bindings, newIDs);
    ReconciledAt(sources, integrationID, bindings, newIDs);
    var j :| NewAt(sources, integrationID, bindings, newIDs, j, id) && after[id] == SourceFor(id, integrationID, bindings[j]);
    if other !in sources {
      var k :| NewAt(sources, integrationID, bindings, newIDs, k, other) && after[other] == SourceFor(other, integrationID, bindings[k]);
    }
  }

  /** One reconciliation makes infrastructure sources and bindings of a mapped kind correspond one to one. */
  lemma ReconcileConverges(sources: map<Id, Source>, integrationID: Id, bindings: seq<Binding>, newIDs: seq<Id>, kinds: map<Id, string>)
    requires |bindings| == |newIDs| && Fresh(newIDs, sources) && Tidy(sources, kinds) && Agree(bindings, kinds)
    ensures OneToOne(Reconciled(sources, integrationID, bindings, newIDs), integrationID, bindings)
  {
    hide Reconciled;
    var after := Reconciled(sources, integrationID, bindings, newIDs);
    ReconciledAt(sources, integrationID, bindings, newIDs);
    ReconcileKeepsTidy(sources, integrationID, bindings, newIDs, kinds);
    forall i | 0 <= i < |bindings| && SourceKindForResource(bindings[i].resourceKind).Some?
      ensures exists id :: Serves(after, integrationID, id, bindings[i])
    {
      if Covered(sources, integrationID, bindings[i].id) {
        var id :| id in sources && sources[id].integrationID == integrationID && sources[id].bindingID != ""
                  && sources[id].bindingID == bindings[i].id;
        assert Serves(after, integrationID, id, bindings[i]);
      } else {
        assert Serves(after, integrationID, newIDs[i], bindings[i]);
      }
    }
    forall id | id in after && Infra(after[id], integrationID)
      ensures exists i :: 0 <= i < |bindings| && Serves(after, integrationID, id, bindings[i])
    {
      if id in sources {
        var i :| 0 <= i < |bindings| && bindings[i].id == sources[id].bindingID;
        assert Serves(after, integrationID, id, bindings[i]);
      } else {
        var j :| NewAt(sources, integrationID, bindings, newIDs, j, id) && after[id] == SourceFor(id, integrationID, bindings[j]);
        assert Serves(after, integrationID, id, bindings[j]);
      }
    }
  }

  /** Reconciling touches nothing but stale sources and missing ones: surviving and log-derived sources and those of other
      integrations stay as they are, and every new source belongs to the integration. */
  lemma ReconcileLeavesOthers(sources: map<Id, Source>, integrationID: Id, bindings: seq<Binding>, newIDs: seq<Id>)
    requires |bindings| == |newIDs| && Fresh(newIDs, sources)
    ensures var after := Reconciled(sources, integrationID, bindings, newIDs);
            && (forall id :: id in sources && !Infra(sources[id], integrationID) ==> id in after && after[id] == sources[id])
            && (forall id :: id in sources && Bound(bindings, sources[id].bindingID) ==> id in after && after[id] == sources[id])
            && (forall id :: id in after && id !in sources ==> Infra(after[id], integrationID))
  {
    hide Reconciled, Bound;
    ReconciledAt(sources, integrationID, bindings, newIDs);
    var after := Reconciled(sources, integrationID, bindings, newIDs);
    forall id | id in after && id !in sources ensures Infra(after[id], integrationID) {
      var j :| NewAt(sources, integrationID, bindings, newIDs, j, id) && after[id] == SourceFor(id, integrationID, bindings[j]);
    }
  }

  lemma {:induction false} NothingAdded(sources: map<Id, Source>, integrationID: Id, bindings: seq<Binding>, newIDs: seq<Id>, n: nat)
    requires n <= |bindings| == |newIDs|
    requires forall i :: 0 <= i < |bindings| ==> !Wanted(sources, integrationID, bindings[i])
    ensures Added(sources, integrationID, bindings, newIDs, n) == map[]
  {
    hide Wanted;
    if n > 0 {
      NothingAdded(sources, integrationID, bindings, newIDs, n - 1);
    }
  }

  /** Once sources and bindings correspond, reconciling changes nothing. */
  lemma ConvergedIsFixed(sources: map<Id, Source>, integrationID: Id, bindings: seq<Binding>, newIDs: seq<Id>)
    requires |bindings| == |newIDs| && Proper(bindings) && OneToOne(sources, integrationID, bindings)
    ensures Reconciled(sources, integrationID, bindings, newIDs) == sources
  {
    forall i | 0 <= i < |bindings| ensures !Wanted(sources, integrationID, bindings[i]) {
      if SourceKindForResource(bindings[i].resourceKind).Some? {
        var id :| Serves(sources, integrationID, id, bindings[i]);
        assert Covered(sources, integrationID, bindings[i].id);
      }
    }
    NothingAdded(sources, integrationID, bindings, newIDs, |bindings|);
    forall id | id in sources ensures !Stale(sources[id], integrationID, bindings) {
      if Infra(sources[id], integrationID) {
        var i :| 0 <= i < |bindings| && Serves(sources, integrationID, id, bindings[i]);
        assert Bound(bindings, sources[id].bindingID);
      }
    }
    assert Kept(sources, integrationID, bindings) == sources;
  }

  /** A second run changes nothing, whatever ids it would hand out. */
  lemma ReconcileTwice(sources: map<Id, Source>, integrationID: Id, bindings: seq<Binding>, newIDs: seq<Id>, later: seq<Id>, kinds: map<Id, string>)
    requires |bindings| == |newIDs| == |later| && Fresh(newIDs, sources) && Tidy(sources, kinds) && Agree(bindings, kinds)
    ensures var after := Reconciled(sources, integrationID, bindings, newIDs); Reconciled(after, integrationID, bindings, later) == after
  {
    hide Reconciled, OneToOne;
    ReconcileConverges(sources, integrationID, bindings, newIDs, kinds);
    ConvergedIsFixed(Reconciled(sources, integrationID, bindings, newIDs), integrationID, bindings, later);
  }

  // ---------- Over runs ----------

  /** A creation changes the sources as a reconciliation does. */
  datatype Op =
    | Reconcile(integrationID: Id, bindings: seq<Binding>, newIDs: seq<Id>)
    | EnableLog(integrationID: Id, newID: Id)
    | Retune(id: Id, mode: string, desired: string)
    | Remove(integrationID: Id)

  predicate CanApply(sources: map<Id, Source>, op: Op, kinds: map<Id, string>) {
    match op
    case Reconcile(_, bindings, newIDs) => |bindings| == |newIDs| && Fresh(newIDs, sources) && Agree(bindings, kinds)
    case EnableLog(_, newID) => newID !in sources
    case Retune(id, _, _) => id in sources
    case Remove(_) => true
  }

  function Apply(sources: map<Id, Source>, op: Op, kinds: map<Id, string>): map<Id, Source>
    requires CanApply(sources, op, kinds)
  {
    match op
    case Reconcile(integrationID, bindings, newIDs) => Reconciled(sources, integrationID, bindings, newIDs)
    case EnableLog(integrationID, newID) => LogEnabled(sources, integrationID, newID)
    case Retune(id, mode, desired) => Retuned(sources, id, mode, desired)
    case Remove(integrationID) => map id | id in sources && sources[id].integrationID != integrationID :: sources[id]
  }

  /** The sources a run from an empty repository leaves, if every step of it can be taken. */
  function After(ops: seq<Op>, kinds: map<Id, string>): Option<map<Id, Source>> {
    if ops == [] then Some(map[])
    else
      match After(ops[..|ops| - 1], kinds)
      case None => None
      case Some(sources) =>
        var op := ops[|ops| - 1];
        if CanApply(sources, op, kinds) then Some(Apply(sources, op, kinds)) else None
  }

  lemma {:induction false} ReachableTidy(ops: seq<Op>, kinds: map<Id, string>)
    requires After(ops, kinds).Some?
    ensures Tidy(After(ops, kinds).value, kinds)
  {
    hide Tidy, CanApply, Apply;
    if ops == [] {
      EmptyTidy(kinds);
    } else {
      ReachableTidy(ops[..|ops| - 1], kinds);
      ApplyKeepsTidy(After(ops[..|ops| - 1], kinds).value, ops[|ops| - 1], kinds);
    }
  }

  lemma EmptyTidy(kinds: map<Id, string>)
    ensures Tidy(map[], kinds)
  {
  }

  lemma ApplyKeepsTidy(sources: map<Id, Source>, op: Op, kinds: map<Id, string>)
    requires CanApply(sources, op, kinds) && Tidy(sources, kinds)
    ensures Tidy(Apply(sources, op, kinds), kinds)
  {
    hide Reconciled, Fresh, Agree;
    match op
    case Reconcile(integrationID, bindings, newIDs) => ReconcileKeepsTidy(sources, integrationID, bindings, newIDs, kinds);
    case EnableLog(_, _) =>
    case Retune(_, _, _) =>
    case Remove(_) =>
  }

  /** After any run of operations, one reconciliation makes sources and bindings correspond, and the next changes nothing. */
  lemma ReconciliationConverges(ops: seq<Op>, integrationID: Id, bindings: seq<Binding>, newIDs: seq<Id>,
                                later: seq<Id>, kinds: map<Id, string>)
    requires After(ops, kinds).Some? && |bindings| == |newIDs| == |later| && Agree(bindings, kinds)
    requires Fresh(newIDs, After(ops, kinds).value)
    ensures var after := Reconciled(After(ops, kinds).value, integrationID, bindings, newIDs);
            OneToOne(after, integrationID, bindings) && Reconciled(after, integrationID, bindings, later) == after
  {
    hide Reconciled, OneToOne, After, Fresh, Agree, Tidy;
    ReachableTidy(ops, kinds);
    ReconcileConverges(After(ops, kinds).value, integrationID, bindings, newIDs, kinds);
    ReconcileTwice(After(ops, kinds).value, integrationID, bindings, newIDs, later, kinds);
  }

  // ---------- What a reconciliation makes ----------

  /** A Kubernetes cluster gets a source of its kind, a host group one of its kind, and no other binding gets any; sources of the
      integration go with their binding, unless they are derived from logs. */
  lemma ReconciledIs(sources: map<Id, Source>, integrationID: Id, bindings: seq<Binding>, newIDs: seq<Id>)
    requires |bindings| == |newIDs| && Fresh(newIDs, sources)
    ensures var after := Reconciled(sources, integrationID, bindings, newIDs);
            && (forall id :: id in sources ==>
                  if sources[id].integrationID == integrationID && sources[id].kind != LogDerived
                     && forall i :: 0 <= i < |bindings| ==> bindings[i].id != sources[id].bindingID
                  then id !in after else id in after && after[id] == sources[id])
            && (forall i :: 0 <= i < |bindings| ==>
                  if bindings[i].resourceKind in {"k8s_cluster", "host_group"}
                     && forall id :: id in sources && sources[id].integrationID == integrationID && sources[id].bindingID != "" ==>
                                       sources[id].bindingID != bindings[i].id
                  then newIDs[i] in after
                       && after[newIDs[i]] == Source(newIDs[i], integrationID, bindings[i].id,
                                                     if bindings[i].resourceKind == "k8s_cluster" then KubernetesInfra else HostInfra,
                                                     "external_collector", "connected")
                  else newIDs[i] !in after)
            && (forall id :: id in after ==> id in sources || id in newIDs)
  {
    var n := |bindings|;
    AddedAt(sources, integrationID, bindings, newIDs, n);
    var kept, added := Kept(sources, integrationID, bindings), Added(sources, integrationID, bindings, newIDs, n);
    forall i | 0 <= i < n
      ensures Wanted(sources, integrationID, bindings[i]) <==>
              bindings[i].resourceKind in {"k8s_cluster", "host_group"}
              && forall id :: id in sources && sources[id].integrationID == integrationID && sources[id].bindingID != "" ==>
                                sources[id].bindingID != bindings[i].id
    {}
    forall i | 0 <= i < n ensures newIDs[i] in added <==> Wanted(sources, integrationID, bindings[i]) {
      if newIDs[i] in added {
        var j :| 0 <= j < n && newIDs[j] == newIDs[i] && Wanted(sources, integrationID, bindings[j]);
      }
    }
  }

  /** The steps of the runs, as the operations' contracts have them: deleting an integration takes its sources and no other,
      a log-derived source is made where there is none, and retuning changes mode and desired state only. */
  lemma StepsAreOperations(sources: map<Id, Source>, kinds: map<Id, string>, integrationID: Id, id: Id, mode: string, state: string)
    ensures forall s :: s in Apply(sources, Remove(integrationID), kinds) <==> s in sources && sources[s].integrationID != integrationID
    ensures forall s :: s in Apply(sources, Remove(integrationID), kinds) ==> Apply(sources, Remove(integrationID), kinds)[s] == sources[s]
    ensures id !in sources ==>
              Apply(sources, EnableLog(integrationID, id), kinds)
              == if exists s :: s in sources && sources[s].integrationID == integrationID && sources[s].kind == LogDerived then sources
                 else sources[id := Source(id, integrationID, "", LogDerived, "external_collector", "connected")]
    ensures id in sources ==>
              var s := sources[id];
              Apply(sources, Retune(id, mode, state), kinds)
              == sources[id := Source(s.id, s.integrationID, s.bindingID, s.kind, if mode == "" then s.mode else mode,
                                      if state == "" then s.desired else state)]
  {}
}
