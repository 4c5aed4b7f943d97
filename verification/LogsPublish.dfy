/** Publishing the log collector of a cluster: in full when its base is missing, and otherwise only the ConfigMaps that changed
    since the last publish, together with the DaemonSet. */
module LogsPublish {
  import opened Text
  import opened CollectorBundle
  import opened CollectorManifest
  import BlockText
  import ManifestText
  import ResourceCheck

  /** What is recorded about the collector; `published` says that a time of publication is recorded. */
  datatype Runtime = Runtime(configHash: string, published: bool, status: Status)

  datatype Status = Previewed | Ready

  datatype System = System(runtime: Option<Runtime>, versions: map<string, Files>, cluster: Cluster)

  datatype Task = Base | Incremental

  /** An operation is previewed first; an apply confirms a preview. */
  datatype Mode = Preview | Apply

  datatype Outcome = Done | Refused | Failed

  /** How an operation ends: as it should; recorded, but without the routes' publish state; or broken off, unrecorded, when
      `sent` of its documents were in the cluster -- all of them if what failed came after the last one. */
  datatype Reply = Taken | Unsynced | Broken(sent: nat)

  // ---------- What changed ----------

  /** The name of the ConfigMap the first reference for a path gives it. */
  function NameForPath(refs: seq<Ref>, path: Path): Name {
    if refs == [] then ""
    else
      var earlier := NameForPath(refs[..|refs| - 1], path);
      if HasPath(refs[..|refs| - 1], path) then earlier
      else if TrimSpace(refs[|refs| - 1].path) == TrimSpace(path) then TrimSpace(refs[|refs| - 1].name) else ""
  }

  predicate HasPath(refs: seq<Ref>, path: Path) { exists i :: 0 <= i < |refs| && TrimSpace(refs[i].path) == TrimSpace(path) }

  /** A file differs from what was published; a file that was not published counts as having been empty. */
  predicate Differs(files: Files, previous: Files, path: Path)
    requires path in files
  {
    (if path in previous then previous[path] else "") != files[path]
  }

  function AllNames(refs: seq<Ref>): set<Name> {
    set r | r in refs && TrimSpace(r.name) != "" :: TrimSpace(r.name)
  }

  function ChangedNames(b: Bundle, previous: Option<Files>): set<Name> {
    match previous
    case None => AllNames(b.refs)
    case Some(files) => set p | p in b.files && Differs(b.files, files, p) && NameForPath(b.refs, p) != "" :: NameForPath(b.refs, p)
  }

  /** The files last published, where they are known. */
  function Baseline(runtime: Option<Runtime>, versions: map<string, Files>): Option<Files> {
    if runtime.Some? && runtime.value.published && TrimSpace(runtime.value.configHash) != ""
       && runtime.value.configHash in versions && versions[runtime.value.configHash] != map[]
    then Some(versions[runtime.value.configHash]) else None
  }

  method ConfigMapNameForPath(refs: seq<Ref>, path: Path) returns (name: Name)
    ensures name == NameForPath(refs, path)
  {
    hide TrimSpace;
    var trimmed := TrimSpace(path);
    for i := 0 to |refs|
      invariant !HasPath(refs[..i], path)
    {
      assert refs[..i + 1][..i] == refs[..i];
      if TrimSpace(refs[i].path) == trimmed {
        FirstName(refs, path, i);
        return TrimSpace(refs[i].name);
      }
    }
    assert refs[..|refs|] == refs;
    NoName(refs, path);
    return "";
  }

  lemma {:induction false} FirstName(refs: seq<Ref>, path: Path, i: nat)
    requires i < |refs| && !HasPath(refs[..i], path) && TrimSpace(refs[i].path) == TrimSpace(path)
    ensures NameForPath(refs, path) == TrimSpace(refs[i].name)
  {
    hide TrimSpace;
    var n := |refs| - 1;
    if i < n {
      assert refs[..n][..i] == refs[..i];
      assert TrimSpace(refs[..n][i].path) == TrimSpace(path);
      FirstName(refs[..n], path, i);
    }
  }

  lemma {:induction false} NoName(refs: seq<Ref>, path: Path)
    requires !HasPath(refs, path)
    ensures NameForPath(refs, path) == ""
  {
    hide TrimSpace;
    if refs != [] {
      var n := |refs| - 1;
      assert TrimSpace(refs[n].path) != TrimSpace(path);
      forall i | 0 <= i < n ensures TrimSpace(refs[..n][i].path) != TrimSpace(path) {
        assert refs[..n][i] == refs[i];
      }
    }
  }

  method ConfigMapNamesForRefs(refs: seq<Ref>) returns (names: set<Name>)
    ensures names == AllNames(refs)
    ensures forall name :: name in names <==> name != "" && exists r :: r in refs && TrimSpace(r.name) == name
  {
    hide TrimSpace;
    names := {};
    for i := 0 to |refs|
      invariant names == AllNames(refs[..i])
    {
      assert refs[..i + 1] == refs[..i] + [refs[i]];
      var name := TrimSpace(refs[i].name);
      if name != "" {
        names := names + {name};
      }
    }
    assert refs[..|refs|] == refs;
  }

  method ChangedK8sRuntimeConfigMapNames(b: Bundle, runtime: Option<Runtime>, versions: map<string, Files>) returns (names: set<Name>)
    ensures names == ChangedNames(b, Baseline(runtime, versions))
    ensures Baseline(runtime, versions) == if runtime.None? || !runtime.value.published || TrimSpace(runtime.value.configHash) == ""
                                              || runtime.value.configHash !in versions || |versions[runtime.value.configHash]| == 0
                                           then None else Some(versions[runtime.value.configHash])
  {
    hide NameForPath, TrimSpace, AllNames;
    var all := ConfigMapNamesForRefs(b.refs);
    if runtime.None? || !runtime.value.published || TrimSpace(runtime.value.configHash) == "" {
      return all;
    }
    if runtime.value.configHash !in versions {
      return all;
    }
    var previous := versions[runtime.value.configHash];
    if previous == map[] {
      return all;
    }
    names := {};
    var todo := b.files.Keys;
    while todo != {}
      invariant todo <= b.files.Keys
      invariant names == set p | p in b.files && p !in todo && Differs(b.files, previous, p) && NameForPath(b.refs, p) != "" :: NameForPath(b.refs, p)
    {
      var path :| path in todo;
      todo := todo - {path};
      if (if path in previous then previous[path] else "") != b.files[path] {
        var name := ConfigMapNameForPath(b.refs, path);
        if name != "" {
          names := names + {name};
        }
      }
    }
  }

  // ---------- The service ----------

  /** The collector's base is in place; whether a route's ConfigMap is there is not looked at. */
  predicate IsReady(c: Cluster, lib: Library) {
    && {"Namespace", "ClusterRole", "ClusterRoleBinding", "ServiceAccount", "Service"} <= c.plain
    && lib.name("base.yaml") in c.configMaps && c.workload.Some?
  }

  function Persisted(versions: map<string, Files>, b: Bundle, lib: Library): map<string, Files> {
    if TrimSpace(lib.hash(b.files)) == "" || TrimSpace(b.collectorYAML) == "" then versions else versions[lib.hash(b.files) := b.files]
  }

  lemma ReadyMeans(c: Cluster, lib: Library)
    ensures IsReady(c, lib) <==>
              && "Namespace" in c.plain && "ServiceAccount" in c.plain && "ClusterRole" in c.plain && "ClusterRoleBinding" in c.plain
              && "Service" in c.plain && lib.name("base.yaml") in c.configMaps && c.workload.Some?
  {}

  lemma PersistedIs(versions: map<string, Files>, b: Bundle, lib: Library)
    ensures Persisted(versions, b, lib) == if TrimSpace(lib.hash(b.files)) != "" && TrimSpace(b.collectorYAML) != ""
                                           then versions[lib.hash(b.files) := b.files] else versions
  {
    hide TrimSpace;
  }

  predicate Admits(c: Cluster, lib: Library, task: Task) {
    match task
    case Base => !IsReady(c, lib)
    case Incremental => IsReady(c, lib)
  }

  /** The text an operation sends, and the documents it is read as. */
  function SentText(s: System, b: Bundle, lib: Library, task: Task): string {
    match task
    case Base => PrintedManifest(b, lib)
    case Incremental => ServiceText(PrintedManifest(b, lib), ChangedNames(b, Baseline(s.runtime, s.versions)), lib.wire)
  }

  function Sent(s: System, b: Bundle, lib: Library, task: Task): seq<Document> { Objects(SentText(s, b, lib, task), lib.wire) }

  /** What a preview records: the baseline stays the published one, where there is one. */
  function PreviewedRuntime(runtime: Option<Runtime>, hash: string): Runtime {
    if runtime.Some? && runtime.value.published && TrimSpace(runtime.value.configHash) != ""
    then Runtime(runtime.value.configHash, true, Previewed)
    else Runtime(hash, runtime.Some? && runtime.value.published, Previewed)
  }

  /** What part of an operation that sends `documents` reaches the cluster: they are applied one by one until one fails. */
  function Reached(documents: seq<Document>, reply: Reply): seq<Document> {
    if reply.Broken? && reply.sent < |documents| then documents[..reply.sent] else documents
  }

  /** The text is let through by the deployment service. */
  predicate Accepted(s: System, b: Bundle, lib: Library, task: Task) {
    ResourceCheck.Accepts(lib.wire.complete, SentText(s, b, lib, task))
  }

  /** A text that is not accepted fails before anything of it is sent. */
  function Answer(s: System, b: Bundle, lib: Library, task: Task, reply: Reply): Reply {
    if Accepted(s, b, lib, task) then reply else Broken(0)
  }

  function Published(s: System, b: Bundle, lib: Library, task: Task, mode: Mode, reply: Reply): System {
    if !Admits(s.cluster, lib, task) then s
    else
      var versions, answer := Persisted(s.versions, b, lib), Answer(s, b, lib, task, reply);
      match mode
      case Preview =>
        if answer.Broken? then s.(versions := versions)
        else System(Some(PreviewedRuntime(s.runtime, lib.hash(b.files))), versions, s.cluster)
      case Apply =>
        System(if answer.Broken? then s.runtime else Some(Runtime(lib.hash(b.files), true, Ready)), versions,
               Deploy(s.cluster, Reached(Sent(s, b, lib, task), answer)))
  }

  lemma NothingSent(c: Cluster, documents: seq<Document>)
    ensures Deploy(c, Reached(documents, Broken(0))) == c
  {
    assert |documents| > 0 ==> documents[..0] == [];
  }

  class Service {
    var runtime: Option<Runtime>
    var versions: map<string, Files>
    var cluster: Cluster

    ghost function Contents(): System
      reads this
    {
      System(runtime, versions, cluster)
    }

    constructor ()
      ensures Contents() == System(None, map[], EMPTY_CLUSTER)
    {
      runtime, versions, cluster := None, map[], EMPTY_CLUSTER;
    }

    method PersistRenderedArtifacts(b: Bundle, lib: Library)
      modifies this`versions
      ensures versions == Persisted(old(versions), b, lib)
    {
      var hash := lib.hash(b.files);
      if TrimSpace(hash) == "" || TrimSpace(b.collectorYAML) == "" {
        return;
      }
      versions := versions[hash := b.files];
    }

    /** The bundle is what the cluster's routes render to. */
    method PublishK8sCollectorRuntime(b: Bundle, lib: Library, task: Task, mode: Mode, reply: Reply) returns (outcome: Outcome)
      modifies this
      ensures Contents() == Published(old(Contents()), b, lib, task, mode, reply)
      ensures outcome == Refused <==>
                (task == Base <==> && "Namespace" in old(cluster).plain && "ServiceAccount" in old(cluster).plain
                                   && "ClusterRole" in old(cluster).plain && "ClusterRoleBinding" in old(cluster).plain
                                   && "Service" in old(cluster).plain
                                   && lib.name("base.yaml") in old(cluster).configMaps && old(cluster).workload.Some?)
      ensures outcome == Refused ==> Contents() == old(Contents())
      ensures outcome == Failed && !reply.Unsynced? ==> runtime == old(runtime)
      ensures mode == Preview ==> cluster == old(cluster)
      ensures outcome == Done && mode == Apply ==> runtime == Some(Runtime(lib.hash(b.files), true, Ready))
      ensures outcome == Done && mode == Preview ==>
                && runtime.Some? && runtime.value.status == Previewed
                && runtime.value.published == (old(runtime).Some? && old(runtime).value.published)
                && runtime.value.configHash == if old(runtime).Some? && old(runtime).value.published && TrimSpace(old(runtime).value.configHash) != ""
                                               then old(runtime).value.configHash else lib.hash(b.files)
      ensures outcome != Refused ==>
                versions == if TrimSpace(lib.hash(b.files)) != "" && TrimSpace(b.collectorYAML) != ""
                            then old(versions)[lib.hash(b.files) := b.files] else old(versions)
      ensures outcome == if !Admits(old(cluster), lib, task) then Refused
                         else if Answer(old(Contents()), b, lib, task, reply).Taken? then Done else Failed
    {
      hide TrimSpace, PrintedManifest, ServiceText, Objects, ChangedNames, Deploy, Persisted, IsReady, ResourceCheck.Accepts;
      var ready := IsReady(cluster, lib);
      ReadyMeans(cluster, lib);
      PersistedIs(versions, b, lib);
      var manifest := PrintedManifest(b, lib);
      match task {
        case Base =>
          if ready {
            return Refused;
          }
        case Incremental =>
          if !ready {
            return Refused;
          }
          var changed := ChangedK8sRuntimeConfigMapNames(b, runtime, versions);
          manifest := RenderK8sRuntimeServiceConfigManifest(manifest, changed, lib.wire);
      }
      var baseline := runtime;
      PersistRenderedArtifacts(b, lib);
      var accepted := ResourceCheck.ParseResourceIdentities(lib.wire.complete, manifest);
      if !accepted {
        NothingSent(cluster, Objects(manifest, lib.wire));
        return Failed;
      }
      var hash := lib.hash(b.files);
      var record := Runtime(hash, baseline.Some? && baseline.value.published, if baseline.Some? then baseline.value.status else Previewed);
      match mode {
        case Preview =>
          if reply.Broken? {
            return Failed;
          }
          record := record.(status := Previewed);
          if baseline.Some? && baseline.value.published && TrimSpace(baseline.value.configHash) != "" {
            record := record.(configHash := baseline.value.configHash, published := true);
          }
          runtime := Some(record);
        case Apply =>
          var documents := DecodeOperationObjects(manifest, lib.wire);
          ApplyDocuments(documents, reply);
          if reply.Broken? {
            return Failed;
          }
          runtime := Some(record.(status := Ready, published := true));
      }
      outcome := if reply.Unsynced? then Failed else Done;
    }

    /** The documents are applied in order; the first failure ends it and leaves those before it in place. */
    method ApplyDocuments(documents: seq<Document>, reply: Reply)
      modifies this`cluster
      ensures cluster == Deploy(old(cluster), Reached(documents, reply))
    {
      hide Put;
      for i := 0 to |documents|
        invariant cluster == Deploy(old(cluster), documents[..i])
        invariant reply.Broken? ==> i <= reply.sent
      {
        if reply.Broken? && i == reply.sent {
          return;
        }
        assert documents[..i + 1][..i] == documents[..i];
        cluster := Put(cluster, documents[i]);
      }
      assert documents[..|documents|] == documents;
    }
  }

  // ---------- Incremental equals full ----------

  lemma {:induction false} NameOfRef(refs: seq<Ref>, r: Ref)
    requires r in refs && UniquePaths(refs) && Trimmed(r.path) && Trimmed(r.name) && (forall x :: x in refs ==> Trimmed(x.path))
    ensures NameForPath(refs, r.path) == r.name
  {
    hide TrimSpace, NameForPath;
    TrimTrimmed(r.path);
    TrimTrimmed(r.name);
    var i := FirstWith(refs, r);
    TrimTrimmed(refs[i].path);
    FirstName(refs, r.path, i);
  }

  lemma {:induction false} FirstWith(refs: seq<Ref>, r: Ref) returns (i: nat)
    requires r in refs && UniquePaths(refs) && (forall x :: x in refs ==> Trimmed(x.path))
    ensures i < |refs| && refs[i] == r && !HasPath(refs[..i], r.path)
  {
    hide TrimSpace, Trimmed;
    var n := |refs| - 1;
    assert refs == refs[..n] + [refs[n]];
    if r in refs[..n] {
      i := FirstWith(refs[..n], r);
      assert refs[..n][..i] == refs[..i];
    } else {
      i := n;
      TrimTrimmed(r.path);
      forall k | 0 <= k < n ensures TrimSpace(refs[..n][k].path) != TrimSpace(r.path) {
        assert refs[k] in refs && refs[k] in refs[..n];
        TrimTrimmed(refs[k].path);
      }
    }
  }

  /** The file counts as changed, so that its ConfigMap is sent. */
  predicate Chosen(files: Files, previous: Option<Files>, path: Path)
    requires path in files
  {
    previous.None? || Differs(files, previous.value, path)
  }

  /** A reference's ConfigMap is sent exactly when its file differs from the baseline, or there is none. */
  lemma ChangedIff(b: Bundle, lib: Library, previous: Option<Files>, r: Ref)
    requires WellFormed(b, lib) && r in b.refs
    ensures r.path in b.files && (r.name in ChangedNames(b, previous) <==> Chosen(b.files, previous, r.path))
    ensures r.name in ChangedNames(b, previous) <==>
              || previous.None? || (r.path in previous.value && previous.value[r.path] != b.files[r.path])
              || (r.path !in previous.value && b.files[r.path] != "")
  {
    hide NameForPath, TrimSpace;
    assert forall x :: x in b.refs ==> RefOk(x, lib);
    TrimTrimmed(r.name);
    NameOfRef(b.refs, r);
    if previous.Some? && r.name in ChangedNames(b, previous) {
      var p :| p in b.files && Differs(b.files, previous.value, p) && NameForPath(b.refs, p) == r.name;
      var x :| x in b.refs && x.path == p;
      NameOfRef(b.refs, x);
    }
  }

  /** Different files have different hashes, none of them blank; and documents are written so that they can be read. */
  ghost predicate Good(lib: Library) {
    && WireOk(lib.wire)
    && (forall a: Files, b: Files :: lib.hash(a) == lib.hash(b) ==> a == b)
    && (forall a: Files :: TrimSpace(lib.hash(a)) != "")
  }

  /** The ConfigMap for a path holds its file. */
  predicate HoldsAt(c: Cluster, lib: Library, files: Files, path: Path)
    requires path in files
  {
    lib.name(path) in c.configMaps && c.configMaps[lib.name(path)] == DataAt(files, path)
  }

  lemma HoldsSame(c: Cluster, b: Bundle, lib: Library, r: Ref)
    requires WellFormed(b, lib) && r in b.refs
    ensures Holds(c, b.files, r) <==> HoldsAt(c, lib, b.files, r.path)
  {
    hide TrimNewlines, UniquePaths, UniqueNames;
    assert RefOk(r, lib);
  }

  /** After an incremental publish the ConfigMap for the path holds its file: it was sent and arrived whole, or it was not sent and
      held it already. */
  predicate Comes(s: System, b: Bundle, lib: Library, path: Path)
    requires path in b.files
  {
    var previous := Baseline(s.runtime, s.versions);
    if Chosen(b.files, previous, path) then ArrivesWhole(b, lib, ChangedNames(b, previous), path) else HoldsAt(s.cluster, lib, b.files, path)
  }

  /** An incremental publish serves the bundle exactly when every changed file arrives whole, and every other one sits in its
      ConfigMap already, whatever was done to the cluster before. */
  lemma IncrementalPublishIff(s: System, b: Bundle, lib: Library)
    requires WellFormed(b, lib) && WireOk(lib.wire)
    ensures var after := Deploy(s.cluster, Sent(s, b, lib, Incremental));
            && (Serves(after, b) <==> forall p :: p in b.files ==> Comes(s, b, lib, p))
            && (forall p :: p in b.files ==> (HoldsAt(after, lib, b.files, p) <==> Comes(s, b, lib, p)))
  {
    hide Serves, PrintedManifest, ServiceText, Objects, Deploy, ChangedNames, Baseline, TrimSpace, Holds, HoldsAt, Chosen, RefOk;
    hide UniquePaths, UniqueNames, ArrivesWhole, WireOk;
    var previous := Baseline(s.runtime, s.versions);
    var names := ChangedNames(b, previous);
    var after := Deploy(s.cluster, Sent(s, b, lib, Incremental));
    IncrementalServesIff(s.cluster, b, lib, names);
    forall p | p in b.files
      ensures Referenced(b.refs, p)
      ensures HoldsAt(after, lib, b.files, p) <==> Comes(s, b, lib, p)
    {
      var r :| r in b.refs && r.path == p;
      RefComes(s, after, b, lib, r);
    }
    ServedIff(s.cluster, after, b, lib, names);
    ServedAt(after, b, lib);
  }

  lemma RefComes(s: System, after: Cluster, b: Bundle, lib: Library, r: Ref)
    requires WellFormed(b, lib) && r in b.refs && r.path in b.files
    requires var names := ChangedNames(b, Baseline(s.runtime, s.versions));
             Holds(after, b.files, r) <==> if r.name in names then ArrivesWhole(b, lib, names, r.path) else Holds(s.cluster, b.files, r)
    ensures HoldsAt(after, lib, b.files, r.path) <==> Comes(s, b, lib, r.path)
  {
    hide ChangedNames, Baseline, TrimSpace, Holds, HoldsAt, Chosen, RefOk, UniquePaths, UniqueNames, ArrivesWhole;
    ChangedIff(b, lib, Baseline(s.runtime, s.versions), r);
    HoldsSame(after, b, lib, r);
    HoldsSame(s.cluster, b, lib, r);
  }

  lemma ServedIff(c: Cluster, after: Cluster, b: Bundle, lib: Library, names: set<Name>)
    requires forall r :: r in b.refs ==> r.path in b.files
    requires forall r :: r in b.refs ==>
               (Holds(after, b.files, r) <==> if r.name in names then ArrivesWhole(b, lib, names, r.path) else Holds(c, b.files, r))
    ensures (forall r :: r in b.refs ==> Holds(after, b.files, r))
            <==> forall r :: r in b.refs ==> if r.name in names then ArrivesWhole(b, lib, names, r.path) else Holds(c, b.files, r)
  {
    hide Holds, ArrivesWhole;
  }

  lemma ServedAt(c: Cluster, b: Bundle, lib: Library)
    requires WellFormed(b, lib)
    ensures (forall r :: r in b.refs ==> Holds(c, b.files, r)) <==> forall p :: p in b.files ==> HoldsAt(c, lib, b.files, p)
  {
    hide Holds, HoldsAt, RefOk, UniquePaths, UniqueNames;
    forall r | r in b.refs ensures r.path in b.files && (Holds(c, b.files, r) <==> HoldsAt(c, lib, b.files, r.path)) {
      HoldsSame(c, b, lib, r);
    }
  }

  /** Publishing the baseline again sends no ConfigMap at all: it serves the bundle exactly when the cluster still holds all of
      it, so a change made behind the recorded baseline stays. */
  lemma RepublishRepairsNothing(s: System, b: Bundle, lib: Library)
    requires WellFormed(b, lib) && WireOk(lib.wire) && Baseline(s.runtime, s.versions) == Some(b.files)
    ensures ChangedNames(b, Baseline(s.runtime, s.versions)) == {}
    ensures Serves(Deploy(s.cluster, Sent(s, b, lib, Incremental)), b) <==> forall r :: r in b.refs ==> Holds(s.cluster, b.files, r)
  {
    hide Serves, PrintedManifest, ServiceText, Objects, Deploy, NameForPath, Baseline, Holds, WireOk, ArrivesWhole, WellFormed;
    assert ChangedNames(b, Some(b.files)) == {};
    IncrementalServesIff(s.cluster, b, lib, {});
  }

  // ---------- Runs ----------

  /** Other requests store rendered configurations too; a cluster may be wiped. */
  datatype Op =
    | Publish(bundle: Bundle, task: Task, mode: Mode, reply: Reply)
    | Store(bundle: Bundle)
    | Wipe

  function Step(s: System, op: Op, lib: Library): System {
    match op
    case Publish(b, task, mode, reply) => Published(s, b, lib, task, mode, reply)
    case Store(b) => s.(versions := Persisted(s.versions, b, lib))
    case Wipe => s.(cluster := EMPTY_CLUSTER)
  }

  /** An apply that is let through, and one that is recorded. */
  predicate Sends(s: System, op: Op, lib: Library) { op.Publish? && op.mode == Apply && Admits(s.cluster, lib, op.task) }

  predicate Applies(s: System, op: Op, lib: Library) { Sends(s, op, lib) && Accepted(s, op.bundle, lib, op.task) && !op.reply.Broken? }

  const START := System(None, map[], EMPTY_CLUSTER)

  function After(ops: seq<Op>, lib: Library): System {
    if ops == [] then START else Step(After(ops[..|ops| - 1], lib), ops[|ops| - 1], lib)
  }

  /** What a run has sent, as far as it matters: the bundle recorded last, and those of its paths whose ConfigMap was since
      wiped, or overwritten with something else, by an apply that broke off or because it was not sent whole. */
  datatype History = History(last: Option<Bundle>, strays: set<Path>)

  function Overwritten(h: History, documents: seq<Document>, lib: Library): set<Path> {
    if h.last.None? then {}
    else
      var files := h.last.value.files;
      set p | p in files && match LastData(documents, lib.name(p)) { case Some(data) => data != DataAt(files, p) case None => p in h.strays }
  }

  /** After an incremental publish the file is where it should be, as far as the history tells. */
  predicate Safe(h: History, s: System, b: Bundle, lib: Library, path: Path)
    requires path in b.files
  {
    var previous := Baseline(s.runtime, s.versions);
    if Chosen(b.files, previous, path) then ArrivesWhole(b, lib, ChangedNames(b, previous), path) else path !in h.strays
  }

  /** The strays a recorded publish leaves: those it took for unchanged, and the files it did not send whole. */
  function Missed(h: History, s: System, b: Bundle, lib: Library, task: Task): set<Path> {
    if task == Base then {} else set p | p in b.files && !Safe(h, s, b, lib, p)
  }

  function Track(h: History, s: System, op: Op, lib: Library): History {
    if Applies(s, op, lib) then History(Some(op.bundle), Missed(h, s, op.bundle, lib, op.task))
    else if Sends(s, op, lib) then
      h.(strays := Overwritten(h, Reached(Sent(s, op.bundle, lib, op.task), Answer(s, op.bundle, lib, op.task, op.reply)), lib))
    else if op.Wipe? then h.(strays := if h.last.None? then {} else h.last.value.files.Keys)
    else h
  }

  function HistoryOf(ops: seq<Op>, lib: Library): History {
    if ops == [] then History(None, {})
    else Track(HistoryOf(ops[..|ops| - 1], lib), After(ops[..|ops| - 1], lib), ops[|ops| - 1], lib)
  }

  /** What is rendered is well-formed, and no rendered file is empty. */
  predicate Rendered(op: Op, lib: Library) { op.Publish? ==> WellFormed(op.bundle, lib) && NoEmptyFile(op.bundle.files) }

  /** The history tells exactly which ConfigMaps of the bundle recorded last hold their files. */
  ghost predicate Inv(s: System, lib: Library, h: History) {
    && (forall k :: k in s.versions ==> lib.hash(s.versions[k]) == k)
    && (h.last.None? ==> h.strays == {} && (s.runtime.Some? ==> !s.runtime.value.published))
    && (h.last.Some? ==> Recorded(s.runtime, h.last.value, lib) && WellFormed(h.last.value, lib) && Located(s.cluster, h, lib))
  }

  predicate Recorded(runtime: Option<Runtime>, last: Bundle, lib: Library) {
    runtime.Some? && runtime.value.published && runtime.value.configHash == lib.hash(last.files)
  }

  predicate Located(c: Cluster, h: History, lib: Library)
    requires h.last.Some?
  {
    && h.strays <= h.last.value.files.Keys
    && forall p :: p in h.last.value.files ==> (HoldsAt(c, lib, h.last.value.files, p) <==> p !in h.strays)
  }

  lemma BaselineIsLast(s: System, lib: Library, h: History)
    requires Inv(s, lib, h) && Good(lib) && Baseline(s.runtime, s.versions).Some?
    ensures h.last.Some? && Baseline(s.runtime, s.versions).value == h.last.value.files
  {
    hide Located, WellFormed, TrimSpace;
  }

  lemma VersionsStay(versions: map<string, Files>, b: Bundle, lib: Library)
    requires forall k :: k in versions ==> lib.hash(versions[k]) == k
    ensures forall k :: k in Persisted(versions, b, lib) ==> lib.hash(Persisted(versions, b, lib)[k]) == k
  {
    hide TrimSpace;
  }

  lemma BaseApplied(s: System, op: Op, lib: Library)
    requires WireOk(lib.wire) && Rendered(op, lib) && Applies(s, op, lib) && op.task == Base
    ensures var c := Step(s, op, lib).cluster;
            Serves(c, op.bundle) && forall p :: p in op.bundle.files ==> HoldsAt(c, lib, op.bundle.files, p)
  {
    hide Serves, WellFormed, WireOk, Manifest, PrintedManifest, Objects, Deploy, Holds, HoldsAt, IsReady, Persisted, Accepted;
    ManifestDecoded(op.bundle, lib);
    FullServes(s.cluster, op.bundle, lib);
    ServedAt(Step(s, op, lib).cluster, op.bundle, lib);
  }

  /** The history knows what an incremental publish leaves right. */
  lemma SafeIs(s: System, b: Bundle, lib: Library, h: History, p: Path)
    requires Inv(s, lib, h) && Good(lib) && NoEmptyFile(b.files) && p in b.files
    ensures Safe(h, s, b, lib, p) <==> Comes(s, b, lib, p)
  {
    hide WellFormed, HoldsAt, Differs, Good, Baseline, NoEmptyFile, ArrivesWhole, ChangedNames;
    var previous := Baseline(s.runtime, s.versions);
    if previous.Some? && !Differs(b.files, previous.value, p) {
      BaselineIsLast(s, lib, h);
      SameFile(s.cluster, lib, b.files, h.last.value.files, p);
    }
  }

  lemma IncrementApplied(s: System, b: Bundle, lib: Library, h: History)
    requires Inv(s, lib, h) && Good(lib) && WellFormed(b, lib) && NoEmptyFile(b.files)
    ensures var c, missed := Deploy(s.cluster, Sent(s, b, lib, Incremental)), Missed(h, s, b, lib, Incremental);
            && (Serves(c, b) <==> missed == {})
            && forall p :: p in b.files ==> (HoldsAt(c, lib, b.files, p) <==> p !in missed)
  {
    hide Inv, WireOk, Serves, WellFormed, Deploy, HoldsAt, Sent, Safe, Comes, NoEmptyFile;
    IncrementalPublishIff(s, b, lib);
    var missed := Missed(h, s, b, lib, Incremental);
    forall p | p in b.files ensures p !in missed <==> Comes(s, b, lib, p) {
      SafeIs(s, b, lib, h, p);
    }
    assert missed == {} <==> forall p :: p in b.files ==> p !in missed;
  }

  lemma SameFile(c: Cluster, lib: Library, files: Files, previous: Files, p: Path)
    requires p in files && !Differs(files, previous, p) && NoEmptyFile(files)
    ensures p in previous && (HoldsAt(c, lib, files, p) <==> HoldsAt(c, lib, previous, p))
  {}

  lemma ApplyKeepsInv(s: System, op: Op, lib: Library, h: History)
    requires Inv(s, lib, h) && Good(lib) && Rendered(op, lib) && Applies(s, op, lib)
    ensures Inv(Step(s, op, lib), lib, Track(h, s, op, lib))
    ensures Serves(Step(s, op, lib).cluster, op.bundle) <==> Missed(h, s, op.bundle, lib, op.task) == {}
  {
    hide Serves, WellFormed, Good, HoldsAt, IsReady, Persisted, Deploy, Sent, Accepted, Baseline, Missed, NoEmptyFile;
    VersionsStay(s.versions, op.bundle, lib);
    MissedFiles(h, s, op.bundle, lib, op.task);
    if op.task == Base {
      WireGood(lib);
      BaseApplied(s, op, lib);
    } else {
      IncrementApplied(s, op.bundle, lib, h);
    }
  }

  lemma WireGood(lib: Library)
    requires Good(lib)
    ensures WireOk(lib.wire)
  {
    hide WireOk;
  }

  lemma MissedFiles(h: History, s: System, b: Bundle, lib: Library, task: Task)
    ensures Missed(h, s, b, lib, task) <= b.files.Keys && (task == Base ==> Missed(h, s, b, lib, task) == {})
  {
    hide Safe;
  }

  lemma BrokenKeepsInv(s: System, op: Op, lib: Library, h: History)
    requires Inv(s, lib, h) && Sends(s, op, lib) && !Applies(s, op, lib)
    ensures Inv(Step(s, op, lib), lib, Track(h, s, op, lib))
  {
    hide WellFormed, IsReady, Persisted, Deploy, Sent, Accepted, LastData, TrimNewlines;
    VersionsStay(s.versions, op.bundle, lib);
    if h.last.Some? {
      var documents := Reached(Sent(s, op.bundle, lib, op.task), Answer(s, op.bundle, lib, op.task, op.reply));
      var files := h.last.value.files;
      forall p | p in files ensures HoldsAt(Deploy(s.cluster, documents), lib, files, p) <==> p !in Overwritten(h, documents, lib) {
        DeployedData(s.cluster, documents, lib.name(p));
      }
    }
  }

  lemma QuietKeepsInv(s: System, op: Op, lib: Library, h: History)
    requires Inv(s, lib, h) && Good(lib) && !Sends(s, op, lib) && !op.Wipe?
    ensures Inv(Step(s, op, lib), lib, Track(h, s, op, lib)) && Step(s, op, lib).cluster == s.cluster
  {
    hide Located, WellFormed, IsReady, Persisted, TrimSpace;
    if op.Publish? {
      VersionsStay(s.versions, op.bundle, lib);
    } else {
      VersionsStay(s.versions, op.bundle, lib);
    }
  }

  lemma WipeKeepsInv(s: System, lib: Library, h: History)
    requires Inv(s, lib, h)
    ensures Inv(Step(s, Wipe, lib), lib, Track(h, s, Wipe, lib))
  {
    hide WellFormed, DataAt;
  }

  lemma StepKeepsInv(s: System, op: Op, lib: Library, h: History)
    requires Inv(s, lib, h) && Good(lib) && Rendered(op, lib)
    ensures Inv(Step(s, op, lib), lib, Track(h, s, op, lib))
  {
    hide Inv, Good, Rendered, Step, Track, Serves, Missed, Admits;
    if Applies(s, op, lib) {
      ApplyKeepsInv(s, op, lib, h);
    } else if Sends(s, op, lib) {
      BrokenKeepsInv(s, op, lib, h);
    } else if op.Wipe? {
      WipeKeepsInv(s, lib, h);
    } else {
      QuietKeepsInv(s, op, lib, h);
    }
  }

  lemma {:induction false} RunKeepsInv(ops: seq<Op>, lib: Library)
    requires Good(lib) && forall i :: 0 <= i < |ops| ==> Rendered(ops[i], lib)
    ensures Inv(After(ops, lib), lib, HistoryOf(ops, lib))
  {
    hide Good, Rendered, Step, Track;
    if ops != [] {
      hide Inv;
      RunKeepsInv(ops[..|ops| - 1], lib);
      StepKeepsInv(After(ops[..|ops| - 1], lib), ops[|ops| - 1], lib, HistoryOf(ops[..|ops| - 1], lib));
    }
  }

  /** Over every run of previews, applies, broken applies and wipes, an apply leaves the collector with exactly the rendered
      files if and only if every file it sent arrived whole, and no file it took for unchanged had been wiped, or overwritten
      with something else, since its ConfigMap was last known to be right. */
  lemma ApplyServesIff(ops: seq<Op>, op: Op, lib: Library)
    requires Good(lib) && Rendered(op, lib) && forall i :: 0 <= i < |ops| ==> Rendered(ops[i], lib)
    requires Applies(After(ops, lib), op, lib)
    ensures var s := After(ops, lib);
            Serves(Step(s, op, lib).cluster, op.bundle) <==>
              op.task == Base || forall p :: p in op.bundle.files ==> Safe(HistoryOf(ops, lib), s, op.bundle, lib, p)
  {
    hide Good, Rendered, Step, Serves, Inv, Safe, Admits;
    RunKeepsInv(ops, lib);
    ApplyKeepsInv(After(ops, lib), op, lib, HistoryOf(ops, lib));
    var h, s := HistoryOf(ops, lib), After(ops, lib);
    var missed := Missed(h, s, op.bundle, lib, op.task);
    assert op.task == Incremental ==> forall p :: p in op.bundle.files ==> (p in missed <==> !Safe(h, s, op.bundle, lib, p));
    assert op.task == Incremental ==> (missed == {} <==> forall p :: p in op.bundle.files ==> p !in missed);
  }

  /** No file of an incremental apply has a separator line. */
  predicate SendsClean(op: Op) { op.Publish? && op.mode == Apply && op.task == Incremental ==> CleanFiles(op.bundle.files) }

  /** With clean files it is about the strays alone. */
  lemma CleanApplyServesIff(ops: seq<Op>, op: Op, lib: Library)
    requires Good(lib) && Rendered(op, lib) && forall i :: 0 <= i < |ops| ==> Rendered(ops[i], lib)
    requires Applies(After(ops, lib), op, lib) && SendsClean(op)
    ensures var s := After(ops, lib);
            Serves(Step(s, op, lib).cluster, op.bundle) <==>
              op.task == Base
              || forall p :: p in op.bundle.files && p in HistoryOf(ops, lib).strays ==> Chosen(op.bundle.files, Baseline(s.runtime, s.versions), p)
  {
    hide WireOk, WellFormed, Step, Serves, Inv, Chosen, Admits, ArrivesWhole, Baseline, ChangedNames, NoEmptyFile, CleanFiles;
    ApplyServesIff(ops, op, lib);
    if op.task == Incremental {
      var s := After(ops, lib);
      CleanFilesArrive(op.bundle, lib, ChangedNames(op.bundle, Baseline(s.runtime, s.versions)));
    }
  }

  /** Without anything broken off halfway, and with clean files in what is published incrementally, every apply of every run, full
      or incremental, leaves the collector with exactly the rendered files: sending what changed comes to the same as sending
      everything. */
  lemma IncrementalEqualsFull(ops: seq<Op>, op: Op, lib: Library)
    requires Good(lib) && Rendered(op, lib) && forall i :: 0 <= i < |ops| ==> Rendered(ops[i], lib)
    requires Applies(After(ops, lib), op, lib) && forall i :: 0 <= i < |ops| ==> Whole(ops[i])
    requires SendsClean(op) && forall i :: 0 <= i < |ops| ==> SendsClean(ops[i])
    ensures Serves(Step(After(ops, lib), op, lib).cluster, op.bundle)
  {
    hide Good, Rendered, Step, Serves, Inv, Chosen, Baseline, Whole, SendsClean;
    RunKeepsInv(ops, lib);
    WholeRunsLeaveNoStrays(ops, lib);
    CleanApplyServesIff(ops, op, lib);
  }

  /** Not an apply that breaks off with something in the cluster. */
  predicate Whole(op: Op) { op.Publish? && op.mode == Apply && op.reply.Broken? ==> op.reply.sent == 0 }

  lemma {:induction false} WholeRunsLeaveNoStrays(ops: seq<Op>, lib: Library)
    requires Good(lib) && (forall i :: 0 <= i < |ops| ==> Rendered(ops[i], lib))
    requires forall i :: 0 <= i < |ops| ==> Whole(ops[i]) && SendsClean(ops[i])
    ensures After(ops, lib).cluster.workload.Some? ==> HistoryOf(ops, lib).strays == {}
  {
    hide Good, Rendered, Step, Track, Inv, Whole, SendsClean;
    if ops != [] {
      var n := |ops| - 1;
      WholeRunsLeaveNoStrays(ops[..n], lib);
      RunKeepsInv(ops[..n], lib);
      WholeStep(After(ops[..n], lib), ops[n], lib, HistoryOf(ops[..n], lib));
    }
  }

  lemma WholeStep(s: System, op: Op, lib: Library, h: History)
    requires Good(lib) && Rendered(op, lib) && Inv(s, lib, h) && Whole(op) && SendsClean(op) && (s.cluster.workload.Some? ==> h.strays == {})
    ensures Step(s, op, lib).cluster.workload.Some? ==> Track(h, s, op, lib).strays == {}
  {
    hide WellFormed, WireOk, Persisted, Sent, Accepted, ArrivesWhole, ChangedNames, Chosen, Baseline, HoldsAt, Recorded, CleanFiles;
    if Sends(s, op, lib) {
      if !Applies(s, op, lib) {
        NothingReached(Sent(s, op.bundle, lib, op.task), s, h, lib);
      } else if op.task == Incremental {
        CleanFilesArrive(op.bundle, lib, ChangedNames(op.bundle, Baseline(s.runtime, s.versions)));
      }
    }
  }

  lemma NothingReached(documents: seq<Document>, s: System, h: History, lib: Library)
    requires Inv(s, lib, h)
    ensures Reached(documents, Broken(0)) == [] && Deploy(s.cluster, []) == s.cluster && Overwritten(h, [], lib) == h.strays
  {
    hide WellFormed, HoldsAt, Recorded;
  }

  lemma AfterSnoc(ops: seq<Op>, op: Op, lib: Library)
    ensures After(ops + [op], lib) == Step(After(ops, lib), op, lib)
  {
    hide Step;
    assert (ops + [op])[..|ops|] == ops;
  }

  /** The `i`-th step of what follows sends nothing to the cluster and does not wipe it. */
  predicate QuietAt(ops: seq<Op>, more: seq<Op>, i: nat, lib: Library)
    requires i < |more|
  {
    !more[i].Wipe? && !Sends(After(ops + more[..i], lib), more[i], lib)
  }

  /** What the collector sees stays until something is sent to the cluster, or the cluster is wiped. */
  lemma {:induction false} ServedUntilNext(ops: seq<Op>, more: seq<Op>, lib: Library)
    requires forall i :: 0 <= i < |more| ==> QuietAt(ops, more, i, lib)
    ensures After(ops + more, lib).cluster == After(ops, lib).cluster
  {
    hide Step, Sends, After;
    if more == [] {
      assert ops + more == ops;
    } else {
      var n := |more| - 1;
      var init := more[..n];
      forall i | 0 <= i < n ensures QuietAt(ops, init, i, lib) {
        assert QuietAt(ops, more, i, lib) && init[i] == more[i] && init[..i] == more[..i];
      }
      ServedUntilNext(ops, init, lib);
      assert QuietAt(ops, more, n, lib);
      QuietStep(After(ops + init, lib), more[n], lib);
      AfterSnoc(ops + init, more[n], lib);
      assert ops + more == ops + init + [more[n]];
    }
  }

  lemma QuietStep(s: System, op: Op, lib: Library)
    requires !op.Wipe? && !Sends(s, op, lib)
    ensures Step(s, op, lib).cluster == s.cluster
  {
    hide IsReady, Persisted;
  }

  /** A preview leaves the cluster and the published baseline alone. */
  lemma PreviewKeepsBaseline(s: System, b: Bundle, lib: Library, task: Task, reply: Reply, h: History)
    requires Inv(s, lib, h) && Good(lib)
    ensures var after := Published(s, b, lib, task, Preview, reply);
            && after.cluster == s.cluster
            && (h.last.Some? ==> Recorded(after.runtime, h.last.value, lib))
            && (Baseline(s.runtime, s.versions).Some? ==> Baseline(after.runtime, after.versions) == Baseline(s.runtime, s.versions))
  {
    hide Located, WellFormed, IsReady, TrimSpace, Accepted, Sent, Deploy;
  }

  /** A new file that is empty counts as unchanged and is not sent, so the collector is told of a file it cannot see. */
  lemma NewEmptyFileIsMissed(s: System, b: Bundle, lib: Library, p: Path)
    requires WellFormed(b, lib) && WireOk(lib.wire)
    requires Baseline(s.runtime, s.versions).Some? && p !in Baseline(s.runtime, s.versions).value
    requires p in b.files && b.files[p] == "" && lib.name(p) !in s.cluster.configMaps
    ensures !Serves(Deploy(s.cluster, Sent(s, b, lib, Incremental)), b)
  {
    hide Serves, WellFormed, WireOk, Deploy, Sent, Baseline, DataAt, ArrivesWhole, ChangedNames;
    IncrementalPublishIff(s, b, lib);
    assert !Comes(s, b, lib, p);
  }

  // ---------- A broken apply, and going back ----------

  lemma {:induction false} DeployGrows(c: Cluster, documents: seq<Document>)
    ensures c.plain <= Deploy(c, documents).plain && c.configMaps.Keys <= Deploy(c, documents).configMaps.Keys
    ensures c.workload.Some? ==> Deploy(c, documents).workload.Some?
    ensures forall d :: d in documents && d.Plain? ==> d.kind in Deploy(c, documents).plain
  {
    if documents != [] {
      DeployGrows(c, documents[..|documents| - 1]);
      assert documents == documents[..|documents| - 1] + [documents[|documents| - 1]];
    }
  }

  lemma BaseMakesReady(a: Bundle, lib: Library)
    requires WellFormed(a, lib) && "base.yaml" in a.files
    ensures IsReady(Deploy(EMPTY_CLUSTER, Manifest(a, lib)), lib)
  {
    hide Deploy, WorkloadFor, Serves, Holds, DataAt, Front;
    var documents := Manifest(a, lib);
    DeployGrows(EMPTY_CLUSTER, documents);
    DeployedWorkload(EMPTY_CLUSTER, a, lib, {});
    FullServes(EMPTY_CLUSTER, a, lib);
    ServedAt(Deploy(EMPTY_CLUSTER, documents), a, lib);
    assert HoldsAt(Deploy(EMPTY_CLUSTER, documents), lib, a.files, "base.yaml");
    assert documents[0] == Plain("Namespace") && documents[1] == Plain("ServiceAccount") && documents[2] == Plain("ClusterRole");
    assert documents[3] == Plain("ClusterRoleBinding") && documents[|documents| - 2] == Plain("Service");
  }

  /** All of an incremental publish but its last document, the DaemonSet. */
  lemma AllButDaemonSet(b: Bundle, lib: Library, names: set<Name>, r: Ref)
    requires WellFormed(b, lib) && WireOk(lib.wire) && r in b.refs && r.path in b.files && r.name in names
    requires ArrivesWhole(b, lib, names, r.path)
    ensures var sent := Objects(ServiceText(PrintedManifest(b, lib), names, lib.wire), lib.wire);
            |sent| > 0 && LastData(sent[..|sent| - 1], r.name) == Some(DataFor(b.files, r))
  {
    hide WellFormed, WireOk, Manifest, WorkloadFor, Front, LastData, DataFor, DataAt, SentAll, FirstOf, ScrapAt;
    hide Objects, ServiceText, PrintedManifest;
    ServiceDecoded(b, lib, names);
    SentEnds(b, lib, names);
    var sent := SentAll(Manifest(b, lib), names, lib.wire);
    var init := SentAll(Front(b) + [Plain("Service")], names, lib.wire);
    assert sent[..|sent| - 1] == init;
    RefData(b, lib, r);
    SentData(Manifest(b, lib), names, r.name, lib.wire);
    DataSnoc(init, DaemonSet(WorkloadFor(b, lib)), r.name);
  }

  lemma RefData(b: Bundle, lib: Library, r: Ref)
    requires WellFormed(b, lib) && r in b.refs
    ensures r.name == lib.name(r.path) && r.path in b.files && LastData(Manifest(b, lib), r.name) == Some(DataFor(b.files, r))
    ensures DataFor(b.files, r) == DataAt(b.files, r.path)
    ensures FirstOf(DataFor(b.files, r)) == DataFor(b.files, r) <==> ManifestText.Clean(b.files[r.path])
  {
    hide Manifest, DataFor, DataAt, FirstOf, LastData, ManifestText.Clean, UniquePaths;
    DataOfRef(b, lib, r);
    ManifestData(b, lib, r);
  }

  predicate AcceptedPart(b: Bundle, lib: Library, names: set<Name>) {
    ResourceCheck.Accepts(lib.wire.complete, ServiceText(PrintedManifest(b, lib), names, lib.wire))
  }

  /** The deployment service accepts the bundle in full and in part; without dashes in the files it does. */
  predicate AcceptedTexts(b: Bundle, lib: Library, names: set<Name>) {
    ResourceCheck.Accepts(lib.wire.complete, PrintedManifest(b, lib)) && AcceptedPart(b, lib, names)
  }

  function Reverted(a: Bundle, b: Bundle, lib: Library): seq<Op> {
    var first := Publish(a, Base, Apply, Taken);
    var sent := Sent(Step(START, first, lib), b, lib, Incremental);
    [first, Publish(b, Incremental, Apply, Broken(if |sent| == 0 then 0 else |sent| - 1))]
  }

  /** Publish `a`; publish `b`, whose changed file reaches the cluster before the DaemonSet fails; publish `a` again: nothing is
      sent but the DaemonSet, and the collector keeps the file of `b`. */
  lemma RevertKeepsBrokenFile(a: Bundle, b: Bundle, lib: Library, r: Ref)
    requires Good(lib) && WellFormed(a, lib) && WellFormed(b, lib)
    requires "base.yaml" in a.files && TrimSpace(a.collectorYAML) != ""
    requires r in a.refs && r in b.refs && DataFor(a.files, r) != DataFor(b.files, r)
    requires r.path in b.files && ArrivesWhole(b, lib, ChangedNames(b, Some(a.files)), r.path)
    requires AcceptedTexts(a, lib, {}) && AcceptedPart(b, lib, ChangedNames(b, Some(a.files)))
    ensures var s, again := After(Reverted(a, b, lib), lib), Publish(a, Incremental, Apply, Taken);
            && Applies(s, again, lib)
            && ChangedNames(a, Baseline(s.runtime, s.versions)) == {}
            && !Serves(Step(s, again, lib).cluster, a)
  {
    hide Serves, WellFormed, WireOk, Manifest, DataFor, TrimSpace, Sent, Deploy, IsReady, Differs, NameForPath, ArrivesWhole;
    hide PrintedManifest, ServiceText, ResourceCheck.Accepts;
    var ops := Reverted(a, b, lib);
    var first, second := ops[0], ops[1];
    assert [] + [first] == [first] && [first] + [second] == ops;
    AfterSnoc([], first, lib);
    AfterSnoc([first], second, lib);
    assert After([], lib) == START;
    NotReadyAtStart(lib);
    BaseMakesReady(a, lib);
    var s1 := After([first], lib);
    FirstIsBaseline(a, lib);
    SecondLeaves(s1, a, b, lib, r, second);
    var s2 := After(ops, lib);
    RepublishRepairsNothing(s2, a, lib);
  }

  lemma NotReadyAtStart(lib: Library)
    ensures !IsReady(EMPTY_CLUSTER, lib)
  {}

  lemma FirstIsBaseline(a: Bundle, lib: Library)
    requires Good(lib) && WellFormed(a, lib) && TrimSpace(a.collectorYAML) != "" && !IsReady(EMPTY_CLUSTER, lib)
    requires ResourceCheck.Accepts(lib.wire.complete, PrintedManifest(a, lib))
    ensures var s := Step(START, Publish(a, Base, Apply, Taken), lib);
            && s.cluster == Deploy(EMPTY_CLUSTER, Manifest(a, lib))
            && s.runtime == Some(Runtime(lib.hash(a.files), true, Ready)) && s.versions == map[lib.hash(a.files) := a.files]
            && Baseline(s.runtime, s.versions) == Some(a.files)
  {
    hide TrimSpace, Manifest, PrintedManifest, Objects, Deploy, IsReady, UniquePaths, UniqueNames, RefOk, WireOk, TrimmedFiles;
    hide ResourceCheck.Accepts;
    ManifestDecoded(a, lib);
  }

  lemma SecondLeaves(s: System, a: Bundle, b: Bundle, lib: Library, r: Ref, op: Op)
    requires Good(lib) && WellFormed(a, lib) && WellFormed(b, lib)
    requires r in a.refs && r in b.refs && DataFor(a.files, r) != DataFor(b.files, r)
    requires r.path in b.files && ArrivesWhole(b, lib, ChangedNames(b, Some(a.files)), r.path)
    requires AcceptedPart(b, lib, ChangedNames(b, Some(a.files)))
    requires IsReady(s.cluster, lib) && Baseline(s.runtime, s.versions) == Some(a.files)
    requires s.runtime == Some(Runtime(lib.hash(a.files), true, Ready)) && s.versions == map[lib.hash(a.files) := a.files]
    requires var sent := Sent(s, b, lib, Incremental); op == Publish(b, Incremental, Apply, Broken(if |sent| == 0 then 0 else |sent| - 1))
    ensures var after := Step(s, op, lib);
            && Baseline(after.runtime, after.versions) == Some(a.files) && IsReady(after.cluster, lib)
            && !Holds(after.cluster, a.files, r)
  {
    hide PrintedManifest, ServiceText, Objects, ChangedNames, TrimSpace, Deploy, LastData, UniquePaths, UniqueNames;
    hide TrimNewlines, WireOk, ArrivesWhole, TrimmedFiles, ResourceCheck.Accepts;
    var names := ChangedNames(b, Some(a.files));
    assert RefOk(r, lib) && r.path in a.files;
    ChangedIff(b, lib, Some(a.files), r);
    AllButDaemonSet(b, lib, names, r);
    var reached := Reached(Sent(s, b, lib, Incremental), op.reply);
    DeployedData(s.cluster, reached, r.name);
    DeployGrows(s.cluster, reached);
    assert lib.hash(a.files) != lib.hash(b.files);
  }

  // ---------- A file with a separator line ----------

  /** Publish `a`; publish `b`, in which a changed file has a separator line and nothing after it is kept: the collector is left
      with the part before that line, although the publish is recorded, and publishing `b` again sends no ConfigMap. The whole
      manifest of `b` is not accepted at all, if some part between the dashes in the file's document is not complete. */
  lemma CutFileStaysCut(a: Bundle, b: Bundle, lib: Library, r: Ref)
    requires Good(lib) && WellFormed(a, lib) && WellFormed(b, lib)
    requires "base.yaml" in a.files && TrimSpace(a.collectorYAML) != "" && TrimSpace(b.collectorYAML) != ""
    requires r in b.refs && r.path in b.files && Differs(b.files, a.files, r.path) && !ManifestText.Clean(b.files[r.path])
    requires ScrapAt(Manifest(b, lib), ChangedNames(b, Some(a.files)), r.name, lib.wire) == None
    requires ResourceCheck.Accepts(lib.wire.complete, PrintedManifest(a, lib))
    requires AcceptedPart(b, lib, ChangedNames(b, Some(a.files))) && AcceptedPart(b, lib, {})
    ensures var again := Publish(b, Incremental, Apply, Taken);
            var s := After([Publish(a, Base, Apply, Taken), again], lib);
            && s.cluster.workload.Some? && FileAt(s.cluster, r.path) == Some(BlockText.FirstPart(b.files[r.path])) && !Serves(s.cluster, b)
            && Baseline(s.runtime, s.versions) == Some(b.files) && Applies(s, again, lib)
            && ChangedNames(b, Baseline(s.runtime, s.versions)) == {} && !Serves(Step(s, again, lib).cluster, b)
    ensures !ResourceCheck.AllComplete(lib.wire.complete, TextOf(lib.wire, ConfigMap(r.name, DataFor(b.files, r)))) ==>
              !ResourceCheck.Accepts(lib.wire.complete, PrintedManifest(b, lib))
  {
    hide Serves, WellFormed, WireOk, Manifest, TrimSpace, Sent, Deploy, IsReady, Differs, NameForPath, PrintedManifest, ServiceText, ScrapAt;
    hide ManifestText.Clean, BlockText.FirstPart, FileAt, Holds, DataFor, TextOf, ResourceCheck.Accepts, ResourceCheck.AllComplete;
    var first, second := Publish(a, Base, Apply, Taken), Publish(b, Incremental, Apply, Taken);
    assert [] + [first] == [first] && [first] + [second] == [first, second];
    AfterSnoc([], first, lib);
    AfterSnoc([first], second, lib);
    assert After([], lib) == START;
    NotReadyAtStart(lib);
    BaseMakesReady(a, lib);
    FirstIsBaseline(a, lib);
    CutPublish(After([first], lib), a, b, lib, r, second);
    RepublishRepairsNothing(After([first, second], lib), b, lib);
    ManifestAcceptedIff(b, lib);
    InManifest(b, lib, r);
  }

  lemma InManifest(b: Bundle, lib: Library, r: Ref)
    requires WellFormed(b, lib) && r in b.refs
    ensures ConfigMap(r.name, DataFor(b.files, r)) in Manifest(b, lib)
  {
    hide Manifest, DataFor;
    ManifestData(b, lib, r);
    LastDataIn(Manifest(b, lib), r.name);
  }

  lemma {:induction false} LastDataIn(documents: seq<Document>, name: Name)
    requires LastData(documents, name).Some?
    ensures ConfigMap(name, LastData(documents, name).value) in documents
  {
    var n := |documents| - 1;
    if !(documents[n].ConfigMap? && documents[n].name == name) {
      LastDataIn(documents[..n], name);
    }
  }

  lemma CutPublish(s: System, a: Bundle, b: Bundle, lib: Library, r: Ref, op: Op)
    requires Good(lib) && WellFormed(a, lib) && WellFormed(b, lib) && TrimSpace(b.collectorYAML) != ""
    requires r in b.refs && r.path in b.files && Differs(b.files, a.files, r.path) && !ManifestText.Clean(b.files[r.path])
    requires ScrapAt(Manifest(b, lib), ChangedNames(b, Some(a.files)), r.name, lib.wire) == None
    requires IsReady(s.cluster, lib) && Baseline(s.runtime, s.versions) == Some(a.files)
    requires op == Publish(b, Incremental, Apply, Taken) && AcceptedPart(b, lib, ChangedNames(b, Some(a.files)))
    ensures var after := Step(s, op, lib);
            && Baseline(after.runtime, after.versions) == Some(b.files) && IsReady(after.cluster, lib) && after.cluster.workload.Some?
            && !Holds(after.cluster, b.files, r)
            && FileAt(after.cluster, r.path) == Some(BlockText.FirstPart(b.files[r.path])) && !Serves(after.cluster, b)
  {
    hide PrintedManifest, ServiceText, Objects, ChangedNames, TrimSpace, Deploy, LastData, UniqueNames, TrimNewlines, WireOk, ScrapAt, Manifest;
    hide WorkloadFor, SentAll, FileAt, Serves, BlockText.FirstPart, ManifestText.Clean, DataFor, FirstOf, RefOk, Differs;
    hide ResourceCheck.Accepts;
    var names := ChangedNames(b, Some(a.files));
    var sent := SentAll(Manifest(b, lib), names, lib.wire);
    var after := Deploy(s.cluster, sent);
    ChangedIff(b, lib, Some(a.files), r);
    ServiceDecoded(b, lib, names);
    SentWorkload(s.cluster, b, lib, names);
    RefData(b, lib, r);
    SentData(Manifest(b, lib), names, r.name, lib.wire);
    DeployedData(s.cluster, sent, r.name);
    DeployGrows(s.cluster, sent);
    CutSeen(after, b, lib, r);
    ServesIff(after, b, lib);
  }

  /** What the collector sees of a file that was cut. */
  lemma CutSeen(c: Cluster, b: Bundle, lib: Library, r: Ref)
    requires WellFormed(b, lib) && r in b.refs && r.path in b.files && c.workload == Some(WorkloadFor(b, lib))
    requires r.name in c.configMaps && c.configMaps[r.name] == FirstOf(DataFor(b.files, r))
    ensures FileAt(c, r.path) == Some(BlockText.FirstPart(b.files[r.path]))
  {
    hide Ordered, ConfigArgs, MountsFor, MountAt, TrimNewlines, BlockText.FirstPart, UniqueNames;
    TrimmedData(b.files, r.path);
    MountOfRef(b, r);
  }

  // ---------- Overlapping publishes ----------

  /** An apply that read the record and the stored versions earlier than it sends anything. */
  function LatePublished(read: System, now: System, b: Bundle, lib: Library, task: Task, reply: Reply): System {
    if !Admits(read.cluster, lib, task) then now
    else
      var answer := Answer(read, b, lib, task, reply);
      System(if answer.Broken? then now.runtime else Some(Runtime(lib.hash(b.files), true, Ready)), Persisted(now.versions, b, lib),
             Deploy(now.cluster, Reached(Sent(read, b, lib, task), answer)))
  }

  /** With nobody in between it is the apply of the runs. */
  lemma LateAlone(s: System, b: Bundle, lib: Library, task: Task, reply: Reply)
    ensures LatePublished(s, s, b, lib, task, reply) == Published(s, b, lib, task, Apply, reply)
  {
    hide IsReady, Persisted, Accepted, Sent, Deploy;
  }

  /** It serves the bundle exactly when every file that differs from the baseline it read arrives whole, and every other one is in
      its ConfigMap by the time it sends. */
  lemma LateApplyServesIff(read: System, now: System, b: Bundle, lib: Library, reply: Reply)
    requires WellFormed(b, lib) && WireOk(lib.wire) && IsReady(read.cluster, lib)
    requires Accepted(read, b, lib, Incremental) && !reply.Broken?
    ensures Serves(LatePublished(read, now, b, lib, Incremental, reply).cluster, b) <==>
            forall p :: p in b.files ==> Comes(read.(cluster := now.cluster), b, lib, p)
  {
    hide Serves, WellFormed, WireOk, IsReady, Persisted, Accepted, Objects, SentText, Deploy, Comes;
    SameSent(read, now.cluster, b, lib);
    IncrementalPublishIff(read.(cluster := now.cluster), b, lib);
  }

  lemma SameSent(s: System, c: Cluster, b: Bundle, lib: Library)
    ensures SentText(s.(cluster := c), b, lib, Incremental) == SentText(s, b, lib, Incremental)
  {
    hide ServiceText, PrintedManifest, ChangedNames, Baseline;
  }

  /** Two publishes read one baseline; the first changes a file that the second leaves as it was: the second does not send it, is
      recorded last, and the collector keeps the first one's file, also when the second is published again. */
  lemma OverlapKeepsOtherFile(s: System, b: Bundle, c: Bundle, lib: Library, r: Ref)
    requires Good(lib) && WellFormed(b, lib) && WellFormed(c, lib) && TrimSpace(c.collectorYAML) != ""
    requires IsReady(s.cluster, lib) && Baseline(s.runtime, s.versions).Some?
    requires Accepted(s, b, lib, Incremental) && Accepted(s, c, lib, Incremental)
    requires r in b.refs && r in c.refs && r.path in b.files && r.path in c.files && DataFor(b.files, r) != DataFor(c.files, r)
    requires var previous := Baseline(s.runtime, s.versions);
             && !Chosen(c.files, previous, r.path) && Chosen(b.files, previous, r.path)
             && ArrivesWhole(b, lib, ChangedNames(b, previous), r.path)
    ensures var after := LatePublished(s, Published(s, b, lib, Incremental, Apply, Taken), c, lib, Incremental, Taken);
            && Baseline(after.runtime, after.versions) == Some(c.files) && !Serves(after.cluster, c)
            && ChangedNames(c, Baseline(after.runtime, after.versions)) == {}
            && !Serves(Deploy(after.cluster, Sent(after, c, lib, Incremental)), c)
  {
    hide Serves, WellFormed, WireOk, IsReady, Accepted, Objects, SentText, Deploy, DataFor, TrimSpace, Chosen, ArrivesWhole, ChangedNames, Holds;
    hide HoldsAt;
    var now := Published(s, b, lib, Incremental, Apply, Taken);
    var after := LatePublished(s, now, c, lib, Incremental, Taken);
    IncrementalPublishIff(s, b, lib);
    SameSent(s, now.cluster, c, lib);
    IncrementalPublishIff(s.(cluster := now.cluster), c, lib);
    OneHolds(now.cluster, b, c, lib, r);
    HoldsSame(after.cluster, c, lib, r);
    RepublishRepairsNothing(after, c, lib);
  }

  /** A ConfigMap does not hold two files. */
  lemma OneHolds(cluster: Cluster, b: Bundle, c: Bundle, lib: Library, r: Ref)
    requires WellFormed(b, lib) && WellFormed(c, lib) && r in b.refs && r in c.refs && r.path in b.files && r.path in c.files
    requires DataFor(b.files, r) != DataFor(c.files, r) && HoldsAt(cluster, lib, b.files, r.path)
    ensures !HoldsAt(cluster, lib, c.files, r.path)
  {
    hide DataFor, DataAt, UniquePaths, UniqueNames;
    DataOfRef(b, lib, r);
    DataOfRef(c, lib, r);
  }
}
