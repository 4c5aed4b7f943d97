/** The collector's configuration files as Kubernetes objects: which ConfigMap holds which file, the manifest that carries
    them, and the files a deployed collector sees. */
module CollectorBundle {
  import opened Text
  import Sorting
  import ManifestText

  type Path = string
  type Name = string
  type Files = map<Path, string>

  datatype Ref = Ref(path: Path, name: Name, base: bool, routeID: string)

  datatype Bundle = Bundle(files: Files, refs: seq<Ref>, collectorYAML: string)

  /** How documents are written and read: the text of one that holds no file, the lines of a ConfigMap above its file, what a
      text is identified and read as, and whether it names a resource completely. */
  datatype Wire = Wire(fixed: Document -> string, head: Document -> string,
                       identify: string -> Option<ManifestText.Identity>, read: string -> Document,
                       complete: string -> bool)

  /** The hash of a set of files, the name of the ConfigMap for a path, and the writing of documents. */
  datatype Library = Library(hash: Files -> string, name: Path -> Name, wire: Wire)

  /** What rendering gives: each file has a reference and each reference a file, the ConfigMap name follows from the path and is
      not shared between paths, and there is no space around a file. */
  predicate WellFormed(b: Bundle, lib: Library) {
    && (forall r :: r in b.refs ==> RefOk(r, lib) && r.path in b.files)
    && (forall p :: p in b.files ==> Referenced(b.refs, p))
    && UniquePaths(b.refs) && UniqueNames(b.refs) && b.files != map[] && TrimmedFiles(b.files)
  }

  predicate RefOk(r: Ref, lib: Library) {
    r.name == lib.name(r.path) && r.name != "" && Trimmed(r.name) && Trimmed(r.path) && (r.base <==> r.path == "base.yaml")
  }

  predicate Referenced(refs: seq<Ref>, path: Path) { exists r :: r in refs && r.path == path }

  predicate UniquePaths(refs: seq<Ref>) { forall a, b :: a in refs && b in refs && a.path == b.path ==> a == b }

  predicate UniqueNames(refs: seq<Ref>) { forall a, b :: a in refs && b in refs && a.name == b.name ==> a == b }

  predicate TrimmedFiles(files: Files) { forall p :: p in files ==> Trimmed(files[p]) }

  predicate NoEmptyFile(files: Files) { forall p :: p in files ==> files[p] != "" }

  // ---------- Rendering the files ----------

  /** A route to be collected; `fragment` is its configuration, unless that is refused. */
  datatype Input = Input(fileID: string, routeID: string, fragment: Option<string>)

  /** The file of a route; a blank fragment has no mapping at its root. */
  function RouteFile(input: Input): Option<string> {
    if input.fragment.Some? && TrimSpace(input.fragment.value) != "" then Some(TrimSpace(input.fragment.value)) else None
  }

  function ServicePath(fileID: string): Path { "services/" + fileID + ".yaml" }

  function ServiceRef(input: Input, resourceName: string -> Name): Ref {
    Ref(ServicePath(input.fileID), resourceName("novaapm-logs-agent-" + input.fileID), false, input.routeID)
  }

  function BaseRef(resourceName: string -> Name): Ref {
    Ref("base.yaml", resourceName("novaapm-logs-agent-base-config"), true, "")
  }

  function RenderedRefs(inputs: seq<Input>, resourceName: string -> Name): (refs: seq<Ref>)
    ensures |refs| == |inputs| + 1
  {
    if inputs == [] then [BaseRef(resourceName)]
    else RenderedRefs(inputs[..|inputs| - 1], resourceName) + [ServiceRef(inputs[|inputs| - 1], resourceName)]
  }

  predicate AllRendered(inputs: seq<Input>) { forall i :: 0 <= i < |inputs| ==> RouteFile(inputs[i]).Some? }

  function RenderedFiles(inputs: seq<Input>, base: string): Files
    requires AllRendered(inputs)
  {
    if inputs == [] then map["base.yaml" := base]
    else RenderedFiles(inputs[..|inputs| - 1], base)[ServicePath(inputs[|inputs| - 1].fileID) := RouteFile(inputs[|inputs| - 1]).value]
  }

  lemma RenderedNothing(base: string, resourceName: string -> Name)
    ensures RenderedRefs([], resourceName) == [BaseRef(resourceName)] && RenderedFiles([], base) == map["base.yaml" := base]
  {}

  lemma RenderedSnoc(inputs: seq<Input>, input: Input, base: string, resourceName: string -> Name)
    requires AllRendered(inputs) && RouteFile(input).Some?
    ensures AllRendered(inputs + [input])
    ensures RenderedRefs(inputs + [input], resourceName) == RenderedRefs(inputs, resourceName) + [ServiceRef(input, resourceName)]
    ensures RenderedFiles(inputs + [input], base) == RenderedFiles(inputs, base)[ServicePath(input.fileID) := RouteFile(input).value]
  {
    hide ServicePath, RouteFile;
    assert (inputs + [input])[..|inputs|] == inputs;
  }

  /** `idle` and `base` are the rendered base files for no route and for some. */
  method RenderK8sCollectorConfigFiles(inputs: seq<Input>, idle: string, base: string, resourceName: string -> Name)
    returns (files: Files, refs: seq<Ref>, failed: bool)
    ensures failed <==> !AllRendered(inputs)
    ensures !failed ==> refs == RenderedRefs(inputs, resourceName) && files == RenderedFiles(inputs, if inputs == [] then idle else base)
  {
    hide RenderedRefs, RenderedFiles, ServicePath, RouteFile;
    RenderedNothing(idle, resourceName);
    RenderedNothing(base, resourceName);
    files := map[];
    refs := [BaseRef(resourceName)];
    if inputs == [] {
      files := files["base.yaml" := idle];
      return files, refs, false;
    }
    files := files["base.yaml" := base];
    for k := 0 to |inputs|
      invariant AllRendered(inputs[..k]) && refs == RenderedRefs(inputs[..k], resourceName) && files == RenderedFiles(inputs[..k], base)
    {
      var file := RouteFile(inputs[k]);
      if file.None? {
        return files, refs, true;
      }
      assert inputs[..k + 1] == inputs[..k] + [inputs[k]];
      RenderedSnoc(inputs[..k], inputs[k], base, resourceName);
      var path := ServicePath(inputs[k].fileID);
      files := files[path := file.value];
      refs := refs + [Ref(path, resourceName("novaapm-logs-agent-" + inputs[k].fileID), false, inputs[k].routeID)];
    }
    assert inputs[..|inputs|] == inputs;
    failed := false;
  }

  lemma PathInjective(a: string, b: string)
    ensures ServicePath(a) == ServicePath(b) ==> a == b
  {
    assert a == ServicePath(a)[9..|ServicePath(a)| - 5];
    assert b == ServicePath(b)[9..|ServicePath(b)| - 5];
  }

  lemma PathOk(fileID: string)
    ensures ServicePath(fileID) != "base.yaml" && Trimmed(ServicePath(fileID))
  {
    assert ServicePath(fileID)[0] == 's' && ServicePath(fileID)[|ServicePath(fileID)| - 1] == 'l' && "base.yaml"[0] == 'b';
  }

  /** The library names ConfigMaps as rendering does. */
  ghost predicate NamesAs(lib: Library, resourceName: string -> Name) {
    && lib.name("base.yaml") == BaseRef(resourceName).name
    && forall fileID :: lib.name(ServicePath(fileID)) == resourceName("novaapm-logs-agent-" + fileID)
  }

  predicate DistinctIDs(inputs: seq<Input>) { forall i, j :: 0 <= i < j < |inputs| ==> inputs[i].fileID != inputs[j].fileID }

  predicate GoodNames(refs: seq<Ref>) { forall r :: r in refs ==> r.name != "" && Trimmed(r.name) }

  /** Each reference is the base file's or comes from an input. */
  predicate FromInput(r: Ref, inputs: seq<Input>, resourceName: string -> Name) {
    r == BaseRef(resourceName) || exists i :: 0 <= i < |inputs| && r == ServiceRef(inputs[i], resourceName)
  }

  lemma {:induction false} RefsFromInputs(inputs: seq<Input>, resourceName: string -> Name)
    ensures forall r :: r in RenderedRefs(inputs, resourceName) ==> FromInput(r, inputs, resourceName)
    ensures BaseRef(resourceName) in RenderedRefs(inputs, resourceName)
    ensures forall i :: 0 <= i < |inputs| ==> ServiceRef(inputs[i], resourceName) in RenderedRefs(inputs, resourceName)
  {
    hide ServiceRef, BaseRef;
    if inputs != [] {
      var n := |inputs| - 1;
      RefsFromInputs(inputs[..n], resourceName);
      var before, refs := RenderedRefs(inputs[..n], resourceName), RenderedRefs(inputs, resourceName);
      assert forall x :: x in before ==> x in refs;
      forall r | r in refs ensures FromInput(r, inputs, resourceName) {
        if r in before && r != BaseRef(resourceName) {
          var i :| 0 <= i < n && r == ServiceRef(inputs[..n][i], resourceName);
          assert r == ServiceRef(inputs[i], resourceName);
        }
      }
      forall i | 0 <= i < |inputs| ensures ServiceRef(inputs[i], resourceName) in refs {
        assert i < n ==> inputs[..n][i] == inputs[i];
      }
    }
  }

  lemma {:induction false} FilesFromInputs(inputs: seq<Input>, base: string)
    requires AllRendered(inputs)
    ensures forall p :: p in RenderedFiles(inputs, base) <==> p == "base.yaml" || exists i :: 0 <= i < |inputs| && p == ServicePath(inputs[i].fileID)
  {
    hide ServicePath, RouteFile;
    if inputs != [] {
      var n := |inputs| - 1;
      FilesFromInputs(inputs[..n], base);
      forall p ensures p in RenderedFiles(inputs, base) <==> p == "base.yaml" || exists i :: 0 <= i < |inputs| && p == ServicePath(inputs[i].fileID) {
        if p in RenderedFiles(inputs[..n], base) && p != "base.yaml" {
          var i :| 0 <= i < n && p == ServicePath(inputs[..n][i].fileID);
          assert p == ServicePath(inputs[i].fileID);
        }
        if i :| 0 <= i < |inputs| && p == ServicePath(inputs[i].fileID) {
          assert i < n ==> p == ServicePath(inputs[..n][i].fileID);
        }
      }
    }
  }

  lemma SamePathSameRef(inputs: seq<Input>, resourceName: string -> Name, a: Ref, b: Ref)
    requires DistinctIDs(inputs) && FromInput(a, inputs, resourceName) && FromInput(b, inputs, resourceName) && a.path == b.path
    ensures a == b
  {
    hide ServicePath;
    if a != BaseRef(resourceName) {
      var i :| 0 <= i < |inputs| && a == ServiceRef(inputs[i], resourceName);
      PathOk(inputs[i].fileID);
      if b != BaseRef(resourceName) {
        var j :| 0 <= j < |inputs| && b == ServiceRef(inputs[j], resourceName);
        PathInjective(inputs[i].fileID, inputs[j].fileID);
      }
    } else if b != BaseRef(resourceName) {
      var j :| 0 <= j < |inputs| && b == ServiceRef(inputs[j], resourceName);
      PathOk(inputs[j].fileID);
    }
  }

  lemma FromInputOk(inputs: seq<Input>, lib: Library, resourceName: string -> Name, r: Ref)
    requires NamesAs(lib, resourceName) && FromInput(r, inputs, resourceName) && r.name != "" && Trimmed(r.name)
    ensures RefOk(r, lib)
  {
    hide ServicePath;
    if r != BaseRef(resourceName) {
      var i :| 0 <= i < |inputs| && r == ServiceRef(inputs[i], resourceName);
      PathOk(inputs[i].fileID);
    }
  }

  lemma {:induction false} RenderedTrimmed(inputs: seq<Input>, base: string)
    requires AllRendered(inputs) && Trimmed(base) && base != ""
    ensures TrimmedFiles(RenderedFiles(inputs, base)) && NoEmptyFile(RenderedFiles(inputs, base))
  {
    hide ServicePath, Trimmed, TrimSpace;
    if inputs != [] {
      RenderedTrimmed(inputs[..|inputs| - 1], base);
      assert RouteFile(inputs[|inputs| - 1]).Some?;
    }
  }

  /** Rendering routes with different file ids gives a well-formed bundle without an empty file, as long as their ConfigMaps have
      different names. The base file is a fixed text. */
  lemma {:induction false} RenderedWellFormed(inputs: seq<Input>, base: string, collectorYAML: string, lib: Library, resourceName: string -> Name)
    requires AllRendered(inputs) && DistinctIDs(inputs) && NamesAs(lib, resourceName) && GoodNames(RenderedRefs(inputs, resourceName))
    requires UniqueNames(RenderedRefs(inputs, resourceName)) && Trimmed(base) && base != ""
    ensures WellFormed(Bundle(RenderedFiles(inputs, base), RenderedRefs(inputs, resourceName), collectorYAML), lib)
    ensures NoEmptyFile(RenderedFiles(inputs, base))
  {
    hide RefOk, RenderedRefs, RenderedFiles, ServicePath, FromInput, Trimmed, RouteFile;
    RenderedTrimmed(inputs, base);
    var refs, files := RenderedRefs(inputs, resourceName), RenderedFiles(inputs, base);
    RefsFromInputs(inputs, resourceName);
    FilesFromInputs(inputs, base);
    forall r | r in refs ensures RefOk(r, lib) && r.path in files {
      FromInputOk(inputs, lib, resourceName, r);
      FromInputHasFile(inputs, base, resourceName, r);
    }
    forall p | p in files ensures Referenced(refs, p) {
      if p == "base.yaml" {
        assert BaseRef(resourceName) in refs;
      } else {
        var i :| 0 <= i < |inputs| && p == ServicePath(inputs[i].fileID);
        assert ServiceRef(inputs[i], resourceName) in refs;
      }
    }
    forall a, b | a in refs && b in refs && a.path == b.path ensures a == b {
      SamePathSameRef(inputs, resourceName, a, b);
    }
  }

  lemma FromInputHasFile(inputs: seq<Input>, base: string, resourceName: string -> Name, r: Ref)
    requires AllRendered(inputs) && FromInput(r, inputs, resourceName)
    ensures r.path in RenderedFiles(inputs, base) && "base.yaml" in RenderedFiles(inputs, base)
  {
    hide ServicePath, RenderedFiles;
    FilesFromInputs(inputs, base);
  }

  // ---------- The order of the files ----------

  predicate RefAtMost(a: Ref, b: Ref) {
    (a.base && !b.base) || (a.base == b.base && AtMost(a.path, b.path))
  }

  /** The base file first, then by path; equal ones keep their order. */
  function Ordered(refs: seq<Ref>): seq<Ref> { Sorting.SortBy(refs, RefAtMost) }

  predicate InOrder(refs: seq<Ref>) { forall i, j :: 0 <= i < j < |refs| ==> RefAtMost(refs[i], refs[j]) }

  lemma RefOrder(a: Ref, b: Ref, c: Ref)
    ensures RefAtMost(a, b) || RefAtMost(b, a)
    ensures RefAtMost(a, b) && RefAtMost(b, c) ==> RefAtMost(a, c)
  {
    hide AtMost;
    AtMostTotal(a.path, b.path);
    if AtMost(a.path, b.path) && AtMost(b.path, c.path) {
      AtMostTransitive(a.path, b.path, c.path);
    }
  }

  lemma OrderedIs(refs: seq<Ref>)
    ensures InOrder(Ordered(refs)) && forall x :: x in Ordered(refs) <==> x in refs
  {
    hide RefAtMost;
    forall a, b ensures RefAtMost(a, b) || RefAtMost(b, a) { RefOrder(a, b, b); }
    forall a, b, c | RefAtMost(a, b) && RefAtMost(b, c) ensures RefAtMost(a, c) { RefOrder(a, b, c); }
    Sorting.SortBySorts(refs, RefAtMost);
  }

  lemma OrderedKeeps(refs: seq<Ref>)
    ensures forall x :: x in Ordered(refs) <==> x in refs
  {
    OrderedIs(refs);
  }

  /** The collector reads its base file first and the others by path, whatever order they were rendered in. */
  lemma OrderedInOrder(refs: seq<Ref>)
    ensures InOrder(Ordered(refs))
    ensures forall i, j :: 0 <= i < j < |Ordered(refs)| ==>
              && (Ordered(refs)[j].base ==> Ordered(refs)[i].base)
              && (Ordered(refs)[i].base == Ordered(refs)[j].base ==> AtMost(Ordered(refs)[i].path, Ordered(refs)[j].path))
  {
    OrderedIs(refs);
  }

  /** The last reference for a path, among those in order. */
  function RefFor(refs: seq<Ref>, path: Path): Option<Ref> {
    if refs == [] then None
    else if refs[|refs| - 1].path == path then Some(refs[|refs| - 1])
    else RefFor(refs[..|refs| - 1], path)
  }

  lemma {:induction false} RefForIs(refs: seq<Ref>, r: Ref)
    requires r in refs && UniquePaths(refs)
    ensures RefFor(refs, r.path) == Some(r)
  {
    var n := |refs| - 1;
    assert refs == refs[..n] + [refs[n]];
    if refs[n].path != r.path {
      RefForIs(refs[..n], r);
    }
  }

  function ConfigArgs(refs: seq<Ref>): seq<string> {
    var ordered := Ordered(refs);
    seq(|ordered|, i requires 0 <= i < |ordered| => "--config=/conf/" + ordered[i].path)
  }

  // ---------- Manifests ----------

  datatype Mount = Mount(name: Name, key: string, path: Path)

  datatype Workload = Workload(args: seq<string>, mounts: seq<Mount>, configHash: string)

  datatype Document = Plain(kind: string) | ConfigMap(name: Name, data: Data) | DaemonSet(workload: Workload)

  datatype Data = Data(key: string, content: string)

  function TrimNewlines(s: string): string {
    if s != "" && s[|s| - 1] == '\n' then TrimNewlines(s[..|s| - 1]) else s
  }

  function KeyFor(r: Ref): string { if r.base then "base.yaml" else "fragment.yaml" }

  function DataFor(files: Files, r: Ref): Data {
    Data(KeyFor(r), TrimNewlines(if r.path in files then files[r.path] else ""))
  }

  function MapsFor(files: Files, ordered: seq<Ref>): seq<Document> {
    seq(|ordered|, i requires 0 <= i < |ordered| => ConfigMap(ordered[i].name, DataFor(files, ordered[i])))
  }

  function MountsFor(ordered: seq<Ref>): seq<Mount> {
    seq(|ordered|, i requires 0 <= i < |ordered| => Mount(ordered[i].name, KeyFor(ordered[i]), ordered[i].path))
  }

  function WorkloadFor(b: Bundle, lib: Library): Workload {
    Workload(ConfigArgs(b.refs), MountsFor(Ordered(b.refs)), lib.hash(b.files))
  }

  /** The documents of the manifest: what the collector rests on, its files, its service and the DaemonSet. */
  function Manifest(b: Bundle, lib: Library): seq<Document> {
    [Plain("Namespace"), Plain("ServiceAccount"), Plain("ClusterRole"), Plain("ClusterRoleBinding")]
    + MapsFor(b.files, Ordered(b.refs))
    + [Plain("Service"), DaemonSet(WorkloadFor(b, lib))]
  }

  predicate Keeps(d: Document, names: set<Name>) {
    d.DaemonSet? || (d.ConfigMap? && d.name in names)
  }

  function Selected(documents: seq<Document>, names: set<Name>): seq<Document> {
    if documents == [] then []
    else
      var last := documents[|documents| - 1];
      Selected(documents[..|documents| - 1], names) + if Keeps(last, names) then [last] else []
  }

  // ---------- The cluster ----------

  datatype Cluster = Cluster(configMaps: map<Name, Data>, workload: Option<Workload>, plain: set<string>)

  const EMPTY_CLUSTER := Cluster(map[], None, {})

  function Put(c: Cluster, d: Document): Cluster {
    match d
    case Plain(kind) => c.(plain := c.plain + {kind})
    case ConfigMap(name, data) => c.(configMaps := c.configMaps[name := data])
    case DaemonSet(workload) => c.(workload := Some(workload))
  }

  function Deploy(c: Cluster, documents: seq<Document>): Cluster {
    if documents == [] then c else Put(Deploy(c, documents[..|documents| - 1]), documents[|documents| - 1])
  }

  function MountAt(mounts: seq<Mount>, path: Path): Option<Mount> {
    if mounts == [] then None
    else if mounts[|mounts| - 1].path == path then Some(mounts[|mounts| - 1])
    else MountAt(mounts[..|mounts| - 1], path)
  }

  /** The file a deployed collector sees at `path`. */
  function FileAt(c: Cluster, path: Path): Option<string> {
    if c.workload.None? then None
    else
      match MountAt(c.workload.value.mounts, path)
      case None => None
      case Some(m) => if m.name in c.configMaps && c.configMaps[m.name].key == m.key then Some(c.configMaps[m.name].content) else None
  }

  /** The collector is told of exactly the bundle's files, base first, and sees each as rendered, up to line feeds at its end. */
  predicate Serves(c: Cluster, b: Bundle) {
    && c.workload.Some? && c.workload.value.args == ConfigArgs(b.refs)
    && forall r :: r in b.refs && r.path in b.files ==> FileAt(c, r.path) == Some(TrimNewlines(b.files[r.path]))
  }

  /** The ConfigMap of a reference holds its file already. */
  predicate Holds(c: Cluster, files: Files, r: Ref) {
    r.name in c.configMaps && c.configMaps[r.name] == DataFor(files, r)
  }

  /** The data that deploying the documents puts under a name. */
  function LastData(documents: seq<Document>, name: Name): Option<Data> {
    if documents == [] then None
    else
      var last := documents[|documents| - 1];
      if last.ConfigMap? && last.name == name then Some(last.data) else LastData(documents[..|documents| - 1], name)
  }

  lemma {:induction false} DeployedData(c: Cluster, documents: seq<Document>, name: Name)
    ensures var after := Deploy(c, documents).configMaps;
            && (LastData(documents, name).Some? ==> name in after && after[name] == LastData(documents, name).value)
            && (LastData(documents, name).None? ==> (name in after <==> name in c.configMaps))
            && (LastData(documents, name).None? && name in after ==> after[name] == c.configMaps[name])
  {
    if documents != [] {
      DeployedData(c, documents[..|documents| - 1], name);
    }
  }

  lemma DataSnoc(documents: seq<Document>, d: Document, name: Name)
    ensures LastData(documents + [d], name) == if d.ConfigMap? && d.name == name then Some(d.data) else LastData(documents, name)
  {
    assert (documents + [d])[..|documents|] == documents;
  }

  lemma SelectedSnoc(documents: seq<Document>, d: Document, names: set<Name>)
    ensures Selected(documents + [d], names) == if Keeps(d, names) then Selected(documents, names) + [d] else Selected(documents, names)
  {
    hide Keeps;
    assert (documents + [d])[..|documents|] == documents;
    assert Selected(documents, names) + [] == Selected(documents, names);
  }

  lemma MapsSnoc(files: Files, ordered: seq<Ref>, r: Ref)
    ensures MapsFor(files, ordered + [r]) == MapsFor(files, ordered) + [ConfigMap(r.name, DataFor(files, r))]
  {
    hide DataFor;
  }

  lemma {:induction false} MapsData(files: Files, ordered: seq<Ref>, r: Ref)
    requires r in ordered && UniqueNames(ordered)
    ensures LastData(MapsFor(files, ordered), r.name) == Some(DataFor(files, r))
  {
    hide MapsFor, DataFor, LastData;
    var n := |ordered| - 1;
    var init, last := ordered[..n], ordered[n];
    assert ordered == init + [last];
    assert last in ordered && forall x :: x in init ==> x in ordered;
    MapsSnoc(files, init, last);
    DataSnoc(MapsFor(files, init), ConfigMap(last.name, DataFor(files, last)), r.name);
    if last.name != r.name {
      MapsData(files, init, r);
    }
  }

  /** The documents before the service and the DaemonSet. */
  function Front(b: Bundle): seq<Document> {
    [Plain("Namespace"), Plain("ServiceAccount"), Plain("ClusterRole"), Plain("ClusterRoleBinding")] + MapsFor(b.files, Ordered(b.refs))
  }

  lemma ManifestEnds(b: Bundle, lib: Library)
    ensures Manifest(b, lib) == (Front(b) + [Plain("Service")]) + [DaemonSet(WorkloadFor(b, lib))]
  {
    hide WorkloadFor, Ordered, MapsFor;
  }

  lemma {:induction false} DataAfter(before: seq<Document>, documents: seq<Document>, name: Name)
    ensures LastData(documents, name).Some? ==> LastData(before + documents, name) == LastData(documents, name)
  {
    if documents != [] {
      var n := |documents| - 1;
      DataAfter(before, documents[..n], name);
      assert (before + documents)[..|before| + n] == before + documents[..n];
    }
  }

  lemma ManifestData(b: Bundle, lib: Library, r: Ref)
    requires r in b.refs && UniqueNames(b.refs)
    ensures LastData(Manifest(b, lib), r.name) == Some(DataFor(b.files, r))
  {
    hide Manifest, WorkloadFor, Ordered, MapsFor, DataFor;
    OrderedKeeps(b.refs);
    MapsData(b.files, Ordered(b.refs), r);
    ManifestEnds(b, lib);
    DataSnoc(Front(b), Plain("Service"), r.name);
    DataSnoc(Front(b) + [Plain("Service")], DaemonSet(WorkloadFor(b, lib)), r.name);
    DataAfter([Plain("Namespace"), Plain("ServiceAccount"), Plain("ClusterRole"), Plain("ClusterRoleBinding")],
              MapsFor(b.files, Ordered(b.refs)), r.name);
  }

  lemma DeployedWorkload(c: Cluster, b: Bundle, lib: Library, names: set<Name>)
    ensures Deploy(c, Manifest(b, lib)).workload == Some(WorkloadFor(b, lib))
    ensures Selected(Manifest(b, lib), names) != [] && Deploy(c, Selected(Manifest(b, lib), names)).workload == Some(WorkloadFor(b, lib))
  {
    hide Manifest, WorkloadFor, Front;
    ManifestEnds(b, lib);
    var front, last := Front(b) + [Plain("Service")], DaemonSet(WorkloadFor(b, lib));
    assert (front + [last])[..|front|] == front;
    var before := Selected(front, names);
    SelectedSnoc(front, last, names);
    assert (before + [last])[..|before|] == before;
  }

  lemma {:induction false} MountOf(ordered: seq<Ref>, path: Path)
    ensures MountAt(MountsFor(ordered), path)
            == if RefFor(ordered, path).Some? then Some(Mount(RefFor(ordered, path).value.name, KeyFor(RefFor(ordered, path).value), path)) else None
  {
    if ordered != [] {
      var n := |ordered| - 1;
      assert MountsFor(ordered)[..n] == MountsFor(ordered[..n]);
      MountOf(ordered[..n], path);
    }
  }

  lemma MountOfRef(b: Bundle, r: Ref)
    requires r in b.refs && UniquePaths(b.refs)
    ensures MountAt(MountsFor(Ordered(b.refs)), r.path) == Some(Mount(r.name, KeyFor(r), r.path))
  {
    hide Ordered, MountsFor, MountAt, RefFor;
    OrderedKeeps(b.refs);
    MountOf(Ordered(b.refs), r.path);
    RefForIs(Ordered(b.refs), r);
  }

  /** With the bundle's DaemonSet in place, its files are served exactly when every ConfigMap holds its file. */
  lemma ServesIff(c: Cluster, b: Bundle, lib: Library)
    requires WellFormed(b, lib) && c.workload == Some(WorkloadFor(b, lib))
    ensures Serves(c, b) <==> forall r :: r in b.refs ==> Holds(c, b.files, r)
  {
    hide Ordered, ConfigArgs, MountsFor, MountAt, TrimNewlines;
    forall r | r in b.refs ensures (FileAt(c, r.path) == Some(TrimNewlines(b.files[r.path]))) <==> Holds(c, b.files, r) {
      MountOfRef(b, r);
    }
  }

  /** Deploying a whole manifest serves the bundle, whatever was there. */
  lemma FullServes(c: Cluster, b: Bundle, lib: Library)
    requires WellFormed(b, lib)
    ensures Serves(Deploy(c, Manifest(b, lib)), b)
    ensures forall r :: r in b.refs ==> Holds(Deploy(c, Manifest(b, lib)), b.files, r)
  {
    hide Manifest, WorkloadFor, Deploy, DataFor, Serves, LastData;
    DeployedWorkload(c, b, lib, {});
    var after := Deploy(c, Manifest(b, lib));
    forall r | r in b.refs ensures Holds(after, b.files, r) {
      ManifestData(b, lib, r);
      DeployedData(c, Manifest(b, lib), r.name);
    }
    ServesIff(after, b, lib);
  }

  // ---------- Names, paths and documents, written out ----------

  /** The file and the reference of each route, and those of the base. */
  lemma {:induction false} RenderedEach(inputs: seq<Input>, base: string, resourceName: string -> Name, i: nat)
    requires AllRendered(inputs) && DistinctIDs(inputs) && i < |inputs|
    ensures var refs, files, path := RenderedRefs(inputs, resourceName), RenderedFiles(inputs, base), "services/" + inputs[i].fileID + ".yaml";
            && inputs[i].fragment.Some? && TrimSpace(inputs[i].fragment.value) != ""
            && refs[i + 1] == Ref(path, resourceName("novaapm-logs-agent-" + inputs[i].fileID), false, inputs[i].routeID)
            && path in files && files[path] == TrimSpace(inputs[i].fragment.value)
            && refs[0] == Ref("base.yaml", resourceName("novaapm-logs-agent-base-config"), true, "")
            && "base.yaml" in files && files["base.yaml"] == base
  {
    hide TrimSpace;
    var n := |inputs| - 1;
    assert RouteFile(inputs[i]).Some?;
    if i < n {
      RenderedEach(inputs[..n], base, resourceName, i);
      PathInjective(inputs[i].fileID, inputs[n].fileID);
    } else if n > 0 {
      RenderedEach(inputs[..n], base, resourceName, 0);
    } else {
      assert inputs[..0] == [];
    }
    PathOk(inputs[n].fileID);
  }

  /** The documents of a manifest, one by one. */
  lemma ManifestEach(b: Bundle, lib: Library)
    ensures var documents, n := Manifest(b, lib), |Ordered(b.refs)|;
            && |documents| == n + 6
            && documents[..4] == [Plain("Namespace"), Plain("ServiceAccount"), Plain("ClusterRole"), Plain("ClusterRoleBinding")]
            && documents[n + 4] == Plain("Service") && documents[n + 5].DaemonSet?
            && (forall i :: 0 <= i < n ==>
                  var r := Ordered(b.refs)[i];
                  documents[i + 4] == ConfigMap(r.name, Data(if r.base then "base.yaml" else "fragment.yaml",
                                                             TrimNewlines(if r.path in b.files then b.files[r.path] else ""))))
  {
    hide Ordered, TrimNewlines, WorkloadFor;
  }

  /** The DaemonSet reads its files below /conf, and mounts each from its ConfigMap. */
  lemma WorkloadEach(b: Bundle, lib: Library)
    ensures var workload, ordered := WorkloadFor(b, lib), Ordered(b.refs);
            && Manifest(b, lib)[|Manifest(b, lib)| - 1] == DaemonSet(workload) && workload.configHash == lib.hash(b.files)
            && |workload.args| == |ordered| && |workload.mounts| == |ordered|
            && forall i :: 0 <= i < |ordered| ==>
                 && workload.args[i] == "--config=/conf/" + ordered[i].path
                 && workload.mounts[i] == Mount(ordered[i].name, if ordered[i].base then "base.yaml" else "fragment.yaml", ordered[i].path)
  {
    hide Ordered, TrimNewlines;
  }
}
