/** The in-place normaliser of the collector's pipelines, proved against `Pipelines.Normalize`. */
module PipelineNodes {
  import opened Text
  import opened YamlTree
  import opened YamlNodes
  import opened Pipelines

  function NodeValues(nodes: seq<Node>): (r: seq<string>)
    reads nodes
    ensures |r| == |nodes| && forall i :: 0 <= i < |nodes| ==> r[i] == nodes[i].head.value
  {
    if nodes == [] then [] else [nodes[0].head.value] + NodeValues(nodes[1..])
  }

  lemma NodeValuesAre(list: Node, t: Tree)
    requires list.Holds(t) && t.Sequence?
    ensures NodeValues(list.content) == Values(t.items)
  {
    forall i | 0 <= i < |list.content| ensures list.content[i].head == t.items[i].head {
      assert list.content[i].Holds(Children(t)[i]);
    }
  }

  /** New scalar nodes for some names. */
  method MakeScalars(names: seq<string>) returns (nodes: seq<Node>, ghost within: set<Node>)
    ensures AllHold(nodes, ScalarNodes(names), within) && fresh(within)
  {
    hide Node.Holds, AllHold;
    nodes, within := [], {};
    AllHoldNone();
    assert ScalarNodes(names)[..0] == [];
    for i := 0 to |names|
      invariant AllHold(nodes, ScalarNodes(names)[..i], within) && fresh(within)
    {
      var n := new Node(ScalarNode, Head(names[i], "!!str"));
      ghost var t := Scalar(Head(names[i], "!!str"));
      Leaf(n, t);
      AllHoldOne(n, t);
      AllHoldConcat(nodes, ScalarNodes(names)[..i], within, [n], [t], n.repr);
      assert ScalarNodes(names)[..i + 1] == ScalarNodes(names)[..i] + [t];
      nodes, within := nodes + [n], within + n.repr;
    }
    assert ScalarNodes(names)[..|names|] == ScalarNodes(names);
  }

  lemma Leaf(n: Node, t: Tree)
    requires n.kind == ScalarNode && n.content == [] && n.repr == {n} && t == Scalar(n.head)
    ensures n.Holds(t)
  {}

  /** Replaces the content of a component list by its normal names. */
  method ReplaceNames(list: Node, field: string, ghost t: Tree)
    requires list.Holds(t) && t.Sequence?
    modifies list
    ensures list.Holds(t.(items := ScalarNodes(NormalNames(field, Values(t.items)))))
    ensures fresh(list.repr - old(list.repr))
  {
    hide Node.Holds, AllHold, Unique, SortProcessors, NodeValues;
    Below(list, t);
    NodeValuesAre(list, t);
    var names := UniqueScalarNames(NodeValues(list.content));
    if field == "processors" {
      names := SortProcessors(names);
    }
    var nodes, within := MakeScalars(names);
    list.content := nodes;
    list.repr := {list} + within;
    Assemble(list, t.(items := ScalarNodes(names)), within);
  }

  method NormalizeFieldNode(pipeline: Node, field: string, ghost t: Tree)
    requires pipeline.Holds(t) && t.Mapping?
    modifies pipeline.repr
    ensures pipeline.Holds(NormalizeField(t, field)) && fresh(pipeline.repr - old(pipeline.repr))
  {
    hide Node.Holds, AllHold, Flatten, Find, NormalNames, Values, ScalarNodes;
    Below(pipeline, t); Named(pipeline, t);
    var list, at := MappingValue(pipeline, field, t.entries);
    if list == null {
      return;
    }
    PairAt(pipeline, t, at);
    Below(list, t.entries[at].value);
    if list.kind != SequenceNode {
      return;
    }
    ReplaceNamesIn(pipeline, list, field, t, at);
  }

  method ReplaceNamesIn(pipeline: Node, list: Node, field: string, ghost t: Tree, ghost at: nat)
    requires pipeline.Holds(t) && t.Mapping? && at < |t.entries| && t.entries[at].value.Sequence?
    requires |pipeline.content| == 2 * |t.entries| && list == pipeline.content[2 * at + 1]
    modifies pipeline.repr
    ensures var v := t.entries[at].value;
            pipeline.Holds(t.(entries := t.entries[at := t.entries[at].(value := v.(items := ScalarNodes(NormalNames(field, Values(v.items)))))]))
    ensures fresh(pipeline.repr - old(pipeline.repr))
  {
    hide Node.Holds, AllHold, Flatten, NormalNames, Values, ScalarNodes;
    Below(pipeline, t); PairAt(pipeline, t, at);
    ghost var inside, content, n := pipeline.repr - {pipeline}, pipeline.content, 2 * at + 1;
    ghost var v := t.entries[at].value;
    Apart(content, Children(t), inside, n);
    ReplaceNames(list, field, v);
    forall k | 0 <= k < |content| && k != n
      ensures content[k].repr == old(content[k].repr) && content[k].Holds(Children(t)[k])
      ensures content[k].repr !! list.repr
    {
    }
    Rehang(pipeline, t, inside, at, v.(items := ScalarNodes(NormalNames(field, Values(v.items)))));
  }

  method NormalizePipelineNode(pipeline: Node, ghost t: Tree)
    requires pipeline.Holds(t)
    modifies pipeline.repr
    ensures pipeline.Holds(NormalizePipeline(t)) && fresh(pipeline.repr - old(pipeline.repr))
  {
    hide Node.Holds, AllHold, Flatten, Find, NormalizeField;
    Below(pipeline, t);
    if pipeline.kind != MappingNode {
      return;
    }
    StaysMapping(t, "receivers");
    NormalizeFieldNode(pipeline, "receivers", t);
    ghost var r := NormalizeField(t, "receivers");
    StaysMapping(r, "processors");
    NormalizeFieldNode(pipeline, "processors", r);
    NormalizeFieldNode(pipeline, "exporters", NormalizeField(r, "processors"));
  }

  lemma StaysMapping(t: Tree, field: string)
    requires t.Mapping?
    ensures NormalizeField(t, field).Mapping?
  {}

  /** The entries with the first `k` pipelines normalised. */
  function Halfway(es: seq<Entry>, k: nat): (r: seq<Entry>)
    requires k <= |es|
    ensures |r| == |es|
  {
    NormalizePipelines(es)[..k] + es[k..]
  }

  lemma HalfwayEnds(es: seq<Entry>)
    ensures Halfway(es, 0) == es && Halfway(es, |es|) == NormalizePipelines(es)
  {
    hide NormalizePipelines;
  }

  lemma HalfwayNext(es: seq<Entry>, k: nat)
    requires k < |es|
    ensures Halfway(es, k)[k] == es[k]
    ensures Halfway(es, k)[k := es[k].(value := NormalizePipeline(es[k].value))] == Halfway(es, k + 1)
  {
    hide NormalizePipeline;
  }

  lemma MappingContent(n: Node, t: Tree)
    requires n.Holds(t) && t.Mapping?
    ensures |n.content| == 2 * |t.entries|
  {
    hide Node.Holds, AllHold;
    Below(n, t);
    LevelCount(n, t);
  }

  lemma LevelCount(n: Node, t: Tree)
    requires AllHold(n.content, Children(t), n.repr - {n}) && t.Mapping?
    ensures |n.content| == 2 * |t.entries|
  {}

  method NormalizePipelinesNode(pipelines: Node, ghost t: Tree)
    requires pipelines.Holds(t) && t.Mapping?
    modifies pipelines.repr
    ensures pipelines.Holds(t.(entries := NormalizePipelines(t.entries)))
    ensures fresh(pipelines.repr - old(pipelines.repr))
  {
    hide Node.Holds, AllHold, Flatten, NormalizePipeline, NormalizePipelines, Halfway;
    ghost var es, k := t.entries, 0;
    MappingContent(pipelines, t);
    HalfwayEnds(es);
    var i := 0;
    while i + 1 < |pipelines.content|
      invariant i == 2 * k && k <= |es| && |pipelines.content| == 2 * |es|
      invariant pipelines.Holds(t.(entries := Halfway(es, k))) && fresh(pipelines.repr - old(pipelines.repr))
    {
      NormalizeOne(pipelines, i, t.(entries := Halfway(es, k)), k);
      HalfwayNext(es, k);
      i, k := i + 2, k + 1;
      MappingContent(pipelines, t.(entries := Halfway(es, k)));
    }
  }

  method NormalizeOne(pipelines: Node, i: nat, ghost m: Tree, ghost k: nat)
    requires pipelines.Holds(m) && m.Mapping? && i == 2 * k && k < |m.entries|
    requires |pipelines.content| == 2 * |m.entries|
    modifies pipelines.repr
    ensures pipelines.Holds(m.(entries := m.entries[k := m.entries[k].(value := NormalizePipeline(m.entries[k].value))]))
    ensures fresh(pipelines.repr - old(pipelines.repr))
  {
    hide Node.Holds, AllHold, Flatten, NormalizePipeline;
    Below(pipelines, m); PairAt(pipelines, m, k);
    ghost var inside, content := pipelines.repr - {pipelines}, pipelines.content;
    var pipeline := pipelines.content[i + 1];
    Apart(content, Children(m), inside, i + 1);
    NormalizePipelineNode(pipeline, m.entries[k].value);
    forall j | 0 <= j < |content| && j != i + 1
      ensures content[j].repr == old(content[j].repr) && content[j].Holds(Children(m)[j])
      ensures content[j].repr !! pipeline.repr
    {
    }
    Rehang(pipelines, m, inside, k, NormalizePipeline(m.entries[k].value));
  }

  /** The service section with its pipelines, if it has any, normalised. */
  function NormalizeService(service: Tree): Tree {
    match Value(service, "pipelines")
    case Some(Mapping(h, es)) => SetValue(service, "pipelines", Mapping(h, NormalizePipelines(es)))
    case _ => service
  }

  method NormalizeServiceNode(service: Node, ghost t: Tree)
    requires service.Holds(t)
    modifies service.repr
    ensures service.Holds(NormalizeService(t)) && fresh(service.repr - old(service.repr))
  {
    hide Node.Holds, AllHold, Flatten, Find, NormalizePipelines;
    Below(service, t);
    if t.Mapping? { Named(service, t); }
    var pipelines, at := MappingValue(service, "pipelines", if t.Mapping? then t.entries else []);
    if pipelines == null {
      return;
    }
    PairAt(service, t, at);
    Below(pipelines, t.entries[at].value);
    if pipelines.kind != MappingNode {
      return;
    }
    NormalizePipelinesIn(service, pipelines, t, at);
  }

  method NormalizePipelinesIn(service: Node, pipelines: Node, ghost t: Tree, ghost at: nat)
    requires service.Holds(t) && t.Mapping? && at < |t.entries| && t.entries[at].value.Mapping?
    requires |service.content| == 2 * |t.entries| && pipelines == service.content[2 * at + 1]
    modifies service.repr
    ensures var v := t.entries[at].value;
            service.Holds(t.(entries := t.entries[at := t.entries[at].(value := v.(entries := NormalizePipelines(v.entries)))]))
    ensures fresh(service.repr - old(service.repr))
  {
    hide Node.Holds, AllHold, Flatten, NormalizePipelines;
    Below(service, t); PairAt(service, t, at);
    ghost var inside, content, n := service.repr - {service}, service.content, 2 * at + 1;
    ghost var v := t.entries[at].value;
    Apart(content, Children(t), inside, n);
    NormalizePipelinesNode(pipelines, v);
    forall k | 0 <= k < |content| && k != n
      ensures content[k].repr == old(content[k].repr) && content[k].Holds(Children(t)[k])
      ensures content[k].repr !! pipelines.repr
    {
    }
    Rehang(service, t, inside, at, v.(entries := NormalizePipelines(v.entries)));
  }

  /** Normalises a configuration in place. */
  method NormalizeProcessorChain(root: Node, ghost t: Tree)
    requires root.Holds(t)
    modifies root.repr
    ensures root.Holds(Normalize(t)) && fresh(root.repr - old(root.repr))
  {
    hide Node.Holds, AllHold, Flatten, Find, NormalizePipelines;
    Below(root, t);
    if t.Mapping? { Named(root, t); }
    var service, at := MappingValue(root, "service", if t.Mapping? then t.entries else []);
    if service == null {
      return;
    }
    NormalizeServiceIn(root, service, t, at);
    SameEntry(t, at);
  }

  method NormalizeServiceIn(root: Node, service: Node, ghost t: Tree, ghost at: nat)
    requires root.Holds(t) && t.Mapping? && at < |t.entries|
    requires |root.content| == 2 * |t.entries| && service == root.content[2 * at + 1]
    modifies root.repr
    ensures root.Holds(t.(entries := t.entries[at := t.entries[at].(value := NormalizeService(t.entries[at].value))]))
    ensures fresh(root.repr - old(root.repr))
  {
    hide Node.Holds, AllHold, Flatten, NormalizeService;
    Below(root, t); PairAt(root, t, at);
    ghost var inside, content, n := root.repr - {root}, root.content, 2 * at + 1;
    ghost var v := t.entries[at].value;
    Apart(content, Children(t), inside, n);
    NormalizeServiceNode(service, v);
    forall k | 0 <= k < |content| && k != n
      ensures content[k].repr == old(content[k].repr) && content[k].Holds(Children(t)[k])
      ensures content[k].repr !! service.repr
    {
    }
    Rehang(root, t, inside, at, NormalizeService(v));
  }

  lemma SameEntry(t: Tree, at: nat)
    requires t.Mapping? && at < |t.entries|
    ensures t.entries[at := t.entries[at].(value := t.entries[at].value)] == t.entries
  {}

  /** Rendering: the parts, platform template first, are merged in turn and the result is normalised.
      Texts are left out, so parsing the merged text again is a copy.  No parts is the error case. */
  method RenderParts(parts: seq<Node>, ghost ts: seq<Tree>) returns (rendered: Node?)
    requires |parts| == |ts| && forall i :: 0 <= i < |parts| ==> parts[i].Holds(ts[i])
    ensures rendered == null <==> parts == []
    ensures rendered != null ==> fresh(rendered.repr) && rendered.Holds(Normalize(MergeAll(ts[0], ts[1..])))
    ensures forall i :: 0 <= i < |parts| ==> parts[i].Holds(ts[i])
  {
    hide Node.Holds, Normalize, Merge;
    rendered := null;
    if parts == [] {
      return;
    }
    var merged := parts[0];
    assert ts[1..][..0] == [];
    for i := 1 to |parts|
      invariant merged.Holds(MergeAll(ts[0], ts[1..][..i - 1]))
      invariant forall j :: 0 <= j < |parts| ==> parts[j].Holds(ts[j])
    {
      ghost var done := ts[1..][..i - 1];
      merged := MergeDocuments(merged, parts[i], MergeAll(ts[0], done), ts[i]);
      MergeAllSnoc(ts[0], done, ts[i]);
      assert ts[1..][..i] == done + [ts[i]];
    }
    assert ts[1..][..|parts| - 1] == ts[1..];
    var root := Clone(merged, MergeAll(ts[0], ts[1..]));
    NormalizeProcessorChain(root, MergeAll(ts[0], ts[1..]));
    rendered := root;
  }

  lemma {:induction false} MergeAllSnoc(base: Tree, patches: seq<Tree>, p: Tree)
    ensures MergeAll(base, patches + [p]) == Merge(MergeAll(base, patches), p)
    decreases |patches|
  {
    if patches == [] {
      assert [p][1..] == [];
      assert MergeAll(base, [p]) == MergeAll(Merge(base, p), []);
    } else {
      MergeAllSnoc(Merge(base, patches[0]), patches[1..], p);
      assert (patches + [p])[1..] == patches[1..] + [p];
    }
  }
}
