/** Normalising the component lists of the collector's pipelines: what `normalizeProcessorChain`
    makes of a configuration tree. */
module Pipelines {
  import opened Text
  import Sorting
  import opened YamlTree

  // ---------- One list ----------

  /** The trimmed, non-empty names in `values`, each at its first occurrence. */
  function Unique(values: seq<string>): seq<string> {
    if values == [] then [] else
      var before, name := Unique(values[..|values| - 1]), TrimSpace(values[|values| - 1]);
      if name == "" || name in before then before else before + [name]
  }

  ghost predicate Mentions(values: seq<string>, name: string) {
    exists i :: 0 <= i < |values| && TrimSpace(values[i]) == name
  }

  ghost predicate AllDistinct(names: seq<string>) {
    forall i, j :: 0 <= i < j < |names| ==> names[i] != names[j]
  }

  /** Which names the result has, and that it has each of them once. */
  lemma {:induction false} UniqueHas(values: seq<string>, name: string)
    ensures name in Unique(values) <==> name != "" && Mentions(values, name)
    ensures AllDistinct(Unique(values))
  {
    hide TrimSpace;
    if values != [] {
      var n := |values| - 1;
      UniqueHas(values[..n], name);
      if Mentions(values[..n], name) {
        var i :| 0 <= i < n && TrimSpace(values[..n][i]) == name;
        assert values[i] == values[..n][i];
      }
      if Mentions(values, name) {
        var i :| 0 <= i < |values| && TrimSpace(values[i]) == name;
        if i < n { assert values[..n][i] == values[i]; }
      }
    }
  }

  method UniqueScalarNames(values: seq<string>) returns (names: seq<string>)
    ensures names == Unique(values)
  {
    hide TrimSpace;
    var seen: set<string> := {};
    names := [];
    for i := 0 to |values|
      invariant names == Unique(values[..i])
      invariant forall name :: name in seen <==> name in names
    {
      assert values[..i + 1][..i] == values[..i];
      var name := TrimSpace(values[i]);
      if name == "" {
        continue;
      }
      if name in seen {
        continue;
      }
      seen := seen + {name};
      names := names + [name];
    }
    assert values[..|values|] == values;
  }

  function ProcessorRank(name: string): int {
    if name == "memory_limiter" then 10
    else if name == "k8sattributes" then 20
    else if HasPrefix(name, "filter/") then 30
    else if HasPrefix(name, "transform/enrich") then 40
    else if HasPrefix(name, "transform/parser") then 50
    else if HasPrefix(name, "transform/") then 60
    else if name == "batch" then 90
    else 70
  }

  predicate Ranked(names: seq<string>) {
    forall i, j :: 0 <= i < j < |names| ==> ProcessorRank(names[i]) <= ProcessorRank(names[j])
  }

  /** The names of one rank, in order. */
  function OfRank(names: seq<string>, rank: int): seq<string> {
    if names == [] then [] else
      OfRank(names[..|names| - 1], rank) +
      if ProcessorRank(names[|names| - 1]) == rank then [names[|names| - 1]] else []
  }

  predicate RankAtMost(a: string, b: string) { ProcessorRank(a) <= ProcessorRank(b) }

  function SortProcessors(names: seq<string>): seq<string> { Sorting.SortBy(names, RankAtMost) }

  lemma {:induction false} OfRankIsClass(names: seq<string>, rank: int)
    ensures OfRank(names, rank) == Sorting.OfClass(names, name => ProcessorRank(name) == rank)
  {
    hide ProcessorRank;
    if names != [] {
      OfRankIsClass(names[..|names| - 1], rank);
    }
  }

  /** The sort permutes, ranks, and keeps names of equal rank in their order. */
  lemma SortIsStable(names: seq<string>, rank: int)
    ensures Ranked(SortProcessors(names)) && multiset(SortProcessors(names)) == multiset(names)
    ensures OfRank(SortProcessors(names), rank) == OfRank(names, rank)
  {
    hide ProcessorRank;
    Sorting.SortBySorts(names, RankAtMost);
    Sorting.SortByIsStable(names, RankAtMost, name => ProcessorRank(name) == rank);
    OfRankIsClass(names, rank);
    OfRankIsClass(SortProcessors(names), rank);
  }

  /** There is only one such order, whatever algorithm finds it. */
  lemma {:induction false} StableOrderUnique(a: seq<string>, b: seq<string>)
    requires Ranked(a) && Ranked(b) && forall rank :: OfRank(a, rank) == OfRank(b, rank)
    ensures a == b
    decreases |a|
  {
    if a == [] || b == [] {
      if a != [] { LastOfRank(a); }
      if b != [] { LastOfRank(b); }
    } else {
      var m, n := |a| - 1, |b| - 1;
      var ra, rb := ProcessorRank(a[m]), ProcessorRank(b[n]);
      if ra < rb { OfRankAbove(a, rb); }
      if rb < ra { OfRankAbove(b, ra); }
      assert ra == rb;
      assert a[m] == b[n] by {
        assert OfRank(a, ra)[|OfRank(a, ra)| - 1] == a[m];
        assert OfRank(b, ra)[|OfRank(b, ra)| - 1] == b[n];
      }
      forall rank ensures OfRank(a[..m], rank) == OfRank(b[..n], rank) {
        var tail := if rank == ra then [a[m]] else [];
        assert OfRank(a, rank) == OfRank(a[..m], rank) + tail;
        assert OfRank(b, rank) == OfRank(b[..n], rank) + tail;
        var x, y := OfRank(a[..m], rank), OfRank(b[..n], rank);
        assert x == (x + tail)[..|x|] && y == (y + tail)[..|y|];
      }
      StableOrderUnique(a[..m], b[..n]);
      assert a == a[..m] + [a[m]] && b == b[..n] + [b[n]];
    }
  }

  lemma LastOfRank(names: seq<string>)
    requires names != []
    ensures OfRank(names, ProcessorRank(names[|names| - 1])) != []
  {}

  lemma {:induction false} OfRankAbove(names: seq<string>, rank: int)
    requires Ranked(names) && names != [] && ProcessorRank(names[|names| - 1]) < rank
    ensures OfRank(names, rank) == []
  {
    if |names| > 1 { OfRankAbove(names[..|names| - 1], rank); }
  }

  /** What the normaliser puts in the place of a component list. */
  function NormalNames(field: string, values: seq<string>): seq<string> {
    if field == "processors" then SortProcessors(Unique(values)) else Unique(values)
  }

  lemma UniqueSnoc(names: seq<string>, x: string)
    requires x != "" && Trimmed(x)
    ensures Unique(names + [x]) == if x in Unique(names) then Unique(names) else Unique(names) + [x]
  {
    hide TrimSpace;
    TrimTrimmed(x);
    assert (names + [x])[..|names|] == names;
  }

  lemma {:induction false} UniqueFixed(names: seq<string>)
    requires forall x :: x in names ==> x != "" && Trimmed(x)
    requires AllDistinct(names)
    ensures Unique(names) == names
  {
    hide TrimSpace, Trimmed;
    if names != [] {
      hide Unique;
      var n := |names| - 1;
      var init, x := names[..n], names[n];
      assert names == init + [x];
      assert x in names && forall y :: y in init ==> y in names;
      assert x !in init;
      UniqueFixed(init);
      UniqueSnoc(init, x);
    }
  }

  lemma SortFixed(names: seq<string>)
    requires Ranked(names)
    ensures SortProcessors(names) == names
  {
    forall rank ensures OfRank(SortProcessors(names), rank) == OfRank(names, rank) { SortIsStable(names, rank); }
    SortIsStable(names, 0);
    StableOrderUnique(SortProcessors(names), names);
  }

  lemma DistinctPermuted(a: seq<string>, b: seq<string>)
    requires multiset(a) == multiset(b) && AllDistinct(b)
    ensures AllDistinct(a)
  {
    forall i, j | 0 <= i < j < |a| ensures a[i] != a[j] {
      if a[i] == a[j] {
        OccursTwice(a, i, j);
        OccursOnce(b, a[i]);
      }
    }
  }

  lemma OccursTwice(a: seq<string>, i: nat, j: nat)
    requires i < j < |a| && a[i] == a[j]
    ensures multiset(a)[a[i]] >= 2
  {
    assert a == a[..i + 1] + a[i + 1..];
    assert a[i] in a[..i + 1] && a[j] == a[i + 1..][j - i - 1];
    assert multiset(a) == multiset(a[..i + 1]) + multiset(a[i + 1..]);
    assert multiset(a[..i + 1])[a[i]] >= 1 && multiset(a[i + 1..])[a[i]] >= 1;
  }

  lemma OccursOnce(b: seq<string>, x: string)
    requires AllDistinct(b)
    ensures multiset(b)[x] <= 1
  {
    if b != [] {
      OccursOnce(b[1..], x);
      assert b == [b[0]] + b[1..];
      if b[0] == x { assert x !in b[1..]; assert multiset(b[1..])[x] == 0; }
    }
  }

  /** What a normal list is: the names mentioned, each once, and for processors ranked. */
  lemma NormalNamesAre(field: string, values: seq<string>, name: string)
    ensures var r := NormalNames(field, values);
            && (name in r <==> name != "" && Mentions(values, name))
            && AllDistinct(r)
            && (field == "processors" ==> Ranked(r))
  {
    hide TrimSpace;
    UniqueHas(values, name);
    if field == "processors" {
      var u, s := Unique(values), SortProcessors(Unique(values));
      SortIsStable(u, 0);
      DistinctPermuted(s, u);
      assert name in s <==> name in multiset(s);
      assert name in u <==> name in multiset(u);
    }
  }

  /** Normalising a normal list again changes nothing. */
  lemma NormalNamesIdempotent(field: string, values: seq<string>)
    ensures NormalNames(field, NormalNames(field, values)) == NormalNames(field, values)
  {
    hide TrimSpace;
    var r := NormalNames(field, values);
    forall x | x in r ensures x != "" && Trimmed(x) {
      NormalNamesAre(field, values, x);
    }
    NormalNamesAre(field, values, "");
    UniqueFixed(r);
    if field == "processors" { SortFixed(r); }
  }

  /** Appending values that are already there changes nothing. */
  lemma {:induction false} UniqueAbsorbs(values: seq<string>, more: seq<string>)
    requires forall v :: v in more ==> v in values
    ensures Unique(values + more) == Unique(values)
  {
    hide TrimSpace;
    if more == [] {
      assert values + more == values;
    } else {
      var n := |more| - 1;
      UniqueAbsorbs(values, more[..n]);
      assert (values + more)[..|values| + n] == values + more[..n];
      assert more[n] in more;
      UniqueHas(values, TrimSpace(more[n]));
    }
  }

  // ---------- The configuration tree ----------

  function Value(t: Tree, key: string): Option<Tree> {
    if t.Mapping? then
      var i := Find(t.entries, key);
      if i < |t.entries| then Some(t.entries[i].value) else None
    else None
  }

  /** The tree with another value at the first entry called `key`. */
  function SetValue(t: Tree, key: string, v: Tree): Tree
    requires Value(t, key).Some?
  {
    var i := Find(t.entries, key);
    t.(entries := t.entries[i := t.entries[i].(value := v)])
  }

  lemma ValueOfSet(t: Tree, key: string, v: Tree, other: string)
    requires Value(t, key).Some?
    ensures Value(SetValue(t, key, v), other) == if other == key then Some(v) else Value(t, other)
    ensures Value(SetValue(t, key, v), key) == Some(v) && SetValue(SetValue(t, key, v), key, v) == SetValue(t, key, v)
  {
    FindAfterSet(t.entries, Find(t.entries, key), v, other);
    FindAfterSet(t.entries, Find(t.entries, key), v, key);
  }

  lemma FindAfterSet(es: seq<Entry>, i: nat, v: Tree, name: string)
    requires i < |es|
    ensures Find(es[i := es[i].(value := v)], name) == Find(es, name)
  {
    SameNames(es, es[i := es[i].(value := v)], name);
  }

  lemma {:induction false} SameNames(es: seq<Entry>, ds: seq<Entry>, name: string)
    requires |es| == |ds| && forall i :: 0 <= i < |es| ==> es[i].Name() == ds[i].Name()
    ensures Find(es, name) == Find(ds, name)
  {
    if es != [] { SameNames(es[1..], ds[1..], name); }
  }

  function Values(items: seq<Tree>): (r: seq<string>)
    ensures |r| == |items|
  {
    seq(|items|, i requires 0 <= i < |items| => items[i].head.value)
  }

  function ScalarNodes(names: seq<string>): (r: seq<Tree>)
    ensures |r| == |names|
  {
    seq(|names|, i requires 0 <= i < |names| => Scalar(Head(names[i], "!!str")))
  }

  lemma ScalarNodesValues(names: seq<string>)
    ensures Values(ScalarNodes(names)) == names
  {}

  function NormalizeField(pipeline: Tree, field: string): Tree {
    match Value(pipeline, field)
    case Some(Sequence(h, items)) =>
      SetValue(pipeline, field, Sequence(h, ScalarNodes(NormalNames(field, Values(items)))))
    case _ => pipeline
  }

  function NormalizePipeline(pipeline: Tree): Tree {
    if pipeline.Mapping? then
      NormalizeField(NormalizeField(NormalizeField(pipeline, "receivers"), "processors"), "exporters")
    else pipeline
  }

  function NormalizePipelines(es: seq<Entry>): (r: seq<Entry>)
    ensures |r| == |es|
    ensures forall i :: 0 <= i < |es| ==> r[i] == es[i].(value := NormalizePipeline(es[i].value))
  {
    seq(|es|, i requires 0 <= i < |es| => es[i].(value := NormalizePipeline(es[i].value)))
  }

  /** The whole configuration with its pipelines normalised; without pipelines it is left alone. */
  function Normalize(root: Tree): Tree {
    match Value(root, "service")
    case None => root
    case Some(service) =>
      match Value(service, "pipelines")
      case Some(Mapping(h, es)) =>
        SetValue(root, "service", SetValue(service, "pipelines", Mapping(h, NormalizePipelines(es))))
      case _ => root
  }

  lemma NormalizeFieldKeeps(p: Tree, field: string, other: string)
    ensures Value(NormalizeField(p, field), other) ==
      match Value(p, other)
      case Some(Sequence(h, items)) =>
        if other == field then Some(Sequence(h, ScalarNodes(NormalNames(field, Values(items)))))
        else Value(p, other)
      case _ => Value(p, other)
  {
    match Value(p, field)
    case Some(Sequence(h, items)) =>
      ValueOfSet(p, field, Sequence(h, ScalarNodes(NormalNames(field, Values(items)))), other);
    case _ =>
  }

  predicate Component(field: string) { field == "receivers" || field == "processors" || field == "exporters" }

  predicate FieldNormal(p: Tree, field: string) {
    match Value(p, field)
    case Some(Sequence(_, items)) => items == ScalarNodes(NormalNames(field, Values(items)))
    case _ => true
  }

  lemma FieldNormalFixed(p: Tree, field: string)
    ensures NormalizeField(p, field) == p <==> FieldNormal(p, field)
  {
    match Value(p, field)
    case Some(Sequence(h, items)) =>
      var v := Sequence(h, ScalarNodes(NormalNames(field, Values(items))));
      ValueOfSet(p, field, v, field);
      if FieldNormal(p, field) {
        var i := Find(p.entries, field);
        assert p.entries[i := p.entries[i].(value := v)] == p.entries;
      }
    case _ =>
  }

  lemma FieldBecomesNormal(p: Tree, field: string, other: string)
    requires FieldNormal(p, other) || field == other
    ensures FieldNormal(NormalizeField(p, field), other)
  {
    NormalizeFieldKeeps(p, field, other);
    match Value(p, other)
    case Some(Sequence(h, items)) =>
      NormalNamesIdempotent(field, Values(items));
      ScalarNodesValues(NormalNames(field, Values(items)));
    case _ =>
  }

  lemma NormalizePipelineIdempotent(p: Tree)
    ensures NormalizePipeline(NormalizePipeline(p)) == NormalizePipeline(p)
  {
    if p.Mapping? {
      var r := NormalizeField(p, "receivers");
      var s := NormalizeField(r, "processors");
      var t := NormalizeField(s, "exporters");
      FieldBecomesNormal(p, "receivers", "receivers");
      FieldBecomesNormal(r, "processors", "receivers"); FieldBecomesNormal(r, "processors", "processors");
      FieldBecomesNormal(s, "exporters", "receivers"); FieldBecomesNormal(s, "exporters", "processors");
      FieldBecomesNormal(s, "exporters", "exporters");
      FieldNormalFixed(t, "receivers"); FieldNormalFixed(t, "processors"); FieldNormalFixed(t, "exporters");
    }
  }

  /** Normalising a normalised configuration changes nothing. */
  lemma NormalizeIdempotent(root: Tree)
    ensures Normalize(Normalize(root)) == Normalize(root)
  {
    match Value(root, "service")
    case None =>
    case Some(service) =>
      match Value(service, "pipelines")
      case Some(Mapping(h, es)) =>
        var ns := NormalizePipelines(es);
        forall i | 0 <= i < |es| ensures NormalizePipelines(ns)[i] == ns[i] {
          NormalizePipelineIdempotent(es[i].value);
        }
        assert NormalizePipelines(ns) == ns;
        var service' := SetValue(service, "pipelines", Mapping(h, ns));
        ValueOfSet(service, "pipelines", Mapping(h, ns), "pipelines");
        ValueOfSet(root, "service", service', "service");
      case _ =>
  }

  // ---------- Merging a patch twice ----------

  function At(t: Tree, path: seq<string>): Option<Tree> {
    if path == [] then Some(t) else
      match Value(t, path[0])
      case None => None
      case Some(v) => At(v, path[1..])
  }

  function Step(t: Option<Tree>, key: string): Option<Tree> {
    match t
    case None => None
    case Some(v) => Value(v, key)
  }

  /** What the configuration has under one field of one pipeline. */
  function ComponentList(t: Tree, pipeline: string, field: string): Option<Tree> {
    Step(Step(Step(Value(t, "service"), "pipelines"), pipeline), field)
  }

  /** The values listed there, if it is a list. */
  function Listed(t: Tree, pipeline: string, field: string): Option<seq<string>> {
    match ComponentList(t, pipeline, field)
    case Some(Sequence(_, items)) => Some(Values(items))
    case _ => None
  }

  lemma ValueOfMerge(b: Tree, p: Tree, key: string)
    requires p.Mapping? && WellKeyed(p) && WellKeyed(b)
    ensures Merge(b, p).Mapping?
    ensures Value(Merge(b, p), key) ==
      match (Value(b, key), Value(p, key))
      case (Some(v), Some(w)) => Some(Merge(v, w))
      case (None, w) => w
      case (v, None) => v
  {
    if b.Mapping? {
      MergeMappings(b, p);
      FindMerged(b.entries, p.entries, key);
    }
  }

  function MergeMaybe(b: Option<Tree>, p: Tree): Tree {
    match b
    case None => p
    case Some(t) => Merge(t, p)
  }

  ghost predicate WellKeyedMaybe(b: Option<Tree>) { b.Some? ==> WellKeyed(b.value) }

  ghost predicate SaidAgain(items: seq<Tree>, more: seq<Tree>, again: int) {
    0 <= again <= |items| && more == items + items[|items| - again..]
  }

  /** `more` is `once`, or a sequence that repeats values `once` ends with. */
  ghost predicate Repeats(once: Option<Tree>, more: Option<Tree>) {
    match once
    case Some(Sequence(h, items)) =>
      && more.Some? && more.value.Sequence?
      && exists again :: SaidAgain(items, more.value.items, again)
    case _ => more.Some? ==> !more.value.Sequence?
  }

  lemma RepeatsItself(t: Option<Tree>)
    ensures Repeats(t, t)
  {
    match t
    case Some(Sequence(h, items)) => assert SaidAgain(items, items, 0);
    case _ =>
  }

  /** Along every path, merging a patch a second time at most repeats the patch's own list. */
  lemma {:induction false} MergeTwiceAt(b: Option<Tree>, p: Tree, path: seq<string>)
    requires WellKeyedMaybe(b) && WellKeyed(p)
    ensures var q := MergeMaybe(b, p); Repeats(At(q, path), At(Merge(q, p), path))
    decreases |path|
  {
    var q := MergeMaybe(b, p);
    if path == [] {
      if p.Sequence? {
        assert SaidAgain(q.items, Merge(q, p).items, |p.items|);
      }
    } else if p.Mapping? {
      var key := path[0];
      assert WellKeyed(q) by { if b.Some? { MergeWellKeyed(b.value, p); } }
      ValueOfMerge(q, p, key);
      if b.Some? { ValueOfMerge(b.value, p, key); }
      if Value(p, key).Some? {
        var below := if b.Some? then Value(b.value, key) else None;
        MergeTwiceAt(below, Value(p, key).value, path[1..]);
      } else {
        RepeatsItself(At(q, path));
      }
    }
  }

  function NormalList(field: string, list: Option<Tree>): Option<Tree> {
    match list
    case Some(Sequence(h, items)) => Some(Sequence(h, ScalarNodes(NormalNames(field, Values(items)))))
    case v => v
  }

  lemma ComponentListNormal(t: Tree, pipeline: string, field: string)
    requires Component(field)
    ensures ComponentList(Normalize(t), pipeline, field) == NormalList(field, ComponentList(t, pipeline, field))
  {
    hide NormalList, SetValue, NormalizePipeline, Find;
    NormalListNone(field);
    match Value(t, "service")
    case None =>
    case Some(service) =>
      match Value(service, "pipelines")
      case Some(Mapping(h, es)) =>
        var ns := NormalizePipelines(es);
        var service' := SetValue(service, "pipelines", Mapping(h, ns));
        ValueOfSet(service, "pipelines", Mapping(h, ns), "pipelines");
        ValueOfSet(t, "service", service', "service");
        SameNames(es, ns, pipeline);
        var i := Find(es, pipeline);
        if i < |es| { FieldOfPipeline(es[i].value, field); }
      case Some(other) =>
        assert Value(other, pipeline) == None;
      case None =>
  }

  lemma NormalListNone(field: string)
    ensures NormalList(field, None) == None
  {}

  lemma ListedNormal(t: Tree, pipeline: string, field: string)
    requires Component(field)
    ensures Listed(Normalize(t), pipeline, field) ==
      match Listed(t, pipeline, field)
      case Some(values) => Some(NormalNames(field, values))
      case None => None
  {
    hide NormalNames, Values, ScalarNodes, ComponentList, Normalize;
    ComponentListNormal(t, pipeline, field);
    match ComponentList(t, pipeline, field)
    case Some(Sequence(h, items)) => ScalarNodesValues(NormalNames(field, Values(items)));
    case _ =>
  }

  lemma FieldOfPipeline(p: Tree, field: string)
    requires Component(field)
    ensures Value(NormalizePipeline(p), field) == NormalList(field, Value(p, field))
  {
    hide NormalizeField, NormalNames, Values, ScalarNodes, Find;
    if p.Mapping? {
      var r := NormalizeField(p, "receivers");
      var s := NormalizeField(r, "processors");
      NormalizeFieldKeeps(p, "receivers", field);
      NormalizeFieldKeeps(r, "processors", field);
      NormalizeFieldKeeps(s, "exporters", field);
    }
  }

  lemma AtPath(t: Tree, pipeline: string, field: string)
    ensures At(t, ["service", "pipelines", pipeline, field]) == ComponentList(t, pipeline, field)
  {
    hide At, Value;
    AtCons(t, ["service", "pipelines", pipeline, field], "service", ["pipelines", pipeline, field]);
    match Value(t, "service")
    case None =>
    case Some(service) =>
      AtCons(service, ["pipelines", pipeline, field], "pipelines", [pipeline, field]);
      match Value(service, "pipelines")
      case None =>
      case Some(pipelines) =>
        AtCons(pipelines, [pipeline, field], pipeline, [field]);
        match Value(pipelines, pipeline)
        case None =>
        case Some(p) => AtCons(p, [field], field, []);
  }

  lemma AtCons(t: Tree, path: seq<string>, key: string, rest: seq<string>)
    requires path == [key] + rest
    ensures At(t, path) == if Value(t, key).Some? then At(Value(t, key).value, rest) else None
    ensures rest == [] ==> At(t, path) == Value(t, key)
  {
    assert path[1..] == rest;
  }

  /** Applying a patch twice lists the same receivers, processors and exporters as applying it once. */
  lemma MergeTwiceNormalizesOnce(b: Tree, p: Tree, pipeline: string, field: string)
    requires WellKeyed(b) && WellKeyed(p) && Component(field)
    ensures Listed(Normalize(Merge(Merge(b, p), p)), pipeline, field) == Listed(Normalize(Merge(b, p)), pipeline, field)
  {
    hide Unique, SortProcessors, Normalize, ComponentList, At, Merge, WellKeyed;
    var q := Merge(b, p);
    MergeTwiceAt(Some(b), p, ["service", "pipelines", pipeline, field]);
    AtPath(q, pipeline, field); AtPath(Merge(q, p), pipeline, field);
    ListedNormal(q, pipeline, field);
    ListedNormal(Merge(q, p), pipeline, field);
    match ComponentList(q, pipeline, field)
    case Some(Sequence(h, items)) => RepeatedList(items, ComponentList(Merge(q, p), pipeline, field).value.items);
    case _ =>
  }

  lemma RepeatedList(items: seq<Tree>, more: seq<Tree>)
    requires exists again :: SaidAgain(items, more, again)
    ensures Unique(Values(more)) == Unique(Values(items))
  {
    hide Unique;
    var again :| SaidAgain(items, more, again);
    var tail := items[|items| - again..];
    assert Values(more) == Values(items) + Values(tail);
    forall v | v in Values(tail) ensures v in Values(items) {
      var i :| 0 <= i < |tail| && Values(tail)[i] == v;
      assert Values(items)[|items| - again + i] == v;
    }
    UniqueAbsorbs(Values(items), Values(tail));
  }

  // ---------- Where each processor ends up ----------

  /** The names the sort does not know. */
  predicate Unknown(name: string) {
    name !in {"memory_limiter", "k8sattributes", "batch"} && !("filter/" <= name) && !("transform/" <= name)
  }

  /** `later` may stand after `earlier` in a normal list of processors: the memory limiter is first, then come the attributes, the
      filters, the enriching, the parsing and the other transforms, then everything unknown, and the batch is last. */
  predicate InChainOrder(earlier: string, later: string) {
    && later != "memory_limiter" && earlier != "batch"
    && (later == "k8sattributes" ==> earlier == "memory_limiter")
    && ("filter/" <= later ==> earlier in {"memory_limiter", "k8sattributes"} || "filter/" <= earlier)
    && ("transform/enrich" <= later ==>
          earlier in {"memory_limiter", "k8sattributes"} || "filter/" <= earlier || "transform/enrich" <= earlier)
    && ("transform/parser" <= later ==>
          earlier in {"memory_limiter", "k8sattributes"} || "filter/" <= earlier || "transform/enrich" <= earlier
          || "transform/parser" <= earlier)
    && ("transform/" <= later ==> earlier in {"memory_limiter", "k8sattributes"} || "filter/" <= earlier || "transform/" <= earlier)
  }

  lemma RankOrder(a: string, b: string)
    requires ProcessorRank(a) <= ProcessorRank(b) && a != b
    ensures InChainOrder(a, b)
  {
    assert "transform/enrich"[..10] == "transform/" && "transform/parser"[..10] == "transform/";
    assert "transform/enrich" <= a || "transform/parser" <= a ==> "transform/" <= a;
    assert "transform/enrich" <= b || "transform/parser" <= b ==> "transform/" <= b;
    assert "filter/"[0] == 'f' && "transform/"[0] == 't' && "memory_limiter"[0] == 'm' && "k8sattributes"[0] == 'k' && "batch"[0] == 'b';
    assert "transform/enrich"[10] == 'e' && "transform/parser"[10] == 'p';
  }

  /** In every pipeline of a normalised configuration the memory limiter is first, then come the attributes, the filters, the
      enriching, the parsing and the other transforms, then everything the sort does not know, and the batch is last. */
  lemma ProcessorsInOrder(t: Tree, pipeline: string, i: nat, j: nat)
    requires Listed(Normalize(t), pipeline, "processors").Some?
    requires i < j < |Listed(Normalize(t), pipeline, "processors").value|
    ensures var names := Listed(Normalize(t), pipeline, "processors").value;
            var earlier, later := names[i], names[j];
            && later != "memory_limiter" && earlier != "batch"
            && (later == "k8sattributes" ==> earlier == "memory_limiter")
            && ("filter/" <= later ==> earlier in {"memory_limiter", "k8sattributes"} || "filter/" <= earlier)
            && ("transform/enrich" <= later ==>
                  earlier in {"memory_limiter", "k8sattributes"} || "filter/" <= earlier || "transform/enrich" <= earlier)
            && ("transform/parser" <= later ==>
                  earlier in {"memory_limiter", "k8sattributes"} || "filter/" <= earlier || "transform/enrich" <= earlier
                  || "transform/parser" <= earlier)
            && ("transform/" <= later ==> earlier in {"memory_limiter", "k8sattributes"} || "filter/" <= earlier || "transform/" <= earlier)
  {
    hide Normalize, Listed, NormalNames, ProcessorRank;
    ListedNormal(t, pipeline, "processors");
    var names := Listed(Normalize(t), pipeline, "processors").value;
    var values := Listed(t, pipeline, "processors").value;
    NormalNamesAre("processors", values, "");
    RankOrder(names[i], names[j]);
  }

  /** Those the order does not tell apart stay as they were: the unknown ones, and those of each kind of filter or transform. */
  lemma ProcessorsKeepOrder(t: Tree, pipeline: string)
    requires Listed(t, pipeline, "processors").Some?
    ensures Listed(Normalize(t), pipeline, "processors").Some?
    ensures var names, before := Listed(Normalize(t), pipeline, "processors").value, Unique(Listed(t, pipeline, "processors").value);
            && Sorting.OfClass(names, name => Unknown(name)) == Sorting.OfClass(before, name => Unknown(name))
            && Sorting.OfClass(names, name => "filter/" <= name) == Sorting.OfClass(before, name => "filter/" <= name)
            && Sorting.OfClass(names, name => "transform/enrich" <= name) == Sorting.OfClass(before, name => "transform/enrich" <= name)
            && Sorting.OfClass(names, name => "transform/parser" <= name) == Sorting.OfClass(before, name => "transform/parser" <= name)
            && Sorting.OfClass(names, name => OtherTransform(name)) == Sorting.OfClass(before, name => OtherTransform(name))
  {
    hide Normalize, Listed, Unique, ProcessorRank, Unknown, OtherTransform;
    ListedNormal(t, pipeline, "processors");
    var before := Unique(Listed(t, pipeline, "processors").value);
    ClassesRanked();
    Sorting.SortByIsStable(before, RankAtMost, name => Unknown(name));
    Sorting.SortByIsStable(before, RankAtMost, name => "filter/" <= name);
    Sorting.SortByIsStable(before, RankAtMost, name => "transform/enrich" <= name);
    Sorting.SortByIsStable(before, RankAtMost, name => "transform/parser" <= name);
    Sorting.SortByIsStable(before, RankAtMost, name => OtherTransform(name));
  }

  predicate OtherTransform(name: string) {
    "transform/" <= name && !("transform/enrich" <= name) && !("transform/parser" <= name)
  }

  lemma ClassesRanked()
    ensures forall a, b :: Unknown(a) && Unknown(b) ==> RankAtMost(a, b)
    ensures forall a: string, b: string :: "filter/" <= a && "filter/" <= b ==> RankAtMost(a, b)
    ensures forall a: string, b: string :: "transform/enrich" <= a && "transform/enrich" <= b ==> RankAtMost(a, b)
    ensures forall a: string, b: string :: "transform/parser" <= a && "transform/parser" <= b ==> RankAtMost(a, b)
    ensures forall a, b :: OtherTransform(a) && OtherTransform(b) ==> RankAtMost(a, b)
  {
    forall a: string ensures "filter/" <= a ==> ProcessorRank(a) == 30 {
      assert "filter/"[0] == 'f' && "memory_limiter"[0] == 'm' && "k8sattributes"[0] == 'k';
    }
    forall a: string
      ensures "transform/enrich" <= a ==> ProcessorRank(a) == 40
      ensures "transform/parser" <= a ==> ProcessorRank(a) == 50
      ensures OtherTransform(a) ==> ProcessorRank(a) == 60
    {
      TransformRank(a);
    }
    forall a ensures Unknown(a) ==> ProcessorRank(a) == 70 {
      assert "transform/enrich"[..10] == "transform/" && "transform/parser"[..10] == "transform/";
    }
  }

  lemma TransformRank(a: string)
    ensures "transform/enrich" <= a ==> ProcessorRank(a) == 40
    ensures "transform/parser" <= a ==> ProcessorRank(a) == 50
    ensures OtherTransform(a) ==> ProcessorRank(a) == 60
  {
    assert "filter/"[0] == 'f' && "transform/"[0] == 't' && "memory_limiter"[0] == 'm' && "k8sattributes"[0] == 'k';
    assert "transform/enrich"[0] == 't' && "transform/parser"[0] == 't';
    assert "transform/enrich"[10] == 'e' && "transform/parser"[10] == 'p';
  }

  // ---------- What normalising leaves alone ----------

  /** Outside the receivers, processors and exporters of the pipelines nothing is touched, along whatever path; and what is no
      list stays as it is there too. */
  lemma NormalizeElsewhere(t: Tree, path: seq<string>)
    requires path != [] && (path[0] != "service" || (|path| > 1 && path[1] != "pipelines"))
    ensures At(Normalize(t), path) == At(t, path)
  {
    hide NormalizePipelines, Find;
    match Value(t, "service")
    case None =>
    case Some(service) =>
      match Value(service, "pipelines")
      case Some(Mapping(h, es)) =>
        var service' := SetValue(service, "pipelines", Mapping(h, NormalizePipelines(es)));
        ValueOfSet(t, "service", service', path[0]);
        if path[0] == "service" {
          ValueOfSet(service, "pipelines", Mapping(h, NormalizePipelines(es)), path[1]);
        }
      case _ =>
  }

  lemma PipelineElsewhere(t: Tree, pipeline: string, field: string)
    requires field !in {"receivers", "processors", "exporters"}
    ensures At(Normalize(t), ["service", "pipelines", pipeline, field]) == At(t, ["service", "pipelines", pipeline, field])
  {
    hide SetValue, NormalizePipeline, Find, At;
    AtPath(t, pipeline, field);
    AtPath(Normalize(t), pipeline, field);
    match Value(t, "service")
    case None =>
    case Some(service) =>
      match Value(service, "pipelines")
      case Some(Mapping(h, es)) =>
        var ns := NormalizePipelines(es);
        ValueOfSet(service, "pipelines", Mapping(h, ns), "pipelines");
        ValueOfSet(t, "service", SetValue(service, "pipelines", Mapping(h, ns)), "service");
        SameNames(es, ns, pipeline);
        var i := Find(es, pipeline);
        if i < |es| { OtherField(es[i].value, field); }
      case Some(other) =>
        assert Value(other, pipeline) == None;
      case None =>
  }

  lemma OtherField(p: Tree, field: string)
    requires field !in {"receivers", "processors", "exporters"}
    ensures Value(NormalizePipeline(p), field) == Value(p, field)
  {
    hide NormalizeField, NormalNames, Values, ScalarNodes, Find;
    if p.Mapping? {
      var r := NormalizeField(p, "receivers");
      var s := NormalizeField(r, "processors");
      NormalizeFieldKeeps(p, "receivers", field);
      NormalizeFieldKeeps(r, "processors", field);
      NormalizeFieldKeeps(s, "exporters", field);
    }
  }
}
