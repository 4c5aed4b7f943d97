/** The linked YAML nodes the renderer works on, and its in-place merge.  Every method is tied to
    the pure tree its nodes denote: `node.Holds(t)` says that `node` is the root of a tree of
    nodes, shared with nothing, that denotes `t`. */
module YamlNodes {
  import opened YamlTree

  datatype Kind = ScalarNode | SequenceNode | MappingNode

  function KindOf(t: Tree): Kind {
    match t
    case Scalar(_) => ScalarNode
    case Sequence(_, _) => SequenceNode
    case Mapping(_, _) => MappingNode
  }

  /** The children of a node in the order a node keeps them: a mapping alternates keys and values. */
  function Children(t: Tree): seq<Tree> {
    match t
    case Scalar(_) => []
    case Sequence(_, items) => items
    case Mapping(_, es) => Flatten(es)
  }

  function Flatten(es: seq<Entry>): (r: seq<Tree>)
    ensures |r| == 2 * |es|
  {
    seq(2 * |es|, i requires 0 <= i < 2 * |es| => if i % 2 == 0 then es[i / 2].key else es[i / 2].value)
  }

  lemma FlattenAt(es: seq<Entry>, i: nat)
    requires i < |es|
    ensures Flatten(es)[2 * i] == es[i].key && Flatten(es)[2 * i + 1] == es[i].value
  {}

  lemma FlattenSnoc(es: seq<Entry>, e: Entry)
    ensures Flatten(es + [e]) == Flatten(es) + [e.key, e.value]
  {}

  lemma FlattenUpdate(es: seq<Entry>, i: nat, v: Tree)
    requires i < |es|
    ensures Flatten(es[i := es[i].(value := v)]) == Flatten(es)[2 * i + 1 := v]
  {}

  class Node {
    var kind: Kind
    var head: Head
    var content: seq<Node>
    ghost var repr: set<Node>

    constructor (kind: Kind, head: Head)
      ensures this.kind == kind && this.head == head && content == [] && repr == {this}
    {
      this.kind, this.head, content, repr := kind, head, [], {this};
    }

    ghost predicate Holds(t: Tree)
      reads this, repr
      ensures Holds(t) ==> this in repr
      decreases repr
    {
      && this in repr
      && kind == KindOf(t) && head == t.head
      && |content| == |Children(t)|
      && (forall c :: c in content ==> c in repr && c.repr <= repr && this !in c.repr)
      && (forall i, j :: 0 <= i < j < |content| ==> content[i].repr !! content[j].repr)
      && (forall i :: 0 <= i < |content| ==> content[i].Holds(Children(t)[i]))
    }

    /** The keys in this mapping node's content. */
    ghost predicate NamesAre(es: seq<Entry>)
      reads this, content
    {
      && |content| == 2 * |es|
      && forall i :: 0 <= i < |es| ==> content[2 * i].head.value == es[i].Name()
    }
  }

  /** Some nodes side by side that hold some trees. */
  ghost predicate AllHold(nodes: seq<Node>, ts: seq<Tree>, within: set<Node>)
    reads within
  {
    && |nodes| == |ts|
    && (forall c :: c in nodes ==> c in within && c.repr <= within)
    && (forall i, j :: 0 <= i < j < |nodes| ==> nodes[i].repr !! nodes[j].repr)
    && (forall i :: 0 <= i < |nodes| ==> nodes[i].Holds(ts[i]))
  }

  lemma AllHoldConcat(xs: seq<Node>, ts: seq<Tree>, within: set<Node>, ys: seq<Node>, us: seq<Tree>, more: set<Node>)
    requires AllHold(xs, ts, within) && AllHold(ys, us, more) && within !! more
    ensures AllHold(xs + ys, ts + us, within + more)
  {
    var all, both := xs + ys, within + more;
    forall i | 0 <= i < |all|
      ensures all[i] in both && all[i].repr <= (if i < |xs| then within else more) && all[i].Holds((ts + us)[i])
    {
      if i < |xs| { assert xs[i] in xs; } else { assert ys[i - |xs|] in ys; }
    }
    forall i, j | 0 <= i < j < |all| ensures all[i].repr !! all[j].repr {
      if j < |xs| { assert xs[i].repr !! xs[j].repr; }
      else if i >= |xs| { assert ys[i - |xs|].repr !! ys[j - |xs|].repr; }
    }
  }

  /** What is below the root of a tree of nodes, and back. */
  lemma Below(n: Node, t: Tree)
    requires n.Holds(t)
    ensures n in n.repr && n.kind == KindOf(t) && n.head == t.head
    ensures AllHold(n.content, Children(t), n.repr - {n})
  {}

  lemma Assemble(n: Node, t: Tree, within: set<Node>)
    requires AllHold(n.content, Children(t), within) && n !in within && n.repr == {n} + within
    requires n.kind == KindOf(t) && n.head == t.head
    ensures n.Holds(t)
  {}

  /** Replacing the tree of one of some nodes that lie side by side. */
  lemma AllHoldUpdate(nodes: seq<Node>, ts: seq<Tree>, within: set<Node>, n: nat, t: Tree)
    requires n < |nodes| == |ts| && nodes[n].Holds(t)
    requires forall k :: 0 <= k < |nodes| ==> nodes[k] in within
    requires forall k :: 0 <= k < |nodes| && k != n ==>
               nodes[k].repr <= within && nodes[k].Holds(ts[k]) && nodes[k].repr !! nodes[n].repr
    requires forall i, j :: 0 <= i < j < |nodes| && i != n && j != n ==> nodes[i].repr !! nodes[j].repr
    ensures AllHold(nodes, ts[n := t], within + nodes[n].repr)
  {
    forall k | 0 <= k < |nodes| ensures nodes[k].repr <= within + nodes[n].repr {}
  }

  /** A copy made of new nodes only. */
  method Clone(node: Node, ghost t: Tree) returns (cloned: Node)
    requires node.Holds(t)
    ensures cloned.Holds(t) && fresh(cloned.repr)
    decreases node.repr, 1
  {
    cloned := new Node(node.kind, node.head);
    Below(node, t);
    var copies, within := CloneChildren(node.content, Children(t), node.repr - {node});
    cloned.content := copies;
    cloned.repr := {cloned} + within;
    Assemble(cloned, t, within);
  }

  method CloneChildren(nodes: seq<Node>, ghost ts: seq<Tree>, ghost bound: set<Node>)
    returns (out: seq<Node>, ghost within: set<Node>)
    requires |nodes| == |ts| && AllHold(nodes, ts, bound)
    ensures AllHold(out, ts, within) && fresh(within)
    decreases bound, 2
  {
    hide Node.Holds, AllHold;
    out, within := [], {};
    AllHoldNone();
    for i := 0 to |nodes|
      invariant AllHold(out, ts[..i], within) && fresh(within)
      invariant AllHold(nodes, ts, bound)
    {
      Apart(nodes, ts, bound, i);
      var c := Clone(nodes[i], ts[i]);
      assert AllHold(out, ts[..i], within) && within !! c.repr;
      AllHoldOne(c, ts[i]);
      AllHoldConcat(out, ts[..i], within, [c], [ts[i]], c.repr);
      assert ts[..i + 1] == ts[..i] + [ts[i]];
      out, within := out + [c], within + c.repr;
    }
    assert ts[..|nodes|] == ts;
  }

  /** A mapping's content, pair by pair. */
  lemma PairAt(n: Node, t: Tree, i: nat)
    requires n.Holds(t) && t.Mapping? && i < |t.entries|
    ensures |n.content| == 2 * |t.entries|
    ensures n.content[2 * i].Holds(t.entries[i].key) && n.content[2 * i].head.value == t.entries[i].Name()
    ensures n.content[2 * i + 1].Holds(t.entries[i].value)
    ensures n.content[2 * i].repr < n.repr && n.content[2 * i + 1].repr < n.repr
  {
    FlattenAt(t.entries, i);
    assert n.content[2 * i].Holds(Children(t)[2 * i]);
    assert n.content[2 * i + 1].Holds(Children(t)[2 * i + 1]);
    assert n.content[2 * i] in n.content && n.content[2 * i + 1] in n.content;
  }

  lemma Named(n: Node, t: Tree)
    requires n.Holds(t) && t.Mapping?
    ensures n.NamesAre(t.entries)
  {
    forall i | 0 <= i < |t.entries| ensures n.content[2 * i].head.value == t.entries[i].Name() {
      PairAt(n, t, i);
    }
  }

  lemma FindIs(es: seq<Entry>, name: string, at: nat)
    requires at <= |es| && (at < |es| ==> es[at].Name() == name)
    requires forall j :: 0 <= j < at ==> es[j].Name() != name
    ensures Find(es, name) == at
  {}

  /** The value node of the first entry called `key`, or null. */
  method MappingValue(node: Node, key: string, ghost es: seq<Entry>) returns (found: Node?, ghost at: nat)
    requires node.kind == MappingNode ==> node.NamesAre(es)
    ensures node.kind != MappingNode ==> found == null
    ensures node.kind == MappingNode ==> at == Find(es, key)
    ensures node.kind == MappingNode ==> found == if at == |es| then null else node.content[2 * at + 1]
  {
    found, at := null, 0;
    if node.kind != MappingNode {
      return;
    }
    var i := 0;
    while i + 1 < |node.content|
      invariant i == 2 * at <= |node.content|
      invariant forall j :: 0 <= j < at ==> es[j].Name() != key
    {
      assert node.content[2 * at].head.value == es[at].Name();
      if node.content[i].head.value == key {
        found := node.content[i + 1];
        FindIs(es, key, at);
        return;
      }
      i, at := i + 2, at + 1;
    }
    FindIs(es, key, at);
  }

  /** The in-place merge computes `Merge`, leaves the patch alone, and reaches no node of the patch. */
  method MergeNode(base: Node, patch: Node, ghost b: Tree, ghost p: Tree)
    requires base.Holds(b) && patch.Holds(p) && base.repr !! patch.repr
    modifies base.repr
    ensures base.Holds(Merge(b, p)) && patch.Holds(p)
    ensures fresh(base.repr - old(base.repr))
    decreases patch.repr, 2
  {
    hide Node.Holds, AllHold, Upsert, Find, Flatten;
    Below(base, b); Below(patch, p);
    if base.kind == SequenceNode && patch.kind == SequenceNode {
      Append(base, patch, b, p);
      return;
    }
    if base.kind != MappingNode || patch.kind != MappingNode {
      Replace(base, patch, b, p);
      return;
    }
    ghost var m, n := b, 0;
    var i := 0;
    while i + 1 < |patch.content|
      invariant i == 2 * n && n <= |p.entries|
      invariant m == b.(entries := MergeEntries(b.entries, p.entries, n))
      invariant base.Holds(m) && patch.Holds(p) && base.repr !! patch.repr
      invariant fresh(base.repr - old(base.repr))
    {
      Below(patch, p);
      MergeEntry(base, patch, i, m, p, n);
      m := m.(entries := Upsert(m.entries, p.entries[n]));
      i, n := i + 2, n + 1;
    }
    Below(patch, p);
    assert m == Merge(b, p);
  }

  method Append(base: Node, patch: Node, ghost b: Tree, ghost p: Tree)
    requires base.Holds(b) && patch.Holds(p) && base.repr !! patch.repr && b.Sequence? && p.Sequence?
    modifies base
    ensures base.Holds(Merge(b, p)) && patch.Holds(p)
    ensures fresh(base.repr - old(base.repr))
  {
    hide Node.Holds;
    Below(base, b); Below(patch, p);
    ghost var inside := base.repr - {base};
    var copies, within := CloneChildren(patch.content, p.items, patch.repr - {patch});
    AllHoldConcat(base.content, b.items, inside, copies, p.items, within);
    base.content := base.content + copies;
    base.repr := base.repr + within;
    Assemble(base, Merge(b, p), inside + within);
  }

  method Replace(base: Node, patch: Node, ghost b: Tree, ghost p: Tree)
    requires base.Holds(b) && patch.Holds(p) && base.repr !! patch.repr
    modifies base
    ensures base.Holds(p) && patch.Holds(p)
    ensures fresh(base.repr - old(base.repr))
  {
    hide Node.Holds;
    Below(base, b);
    var copy := Clone(patch, p);
    Below(copy, p);
    ghost var within := copy.repr - {copy};
    base.kind, base.head, base.content := copy.kind, copy.head, copy.content;
    base.repr := {base} + within;
    Assemble(base, p, within);
  }

  /** One step of the loop over the patch: its entry `n`, found at position `i` of its content, is
      appended to the base, or merged into the base's entry of the same name. */
  method MergeEntry(base: Node, patch: Node, i: nat, ghost m: Tree, ghost p: Tree, ghost n: nat)
    requires base.Holds(m) && patch.Holds(p) && base.repr !! patch.repr
    requires m.Mapping? && p.Mapping? && n < |p.entries| && i == 2 * n
    modifies base.repr
    ensures base.Holds(m.(entries := Upsert(m.entries, p.entries[n]))) && patch.Holds(p)
    ensures fresh(base.repr - old(base.repr))
    decreases patch.repr, 1
  {
    hide Node.Holds, AllHold, Merge, MergeEntries, Upsert, Find, Flatten;
    PairAt(patch, p, n);
    Below(base, m); Named(base, m);
    var patchKey, patchValue := patch.content[i], patch.content[i + 1];
    var baseValue, at := MappingValue(base, patchKey.head.value, m.entries);
    if baseValue == null {
      AppendEntry(base, patchKey, patchValue, m, p.entries[n]);
    } else {
      MergeValue(base, baseValue, patchValue, m, p.entries[n], at);
    }
  }

  method AppendEntry(base: Node, patchKey: Node, patchValue: Node, ghost m: Tree, ghost e: Entry)
    requires base.Holds(m) && m.Mapping? && Find(m.entries, e.Name()) == |m.entries|
    requires patchKey.Holds(e.key) && patchValue.Holds(e.value)
    requires base.repr !! patchKey.repr && base.repr !! patchValue.repr
    modifies base
    ensures base.Holds(m.(entries := Upsert(m.entries, e)))
    ensures fresh(base.repr - old(base.repr))
  {
    hide Node.Holds, AllHold, Merge, MergeEntries, Upsert, Find, Flatten;
    Below(base, m);
    ghost var inside, content := base.repr - {base}, base.content;
    var k := Clone(patchKey, e.key);
    var v := Clone(patchValue, e.value);
    assert AllHold(content, Children(m), inside);
    AllHoldPair(k, e.key, v, e.value);
    AllHoldConcat(content, Children(m), inside, [k, v], [e.key, e.value], k.repr + v.repr);
    base.content := base.content + [k, v];
    base.repr := base.repr + k.repr + v.repr;
    FlattenSnoc(m.entries, e);
    UpsertAt(m.entries, e, |m.entries|);
    assert base.repr == {base} + (inside + (k.repr + v.repr));
    Assemble(base, m.(entries := m.entries + [e]), inside + (k.repr + v.repr));
  }

  lemma AllHoldNone()
    ensures AllHold([], [], {})
  {}

  lemma AllHoldOne(c: Node, t: Tree)
    requires c.Holds(t)
    ensures AllHold([c], [t], c.repr)
  {}

  lemma AllHoldPair(k: Node, t: Tree, v: Node, u: Tree)
    requires k.Holds(t) && v.Holds(u) && k.repr !! v.repr
    ensures AllHold([k, v], [t, u], k.repr + v.repr)
  {}

  method MergeValue(base: Node, baseValue: Node, patchValue: Node, ghost m: Tree, ghost e: Entry, ghost at: nat)
    requires base.Holds(m) && m.Mapping? && at == Find(m.entries, e.Name()) < |m.entries|
    requires |base.content| == 2 * |m.entries| && baseValue == base.content[2 * at + 1]
    requires patchValue.Holds(e.value) && base.repr !! patchValue.repr
    modifies base.repr
    ensures base.Holds(m.(entries := Upsert(m.entries, e)))
    ensures fresh(base.repr - old(base.repr))
    decreases patchValue.repr, 3
  {
    hide Node.Holds, AllHold, Merge, MergeEntries, Upsert, Find, Flatten;
    Below(base, m); PairAt(base, m, at);
    ghost var inside, content, n := base.repr - {base}, base.content, 2 * at + 1;
    Apart(content, Children(m), inside, n);
    MergeNode(baseValue, patchValue, m.entries[at].value, e.value);
    forall k | 0 <= k < |content| && k != n
      ensures content[k].repr == old(content[k].repr) && content[k].Holds(Children(m)[k])
      ensures content[k].repr !! baseValue.repr
    {
    }
    Rehang(base, m, inside, at, Merge(m.entries[at].value, e.value));
    UpsertAt(m.entries, e, at);
  }

  /** After the value node of entry `at` came to hold another tree, the whole mapping holds the tree with that value. */
  ghost method Rehang(base: Node, m: Tree, inside: set<Node>, at: nat, v: Tree)
    requires m.Mapping? && at < |m.entries| && |base.content| == 2 * |m.entries|
    requires base.kind == MappingNode && base.head == m.head
    requires base.repr == {base} + inside && base !in inside
    requires base.content[2 * at + 1].Holds(v) && base !in base.content[2 * at + 1].repr
    requires forall k :: 0 <= k < |base.content| ==> base.content[k] in inside
    requires forall k :: 0 <= k < |base.content| && k != 2 * at + 1 ==>
               && base.content[k].repr <= inside && base.content[k].Holds(Children(m)[k])
               && base.content[k].repr !! base.content[2 * at + 1].repr
    requires forall i, j :: 0 <= i < j < |base.content| && i != 2 * at + 1 && j != 2 * at + 1 ==>
               base.content[i].repr !! base.content[j].repr
    modifies base`repr
    ensures base.repr == old(base.repr) + old(base.content[2 * at + 1].repr)
    ensures base.Holds(m.(entries := m.entries[at := m.entries[at].(value := v)]))
  {
    hide Node.Holds, AllHold, Flatten;
    var n := 2 * at + 1;
    var child := base.content[n];
    AllHoldUpdate(base.content, Children(m), inside, n, v);
    FlattenUpdate(m.entries, at, v);
    base.repr := base.repr + child.repr;
    Assemble(base, m.(entries := m.entries[at := m.entries[at].(value := v)]), inside + child.repr);
  }

  /** The siblings of one of some nodes that lie side by side. */
  lemma Apart(nodes: seq<Node>, ts: seq<Tree>, within: set<Node>, n: nat)
    requires AllHold(nodes, ts, within) && n < |nodes|
    ensures |ts| == |nodes| && nodes[n] in within && nodes[n].repr <= within && nodes[n].Holds(ts[n])
    ensures forall k :: 0 <= k < |nodes| && k != n ==>
              && nodes[k] in within && nodes[k].repr <= within
              && nodes[k].Holds(ts[k]) && nodes[k].repr !! nodes[n].repr
    ensures forall i, j :: 0 <= i < j < |nodes| ==> nodes[i].repr !! nodes[j].repr
  {}

  /** Merging two parsed documents: the result is made of new nodes, and both documents are left as they were. */
  method MergeDocuments(base: Node, patch: Node, ghost b: Tree, ghost p: Tree) returns (merged: Node)
    requires base.Holds(b) && patch.Holds(p)
    ensures merged.Holds(Merge(b, p)) && fresh(merged.repr)
    ensures base.Holds(b) && patch.Holds(p)
  {
    merged := Clone(base, b);
    MergeNode(merged, patch, b, p);
  }
}
