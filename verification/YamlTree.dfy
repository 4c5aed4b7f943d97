/** The values denoted by parsed YAML nodes, and the merge of a patch tree into a base tree
    as a pure function.  The in-place merge that the renderer runs on linked nodes is in
    YamlNodes.dfy; it is proved against `Merge`, and what merging means is proved here. */
module YamlTree {

  /** What a node carries besides its kind and its children: its scalar text, and `tag` standing
      for tag, style and comments, which a merge copies but never inspects. */
  datatype Head = Head(value: string, tag: string)

  datatype Tree =
    | Scalar(head: Head)
    | Sequence(head: Head, items: seq<Tree>)
    | Mapping(head: Head, entries: seq<Entry>)

  datatype Entry = Entry(key: Tree, value: Tree)
  {
    /** Keys are compared by their scalar text only. */
    function Name(): string { key.head.value }
  }

  /** The position of the first entry called `name`, or the length when there is none. */
  function Find(es: seq<Entry>, name: string): (i: nat)
    ensures i <= |es|
    ensures i < |es| ==> es[i].Name() == name
    ensures forall j :: 0 <= j < i ==> es[j].Name() != name
  {
    if es == [] then 0 else if es[0].Name() == name then 0 else 1 + Find(es[1..], name)
  }

  ghost predicate Has(es: seq<Entry>, name: string) {
    exists i :: 0 <= i < |es| && es[i].Name() == name
  }

  /** Merging: sequences concatenate, mappings merge entry by entry, anything else is replaced. */
  function Merge(b: Tree, p: Tree): Tree
    decreases p
  {
    if b.Sequence? && p.Sequence? then
      b.(items := b.items + p.items)
    else if b.Mapping? && p.Mapping? then
      b.(entries := MergeEntries(b.entries, p.entries, |p.entries|))
    else
      p
  }

  /** The first `n` patch entries merged into `es`, in patch order. */
  function MergeEntries(es: seq<Entry>, ps: seq<Entry>, n: nat): seq<Entry>
    requires n <= |ps|
    decreases ps, n
  {
    if n == 0 then es else Upsert(MergeEntries(es, ps, n - 1), ps[n - 1])
  }

  function Upsert(es: seq<Entry>, p: Entry): (r: seq<Entry>)
    decreases p
  {
    var i := Find(es, p.Name());
    if i == |es| then es + [p] else es[i := es[i].(value := Merge(es[i].value, p.value))]
  }

  /** Every mapping names each of its keys once. */
  ghost predicate WellKeyed(t: Tree) {
    match t
    case Scalar(_) => true
    case Sequence(_, items) => forall i :: 0 <= i < |items| ==> WellKeyed(items[i])
    case Mapping(_, es) => Distinct(es) && forall i :: 0 <= i < |es| ==> WellKeyed(es[i].value)
  }

  ghost predicate Distinct(es: seq<Entry>) {
    forall i, j :: 0 <= i < j < |es| ==> es[i].Name() != es[j].Name()
  }

  lemma FindDistinct(es: seq<Entry>, i: nat)
    requires Distinct(es) && i < |es|
    ensures Find(es, es[i].Name()) == i
  {}

  // ---------- What a merge of mappings is, without the loop ----------

  /** The entries of `es`, each merged with the entry of `ps` of the same name, if there is one. */
  function Overlay(es: seq<Entry>, ps: seq<Entry>): (r: seq<Entry>)
    ensures |r| == |es|
    ensures forall i :: 0 <= i < |es| ==> r[i] == Overlaid(es[i], ps)
  {
    seq(|es|, i requires 0 <= i < |es| => Overlaid(es[i], ps))
  }

  function Overlaid(e: Entry, ps: seq<Entry>): (r: Entry)
    ensures r.key == e.key
  {
    var j := Find(ps, e.Name());
    if j == |ps| then e else e.(value := Merge(e.value, ps[j].value))
  }

  /** The entries of `ps` whose names `es` does not have, in order. */
  function Added(es: seq<Entry>, ps: seq<Entry>): (r: seq<Entry>)
    ensures forall e :: e in r ==> e in ps
  {
    if ps == [] then [] else
      var p := ps[|ps| - 1];
      Added(es, ps[..|ps| - 1]) + if Find(es, p.Name()) == |es| then [p] else []
  }

  lemma HasFind(es: seq<Entry>, name: string)
    ensures Has(es, name) <==> Find(es, name) < |es|
  {
    if Find(es, name) < |es| { assert es[Find(es, name)].Name() == name; }
  }

  lemma {:induction false} AddedHas(es: seq<Entry>, ps: seq<Entry>, name: string)
    ensures Has(Added(es, ps), name) <==> Has(ps, name) && !Has(es, name)
  {
    HasFind(es, name);
    if ps != [] {
      var n := |ps| - 1;
      AddedHas(es, ps[..n], name);
      HasFind(es, ps[n].Name());
      assert ps == ps[..n] + [ps[n]];
      HasConcat(ps[..n], [ps[n]], name);
      HasConcat(Added(es, ps[..n]), if Find(es, ps[n].Name()) == |es| then [ps[n]] else [], name);
    }
  }

  lemma HasConcat(xs: seq<Entry>, ys: seq<Entry>, name: string)
    ensures Has(xs + ys, name) <==> Has(xs, name) || Has(ys, name)
  {
    if Has(xs, name) { var i :| 0 <= i < |xs| && xs[i].Name() == name; assert (xs + ys)[i].Name() == name; }
    if Has(ys, name) { var i :| 0 <= i < |ys| && ys[i].Name() == name; assert (xs + ys)[|xs| + i].Name() == name; }
  }

  lemma FindConcat(xs: seq<Entry>, ys: seq<Entry>, name: string)
    ensures Find(xs + ys, name) == if Find(xs, name) < |xs| then Find(xs, name) else |xs| + Find(ys, name)
  {
    if xs == [] {
      assert xs + ys == ys;
    } else {
      assert (xs + ys)[1..] == xs[1..] + ys;
    }
  }

  lemma OverlayHas(es: seq<Entry>, ps: seq<Entry>, name: string)
    ensures Find(Overlay(es, ps), name) == Find(es, name)
  {}

  lemma {:induction false} OverlaySnoc(es: seq<Entry>, done: seq<Entry>, p: Entry)
    requires Distinct(es) && Find(done, p.Name()) == |done|
    ensures Overlay(es, done + [p]) ==
            var k := Find(es, p.Name());
            if k == |es| then Overlay(es, done)
            else Overlay(es, done)[k := es[k].(value := Merge(es[k].value, p.value))]
  {
    forall i | 0 <= i < |es|
      ensures Overlaid(es[i], done + [p]) ==
        if es[i].Name() == p.Name() then es[i].(value := Merge(es[i].value, p.value)) else Overlaid(es[i], done)
    {
      FindConcat(done, [p], es[i].Name());
    }
  }

  lemma OverlayNothing(es: seq<Entry>)
    ensures Overlay(es, []) == es
  {}

  /** The loop over the patch entries computes the overlay followed by the added entries. */
  lemma {:induction false} MergeEntriesIs(es: seq<Entry>, ps: seq<Entry>, n: nat)
    requires Distinct(es) && Distinct(ps) && n <= |ps|
    ensures MergeEntries(es, ps, n) == Overlay(es, ps[..n]) + Added(es, ps[..n])
    decreases n
  {
    if n == 0 {
      OverlayNothing(es);
    } else {
      hide Added, Overlay, Upsert, Find;
      MergeEntriesIs(es, ps, n - 1);
      var p, done := ps[n - 1], ps[..n - 1];
      assert ps[..n] == done + [p];
      NotYet(ps, n - 1);
      UpsertMerged(es, done, p);
    }
  }

  lemma NotYet(ps: seq<Entry>, n: nat)
    requires Distinct(ps) && n < |ps|
    ensures Find(ps[..n], ps[n].Name()) == n
  {
    HasFind(ps[..n], ps[n].Name());
  }

  lemma AddedSnoc(es: seq<Entry>, done: seq<Entry>, p: Entry)
    ensures Added(es, done + [p]) == Added(es, done) + if Find(es, p.Name()) == |es| then [p] else []
  {
    assert (done + [p])[..|done|] == done;
  }

  lemma {:induction false} UpsertMerged(es: seq<Entry>, done: seq<Entry>, p: Entry)
    requires Distinct(es) && Find(done, p.Name()) == |done|
    ensures Upsert(Overlay(es, done) + Added(es, done), p) == Overlay(es, done + [p]) + Added(es, done + [p])
  {
    var o, a, k := Overlay(es, done), Added(es, done), Find(es, p.Name());
    OverlaySnoc(es, done, p);
    AddedSnoc(es, done, p);
    assert Find(o + a, p.Name()) == if k < |es| then k else |o + a| by {
      OverlayHas(es, done, p.Name());
      FindConcat(o, a, p.Name());
      AddedHas(es, done, p.Name());
      HasFind(a, p.Name());
      HasFind(done, p.Name());
    }
    UpsertAt(o + a, p, if k < |es| then k else |o + a|);
    if k < |es| {
      assert (o + a)[k] == o[k] == es[k];
      UpdatePrefix(o, a, k, es[k].(value := Merge(es[k].value, p.value)));
    } else {
      Reassociate(o, a, [p]);
    }
  }

  lemma UpsertAt(es: seq<Entry>, p: Entry, k: nat)
    requires Find(es, p.Name()) == k
    ensures Upsert(es, p) == if k == |es| then es + [p] else es[k := es[k].(value := Merge(es[k].value, p.value))]
  {}

  lemma UpdatePrefix(o: seq<Entry>, a: seq<Entry>, k: nat, e: Entry)
    requires k < |o|
    ensures (o + a)[k := e] == o[k := e] + a
  {}

  lemma MergeMappings(b: Tree, p: Tree)
    requires b.Mapping? && p.Mapping? && Distinct(b.entries) && Distinct(p.entries)
    ensures Merge(b, p) == b.(entries := Overlay(b.entries, p.entries) + Added(b.entries, p.entries))
    ensures Distinct(Merge(b, p).entries)
  {
    MergeEntriesIs(b.entries, p.entries, |p.entries|);
    assert p.entries[..|p.entries|] == p.entries;
    MergedDistinct(b.entries, p.entries);
  }

  lemma MergedDistinct(es: seq<Entry>, ps: seq<Entry>)
    requires Distinct(es) && Distinct(ps)
    ensures Distinct(Overlay(es, ps) + Added(es, ps))
  {
    AddedDistinct(es, ps);
    var a := Added(es, ps);
    forall i, j | 0 <= i < |es| && 0 <= j < |a| ensures es[i].Name() != a[j].Name() {
      AddedHas(es, ps, a[j].Name());
      assert Has(a, a[j].Name());
    }
  }

  lemma {:induction false} AddedDistinct(es: seq<Entry>, ps: seq<Entry>)
    requires Distinct(ps)
    ensures Distinct(Added(es, ps))
  {
    if ps != [] {
      var n := |ps| - 1;
      AddedDistinct(es, ps[..n]);
      AddedHas(es, ps[..n], ps[n].Name());
      assert !Has(ps[..n], ps[n].Name());
    }
  }

  /** Merging keeps every mapping well keyed. */
  lemma {:induction false} MergeWellKeyed(b: Tree, p: Tree)
    requires WellKeyed(b) && WellKeyed(p)
    ensures WellKeyed(Merge(b, p))
    decreases b
  {
    if b.Mapping? && p.Mapping? {
      MergeMappings(b, p);
      var o, a := Overlay(b.entries, p.entries), Added(b.entries, p.entries);
      forall i | 0 <= i < |o| ensures WellKeyed(o[i].value) {
        var j := Find(p.entries, b.entries[i].Name());
        if j < |p.entries| { MergeWellKeyed(b.entries[i].value, p.entries[j].value); }
      }
      forall i | 0 <= i < |a| ensures WellKeyed(a[i].value) {
        assert a[i] in p.entries;
      }
    }
  }

  // ---------- When merging is associative ----------

  /** `a` leaves no trace under `c`: what merging `c` into `a` would keep of `a` is in `c` already. */
  predicate Absorbed(a: Tree, c: Tree) {
    if a.Sequence? && c.Sequence? then
      a.items == [] && a.head == c.head
    else if a.Mapping? && c.Mapping? then
      && a.head == c.head
      && |a.entries| <= |c.entries|
      && forall i :: 0 <= i < |a.entries| ==>
           a.entries[i].key == c.entries[i].key && Absorbed(a.entries[i].value, c.entries[i].value)
    else
      true
  }

  lemma {:induction false} AddedAfterPrefix(es: seq<Entry>, ps: seq<Entry>)
    requires Distinct(ps) && |es| <= |ps|
    requires forall i :: 0 <= i < |es| ==> es[i].Name() == ps[i].Name()
    ensures Added(es, ps) == ps[|es|..]
  {
    if |ps| == |es| {
      AddedOfKnown(es, ps);
    } else {
      var n := |ps| - 1;
      AddedAfterPrefix(es, ps[..n]);
      HasFind(es, ps[n].Name());
      assert ps[|es|..] == ps[..n][|es|..] + [ps[n]];
    }
  }

  lemma {:induction false} AddedOfKnown(es: seq<Entry>, ps: seq<Entry>)
    requires forall i :: 0 <= i < |ps| ==> Has(es, ps[i].Name())
    ensures Added(es, ps) == []
  {
    if ps != [] {
      assert Has(es, ps[|ps| - 1].Name());
      HasFind(es, ps[|ps| - 1].Name());
      AddedOfKnown(es, ps[..|ps| - 1]);
    }
  }

  lemma {:induction false} AbsorbedIff(a: Tree, c: Tree)
    requires WellKeyed(a) && WellKeyed(c)
    ensures Merge(a, c) == c <==> Absorbed(a, c)
    decreases a
  {
    if a.Sequence? && c.Sequence? {
      if a.items + c.items == c.items { assert |a.items| == 0; }
      if a.items == [] { assert a.items + c.items == c.items; }
    } else if a.Mapping? && c.Mapping? {
      MergeMappings(a, c);
      var es, cs := a.entries, c.entries;
      OverlaidPrefix(es, cs);
      if |es| <= |cs| {
        forall i | 0 <= i < |es| && es[i].key == cs[i].key
          ensures Overlaid(es[i], cs) == cs[i] <==> Absorbed(es[i].value, cs[i].value)
        {
          FindDistinct(cs, i);
          AbsorbedIff(es[i].value, cs[i].value);
        }
      }
    }
  }

  /** Merging `cs` into `es` yields `cs` just when each entry of `es`, overlaid, is the entry of `cs` at its place. */
  lemma {:induction false} OverlaidPrefix(es: seq<Entry>, cs: seq<Entry>)
    requires Distinct(es) && Distinct(cs)
    ensures Overlay(es, cs) + Added(es, cs) == cs <==>
            |es| <= |cs| && forall i :: 0 <= i < |es| ==> Overlaid(es[i], cs) == cs[i]
  {
    hide Added, Find, Overlaid;
    if Overlay(es, cs) + Added(es, cs) == cs {
      StartsWith(Overlay(es, cs), Added(es, cs), cs);
    }
    if |es| <= |cs| && forall i :: 0 <= i < |es| ==> Overlaid(es[i], cs) == cs[i] {
      AddedAfterPrefix(es, cs);
      FrontOf(Overlay(es, cs), cs);
    }
  }

  lemma FrontOf(o: seq<Entry>, cs: seq<Entry>)
    requires |o| <= |cs| && forall i :: 0 <= i < |o| ==> o[i] == cs[i]
    ensures o + cs[|o|..] == cs
  {}

  lemma StartsWith(o: seq<Entry>, d: seq<Entry>, cs: seq<Entry>)
    requires o + d == cs
    ensures |o| <= |cs| && forall i :: 0 <= i < |o| ==> o[i] == cs[i]
  {}

  /** At no shared path do `a` and `c` agree on being a sequence, or on being a mapping, around a
      `b` of another kind -- unless what `a` has there is absorbed by `c`. */
  predicate NoSandwich(a: Tree, b: Tree, c: Tree) {
    if a.Sequence? && c.Sequence? && !b.Sequence? then Absorbed(a, c)
    else if a.Mapping? && c.Mapping? && !b.Mapping? then Absorbed(a, c)
    else if a.Mapping? && b.Mapping? && c.Mapping? then
      forall i :: 0 <= i < |a.entries| ==>
        var j, k := Find(b.entries, a.entries[i].Name()), Find(c.entries, a.entries[i].Name());
        j < |b.entries| && k < |c.entries| ==>
          NoSandwich(a.entries[i].value, b.entries[j].value, c.entries[k].value)
    else true
  }

  lemma {:induction false} AddedConcat(es: seq<Entry>, xs: seq<Entry>, ys: seq<Entry>)
    ensures Added(es, xs + ys) == Added(es, xs) + Added(es, ys)
  {
    hide Find;
    if ys == [] {
      assert xs + ys == xs;
    } else {
      hide Added;
      var n := |ys| - 1;
      AddedConcat(es, xs, ys[..n]);
      AddedSnoc(es, xs + ys[..n], ys[n]);
      AddedSnoc(es, ys[..n], ys[n]);
      assert ys == ys[..n] + [ys[n]];
      Reassociate(xs, ys[..n], [ys[n]]);
      Reassociate(Added(es, xs), Added(es, ys[..n]), if Find(es, ys[n].Name()) == |es| then [ys[n]] else []);
    }
  }

  lemma OverlayConcat(xs: seq<Entry>, ys: seq<Entry>, ps: seq<Entry>)
    ensures Overlay(xs + ys, ps) == Overlay(xs, ps) + Overlay(ys, ps)
  {}

  lemma {:induction false} OverlayOfAdded(es: seq<Entry>, ps: seq<Entry>, qs: seq<Entry>)
    ensures Overlay(Added(es, ps), qs) == Added(es, Overlay(ps, qs))
  {
    if ps != [] {
      var n := |ps| - 1;
      OverlayOfAdded(es, ps[..n], qs);
      assert Overlay(ps, qs)[..n] == Overlay(ps[..n], qs);
      OverlayConcat(Added(es, ps[..n]), if Find(es, ps[n].Name()) == |es| then [ps[n]] else [], qs);
    }
  }

  lemma {:induction false} AddedOfMerged(es: seq<Entry>, ps: seq<Entry>, qs: seq<Entry>)
    ensures Added(Overlay(es, ps) + Added(es, ps), qs) == Added(es, Added(ps, qs))
  {
    if qs != [] {
      var n := |qs| - 1;
      AddedOfMerged(es, ps, qs[..n]);
      var q := qs[n];
      OverlayHas(es, ps, q.Name());
      FindConcat(Overlay(es, ps), Added(es, ps), q.Name());
      AddedHas(es, ps, q.Name());
      HasFind(es, q.Name());
      HasFind(ps, q.Name());
      HasFind(Added(es, ps), q.Name());
      AddedConcat(es, Added(ps, qs[..n]), if Find(ps, q.Name()) == |ps| then [q] else []);
    }
  }

  /** Merging is associative -- key order included -- exactly when there is no sandwich. */
  lemma {:induction false} MergeAssociativeIff(a: Tree, b: Tree, c: Tree)
    requires WellKeyed(a) && WellKeyed(b) && WellKeyed(c)
    ensures Merge(Merge(a, b), c) == Merge(a, Merge(b, c)) <==> NoSandwich(a, b, c)
    decreases a
  {
    if a.Sequence? && c.Sequence? && !b.Sequence? {
      AbsorbedIff(a, c);
    } else if a.Mapping? && c.Mapping? && !b.Mapping? {
      AbsorbedIff(a, c);
    } else if a.Mapping? && b.Mapping? && c.Mapping? {
      AssociativeMappings(a, b, c);
    } else if a.Sequence? && b.Sequence? && c.Sequence? {
      assert (a.items + b.items) + c.items == a.items + (b.items + c.items);
    }
  }

  lemma {:induction false} AssociativeMappings(a: Tree, b: Tree, c: Tree)
    requires WellKeyed(a) && WellKeyed(b) && WellKeyed(c)
    requires a.Mapping? && b.Mapping? && c.Mapping?
    ensures Merge(Merge(a, b), c) == Merge(a, Merge(b, c)) <==> NoSandwich(a, b, c)
    decreases a, 0
  {
    var es, ps, qs := a.entries, b.entries, c.entries;
    var bc := Overlay(ps, qs) + Added(ps, qs);
    MergedThrice(a, b, c);
    forall i | 0 <= i < |es|
      ensures Overlaid(Overlaid(es[i], ps), qs) == Overlaid(es[i], bc) <==>
        var j, k := Find(ps, es[i].Name()), Find(qs, es[i].Name());
        j < |ps| && k < |qs| ==> NoSandwich(es[i].value, ps[j].value, qs[k].value)
    {
      var j, k := Find(ps, es[i].Name()), Find(qs, es[i].Name());
      FindMerged(ps, qs, es[i].Name());
      if j < |ps| && k < |qs| {
        MergeAssociativeIff(es[i].value, ps[j].value, qs[k].value);
      }
    }
  }

  /** Both ways of merging three mappings add the same new entries; they can only differ on the entries of `a`. */
  lemma {:induction false} MergedThrice(a: Tree, b: Tree, c: Tree)
    requires a.Mapping? && b.Mapping? && c.Mapping?
    requires Distinct(a.entries) && Distinct(b.entries) && Distinct(c.entries)
    ensures Merge(Merge(a, b), c) == Merge(a, Merge(b, c)) <==>
            forall i :: 0 <= i < |a.entries| ==>
              Overlaid(Overlaid(a.entries[i], b.entries), c.entries) ==
              Overlaid(a.entries[i], Overlay(b.entries, c.entries) + Added(b.entries, c.entries))
  {
    var es, ps, qs := a.entries, b.entries, c.entries;
    MergeMappings(a, b); MergeMappings(b, c);
    MergeMappings(Merge(a, b), c); MergeMappings(a, Merge(b, c));
    var l, r := Overlay(Overlay(es, ps), qs), Overlay(es, Overlay(ps, qs) + Added(ps, qs));
    MergedLeft(es, ps, qs);
    MergedRight(es, ps, qs);
    SamePrefix(l, r, Added(es, Overlay(ps, qs)) + Added(es, Added(ps, qs)));
  }

  lemma {:induction false} MergedLeft(es: seq<Entry>, ps: seq<Entry>, qs: seq<Entry>)
    ensures var ab := Overlay(es, ps) + Added(es, ps);
            Overlay(ab, qs) + Added(ab, qs) ==
            Overlay(Overlay(es, ps), qs) + (Added(es, Overlay(ps, qs)) + Added(es, Added(ps, qs)))
  {
    OverlayConcat(Overlay(es, ps), Added(es, ps), qs);
    OverlayOfAdded(es, ps, qs);
    AddedOfMerged(es, ps, qs);
    Reassociate(Overlay(Overlay(es, ps), qs), Added(es, Overlay(ps, qs)), Added(es, Added(ps, qs)));
  }

  lemma Reassociate(x: seq<Entry>, y: seq<Entry>, z: seq<Entry>)
    ensures (x + y) + z == x + (y + z)
  {}

  lemma {:induction false} MergedRight(es: seq<Entry>, ps: seq<Entry>, qs: seq<Entry>)
    ensures var bc := Overlay(ps, qs) + Added(ps, qs);
            Added(es, bc) == Added(es, Overlay(ps, qs)) + Added(es, Added(ps, qs))
  {
    AddedConcat(es, Overlay(ps, qs), Added(ps, qs));
  }

  lemma SamePrefix(l: seq<Entry>, r: seq<Entry>, rest: seq<Entry>)
    requires |l| == |r|
    ensures l + rest == r + rest <==> forall i :: 0 <= i < |l| ==> l[i] == r[i]
  {
    if l + rest == r + rest {
      forall i | 0 <= i < |l| ensures l[i] == r[i] { assert (l + rest)[i] == (r + rest)[i]; }
    }
  }

  /** Looking a name up in merged entries. */
  lemma FindMerged(es: seq<Entry>, ps: seq<Entry>, name: string)
    ensures var m := Overlay(es, ps) + Added(es, ps);
            var j, k, f := Find(es, name), Find(ps, name), Find(m, name);
            && (f < |m| <==> j < |es| || k < |ps|)
            && (j < |es| ==> m[f] == Overlaid(es[j], ps))
            && (j == |es| && k < |ps| ==> m[f] == ps[k])
  {
    OverlayHas(es, ps, name);
    FindConcat(Overlay(es, ps), Added(es, ps), name);
    if Find(es, name) == |es| {
      if Find(ps, name) < |ps| {
        AddedFind(es, ps, name);
      } else {
        AddedHas(es, ps, name); HasFind(ps, name); HasFind(Added(es, ps), name);
      }
    }
  }

  lemma {:induction false} AddedFind(es: seq<Entry>, ps: seq<Entry>, name: string)
    requires Find(es, name) == |es| && Find(ps, name) < |ps|
    ensures var k := Find(Added(es, ps), name); k < |Added(es, ps)| && Added(es, ps)[k] == ps[Find(ps, name)]
  {
    var n := |ps| - 1;
    var p := ps[n];
    assert ps == ps[..n] + [p];
    FindConcat(ps[..n], [p], name);
    var tail := if Find(es, p.Name()) == |es| then [p] else [];
    FindConcat(Added(es, ps[..n]), tail, name);
    if Find(ps[..n], name) < n {
      AddedFind(es, ps[..n], name);
    } else {
      AddedHas(es, ps[..n], name); HasFind(ps[..n], name); HasFind(Added(es, ps[..n]), name);
      assert p.Name() == name;
    }
  }

  /** Two documents that do not nest are enough to break associativity: a list, a scalar, a list. */
  lemma MergeNotAssociative()
    ensures var h := Head("", "");
            var x, y := Sequence(h, [Scalar(Head("otlp", ""))]), Scalar(h);
            Merge(Merge(x, y), x) != Merge(x, Merge(y, x))
  {
    var h := Head("", "");
    var x, y := Sequence(h, [Scalar(Head("otlp", ""))]), Scalar(h);
    assert Merge(Merge(x, y), x) == x;
    assert |Merge(x, Merge(y, x)).items| == 2;
  }

  // ---------- Folding patches ----------

  /** Equal kinds at every path that both trees have. */
  predicate SameShape(a: Tree, b: Tree) {
    && (a.Sequence? <==> b.Sequence?)
    && (a.Mapping? <==> b.Mapping?)
    && (a.Mapping? ==> forall i :: 0 <= i < |a.entries| ==>
          var j := Find(b.entries, a.entries[i].Name());
          j < |b.entries| ==> SameShape(a.entries[i].value, b.entries[j].value))
  }

  lemma {:induction false} SameShapeNoSandwich(a: Tree, b: Tree, c: Tree)
    requires SameShape(a, b) && SameShape(a, c)
    ensures NoSandwich(a, b, c)
    decreases a
  {
    if a.Mapping? {
      forall i | 0 <= i < |a.entries|
        ensures var j, k := Find(b.entries, a.entries[i].Name()), Find(c.entries, a.entries[i].Name());
                j < |b.entries| && k < |c.entries| ==>
                  NoSandwich(a.entries[i].value, b.entries[j].value, c.entries[k].value)
      {
        var j, k := Find(b.entries, a.entries[i].Name()), Find(c.entries, a.entries[i].Name());
        if j < |b.entries| && k < |c.entries| {
          SameShapeNoSandwich(a.entries[i].value, b.entries[j].value, c.entries[k].value);
        }
      }
    }
  }

  lemma {:induction false} SameShapeMerge(a: Tree, b: Tree, c: Tree)
    requires WellKeyed(b) && WellKeyed(c)
    requires SameShape(a, b) && SameShape(a, c) && SameShape(b, c)
    ensures SameShape(a, Merge(b, c))
    decreases a
  {
    if a.Mapping? {
      MergeMappings(b, c);
      var bc := Merge(b, c).entries;
      forall i | 0 <= i < |a.entries|
        ensures var j := Find(bc, a.entries[i].Name());
                j < |bc| ==> SameShape(a.entries[i].value, bc[j].value)
      {
        var name := a.entries[i].Name();
        var j, k := Find(b.entries, name), Find(c.entries, name);
        FindMerged(b.entries, c.entries, name);
        if j < |b.entries| && k < |c.entries| {
          SameShapeMerge(a.entries[i].value, b.entries[j].value, c.entries[k].value);
        }
      }
    }
  }

  /** Patches merged one after the other, as the renderer does. */
  function MergeAll(base: Tree, patches: seq<Tree>): Tree
    decreases |patches|
  {
    if patches == [] then base else MergeAll(Merge(base, patches[0]), patches[1..])
  }

  ghost predicate Coherent(ts: seq<Tree>) {
    && (forall i :: 0 <= i < |ts| ==> WellKeyed(ts[i]))
    && (forall i, j :: 0 <= i < j < |ts| ==> SameShape(ts[i], ts[j]))
  }

  lemma SameShapeMergeLeft(a: Tree, b: Tree, c: Tree)
    requires WellKeyed(a) && WellKeyed(b)
    requires SameShape(a, b) && SameShape(a, c) && SameShape(b, c)
    ensures SameShape(Merge(a, b), c)
    decreases a
  {
    if a.Mapping? {
      MergeMappings(a, b);
      var o, d := Overlay(a.entries, b.entries), Added(a.entries, b.entries);
      var ab: seq<Entry> := o + d;
      forall i | 0 <= i < |ab|
        ensures var j := Find(c.entries, ab[i].Name());
                j < |c.entries| ==> SameShape(ab[i].value, c.entries[j].value)
      {
        if i < |o| {
          var j, k := Find(c.entries, o[i].Name()), Find(b.entries, o[i].Name());
          if j < |c.entries| && k < |b.entries| {
            SameShapeMergeLeft(a.entries[i].value, b.entries[k].value, c.entries[j].value);
          }
        } else {
          assert d[i - |o|] in b.entries;
        }
      }
    }
  }

  lemma JoinCoherent(base: Tree, first: Tree, second: Tree, rest: seq<Tree>)
    requires Coherent([base, first, second] + rest)
    ensures Coherent([base, Merge(first, second)] + rest)
  {
    var all, next := [base, first, second] + rest, [base, Merge(first, second)] + rest;
    assert base == all[0] && first == all[1] && second == all[2];
    MergeWellKeyed(first, second);
    SameShapeMerge(base, first, second);
    forall j | 2 <= j < |next| ensures SameShape(next[1], next[j]) && next[j] == all[j + 1] {
      SameShapeMergeLeft(first, second, all[j + 1]);
    }
  }

  /** Rendering folds the patches into the base one by one; for documents of one shape that is the
      base merged with the patches merged beforehand. */
  lemma {:induction false} FoldEqualsPremerged(base: Tree, first: Tree, rest: seq<Tree>)
    requires Coherent([base, first] + rest)
    ensures MergeAll(base, [first] + rest) == Merge(base, MergeAll(first, rest))
    decreases |rest|
  {
    assert ([first] + rest)[1..] == rest;
    if rest != [] {
      var second, others := rest[0], rest[1..];
      assert [base, first] + rest == [base, first, second] + others;
      assert Coherent([base, first, second] + others);
      assert second == ([base, first] + rest)[2];
      var all := [base, first, second] + others;
      assert all[0] == base && all[1] == first && all[2] == second;
      SameShapeNoSandwich(base, first, second);
      MergeAssociativeIff(base, first, second);
      JoinCoherent(base, first, second, others);
      FoldEqualsPremerged(base, Merge(first, second), others);
      assert ([Merge(first, second)] + others)[1..] == others;
    }
  }
}
