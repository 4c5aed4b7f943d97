/** The few string operations of the Go standard library that the modelled code leans on. */
module Text {
  import Sorting

  /** The characters with Unicode's White_Space property. */
  predicate IsSpace(c: char) {
    || '\t' <= c <= '\r' || c == ' ' || c == '\U{85}' || c == '\U{A0}' || c == '\U{1680}'
    || '\U{2000}' <= c <= '\U{200A}' || c == '\U{2028}' || c == '\U{2029}'
    || c == '\U{202F}' || c == '\U{205F}' || c == '\U{3000}'
  }

  predicate AllSpace(s: string) { forall i :: 0 <= i < |s| ==> IsSpace(s[i]) }

  predicate Trimmed(s: string) {
    s == "" || (!IsSpace(s[0]) && !IsSpace(s[|s| - 1]))
  }

  function TrimLeft(s: string): string { if s != "" && IsSpace(s[0]) then TrimLeft(s[1..]) else s }

  function TrimRight(s: string): string { if s != "" && IsSpace(s[|s| - 1]) then TrimRight(s[..|s| - 1]) else s }

  lemma {:induction false} TrimLeftIs(s: string)
    ensures var r := TrimLeft(s);
            |r| <= |s| && AllSpace(s[..|s| - |r|]) && r == s[|s| - |r|..] && (r != "" ==> !IsSpace(r[0]))
  {
    if s != "" && IsSpace(s[0]) {
      TrimLeftIs(s[1..]);
      var r := TrimLeft(s);
      assert s[..|s| - |r|] == [s[0]] + s[1..][..|s| - 1 - |r|];
    }
  }

  lemma {:induction false} TrimRightIs(s: string)
    ensures var r := TrimRight(s);
            |r| <= |s| && AllSpace(s[|r|..]) && r == s[..|r|] && (r != "" ==> !IsSpace(r[|r| - 1]))
  {
    if s != "" && IsSpace(s[|s| - 1]) {
      TrimRightIs(s[..|s| - 1]);
      var r := TrimRight(s);
      assert s[|r|..] == s[..|s| - 1][|r|..] + [s[|s| - 1]];
    }
  }

  function TrimSpace(s: string): (r: string)
    ensures Trimmed(r)
  {
    TrimLeftIs(s);
    TrimRightIs(TrimLeft(s));
    TrimRight(TrimLeft(s))
  }

  lemma TrimLeftCons(c: char, s: string)
    requires IsSpace(c)
    ensures TrimLeft([c] + s) == TrimLeft(s)
  {
    hide IsSpace;
    assert ([c] + s)[1..] == s;
  }

  lemma TrimLeftStops(t: string)
    requires t == "" || !IsSpace(t[0])
    ensures TrimLeft(t) == t
  {
    hide IsSpace;
  }

  lemma AllSpaceTail(l: string)
    requires AllSpace(l) && l != ""
    ensures IsSpace(l[0]) && AllSpace(l[1..])
  {
    hide IsSpace;
  }

  lemma {:induction false} TrimLeftSkips(l: string, t: string)
    requires AllSpace(l) && (t == "" || !IsSpace(t[0]))
    ensures TrimLeft(l + t) == t
  {
    hide IsSpace, AllSpace, TrimLeft;
    if l == "" {
      assert l + t == t;
      TrimLeftStops(t);
    } else {
      AllSpaceTail(l);
      TrimLeftSkips(l[1..], t);
      assert l + t == [l[0]] + (l[1..] + t);
      TrimLeftCons(l[0], l[1..] + t);
    }
  }

  lemma {:induction false} TrimRightSkips(t: string, r: string)
    requires AllSpace(r) && (t == "" || !IsSpace(t[|t| - 1]))
    ensures TrimRight(t + r) == t
  {
    if r == "" {
      assert t + r == t;
    } else {
      TrimRightSkips(t, r[..|r| - 1]);
      assert (t + r)[..|t + r| - 1] == t + r[..|r| - 1];
    }
  }

  /** Trimming removes exactly the space around a trimmed text. */
  lemma TrimPadded(l: string, t: string, r: string)
    requires AllSpace(l) && Trimmed(t) && AllSpace(r)
    ensures TrimSpace(l + t + r) == t
  {
    hide TrimLeft, TrimRight;
    if t == "" {
      TrimRightSkips("", "");
      assert "" + "" == "";
      TrimLeftSkips(l + r, "");
      assert l + t + r == l + r + "";
    } else {
      TrimLeftSkips(l, t + r);
      assert l + t + r == l + (t + r);
      TrimRightSkips(t, r);
    }
  }

  lemma TrimTrimmed(t: string)
    requires Trimmed(t)
    ensures TrimSpace(t) == t
  {
    TrimPadded("", t, "");
    assert "" + t + "" == t;
  }

  lemma TrimSplits(s: string) returns (l: string, r: string)
    ensures s == l + TrimSpace(s) + r && AllSpace(l) && AllSpace(r)
  {
    hide TrimLeft, TrimRight;
    TrimLeftIs(s);
    TrimRightIs(TrimLeft(s));
    var u := TrimLeft(s);
    l, r := s[..|s| - |u|], u[|TrimRight(u)|..];
  }

  lemma Assoc(a: string, b: string, c: string)
    ensures (a + b) + c == a + (b + c)
  {}

  predicate HasPrefix(s: string, prefix: string) { prefix <= s }

  datatype Option<+T> = None | Some(value: T)

  // ---------- Case, size, order ----------

  /** Lower case of the ASCII letters; other characters are left alone. */
  function ToLower(s: string): (r: string)
    ensures |r| == |s|
  {
    seq(|s|, i requires 0 <= i < |s| => if 'A' <= s[i] <= 'Z' then s[i] + 32 as char else s[i])
  }

  lemma LowerTrimmed(s: string)
    requires Trimmed(s)
    ensures Trimmed(ToLower(s)) && ToLower(ToLower(s)) == ToLower(s)
  {}

  /** The length of the UTF-8 encoding. */
  function ByteLength(s: string): nat {
    if s == "" then 0 else
      ByteLength(s[..|s| - 1]) +
      (var c := s[|s| - 1];
       if c < '\U{80}' then 1 else if c < '\U{800}' then 2 else if c < '\U{10000}' then 3 else 4)
  }

  predicate Contains(s: string, part: string) {
    exists i :: 0 <= i <= |s| && part <= s[i..]
  }

  function Join(parts: seq<string>, separator: string): string {
    if parts == [] then "" else if |parts| == 1 then parts[0] else
      Join(parts[..|parts| - 1], separator) + separator + parts[|parts| - 1]
  }

  predicate AtMost(a: string, b: string) {
    a == "" || (b != "" && (a[0] < b[0] || (a[0] == b[0] && AtMost(a[1..], b[1..]))))
  }

  lemma {:induction false} AtMostTotal(a: string, b: string)
    ensures AtMost(a, b) || AtMost(b, a)
    ensures AtMost(a, b) && AtMost(b, a) ==> a == b
  {
    if a != "" && b != "" && a[0] == b[0] {
      AtMostTotal(a[1..], b[1..]);
      assert a == [a[0]] + a[1..] && b == [b[0]] + b[1..];
    }
  }

  lemma {:induction false} AtMostTransitive(a: string, b: string, c: string)
    requires AtMost(a, b) && AtMost(b, c)
    ensures AtMost(a, c)
  {
    if a != "" && a[0] == b[0] && b[0] == c[0] { AtMostTransitive(a[1..], b[1..], c[1..]); }
  }

  predicate Sorted(xs: seq<string>) { forall i, j :: 0 <= i < j < |xs| ==> AtMost(xs[i], xs[j]) }

  function Sort(xs: seq<string>): seq<string> { Sorting.SortBy(xs, AtMost) }

  lemma SortSorts(xs: seq<string>)
    ensures Sorted(Sort(xs)) && multiset(Sort(xs)) == multiset(xs)
  {
    hide AtMost;
    forall a, b ensures AtMost(a, b) || AtMost(b, a) { AtMostTotal(a, b); }
    forall a, b, c | AtMost(a, b) && AtMost(b, c) ensures AtMost(a, c) { AtMostTransitive(a, b, c); }
    Sorting.SortBySorts(xs, AtMost);
  }

  lemma LastIsMost(xs: seq<string>, x: string)
    requires Sorted(xs) && x in xs
    ensures AtMost(x, xs[|xs| - 1])
  {
    AtMostTotal(x, x);
  }

  lemma SortedPrefix(xs: seq<string>)
    requires Sorted(xs) && xs != []
    ensures Sorted(xs[..|xs| - 1])
  {}

  lemma DropLast(xs: seq<string>)
    requires xs != []
    ensures multiset(xs[..|xs| - 1]) == multiset(xs) - multiset{xs[|xs| - 1]}
  {
    assert xs == xs[..|xs| - 1] + [xs[|xs| - 1]];
  }

  /** Sorting forgets the order it is given. */
  lemma {:induction false} SortedUnique(a: seq<string>, b: seq<string>)
    requires Sorted(a) && Sorted(b) && multiset(a) == multiset(b)
    ensures a == b
  {
    hide AtMost, Sorted;
    assert |a| == |multiset(a)| && |b| == |multiset(b)|;
    if a != [] {
      var n := |a| - 1;
      SortedPrefix(a); SortedPrefix(b);
      assert a[n] in multiset(b) && b[n] in multiset(a);
      LastIsMost(b, a[n]);
      LastIsMost(a, b[n]);
      AtMostTotal(a[n], b[n]);
      DropLast(a); DropLast(b);
      SortedUnique(a[..n], b[..n]);
      assert a == a[..n] + [a[n]] && b == b[..n] + [b[n]];
    }
  }

  lemma SortFixed(xs: seq<string>)
    requires Sorted(xs)
    ensures Sort(xs) == xs
  {
    SortSorts(xs);
    SortedUnique(Sort(xs), xs);
  }
}
