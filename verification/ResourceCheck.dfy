/** The check a manifest must pass before anything of it is applied: cut at every three dashes, wherever they are, each part must
    name a resource completely. */
module ResourceCheck {
  import opened Text
  import opened ManifestText

  /** The parts between three dashes, the leftmost ones first. */
  function DashSplit(s: string): (parts: seq<string>)
    ensures parts != []
  {
    if |s| < 3 then [s]
    else if s[..3] == "---" then [""] + DashSplit(s[3..])
    else
      var parts := DashSplit(s[1..]);
      [[s[0]] + parts[0]] + parts[1..]
  }

  function NonBlank(parts: seq<string>): seq<string> {
    if parts == [] then []
    else
      var part := TrimSpace(parts[|parts| - 1]);
      NonBlank(parts[..|parts| - 1]) + if part == "" then [] else [part]
  }

  function Resources(text: string): seq<string> { NonBlank(DashSplit(text)) }

  predicate AllComplete(complete: string -> bool, text: string) {
    forall part :: part in Resources(text) ==> complete(part)
  }

  predicate Accepts(complete: string -> bool, text: string) { Resources(text) != [] && AllComplete(complete, text) }

  method ParseResourceIdentities(complete: string -> bool, text: string) returns (ok: bool)
    ensures ok <==> Accepts(complete, text)
  {
    var parts := DashSplit(text);
    var documents: seq<string> := [];
    for i := 0 to |parts|
      invariant documents == NonBlank(parts[..i])
    {
      assert parts[..i + 1][..i] == parts[..i];
      var trimmed := TrimSpace(parts[i]);
      if trimmed != "" {
        documents := documents + [trimmed];
      }
    }
    assert parts[..|parts|] == parts;
    if documents == [] {
      return false;
    }
    for i := 0 to |documents|
      invariant forall part :: part in documents[..i] ==> complete(part)
    {
      assert documents[..i + 1] == documents[..i] + [documents[i]];
      if !complete(documents[i]) {
        return false;
      }
    }
    assert documents[..|documents|] == documents;
    ok := true;
  }

  // ---------- Cutting ----------

  lemma DashStep(s: string)
    requires s != "" && !(|s| >= 3 && s[..3] == "---")
    ensures DashSplit(s) == DashSplit(s[1..])[0 := [s[0]] + DashSplit(s[1..])[0]]
  {
    if |s| < 3 {
      var rest := s[1..];
      assert DashSplit(rest) == [rest] && DashSplit(s) == [s];
      assert s == [s[0]] + rest;
    }
  }

  lemma DashLead(s: string)
    ensures DashSplit("---" + s) == [""] + DashSplit(s)
  {
    assert ("---" + s)[..3] == "---" && ("---" + s)[3..] == s;
  }

  lemma {:induction false} DashConcat(a: string, b: string)
    requires a != "" && a[|a| - 1] != '-'
    ensures DashSplit(a + "---" + b) == DashSplit(a) + DashSplit(b)
  {
    hide DashSplit;
    var s := a + "---" + b;
    if |a| >= 3 && a[..3] == "---" {
      DashConcat(a[3..], b);
      DashLead(a[3..]);
      DashLead(a[3..] + "---" + b);
      assert a == "---" + a[3..] && s == "---" + (a[3..] + "---" + b);
    } else {
      assert |s| >= 3 && s[..3] != "---" by {
        assert s[..3][0] == a[0];
        assert |a| >= 2 ==> s[..3][1] == a[1];
        assert |a| >= 3 ==> s[..3] == a[..3];
      }
      DashStep(s);
      DashStep(a);
      if |a| == 1 {
        DashLead(b);
        assert s[1..] == "---" + b && a[1..] == "";
        NoDash();
      } else {
        DashConcat(a[1..], b);
        assert s[1..] == a[1..] + "---" + b;
      }
    }
  }

  lemma NoDash()
    ensures DashSplit("") == [""]
  {}

  lemma {:induction false} DashSnoc(s: string, c: char)
    requires c != '-'
    ensures var parts := DashSplit(s); DashSplit(s + [c]) == parts[|parts| - 1 := parts[|parts| - 1] + [c]]
  {
    hide DashSplit;
    var t := s + [c];
    NoDash();
    if s == "" {
      DashStep(t);
      assert t[1..] == "";
      assert [c] + "" == "" + [c];
    } else if |s| >= 3 && s[..3] == "---" {
      DashSnoc(s[3..], c);
      DashLead(s[3..]);
      DashLead(s[3..] + [c]);
      assert s == "---" + s[3..] && t == "---" + (s[3..] + [c]);
    } else {
      assert !(|t| >= 3 && t[..3] == "---") by {
        assert |s| >= 3 ==> t[..3] == s[..3];
        assert |s| == 2 ==> t[..3][2] == c;
      }
      DashStep(t);
      DashStep(s);
      DashSnoc(s[1..], c);
      assert t[1..] == s[1..] + [c];
      Assoc([s[0]], DashSplit(s[1..])[0], [c]);
    }
  }

  lemma DashCons(c: char, s: string)
    requires c != '-'
    ensures DashSplit([c] + s) == DashSplit(s)[0 := [c] + DashSplit(s)[0]]
  {
    hide DashSplit;
    var t := [c] + s;
    assert |t| >= 3 ==> t[..3][0] == c;
    DashStep(t);
    assert t[1..] == s;
  }

  lemma NonBlankSnoc(parts: seq<string>, part: string)
    ensures NonBlank(parts + [part]) == NonBlank(parts) + if TrimSpace(part) == "" then [] else [TrimSpace(part)]
  {
    hide TrimSpace;
    assert (parts + [part])[..|parts|] == parts;
  }

  lemma {:induction false} NonBlankConcat(a: seq<string>, b: seq<string>)
    ensures NonBlank(a + b) == NonBlank(a) + NonBlank(b)
  {
    hide TrimSpace, NonBlank;
    if b == [] {
      assert a + b == a;
      NothingBlank();
    } else {
      var n := |b| - 1;
      NonBlankConcat(a, b[..n]);
      NonBlankSnoc(a + b[..n], b[n]);
      NonBlankSnoc(b[..n], b[n]);
      assert a + b == a + b[..n] + [b[n]] && b == b[..n] + [b[n]];
    }
  }

  lemma NothingBlank()
    ensures NonBlank([]) == []
  {}

  lemma NonBlankOne(part: string)
    ensures NonBlank([part]) == if TrimSpace(part) == "" then [] else [TrimSpace(part)]
  {
    assert [part][..0] == [];
  }

  /** A line feed at either end does not show. */
  lemma ResourcesPadded(text: string)
    ensures Resources("\n" + text) == Resources(text) && Resources(text + "\n") == Resources(text)
  {
    hide TrimSpace, DashSplit, NonBlank;
    var parts := DashSplit(text);
    var n := |parts| - 1;
    DashCons('\n', text);
    DashSnoc(text, '\n');
    TrimsAlike('\n', parts[0]);
    TrimsAlike('\n', parts[n]);
    assert parts == [parts[0]] + parts[1..] && DashSplit("\n" + text) == [['\n'] + parts[0]] + parts[1..];
    assert parts == parts[..n] + [parts[n]] && DashSplit(text + "\n") == parts[..n] + [parts[n] + ['\n']];
    NonBlankConcat([parts[0]], parts[1..]);
    NonBlankConcat([['\n'] + parts[0]], parts[1..]);
    NonBlankConcat(parts[..n], [parts[n]]);
    NonBlankConcat(parts[..n], [parts[n] + ['\n']]);
    NonBlankOne(parts[0]);
    NonBlankOne(['\n'] + parts[0]);
    NonBlankOne(parts[n]);
    NonBlankOne(parts[n] + ['\n']);
  }

  function AllResources(texts: seq<string>): seq<string> {
    if texts == [] then [] else AllResources(texts[..|texts| - 1]) + Resources(texts[|texts| - 1])
  }

  lemma {:induction false} ResourcesOfJoin(texts: seq<string>)
    requires texts != []
    ensures Resources(Join(texts, "\n---\n")) == AllResources(texts)
  {
    hide Resources;
    var n := |texts| - 1;
    if n == 0 {
      assert AllResources(texts[..0]) == [];
    } else {
      var before, last := Join(texts[..n], "\n---\n"), texts[n];
      ResourcesOfJoin(texts[..n]);
      ResourcesOfTwo(before + "\n", "\n" + last);
      ResourcesPadded(before);
      ResourcesPadded(last);
      assert before + "\n---\n" + last == before + "\n" + "---" + ("\n" + last);
    }
  }

  lemma ResourcesOfTwo(a: string, b: string)
    requires a != "" && a[|a| - 1] != '-'
    ensures Resources(a + "---" + b) == Resources(a) + Resources(b)
  {
    hide DashSplit, NonBlank;
    DashConcat(a, b);
    NonBlankConcat(DashSplit(a), DashSplit(b));
  }

  /** A print is cut into the parts of the texts printed. */
  lemma ResourcesOfPrint(texts: seq<string>)
    ensures Resources(Print(texts)) == AllResources(texts)
  {
    hide Resources, Join;
    if texts == [] {
      NoResources();
    } else {
      ResourcesOfJoin(texts);
      ResourcesPadded(Join(texts, "\n---\n"));
    }
  }

  lemma NoResources()
    ensures Resources("") == []
  {
    TrimTrimmed("");
    NonBlankOne("");
  }

  lemma {:induction false} CompleteEach(complete: string -> bool, texts: seq<string>)
    ensures (forall part :: part in AllResources(texts) ==> complete(part)) <==>
            forall k :: 0 <= k < |texts| ==> AllComplete(complete, texts[k])
  {
    hide Resources;
    if texts != [] {
      var n := |texts| - 1;
      CompleteEach(complete, texts[..n]);
      assert forall k :: 0 <= k < n ==> texts[..n][k] == texts[k];
    }
  }

  /** A print is accepted exactly when something is in it, and every part of every text is complete. */
  lemma AcceptsPrint(complete: string -> bool, texts: seq<string>)
    ensures Accepts(complete, Print(texts)) <==>
            AllResources(texts) != [] && forall k :: 0 <= k < |texts| ==> AllComplete(complete, texts[k])
  {
    hide Resources, Print, AllResources;
    ResourcesOfPrint(texts);
    CompleteEach(complete, texts);
  }

  // ---------- Texts without dashes ----------

  predicate DashesAt(s: string, i: nat)
    requires i + 3 <= |s|
  {
    s[i] == '-' && s[i + 1] == '-' && s[i + 2] == '-'
  }

  predicate NoDashes(s: string) { forall i :: 0 <= i <= |s| - 3 ==> !DashesAt(s, i) }

  lemma {:induction false} DashFree(s: string)
    requires NoDashes(s)
    ensures DashSplit(s) == [s]
  {
    if |s| >= 3 {
      assert !DashesAt(s, 0);
      assert s[..3][0] == s[0] && s[..3][1] == s[1] && s[..3][2] == s[2];
      forall i | 0 <= i <= |s[1..]| - 3 ensures !DashesAt(s[1..], i) { assert DashesAt(s[1..], i) == DashesAt(s, i + 1); }
      DashFree(s[1..]);
      assert [s[0]] + s[1..] == s;
    }
  }

  /** A text without dashes is one resource. */
  lemma OneResource(text: string)
    requires NoDashes(text) && TrimSpace(text) != ""
    ensures Resources(text) == [TrimSpace(text)]
  {
    hide TrimSpace, DashSplit;
    DashFree(text);
    NonBlankOne(text);
  }

  lemma TwoNoDashes(a: string, b: string)
    ensures NoDashes(a + "\n" + b) <==> NoDashes(a) && NoDashes(b)
  {
    var s := a + "\n" + b;
    var n := |a| + 1;
    forall i | 0 <= i <= |a| - 3 ensures DashesAt(s, i) == DashesAt(a, i) {}
    forall i | 0 <= i <= |b| - 3 ensures DashesAt(s, n + i) == DashesAt(b, i) {}
    forall i | 0 <= i <= |s| - 3 && |a| - 3 < i < n ensures !DashesAt(s, i) {
      assert s[|a|] == '\n';
    }
    if NoDashes(a) && NoDashes(b) {
      forall i | 0 <= i <= |s| - 3 ensures !DashesAt(s, i) {
        if i >= n {
          assert !DashesAt(b, i - n);
        }
      }
    }
    if NoDashes(s) {
      forall i | 0 <= i <= |b| - 3 ensures !DashesAt(b, i) {
        assert !DashesAt(s, n + i);
      }
    }
  }

  predicate NoneDashed(lines: seq<string>) { forall i :: 0 <= i < |lines| ==> NoDashes(lines[i]) }

  lemma {:induction false} JoinNoDashes(lines: seq<string>)
    ensures NoDashes(Join(lines, "\n")) <==> NoneDashed(lines)
  {
    hide NoDashes;
    if lines == [] {
      NothingDashed();
    } else if |lines| > 1 {
      var n := |lines| - 1;
      JoinNoDashes(lines[..n]);
      TwoNoDashes(Join(lines[..n], "\n"), lines[n]);
      assert lines == lines[..n] + [lines[n]];
    }
  }

  lemma NothingDashed()
    ensures NoDashes("")
  {}

  lemma SeparatorDashed(line: string)
    requires IsSeparator(line)
    ensures !NoDashes(line)
  {
    hide TrimSpace;
    var l, r := TrimSplits(line);
    var n := |l|;
    assert DashesAt(line, n);
  }

  /** A file without dashes has no separator line. */
  lemma NoDashesClean(file: string)
    requires NoDashes(file)
    ensures Clean(file)
  {
    hide NoDashes, IsSeparator, Lines;
    LinesJoined(file);
    JoinNoDashes(Lines(file));
    forall i | 0 <= i < |Lines(file)| ensures !IsSeparator(Lines(file)[i]) {
      if IsSeparator(Lines(file)[i]) {
        SeparatorDashed(Lines(file)[i]);
      }
    }
  }
}
