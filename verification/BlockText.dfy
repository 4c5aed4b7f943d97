/** A file as an indented block at the end of a document, and what cutting the document at separator lines makes of it. */
module BlockText {
  import opened Text
  import opened ManifestText
  import ManifestDecoder
  import ResourceCheck

  const INDENT := "    "

  function IndentLines(lines: seq<string>): seq<string> { seq(|lines|, i requires 0 <= i < |lines| => INDENT + lines[i]) }

  function Indent(s: string): string { Join(IndentLines(Lines(s)), "\n") }

  method IndentYAMLBlock(value: string) returns (block: string)
    ensures block == Indent(value)
  {
    if value == "" {
      NoLines();
      assert IndentLines([""]) == [INDENT + ""];
      assert INDENT + "" == INDENT;
      return INDENT;
    }
    var lines := Lines(value);
    for i := 0 to |lines|
      invariant |lines| == |Lines(value)|
      invariant forall k :: 0 <= k < |lines| ==> lines[k] == if k < i then INDENT + Lines(value)[k] else Lines(value)[k]
    {
      lines := lines[i := INDENT + lines[i]];
    }
    assert lines == IndentLines(Lines(value));
    block := Join(lines, "\n");
  }

  /** The number of lines before the first separator line. */
  function FirstSeparator(lines: seq<string>): (k: nat)
    ensures k <= |lines|
  {
    if lines == [] then 0
    else
      var k := FirstSeparator(lines[..|lines| - 1]);
      if k < |lines| - 1 || IsSeparator(lines[|lines| - 1]) then k else k + 1
  }

  lemma {:induction false} SeparatorFirst(lines: seq<string>)
    ensures var k := FirstSeparator(lines);
            NoSeparator(lines[..k]) && (k < |lines| ==> IsSeparator(lines[k])) && (k == |lines| <==> NoSeparator(lines))
  {
    hide IsSeparator;
    if lines != [] {
      var n := |lines| - 1;
      SeparatorFirst(lines[..n]);
      var k := FirstSeparator(lines[..n]);
      assert lines[..n][..k] == lines[..k];
      assert lines[..n + 1] == lines;
    }
  }

  /** The lines before the first separator line, as one text. */
  function FirstPart(file: string): string { DocumentOf(Lines(file)[..FirstSeparator(Lines(file))]) }

  /** The documents that cutting makes of the lines after the first separator line. */
  function Rest(file: string): seq<string> {
    var lines := Lines(file);
    var k := FirstSeparator(lines);
    if k == |lines| then [] else Pieces(IndentLines(lines[k + 1..]))
  }

  /** A document that holds a file: its own lines, and below them the file, if there is any of it. */
  function Block(head: string, file: string): string { if file == "" then head else head + "\n" + Indent(file) }

  // ---------- Indented lines ----------

  lemma IndentKeepsSeparators(line: string)
    ensures IsSeparator(INDENT + line) <==> IsSeparator(line)
  {
    hide TrimSpace;
    TrimsAlike(' ', line);
    TrimsAlike(' ', " " + line);
    TrimsAlike(' ', " " + (" " + line));
    TrimsAlike(' ', " " + (" " + (" " + line)));
    assert INDENT + line == " " + (" " + (" " + (" " + line)));
  }

  lemma IndentedLines(s: string)
    ensures Lines(Indent(s)) == IndentLines(Lines(s))
  {
    hide Lines;
    LinesAreLines(s);
    LinesOfJoin(IndentLines(Lines(s)));
  }

  lemma IndentedClean(lines: seq<string>)
    ensures NoSeparator(IndentLines(lines)) <==> NoSeparator(lines)
  {
    hide IsSeparator;
    forall i | 0 <= i < |lines| ensures IsSeparator(IndentLines(lines)[i]) <==> IsSeparator(lines[i]) {
      IndentKeepsSeparators(lines[i]);
    }
  }

  lemma IndentedUnmarked(lines: seq<string>)
    ensures ManifestDecoder.NoneMarked(IndentLines(lines))
  {
    forall i | 0 <= i < |lines| ensures !ManifestDecoder.Marked(IndentLines(lines)[i]) {
      assert (INDENT + lines[i])[0] == ' ' && "---"[0] == '-';
    }
  }

  lemma IndentSnoc(s: string, c: char)
    ensures Indent(s + [c]) == Indent(s) + if c == '\n' then "\n" + INDENT else [c]
  {
    hide Lines, Join;
    LinesSnoc(s, c);
    var lines := Lines(s);
    var n := |lines| - 1;
    var before := IndentLines(lines[..n]);
    assert IndentLines(lines) == before + [INDENT + lines[n]];
    if c == '\n' {
      assert INDENT + "" == INDENT;
      assert IndentLines(lines + [""]) == IndentLines(lines) + [INDENT];
      JoinSnoc(IndentLines(lines), INDENT);
      Assoc(Indent(s), "\n", INDENT);
    } else {
      assert IndentLines(Lines(s + [c])) == before + [INDENT + (lines[n] + [c])];
      Assoc(INDENT, lines[n], [c]);
      if before == [] {
        JoinOne(INDENT + lines[n]);
        JoinOne(INDENT + lines[n] + [c]);
        assert before + [INDENT + lines[n]] == [INDENT + lines[n]] && before + [INDENT + lines[n] + [c]] == [INDENT + lines[n] + [c]];
      } else {
        JoinSnoc(before, INDENT + lines[n]);
        JoinSnoc(before, INDENT + lines[n] + [c]);
        Assoc(Join(before, "\n") + "\n", INDENT + lines[n], [c]);
      }
    }
  }

  lemma JoinOne(line: string)
    ensures Join([line], "\n") == line
  {}

  lemma JoinSnoc(lines: seq<string>, line: string)
    requires lines != []
    ensures Join(lines + [line], "\n") == Join(lines, "\n") + "\n" + line
  {
    assert (lines + [line])[..|lines|] == lines;
  }

  /** Splitting lines in two and joining each half. */
  lemma JoinHalves(a: seq<string>, b: seq<string>)
    requires a != [] && b != [] && OneLiners(a) && OneLiners(b)
    ensures Join(a + b, "\n") == Join(a, "\n") + "\n" + Join(b, "\n")
  {
    hide Lines, Join;
    LinesOfJoin(a);
    LinesOfJoin(b);
    LinesOfTwo(Join(a, "\n"), Join(b, "\n"));
    LinesJoined(Join(a, "\n") + "\n" + Join(b, "\n"));
  }

  // ---------- Trimming ----------

  lemma TrimRightSnoc(s: string, c: char)
    requires IsSpace(c)
    ensures TrimRight(s + [c]) == TrimRight(s)
  {
    hide IsSpace, AllSpace;
    assert (s + [c])[..|s|] == s;
  }

  lemma {:induction false} TrimRightMore(s: string, space: string)
    requires AllSpace(space)
    ensures TrimRight(s + space) == TrimRight(s)
  {
    hide IsSpace, AllSpace, TrimRight;
    if space == "" {
      assert s + space == s;
    } else {
      var n := |space| - 1;
      SpaceEnds(space);
      TrimRightMore(s, space[..n]);
      TrimRightSnoc(s + space[..n], space[n]);
      assert s + space == s + space[..n] + [space[n]];
    }
  }

  lemma SpaceEnds(space: string)
    requires AllSpace(space) && space != ""
    ensures AllSpace(space[..|space| - 1]) && IsSpace(space[|space| - 1])
  {
    hide IsSpace;
  }

  lemma TrimRightStops(s: string)
    requires s != "" && !IsSpace(s[|s| - 1])
    ensures TrimRight(s) == s
  {}

  /** Trimming an indented file at its end is indenting the trimmed file. */
  lemma {:induction false} TrimIndented(head: string, file: string)
    requires head != "" && !IsSpace(head[|head| - 1]) && (file != "" ==> !IsSpace(file[0]))
    ensures TrimRight(head + "\n" + Indent(file)) == Block(head, TrimRight(file))
  {
    hide Indent, TrimRight;
    if file == "" {
      NothingIndented();
      TrimRightMore(head, "\n" + INDENT);
      TrimRightStops(head);
      TrimRightMore("", "");
      assert head + "\n" + INDENT == head + ("\n" + INDENT);
      TrimRightSkips("", "");
    } else {
      var init, last := file[..|file| - 1], file[|file| - 1];
      assert file == init + [last];
      IndentSnoc(init, last);
      if IsSpace(last) {
        var space := if last == '\n' then "\n" + INDENT else [last];
        TrimIndented(head, init);
        TrimRightMore(head + "\n" + Indent(init), space);
        Assoc(head + "\n", Indent(init), space);
        TrimRightMore(init, [last]);
      } else {
        TrimRightStops(file);
        TrimRightStops(head + "\n" + Indent(file));
      }
    }
  }

  lemma NothingIndented()
    ensures Indent("") == INDENT
  {
    NoLines();
    assert IndentLines([""]) == [INDENT + ""];
    assert INDENT + "" == INDENT;
  }

  lemma {:induction false} TrimmedStart(s: string)
    requires s != "" && !IsSpace(s[0])
    ensures TrimSpace(s) == TrimRight(s) && TrimSpace(s) != "" && TrimSpace(s)[0] == s[0]
  {
    TrimLeftStops(s);
    if IsSpace(s[|s| - 1]) {
      TrimLeftStops(s[..|s| - 1]);
      TrimmedStart(s[..|s| - 1]);
    }
  }

  // ---------- Cutting the document of a file ----------

  lemma CleanPart(file: string)
    requires Trimmed(file)
    ensures Clean(file) ==> FirstPart(file) == file && Rest(file) == []
    ensures Clean(FirstPart(file)) && Trimmed(FirstPart(file)) && (FirstPart(file) == file <==> Clean(file))
  {
    hide TrimSpace, Join, Lines, IsSeparator;
    var lines := Lines(file);
    var k := FirstSeparator(lines);
    SeparatorFirst(lines);
    LinesAreLines(file);
    if k == |lines| {
      assert lines[..k] == lines;
      LinesJoined(file);
      TrimTrimmed(file);
    } else {
      if FirstPart(file) != "" {
        DocumentClean(lines[..k]);
      } else {
        BlankLine();
      }
    }
  }

  /** What the text before the first separator line starts with. */
  lemma PartStarts(file: string, k: nat)
    requires Trimmed(file) && 0 < k <= |Lines(file)| && file != ""
    ensures var before := Join(Lines(file)[..k], "\n"); before != "" && before[0] == file[0]
  {
    hide Lines, Join;
    var lines := Lines(file);
    LinesAreLines(file);
    LinesJoined(file);
    if k == |lines| {
      assert lines[..k] == lines;
    } else {
      assert lines == lines[..k] + lines[k..];
      JoinHalves(lines[..k], lines[k..]);
    }
  }

  /** The document of a file up to the first separator line in it is the document of the file's first part. */
  lemma CutBlock(head: string, file: string)
    requires IsDocument(head) && Trimmed(file)
    ensures var lines := Lines(file);
            DocumentOf(Lines(head) + IndentLines(lines[..FirstSeparator(lines)])) == Block(head, FirstPart(file))
  {
    hide Lines, Join, TrimSpace, IsSeparator, Clean, Indent, Block, IndentLines;
    var lines := Lines(file);
    var k := FirstSeparator(lines);
    SeparatorFirst(lines);
    LinesAreLines(file);
    LinesJoined(head);
    if k == 0 {
      NoIndentedLines(lines);
      assert Lines(head) + [] == Lines(head);
      TrimTrimmed(head);
      NothingBefore(head, file);
    } else {
      var before := Join(lines[..k], "\n");
      LinesOfJoin(lines[..k]);
      IndentedLines(before);
      LinesOfTwo(head, Indent(before));
      LinesJoined(head + "\n" + Indent(before));
      NothingFirst(file);
      if file == "" {
        TrimIndented(head, "");
        NothingIndented();
        NoLines();
        assert lines[..k] == [""];
        JoinOne("");
        TrimmedStart(head + "\n" + Indent(before));
        TrimTrimmed("");
        TrimRightSkips("", "");
        assert "" + "" == "";
      } else {
        PartStarts(file, k);
        TrimIndented(head, before);
        TrimmedStart(before);
        TrimmedStart(head + "\n" + Indent(before));
      }
    }
  }

  lemma NoIndentedLines(lines: seq<string>)
    ensures IndentLines(lines[..0]) == []
  {}

  lemma NothingBefore(head: string, file: string)
    requires FirstSeparator(Lines(file)) == 0
    ensures Block(head, FirstPart(file)) == head
  {
    TrimTrimmed("");
  }

  lemma NothingFirst(file: string)
    ensures FirstPart(file) == TrimSpace(Join(Lines(file)[..FirstSeparator(Lines(file))], "\n"))
  {}

  lemma OnePiece(lines: seq<string>)
    requires NoSeparator(lines)
    ensures Pieces(lines) == if DocumentOf(lines) == "" then [] else [DocumentOf(lines)]
  {
    hide IsSeparator, DocumentOf;
    CutClean([], lines);
    CutNothing();
    assert [] + lines == lines;
    OneDocument([], lines);
    assert DocumentsOf([]) == [];
  }

  lemma NoSeparatorConcat(a: seq<string>, b: seq<string>)
    requires NoSeparator(a) && NoSeparator(b)
    ensures NoSeparator(a + b)
  {
    hide IsSeparator;
  }

  /** Cutting a document at separator lines leaves the part of its file before the first of them in it; what comes after is
      documents of its own. */
  lemma SplitBlock(head: string, file: string)
    requires IsDocument(head) && Trimmed(file)
    ensures Split(head + "\n" + Indent(file)) == [Block(head, FirstPart(file))] + Rest(file)
  {
    hide Lines, Join, TrimSpace, IsSeparator, Indent, Block, IndentLines, Pieces, DocumentOf, Trimmed;
    var lines := Lines(file);
    var k := FirstSeparator(lines);
    SeparatorFirst(lines);
    LinesOfTwo(head, Indent(file));
    IndentedLines(file);
    CutBlock(head, file);
    IndentedClean(lines[..k]);
    var first := Lines(head) + IndentLines(lines[..k]);
    NoSeparatorConcat(Lines(head), IndentLines(lines[..k]));
    OnePiece(first);
    BlockHasText(head, FirstPart(file));
    if k == |lines| {
      assert lines[..k] == lines;
      assert [Block(head, FirstPart(file))] + [] == [Block(head, FirstPart(file))];
    } else {
      IndentedParts(lines, k);
      IndentKeepsSeparators(lines[k]);
      PiecesSeparated(first, INDENT + lines[k], IndentLines(lines[k + 1..]));
      assert Lines(head) + IndentLines(lines) == first + [INDENT + lines[k]] + IndentLines(lines[k + 1..]);
    }
  }

  lemma IndentedParts(lines: seq<string>, k: nat)
    requires k < |lines|
    ensures IndentLines(lines) == IndentLines(lines[..k]) + [INDENT + lines[k]] + IndentLines(lines[k + 1..])
  {}

  lemma BlockHasText(head: string, file: string)
    requires head != ""
    ensures Block(head, file) != ""
  {}

  // ---------- The decoder leaves it in one piece ----------

  /** Below the lines of the document itself every line is indented. */
  lemma BlockWhole(head: string, file: string)
    requires ManifestDecoder.Whole(head)
    ensures ManifestDecoder.Whole(head + "\n" + Indent(file)) && ManifestDecoder.Whole(Block(head, file))
  {
    hide Lines, ManifestDecoder.Marked, IndentLines, Indent;
    LinesOfTwo(head, Indent(file));
    IndentedLines(file);
    IndentedUnmarked(Lines(file));
    var n := |Lines(head)|;
    forall i | 0 < i < |Lines(head + "\n" + Indent(file))| ensures !ManifestDecoder.Marked(Lines(head + "\n" + Indent(file))[i]) {
      if i >= n {
        assert Lines(head + "\n" + Indent(file))[i] == IndentLines(Lines(file))[i - n];
      }
    }
  }

  lemma {:induction false} DocumentsWhole(groups: seq<seq<string>>)
    requires forall i :: 0 <= i < |groups| ==> OneLiners(groups[i]) && ManifestDecoder.NoneMarked(groups[i])
    ensures forall i :: 0 <= i < |DocumentsOf(groups)| ==> ManifestDecoder.Whole(DocumentsOf(groups)[i])
  {
    hide DocumentOf, OneLiners, ManifestDecoder.NoneMarked, ManifestDecoder.Whole;
    if groups != [] {
      DocumentsWhole(groups[..|groups| - 1]);
      GroupWhole(groups[|groups| - 1]);
    }
  }

  lemma GroupWhole(lines: seq<string>)
    requires OneLiners(lines) && ManifestDecoder.NoneMarked(lines)
    ensures ManifestDecoder.Whole(DocumentOf(lines))
  {
    hide TrimSpace, ManifestDecoder.Marked, Lines;
    if lines != [] {
      LinesOfJoin(lines);
      ManifestDecoder.TrimWhole(Join(lines, "\n"));
    } else {
      TrimTrimmed("");
      NoLines();
    }
  }

  /** What comes after a separator line in a file is decoded as it was cut. */
  lemma RestWhole(file: string)
    ensures forall i :: 0 <= i < |Rest(file)| ==> ManifestDecoder.Whole(Rest(file)[i]) && IsDocument(Rest(file)[i])
  {
    hide Lines, IndentLines, OneLiners, IsDocument, ManifestDecoder.Whole, ManifestDecoder.Marked, NoSeparator, CutLines, DocumentsOf;
    var lines := Lines(file);
    var k := FirstSeparator(lines);
    if k < |lines| {
      var more := IndentLines(lines[k + 1..]);
      LinesAreLines(file);
      IndentedOneLiners(lines, k);
      IndentedUnmarked(lines[k + 1..]);
      CutIsClean(more);
      var cut := CutLines(more);
      var groups := cut.finished + [cut.current];
      forall i | 0 <= i < |groups| ensures OneLiners(groups[i]) && ManifestDecoder.NoneMarked(groups[i]) && NoSeparator(groups[i]) {
        GroupFrom(more, groups[i]);
      }
      DocumentsWhole(groups);
      DocumentsClean(groups);
    }
  }

  lemma IndentedOneLiners(lines: seq<string>, k: nat)
    requires OneLiners(lines) && k < |lines|
    ensures OneLiners(IndentLines(lines[k + 1..]))
  {}

  lemma GroupFrom(lines: seq<string>, group: seq<string>)
    requires OneLiners(lines) && ManifestDecoder.NoneMarked(lines) && forall line :: line in group ==> line in lines
    ensures OneLiners(group) && ManifestDecoder.NoneMarked(group)
  {
    hide ManifestDecoder.Marked;
    forall i | 0 <= i < |group| ensures '\n' !in group[i] && !ManifestDecoder.Marked(group[i]) {
      assert group[i] in group;
    }
  }

  // ---------- Files without dashes ----------

  lemma IndentedNoDashes(line: string)
    ensures ResourceCheck.NoDashes(INDENT + line) <==> ResourceCheck.NoDashes(line)
  {
    var s := INDENT + line;
    assert s[0] == ' ' && s[1] == ' ' && s[2] == ' ' && s[3] == ' ';
    forall i | 0 <= i <= |line| - 3 ensures ResourceCheck.DashesAt(s, i + 4) == ResourceCheck.DashesAt(line, i) {}
    if ResourceCheck.NoDashes(s) {
      forall i | 0 <= i <= |line| - 3 ensures !ResourceCheck.DashesAt(line, i) {
        assert !ResourceCheck.DashesAt(s, i + 4);
      }
    }
    if ResourceCheck.NoDashes(line) {
      forall i | 0 <= i <= |s| - 3 ensures !ResourceCheck.DashesAt(s, i) {
        if i >= 4 {
          assert !ResourceCheck.DashesAt(line, i - 4);
        }
      }
    }
  }

  /** Indenting neither makes nor breaks dashes. */
  lemma IndentNoDashes(file: string)
    ensures ResourceCheck.NoDashes(Indent(file)) <==> ResourceCheck.NoDashes(file)
  {
    hide ResourceCheck.NoDashes, Lines;
    var lines := Lines(file);
    forall i | 0 <= i < |lines| ensures ResourceCheck.NoDashes(IndentLines(lines)[i]) <==> ResourceCheck.NoDashes(lines[i]) {
      IndentedNoDashes(lines[i]);
    }
    LinesJoined(file);
    ResourceCheck.JoinNoDashes(lines);
    ResourceCheck.JoinNoDashes(IndentLines(lines));
  }

  lemma BlockNoDashes(head: string, file: string)
    requires ResourceCheck.NoDashes(head) && ResourceCheck.NoDashes(file)
    ensures ResourceCheck.NoDashes(head + "\n" + Indent(file)) && ResourceCheck.NoDashes(Block(head, file))
  {
    hide ResourceCheck.NoDashes, Indent;
    IndentNoDashes(file);
    ResourceCheck.TwoNoDashes(head, Indent(file));
  }

  lemma BlockTrimmed(head: string, file: string)
    requires IsDocument(head) && Trimmed(file)
    ensures TrimSpace(head + "\n" + Indent(file)) == Block(head, file) && TrimSpace(Block(head, file)) == Block(head, file)
  {
    hide Indent, Clean, TrimSpace, TrimRight;
    TrimIndented(head, file);
    TrimmedStart(head + "\n" + Indent(file));
    if file == "" {
      TrimRightStops(head);
      TrimTrimmed(head);
      TrimRightSkips("", "");
      assert "" + "" == "";
    } else {
      TrimRightStops(file);
    }
    TrimTrimmed(TrimSpace(head + "\n" + Indent(file)));
  }

  // ---------- Files with a separator line ----------

  lemma {:induction false} SeparatorAfter(a: seq<string>, separator: string, b: seq<string>)
    requires NoSeparator(a) && IsSeparator(separator)
    ensures FirstSeparator(a + [separator] + b) == |a|
  {
    hide IsSeparator;
    var lines := a + [separator] + b;
    SeparatorFirst(lines);
    var k := FirstSeparator(lines);
    assert lines[|a|] == separator && forall i :: 0 <= i < |a| ==> lines[i] == a[i];
    assert forall i :: 0 <= i < k ==> lines[..k][i] == lines[i];
  }

  lemma IndentedSeparator(indent: string)
    requires AllSpace(indent) && '\n' !in indent
    ensures IsSeparator(indent + "---") && Lines(indent + "---") == [indent + "---"]
  {
    hide TrimSpace;
    TrimPadded(indent, "---", "");
    assert indent + "---" + "" == indent + "---";
    LinesOfOne(indent + "---");
  }

  /** A separator line inside a file, however far it is indented: what comes before it is left in the file's document. */
  lemma SeparatedFile(first: string, indent: string, second: string)
    requires IsDocument(first) && AllSpace(indent) && '\n' !in indent
    ensures var file := first + "\n" + (indent + "---") + "\n" + second;
            FirstPart(file) == first && Rest(file) == Pieces(IndentLines(Lines(second))) && !Clean(file)
  {
    hide Lines, TrimSpace, IsSeparator, IndentLines, Pieces, AllSpace;
    var separator := indent + "---";
    var file := first + "\n" + separator + "\n" + second;
    IndentedSeparator(indent);
    LinesOfTwo(first + "\n" + separator, second);
    LinesOfTwo(first, separator);
    assert Lines(file) == Lines(first) + [separator] + Lines(second);
    SeparatorAfter(Lines(first), separator, Lines(second));
    SeparatorFirst(Lines(file));
    assert Lines(file)[..|Lines(first)|] == Lines(first);
    assert Lines(file)[|Lines(first)| + 1..] == Lines(second);
    LinesJoined(first);
    TrimTrimmed(first);
  }

  lemma NoLinesBefore(lines: seq<string>)
    requires FirstSeparator(lines) == 0
    ensures DocumentOf(lines[..FirstSeparator(lines)]) == ""
  {
    TrimTrimmed("");
  }

  lemma OpeningLines(second: string)
    ensures Lines("---\n" + second) == ["---"] + Lines(second)
  {
    hide Lines;
    LinesOfTwo("---", second);
    LinesOfOne("---");
    assert "---" + "\n" + second == "---\n" + second;
  }

  /** A file that opens with a separator line, as a YAML document may: nothing of it is left in its document. */
  lemma OpeningSeparator(second: string)
    ensures var file := "---\n" + second;
            FirstPart(file) == "" && Rest(file) == Pieces(IndentLines(Lines(second))) && !Clean(file)
  {
    hide Lines, TrimSpace, IsSeparator, IndentLines, Pieces, DocumentOf;
    var lines := Lines("---\n" + second);
    OpeningLines(second);
    IndentedSeparator("");
    assert "" + "---" == "---";
    assert lines == [] + ["---"] + Lines(second);
    SeparatorAfter([], "---", Lines(second));
    SeparatorFirst(lines);
    NoLinesBefore(lines);
    assert lines[1..] == Lines(second);
  }
}
