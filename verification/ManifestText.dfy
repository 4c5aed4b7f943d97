/** Manifests with several YAML documents in one text: cutting the text into documents, and printing some of them again. */
module ManifestText {
  import opened Text

  // ---------- Lines ----------

  /** The pieces of a text between line feeds. */
  function Lines(s: string): (lines: seq<string>)
    ensures lines != []
  {
    if s == "" then [""]
    else
      var earlier := Lines(s[..|s| - 1]);
      if s[|s| - 1] == '\n' then earlier + [""] else earlier[|earlier| - 1 := earlier[|earlier| - 1] + [s[|s| - 1]]]
  }

  predicate IsSeparator(line: string) { TrimSpace(line) == "---" }

  /** No line of the text separates documents. */
  predicate Clean(s: string) { NoSeparator(Lines(s)) }

  predicate NoSeparator(lines: seq<string>) { forall i :: 0 <= i < |lines| ==> !IsSeparator(lines[i]) }

  lemma {:induction false} LinesJoined(s: string)
    ensures Join(Lines(s), "\n") == s
  {
    if s == "" {
    } else {
      var init, last := s[..|s| - 1], s[|s| - 1];
      LinesJoined(init);
      var earlier := Lines(init);
      var n := |earlier| - 1;
      assert s == init + [last];
      if last == '\n' {
        assert (earlier + [""])[..n + 1] == earlier;
        assert Join(Lines(s), "\n") == init + "\n" + "";
      } else {
        var now := Lines(s);
        assert now[..n] == earlier[..n];
        if n > 0 {
          Assoc(Join(earlier[..n], "\n") + "\n", earlier[n], [last]);
        }
      }
    }
  }

  lemma LinesSnoc(s: string, c: char)
    ensures Lines(s + [c]) == if c == '\n' then Lines(s) + [""] else Lines(s)[|Lines(s)| - 1 := Lines(s)[|Lines(s)| - 1] + [c]]
  {
    assert (s + [c])[..|s|] == s;
  }

  lemma {:induction false} LinesOfTwo(a: string, b: string)
    ensures Lines(a + "\n" + b) == Lines(a) + Lines(b)
  {
    hide Lines;
    if b == "" {
      LinesSnoc(a, '\n');
      NoLines();
      assert a + "\n" + b == a + "\n";
    } else {
      var init, last := b[..|b| - 1], b[|b| - 1];
      LinesOfTwo(a, init);
      LinesSnoc(a + "\n" + init, last);
      LinesSnoc(init, last);
      assert b == init + [last];
      Assoc(a + "\n", init, [last]);
    }
  }

  lemma NoLines()
    ensures Lines("") == [""]
  {}

  lemma {:induction false} LinesOfOne(s: string)
    requires '\n' !in s
    ensures Lines(s) == [s]
  {
    if s != "" {
      LinesOfOne(s[..|s| - 1]);
      assert s == s[..|s| - 1] + [s[|s| - 1]];
    }
  }

  /** Putting a character before a text starts a line or lengthens the first one. */
  lemma {:induction false} LinesCons(c: char, s: string)
    ensures Lines([c] + s) == if c == '\n' then [""] + Lines(s) else Lines(s)[0 := [c] + Lines(s)[0]]
  {
    hide Lines;
    NoLines();
    if s == "" {
      LinesSnoc("", c);
      assert [c] + s == "" + [c];
      assert "" + [c] == [c] + "";
    } else {
      var init, last := s[..|s| - 1], s[|s| - 1];
      assert s == init + [last];
      LinesCons(c, init);
      LinesSnoc([c] + init, last);
      LinesSnoc(init, last);
      Assoc([c], init, [last]);
      Assoc([c], Lines(init)[0], [last]);
    }
  }

  // ---------- Trimming leaves the lines clean ----------

  lemma TrimsAlike(c: char, line: string)
    requires IsSpace(c)
    ensures TrimSpace([c] + line) == TrimSpace(line) && TrimSpace(line + [c]) == TrimSpace(line)
  {
    hide TrimSpace;
    var l, r := TrimSplits(line);
    TrimPadded([c] + l, TrimSpace(line), r);
    assert [c] + line == [c] + l + TrimSpace(line) + r;
    TrimPadded(l, TrimSpace(line), r + [c]);
    assert line + [c] == l + TrimSpace(line) + (r + [c]);
  }

  lemma {:induction false} TrimLeftClean(s: string)
    requires Clean(s)
    ensures Clean(TrimLeft(s))
  {
    hide TrimSpace;
    if s != "" && IsSpace(s[0]) {
      var rest := s[1..];
      assert s == [s[0]] + rest;
      LinesCons(s[0], rest);
      if s[0] == '\n' {
        forall i | 0 <= i < |Lines(rest)| ensures !IsSeparator(Lines(rest)[i]) {
          assert Lines(s)[i + 1] == Lines(rest)[i];
        }
      } else {
        TrimsAlike(s[0], Lines(rest)[0]);
        forall i | 0 <= i < |Lines(rest)| ensures !IsSeparator(Lines(rest)[i]) {
          assert IsSeparator(Lines(s)[i]) == IsSeparator(Lines(rest)[i]);
        }
      }
      TrimLeftClean(rest);
    }
  }

  lemma {:induction false} TrimRightClean(s: string)
    requires Clean(s)
    ensures Clean(TrimRight(s))
  {
    hide TrimSpace;
    if s != "" && IsSpace(s[|s| - 1]) {
      var init := s[..|s| - 1];
      var earlier := Lines(init);
      TrimsAlike(s[|s| - 1], earlier[|earlier| - 1]);
      forall i | 0 <= i < |earlier| ensures !IsSeparator(earlier[i]) {
        assert IsSeparator(Lines(s)[i]) == IsSeparator(earlier[i]);
      }
      TrimRightClean(init);
    }
  }

  lemma TrimClean(s: string)
    requires Clean(s)
    ensures Clean(TrimSpace(s))
  {
    TrimLeftClean(s);
    TrimRightClean(TrimLeft(s));
  }

  // ---------- Cutting a text into documents ----------

  datatype Cut = Cut(finished: seq<seq<string>>, current: seq<string>)

  /** The groups of lines that separators end, and the lines after the last one. */
  function CutLines(lines: seq<string>): Cut {
    if lines == [] then Cut([], [])
    else
      var before := CutLines(lines[..|lines| - 1]);
      var line := lines[|lines| - 1];
      if IsSeparator(line) then Cut(before.finished + [before.current], []) else before.(current := before.current + [line])
  }

  function DocumentOf(lines: seq<string>): string { TrimSpace(Join(lines, "\n")) }

  /** Groups without text are no documents. */
  function DocumentsOf(groups: seq<seq<string>>): seq<string> {
    if groups == [] then []
    else
      var document := DocumentOf(groups[|groups| - 1]);
      DocumentsOf(groups[..|groups| - 1]) + if document == "" then [] else [document]
  }

  /** The documents that some lines make up. */
  function Pieces(lines: seq<string>): seq<string> {
    var cut := CutLines(lines);
    DocumentsOf(cut.finished + [cut.current])
  }

  function Split(raw: string): seq<string> { Pieces(Lines(raw)) }

  method SplitYAMLDocuments(raw: string) returns (documents: seq<string>)
    ensures documents == Split(raw)
  {
    hide IsSeparator, DocumentOf;
    var lines := Lines(raw);
    documents := [];
    var current: seq<string> := [];
    for i := 0 to |lines|
      invariant current == CutLines(lines[..i]).current && documents == DocumentsOf(CutLines(lines[..i]).finished)
    {
      assert lines[..i + 1][..i] == lines[..i];
      if IsSeparator(lines[i]) {
        ghost var finished := CutLines(lines[..i]).finished;
        assert (finished + [current])[..|finished|] == finished;
        documents := AppendDocument(documents, current);
        current := [];
      } else {
        current := current + [lines[i]];
      }
    }
    assert lines[..|lines|] == lines;
    ghost var finished := CutLines(lines).finished;
    assert (finished + [current])[..|finished|] == finished;
    documents := AppendDocument(documents, current);
  }

  method AppendDocument(documents: seq<string>, current: seq<string>) returns (appended: seq<string>)
    ensures appended == documents + if DocumentOf(current) == "" then [] else [DocumentOf(current)]
  {
    var document := TrimSpace(Join(current, "\n"));
    appended := documents;
    if document != "" {
      appended := appended + [document];
    }
  }

  /** A text that is one document: it has text, no space around it, and no separator line. */
  predicate IsDocument(s: string) { s != "" && Trimmed(s) && Clean(s) }

  lemma {:induction false} CutIsClean(lines: seq<string>)
    ensures NoSeparator(CutLines(lines).current)
    ensures forall i :: 0 <= i < |CutLines(lines).finished| ==> NoSeparator(CutLines(lines).finished[i])
    ensures forall line :: line in CutLines(lines).current ==> line in lines
    ensures forall i, line :: 0 <= i < |CutLines(lines).finished| && line in CutLines(lines).finished[i] ==> line in lines
  {
    hide IsSeparator;
    if lines != [] {
      var n := |lines| - 1;
      CutIsClean(lines[..n]);
      var before, cut := CutLines(lines[..n]), CutLines(lines);
      assert forall line :: line in lines[..n] ==> line in lines;
      assert lines[n] in lines;
      forall i | 0 <= i < |cut.finished| ensures NoSeparator(cut.finished[i]) && forall line :: line in cut.finished[i] ==> line in lines {
        assert cut.finished[i] == if i < |before.finished| then before.finished[i] else before.current;
      }
    }
  }

  predicate OneLiners(lines: seq<string>) { forall i :: 0 <= i < |lines| ==> '\n' !in lines[i] }

  lemma {:induction false} LinesAreLines(s: string)
    ensures OneLiners(Lines(s))
  {
    if s != "" {
      LinesAreLines(s[..|s| - 1]);
    }
  }

  lemma {:induction false} LinesOfJoin(lines: seq<string>)
    requires OneLiners(lines) && lines != []
    ensures Lines(Join(lines, "\n")) == lines
  {
    var n := |lines| - 1;
    LinesOfOne(lines[n]);
    if n > 0 {
      LinesOfJoin(lines[..n]);
      LinesOfTwo(Join(lines[..n], "\n"), lines[n]);
      assert lines == lines[..n] + [lines[n]];
    } else {
      assert lines == [lines[0]];
    }
  }

  lemma DocumentClean(lines: seq<string>)
    requires OneLiners(lines) && NoSeparator(lines) && DocumentOf(lines) != ""
    ensures IsDocument(DocumentOf(lines))
  {
    hide IsSeparator, TrimSpace;
    if lines == [] {
      TrimTrimmed("");
    } else {
      LinesOfJoin(lines);
      TrimClean(Join(lines, "\n"));
    }
  }

  lemma {:induction false} DocumentsClean(groups: seq<seq<string>>)
    requires forall i :: 0 <= i < |groups| ==> OneLiners(groups[i]) && NoSeparator(groups[i])
    ensures forall i :: 0 <= i < |DocumentsOf(groups)| ==> IsDocument(DocumentsOf(groups)[i])
  {
    hide IsDocument, DocumentOf, OneLiners, NoSeparator;
    if groups != [] {
      DocumentsClean(groups[..|groups| - 1]);
      if DocumentOf(groups[|groups| - 1]) != "" {
        DocumentClean(groups[|groups| - 1]);
      }
    }
  }

  /** Every piece of a split text is a document. */
  lemma SplitGivesDocuments(raw: string)
    ensures forall i :: 0 <= i < |Split(raw)| ==> IsDocument(Split(raw)[i])
  {
    hide IsDocument, DocumentsOf, NoSeparator, CutLines;
    LinesAreLines(raw);
    CutIsClean(Lines(raw));
    var cut := CutLines(Lines(raw));
    var groups := cut.finished + [cut.current];
    forall i | 0 <= i < |groups| ensures OneLiners(groups[i]) && NoSeparator(groups[i]) {
      forall j | 0 <= j < |groups[i]| ensures '\n' !in groups[i][j] {
        assert groups[i][j] in groups[i] && groups[i][j] in Lines(raw);
      }
    }
    DocumentsClean(groups);
  }

  // ---------- Printing documents ----------

  function Print(documents: seq<string>): string {
    if documents == [] then "" else Join(documents, "\n---\n") + "\n"
  }

  lemma CutNothing()
    ensures CutLines([]) == Cut([], [])
  {}

  lemma CutOneMore(lines: seq<string>, line: string)
    requires !IsSeparator(line)
    ensures CutLines(lines + [line]) == CutLines(lines).(current := CutLines(lines).current + [line])
  {
    hide IsSeparator;
    assert (lines + [line])[..|lines|] == lines;
  }

  lemma {:induction false} CutClean(lines: seq<string>, more: seq<string>)
    requires NoSeparator(more)
    ensures CutLines(lines + more) == CutLines(lines).(current := CutLines(lines).current + more)
  {
    hide IsSeparator, CutLines;
    if more == [] {
      assert lines + more == lines;
    } else {
      var n := |more| - 1;
      CutClean(lines, more[..n]);
      CutOneMore(lines + more[..n], more[n]);
      assert more == more[..n] + [more[n]];
      assert lines + more == lines + more[..n] + [more[n]];
      assert CutLines(lines).current + more == CutLines(lines).current + more[..n] + [more[n]];
    }
  }

  lemma CutSeparator(lines: seq<string>)
    ensures CutLines(lines + ["---"]) == Cut(CutLines(lines).finished + [CutLines(lines).current], [])
  {
    TrimTrimmed("---");
    assert (lines + ["---"])[..|lines|] == lines;
  }

  function LinesOfEach(documents: seq<string>): seq<seq<string>> { seq(|documents|, i requires 0 <= i < |documents| => Lines(documents[i])) }

  lemma {:induction false} CutPrinted(documents: seq<string>)
    requires documents != [] && forall i :: 0 <= i < |documents| ==> IsDocument(documents[i])
    ensures CutLines(Lines(Join(documents, "\n---\n"))) == Cut(LinesOfEach(documents[..|documents| - 1]), Lines(documents[|documents| - 1]))
  {
    hide TrimSpace, IsSeparator, Trimmed, Lines, CutLines, NoSeparator;
    var n := |documents| - 1;
    var last := documents[n];
    if n == 0 {
      CutClean([], Lines(last));
      CutNothing();
      assert [] + Lines(last) == Lines(last);
    } else {
      var init := documents[..n];
      CutPrinted(init);
      var text := Join(init, "\n---\n");
      PrintedLines(text, last);
      CutSeparator(Lines(text));
      CutClean(Lines(text) + ["---"], Lines(last));
      assert init == init[..n - 1] + [init[n - 1]];
      assert LinesOfEach(init) == LinesOfEach(init[..n - 1]) + [Lines(init[n - 1])];
    }
  }

  lemma PrintedLines(text: string, last: string)
    ensures Lines(text + "\n---\n" + last) == Lines(text) + ["---"] + Lines(last)
  {
    hide Lines;
    assert text + "\n---\n" + last == (text + "\n" + "---") + "\n" + last;
    LinesOfTwo(text + "\n" + "---", last);
    LinesOfTwo(text, "---");
    LinesOfOne("---");
  }

  lemma {:induction false} DocumentsBack(documents: seq<string>)
    requires forall i :: 0 <= i < |documents| ==> IsDocument(documents[i])
    ensures DocumentsOf(LinesOfEach(documents)) == documents
  {
    hide TrimSpace, Clean, Trimmed, Join, Lines;
    if documents != [] {
      var n := |documents| - 1;
      DocumentsBack(documents[..n]);
      assert LinesOfEach(documents)[..n] == LinesOfEach(documents[..n]);
      LinesJoined(documents[n]);
      TrimTrimmed(documents[n]);
      assert documents == documents[..n] + [documents[n]];
    }
  }

  /** Splitting undoes printing. */
  lemma SplitPrinted(documents: seq<string>)
    requires forall i :: 0 <= i < |documents| ==> IsDocument(documents[i])
    ensures Split(Print(documents)) == documents
  {
    hide TrimSpace, Lines, Join, CutLines, Clean, Trimmed;
    if documents == [] {
      SplitNothing();
    } else {
      var n := |documents| - 1;
      var last := documents[n];
      var text := Join(documents, "\n---\n");
      assert text + "\n" + "" == text + "\n";
      LinesOfTwo(text, "");
      BlankLine();
      CutPrinted(documents);
      CutClean(Lines(text), [""]);
      var groups := LinesOfEach(documents[..n]) + [Lines(last) + [""]];
      assert groups[..n] == LinesOfEach(documents[..n]);
      DocumentsBack(documents[..n]);
      LastDocument(last);
      assert documents == documents[..n] + [last];
    }
  }

  lemma BlankLine()
    ensures Lines("") == [""] && NoSeparator([""])
  {
    hide TrimSpace;
    TrimTrimmed("");
  }

  lemma SplitNothing()
    ensures Split("") == []
  {
    hide TrimSpace;
    TrimTrimmed("");
    BlankLine();
    assert [""][..0] == [];
    var cut := CutLines([""]);
    assert cut == Cut([], [""]);
    assert [] + [[""]] == [[""]] && [[""]][..0] == [];
  }

  /** The line feed at the end of the print is trimmed off again. */
  lemma LastDocument(last: string)
    requires IsDocument(last)
    ensures DocumentOf(Lines(last) + [""]) == last
  {
    hide TrimSpace, Lines;
    LinesJoined(last);
    var lines := Lines(last) + [""];
    assert lines[..|lines| - 1] == Lines(last);
    assert Join(lines, "\n") == last + "\n" + "";
    assert last + "\n" + "" == "" + last + "\n";
    TrimPadded("", last, "\n");
  }

  // ---------- Printing texts that are no documents ----------

  lemma {:induction false} DocumentsConcat(a: seq<seq<string>>, b: seq<seq<string>>)
    ensures DocumentsOf(a + b) == DocumentsOf(a) + DocumentsOf(b)
  {
    hide DocumentOf;
    if b == [] {
      assert a + b == a;
    } else {
      var n := |b| - 1;
      DocumentsConcat(a, b[..n]);
      assert (a + b)[..|a| + n] == a + b[..n];
    }
  }

  lemma {:induction false} CutSeparated(a: seq<string>, separator: string, b: seq<string>)
    requires IsSeparator(separator)
    ensures CutLines(a + [separator] + b)
            == Cut(CutLines(a).finished + [CutLines(a).current] + CutLines(b).finished, CutLines(b).current)
  {
    hide IsSeparator;
    if b == [] {
      assert a + [separator] + b == a + [separator] && (a + [separator])[..|a|] == a;
    } else {
      var n := |b| - 1;
      var before := a + [separator] + b[..n];
      CutSeparated(a, separator, b[..n]);
      assert a + [separator] + b == before + [b[n]] && (before + [b[n]])[..|before|] == before;
    }
  }

  /** A separator line ends what is before it and starts what is after it. */
  lemma PiecesSeparated(a: seq<string>, separator: string, b: seq<string>)
    requires IsSeparator(separator)
    ensures Pieces(a + [separator] + b) == Pieces(a) + Pieces(b)
  {
    hide IsSeparator, CutLines, DocumentsOf;
    CutSeparated(a, separator, b);
    var cut, first, second := CutLines(a + [separator] + b), CutLines(a), CutLines(b);
    assert cut.finished + [cut.current] == (first.finished + [first.current]) + (second.finished + [second.current]);
    DocumentsConcat(first.finished + [first.current], second.finished + [second.current]);
  }

  /** A blank line at the end does not show. */
  lemma PiecesBlank(lines: seq<string>)
    ensures Pieces(lines + [""]) == Pieces(lines)
  {
    hide CutLines, IsSeparator, DocumentsOf;
    BlankLine();
    CutClean(lines, [""]);
    var cut := CutLines(lines);
    OneDocument(cut.finished, cut.current);
    OneDocument(cut.finished, cut.current + [""]);
    BlankTrimmed(cut.current);
  }

  lemma OneDocument(finished: seq<seq<string>>, current: seq<string>)
    ensures DocumentsOf(finished + [current]) == DocumentsOf(finished) + if DocumentOf(current) == "" then [] else [DocumentOf(current)]
  {
    hide DocumentOf;
    assert (finished + [current])[..|finished|] == finished;
  }

  lemma BlankTrimmed(lines: seq<string>)
    ensures DocumentOf(lines + [""]) == DocumentOf(lines)
  {
    hide TrimSpace;
    var more := lines + [""];
    assert more[..|lines|] == lines;
    if lines == [] {
      assert more == [""];
    } else {
      assert Join(more, "\n") == Join(lines, "\n") + "\n" + "";
      assert Join(lines, "\n") + "\n" + "" == Join(lines, "\n") + ['\n'];
      TrimsAlike('\n', Join(lines, "\n"));
    }
  }

  /** The documents of some texts, one after the other. */
  function AllPieces(texts: seq<string>): seq<string> {
    if texts == [] then [] else AllPieces(texts[..|texts| - 1]) + Split(texts[|texts| - 1])
  }

  lemma {:induction false} PiecesOfJoin(texts: seq<string>)
    requires texts != []
    ensures Pieces(Lines(Join(texts, "\n---\n"))) == AllPieces(texts)
  {
    hide Lines, Pieces;
    var n := |texts| - 1;
    if n == 0 {
      assert AllPieces(texts[..0]) == [];
    } else {
      PiecesOfJoin(texts[..n]);
      PrintedLines(Join(texts[..n], "\n---\n"), texts[n]);
      TrimTrimmed("---");
      PiecesSeparated(Lines(Join(texts[..n], "\n---\n")), "---", Lines(texts[n]));
    }
  }

  /** Whatever texts are printed, splitting gives the documents in each of them. */
  lemma SplitOfPrint(texts: seq<string>)
    ensures Split(Print(texts)) == AllPieces(texts)
  {
    hide Lines, Pieces, Join;
    if texts == [] {
      SplitNothing();
    } else {
      var text := Join(texts, "\n---\n");
      PiecesOfJoin(texts);
      assert text + "\n" + "" == text + "\n";
      LinesOfTwo(text, "");
      BlankLine();
      PiecesBlank(Lines(text));
    }
  }

  lemma SplitDocument(document: string)
    requires IsDocument(document)
    ensures Split(document) == [document]
  {
    hide Split, Print, IsDocument;
    SplitPrinted([document]);
    SplitOfPrint([document]);
    assert AllPieces([document][..0]) == [];
  }

  /** A separator line inside a text cuts it, however far it is indented: a file with such a line in a ConfigMap makes two
      documents of it. */
  lemma SeparatorInside(first: string, indent: string, second: string)
    requires IsDocument(first) && IsDocument(second) && AllSpace(indent) && '\n' !in indent
    ensures Split(first + "\n" + (indent + "---") + "\n" + second) == [first, second]
  {
    hide Lines, Pieces, TrimSpace, Clean;
    var separator := indent + "---";
    LinesOfTwo(first + "\n" + separator, second);
    LinesOfTwo(first, separator);
    LinesOfOne(separator);
    TrimPadded(indent, "---", "");
    assert indent + "---" + "" == separator;
    PiecesSeparated(Lines(first), separator, Lines(second));
    SplitDocument(first);
    SplitDocument(second);
  }

  // ---------- Keeping some documents ----------

  datatype Identity = Identity(apiVersion: string, kind: string, namespace: string, name: string)

  /** How a document reads as YAML: `identify` stands for the parser, which may find no identity. */
  predicate Kept(identify: string -> Option<Identity>, keep: Identity -> bool, document: string) {
    identify(document).Some? && keep(identify(document).value)
  }

  function Select(identify: string -> Option<Identity>, keep: Identity -> bool, documents: seq<string>): (selected: seq<string>)
    ensures forall i :: 0 <= i < |selected| ==> selected[i] in documents
  {
    if documents == [] then []
    else
      var last := documents[|documents| - 1];
      Select(identify, keep, documents[..|documents| - 1]) + if Kept(identify, keep, last) then [last] else []
  }

  function Filter(identify: string -> Option<Identity>, keep: Identity -> bool, raw: string): string {
    Print(Select(identify, keep, Split(raw)))
  }

  method FilterYAMLDocuments(identify: string -> Option<Identity>, keep: Identity -> bool, raw: string) returns (filtered: string)
    ensures filtered == Filter(identify, keep, raw)
  {
    hide Split, IsDocument, Join, TrimSpace;
    var documents := SplitYAMLDocuments(raw);
    SplitGivesDocuments(raw);
    var selected: seq<string> := [];
    for i := 0 to |documents|
      invariant selected == Select(identify, keep, documents[..i])
    {
      assert documents[..i + 1][..i] == documents[..i];
      var identity := identify(documents[i]);
      if identity.Some? && keep(identity.value) {
        DocumentTrimmed(documents[i]);
        selected := selected + [TrimSpace(documents[i])];
      }
    }
    assert documents[..|documents|] == documents;
    if selected == [] {
      return "";
    }
    filtered := Join(selected, "\n---\n") + "\n";
  }

  lemma DocumentTrimmed(document: string)
    requires IsDocument(document)
    ensures TrimSpace(document) == document
  {
    hide TrimSpace;
    TrimTrimmed(document);
  }

  lemma SelectGivesDocuments(identify: string -> Option<Identity>, keep: Identity -> bool, documents: seq<string>)
    requires forall i :: 0 <= i < |documents| ==> IsDocument(documents[i])
    ensures forall i :: 0 <= i < |Select(identify, keep, documents)| ==> IsDocument(Select(identify, keep, documents)[i])
  {
    hide IsDocument;
    forall i | 0 <= i < |Select(identify, keep, documents)| ensures IsDocument(Select(identify, keep, documents)[i]) {
      assert Select(identify, keep, documents)[i] in documents;
    }
  }

  /** Splitting what was kept of a text gives exactly the kept documents of the text, unaltered and in order. */
  lemma SplitFiltered(identify: string -> Option<Identity>, keep: Identity -> bool, raw: string)
    ensures Split(Filter(identify, keep, raw)) == Select(identify, keep, Split(raw))
  {
    hide IsDocument, Print, Split, Select;
    SplitGivesDocuments(raw);
    SelectGivesDocuments(identify, keep, Split(raw));
    SplitPrinted(Select(identify, keep, Split(raw)));
  }

  lemma {:induction false} SelectTwice(identify: string -> Option<Identity>, p: Identity -> bool, q: Identity -> bool, documents: seq<string>)
    ensures Select(identify, q, Select(identify, p, documents)) == Select(identify, i => p(i) && q(i), documents)
  {
    if documents != [] {
      var n := |documents| - 1;
      SelectTwice(identify, p, q, documents[..n]);
      var first := Select(identify, p, documents[..n]);
      if Kept(identify, p, documents[n]) {
        assert (first + [documents[n]])[..|first|] == first;
      } else {
        assert first + [] == first;
      }
    }
  }

  /** Filtering twice is filtering once by both conditions, down to the text. */
  lemma FilterTwice(identify: string -> Option<Identity>, p: Identity -> bool, q: Identity -> bool, raw: string)
    ensures Filter(identify, q, Filter(identify, p, raw)) == Filter(identify, i => p(i) && q(i), raw)
  {
    hide Split, Print, Select;
    SplitFiltered(identify, p, raw);
    SelectTwice(identify, p, q, Split(raw));
  }
}
