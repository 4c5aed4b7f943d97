/** How the apply engine takes a manifest apart: at lines that start with three dashes, which indented lines never do. */
module ManifestDecoder {
  import opened Text
  import opened ManifestText

  predicate Marked(line: string) { HasPrefix(line, "---") }

  predicate NoneMarked(lines: seq<string>) { forall i :: 0 <= i < |lines| ==> !Marked(lines[i]) }

  /** Only the first line may be marked: the decoder looks for a line feed before the dashes. */
  predicate Whole(text: string) { forall i :: 0 < i < |Lines(text)| ==> !Marked(Lines(text)[i]) }

  function Chunks(lines: seq<string>): Cut {
    if lines == [] then Cut([], [])
    else
      var before := Chunks(lines[..|lines| - 1]);
      var line := lines[|lines| - 1];
      if Marked(line) && before.current != [] then Cut(before.finished + [before.current], [])
      else before.(current := before.current + [line])
  }

  /** Groups of blank lines are passed over; the others are read as they are. */
  function ChunkTexts(groups: seq<seq<string>>): seq<string> {
    if groups == [] then []
    else
      var text := Join(groups[|groups| - 1], "\n");
      ChunkTexts(groups[..|groups| - 1]) + if TrimSpace(text) == "" then [] else [text]
  }

  function Decoded(raw: string): seq<string> {
    var cut := Chunks(Lines(TrimSpace(raw)));
    ChunkTexts(cut.finished + [cut.current])
  }

  method DecodeDocuments(raw: string) returns (documents: seq<string>)
    ensures documents == Decoded(raw)
  {
    hide Marked, TrimSpace, Join, Lines, ChunkTexts;
    var lines := Lines(TrimSpace(raw));
    documents := [];
    var current: seq<string> := [];
    NoTexts();
    for i := 0 to |lines|
      invariant current == Chunks(lines[..i]).current && documents == ChunkTexts(Chunks(lines[..i]).finished)
    {
      assert lines[..i + 1][..i] == lines[..i];
      if Marked(lines[i]) && current != [] {
        documents := AppendChunk(documents, Chunks(lines[..i]).finished, current);
        current := [];
      } else {
        current := current + [lines[i]];
      }
    }
    assert lines[..|lines|] == lines;
    documents := AppendChunk(documents, Chunks(lines).finished, current);
  }

  method AppendChunk(documents: seq<string>, ghost finished: seq<seq<string>>, current: seq<string>) returns (appended: seq<string>)
    requires documents == ChunkTexts(finished)
    ensures appended == ChunkTexts(finished + [current])
  {
    assert (finished + [current])[..|finished|] == finished;
    var text := Join(current, "\n");
    appended := documents;
    if TrimSpace(text) != "" {
      appended := appended + [text];
    }
  }

  lemma NoTexts()
    ensures ChunkTexts([]) == []
  {}

  // ---------- Decoding what was printed ----------

  lemma {:induction false} ChunksGrow(lines: seq<string>, more: seq<string>)
    requires more != [] && NoneMarked(more[1..]) && (Marked(more[0]) ==> Chunks(lines).current == [])
    ensures Chunks(lines + more) == Chunks(lines).(current := Chunks(lines).current + more)
  {
    hide Marked;
    var n := |more| - 1;
    assert lines + more == lines + more[..n] + [more[n]];
    assert (lines + more[..n] + [more[n]])[..|lines| + n] == lines + more[..n];
    if n == 0 {
      assert lines + more[..0] == lines;
    } else {
      assert more[..n][1..] == more[1..][..n - 1];
      assert more[1..][n - 1] == more[n];
      ChunksGrow(lines, more[..n]);
      assert more == more[..n] + [more[n]];
      assert Chunks(lines).current + more == Chunks(lines).current + more[..n] + [more[n]];
    }
  }

  lemma ChunkEnds(lines: seq<string>)
    requires Chunks(lines).current != []
    ensures Chunks(lines + ["---"]) == Cut(Chunks(lines).finished + [Chunks(lines).current], [])
  {
    assert (lines + ["---"])[..|lines|] == lines;
  }

  lemma {:induction false} ChunksPrinted(documents: seq<string>)
    requires documents != [] && forall i :: 0 <= i < |documents| ==> Whole(documents[i])
    ensures Chunks(Lines(Join(documents, "\n---\n"))) == Cut(LinesOfEach(documents[..|documents| - 1]), Lines(documents[|documents| - 1]))
  {
    hide Lines, Chunks;
    var n := |documents| - 1;
    var last := documents[n];
    WholeTail(last);
    if n == 0 {
      NoChunks();
      ChunksGrow([], Lines(last));
      assert [] + Lines(last) == Lines(last);
    } else {
      hide Marked, Whole;
      var init := documents[..n];
      ChunksPrinted(init);
      var text := Join(init, "\n---\n");
      PrintedLines(text, last);
      ChunkEnds(Lines(text));
      ChunksGrow(Lines(text) + ["---"], Lines(last));
      assert init == init[..n - 1] + [init[n - 1]];
      assert LinesOfEach(init) == LinesOfEach(init[..n - 1]) + [Lines(init[n - 1])];
    }
  }

  lemma NoChunks()
    ensures Chunks([]) == Cut([], [])
  {}

  lemma WholeTail(text: string)
    ensures Whole(text) <==> NoneMarked(Lines(text)[1..])
  {
    hide Marked;
    var lines := Lines(text);
    forall i | 0 < i < |lines| ensures lines[i] == lines[1..][i - 1] {}
  }

  lemma {:induction false} ChunksBack(documents: seq<string>)
    requires forall i :: 0 <= i < |documents| ==> TrimSpace(documents[i]) != ""
    ensures ChunkTexts(LinesOfEach(documents)) == documents
  {
    hide TrimSpace, Join, Lines;
    if documents != [] {
      var n := |documents| - 1;
      ChunksBack(documents[..n]);
      assert LinesOfEach(documents)[..n] == LinesOfEach(documents[..n]);
      LinesJoined(documents[n]);
      assert documents == documents[..n] + [documents[n]];
    }
  }

  lemma {:induction false} JoinEnds(documents: seq<string>)
    requires documents != [] && forall i :: 0 <= i < |documents| ==> documents[i] != ""
    ensures var text := Join(documents, "\n---\n");
            text != "" && text[0] == documents[0][0] && text[|text| - 1] == documents[|documents| - 1][|documents[|documents| - 1]| - 1]
  {
    if |documents| > 1 {
      JoinEnds(documents[..|documents| - 1]);
    }
  }

  predicate Bounded(documents: seq<string>) {
    documents != [] ==> documents[0] != "" && !IsSpace(documents[0][0]) && Trimmed(documents[|documents| - 1]) && documents[|documents| - 1] != ""
  }

  lemma TrimmedPrint(documents: seq<string>)
    requires documents != [] && Bounded(documents) && forall i :: 0 <= i < |documents| ==> documents[i] != ""
    ensures TrimSpace(Print(documents)) == Join(documents, "\n---\n")
  {
    hide TrimSpace, IsSpace, Join;
    var text := Join(documents, "\n---\n");
    JoinEnds(documents);
    NewlineIsSpace();
    TrimPadded("", text, "\n");
    assert "" + text + "\n" == Print(documents);
  }

  lemma NewlineIsSpace()
    ensures AllSpace("\n") && AllSpace("")
  {}

  /** Decoding undoes printing, whatever separator lines there are inside the documents, as long as they are indented. */
  lemma DecodedPrint(documents: seq<string>)
    requires Bounded(documents) && forall i :: 0 <= i < |documents| ==> Whole(documents[i]) && TrimSpace(documents[i]) != ""
    ensures Decoded(Print(documents)) == documents
  {
    hide TrimSpace, Lines, Chunks, ChunkTexts, Whole, Bounded, Join;
    TrimTrimmed("");
    if documents == [] {
      NothingDecoded();
    } else {
      var n := |documents| - 1;
      TrimmedPrint(documents);
      ChunksPrinted(documents);
      assert LinesOfEach(documents) == LinesOfEach(documents[..n]) + [Lines(documents[n])];
      ChunksBack(documents);
    }
  }

  lemma NothingDecoded()
    ensures Decoded("") == []
  {
    hide TrimSpace;
    TrimTrimmed("");
    NoLines();
    assert [""][..0] == [];
    assert Chunks([""]) == Cut([], [""]);
    assert [] + [[""]] == [[""]] && [[""]][..0] == [];
  }

  // ---------- Trimming keeps a document whole ----------

  lemma {:induction false} TrimLeftWhole(s: string)
    requires Whole(s)
    ensures Whole(TrimLeft(s))
  {
    hide Marked;
    if s != "" && IsSpace(s[0]) {
      hide IsSpace;
      var rest := s[1..];
      assert s == [s[0]] + rest;
      LinesCons(s[0], rest);
      forall i | 0 < i < |Lines(rest)| ensures !Marked(Lines(rest)[i]) {
        assert Lines(rest)[i] == if s[0] == '\n' then Lines(s)[i + 1] else Lines(s)[i];
      }
      TrimLeftWhole(rest);
    }
  }

  lemma {:induction false} TrimRightWhole(s: string)
    requires Whole(s)
    ensures Whole(TrimRight(s))
  {
    if s != "" && IsSpace(s[|s| - 1]) {
      hide IsSpace;
      var init := s[..|s| - 1];
      forall i | 0 < i < |Lines(init)| ensures !Marked(Lines(init)[i]) {
        assert Lines(init)[i] <= Lines(s)[i];
        assert !Marked(Lines(s)[i]);
      }
      TrimRightWhole(init);
    }
  }

  lemma TrimWhole(s: string)
    requires Whole(s)
    ensures Whole(TrimSpace(s))
  {
    hide Whole;
    TrimLeftWhole(s);
    TrimRightWhole(TrimLeft(s));
  }
}
