/** The manifest as the text that is sent: its ConfigMaps written out, filtered for an incremental publish, and decoded again. */
module CollectorManifest {
  import opened Text
  import opened CollectorBundle
  import BlockText
  import ManifestDecoder
  import ManifestText
  import ResourceCheck

  // ---------- Filtering ----------

  predicate KeepsIdentity(i: ManifestText.Identity, names: set<Name>) {
    i.kind == "DaemonSet" || (i.kind == "ConfigMap" && i.name in names)
  }

  /** `print_` writes each document as a text, and one that has no separator line in it reads back as what it is. */
  ghost predicate Readable(documents: seq<Document>, print_: Document -> string, identify: string -> Option<ManifestText.Identity>,
                           names: set<Name>)
  {
    forall d :: d in documents ==>
                  && print_(d) != "" && Trimmed(print_(d))
                  && (ManifestText.Clean(print_(d)) ==> ReadsBack(d, print_, identify, names))
  }

  function KeepFor(names: set<Name>): ManifestText.Identity -> bool { i => KeepsIdentity(i, names) }

  predicate ReadsBack(d: Document, print_: Document -> string, identify: string -> Option<ManifestText.Identity>, names: set<Name>) {
    identify(print_(d)).Some? && KeepsIdentity(identify(print_(d)).value, names) == Keeps(d, names)
  }

  function Texts(documents: seq<Document>, print_: Document -> string): seq<string> {
    seq(|documents|, i requires 0 <= i < |documents| => print_(documents[i]))
  }

  lemma SelectSnoc(identify: string -> Option<ManifestText.Identity>, keep: ManifestText.Identity -> bool, texts: seq<string>, text: string)
    ensures ManifestText.Select(identify, keep, texts + [text]) ==
            if ManifestText.Kept(identify, keep, text) then ManifestText.Select(identify, keep, texts) + [text]
            else ManifestText.Select(identify, keep, texts)
  {
    assert (texts + [text])[..|texts|] == texts;
    assert ManifestText.Select(identify, keep, texts) + [] == ManifestText.Select(identify, keep, texts);
  }

  lemma SelectOne(identify: string -> Option<ManifestText.Identity>, keep: ManifestText.Identity -> bool, text: string)
    ensures ManifestText.Select(identify, keep, [text]) == if ManifestText.Kept(identify, keep, text) then [text] else []
  {
    assert [text][..0] == [];
    assert [] + [text] == [text];
  }

  lemma {:induction false} SelectConcat(identify: string -> Option<ManifestText.Identity>, keep: ManifestText.Identity -> bool,
                                        a: seq<string>, b: seq<string>)
    ensures ManifestText.Select(identify, keep, a + b) == ManifestText.Select(identify, keep, a) + ManifestText.Select(identify, keep, b)
  {
    if b == [] {
      assert a + b == a;
      assert ManifestText.Select(identify, keep, b) == [];
    } else {
      hide ManifestText.Kept, ManifestText.Select;
      var n := |b| - 1;
      SelectConcat(identify, keep, a, b[..n]);
      assert b == b[..n] + [b[n]];
      assert a + b == a + b[..n] + [b[n]];
      SelectSnoc(identify, keep, a + b[..n], b[n]);
      SelectSnoc(identify, keep, b[..n], b[n]);
    }
  }

  /** What filtering keeps of one document's text. */
  function KeptOf(d: Document, print_: Document -> string, identify: string -> Option<ManifestText.Identity>, names: set<Name>): seq<string> {
    ManifestText.Select(identify, KeepFor(names), ManifestText.Split(print_(d)))
  }

  function KeptOfAll(documents: seq<Document>, print_: Document -> string, identify: string -> Option<ManifestText.Identity>,
                     names: set<Name>): seq<string>
  {
    ManifestText.Select(identify, KeepFor(names), ManifestText.AllPieces(Texts(documents, print_)))
  }

  /** The document comes through filtering as it should: whole if it is selected, and without a trace if not. */
  predicate ComesThrough(d: Document, print_: Document -> string, identify: string -> Option<ManifestText.Identity>, names: set<Name>) {
    if Keeps(d, names) then ManifestText.Clean(print_(d)) else KeptOf(d, print_, identify, names) == []
  }

  lemma KeptSnoc(documents: seq<Document>, d: Document, print_: Document -> string,
                 identify: string -> Option<ManifestText.Identity>, names: set<Name>)
    ensures KeptOfAll(documents + [d], print_, identify, names)
            == KeptOfAll(documents, print_, identify, names) + KeptOf(d, print_, identify, names)
  {
    hide ManifestText.Split, ManifestText.Select;
    var texts := Texts(documents, print_);
    assert Texts(documents + [d], print_) == texts + [print_(d)];
    assert (texts + [print_(d)])[..|texts|] == texts;
    SelectConcat(identify, KeepFor(names), ManifestText.AllPieces(texts), ManifestText.Split(print_(d)));
  }

  lemma KeptOfClean(d: Document, print_: Document -> string, identify: string -> Option<ManifestText.Identity>, names: set<Name>)
    requires print_(d) != "" && Trimmed(print_(d)) && ManifestText.Clean(print_(d)) && ReadsBack(d, print_, identify, names)
    ensures KeptOf(d, print_, identify, names) == if Keeps(d, names) then [print_(d)] else []
  {
    hide ManifestText.Split, ManifestText.Clean, ManifestText.Select, Trimmed;
    ManifestText.SplitDocument(print_(d));
    SelectOne(identify, KeepFor(names), print_(d));
  }

  lemma WantedSnoc(documents: seq<Document>, d: Document, print_: Document -> string, names: set<Name>)
    ensures Texts(Selected(documents + [d], names), print_)
            == Texts(Selected(documents, names), print_) + if Keeps(d, names) then [print_(d)] else []
  {
    hide Keeps, Selected;
    SelectedSnoc(documents, d, names);
    assert Texts(Selected(documents, names), print_) + [] == Texts(Selected(documents, names), print_);
  }

  /** As long as the selected texts are clean, no less is kept than should be, and exactly as much if and only if nothing of the
      others is. */
  lemma {:induction false} KeptAtLeast(documents: seq<Document>, print_: Document -> string,
                                       identify: string -> Option<ManifestText.Identity>, names: set<Name>)
    requires Readable(documents, print_, identify, names)
    requires forall d :: d in documents && Keeps(d, names) ==> ManifestText.Clean(print_(d))
    ensures var got, wanted := KeptOfAll(documents, print_, identify, names), Texts(Selected(documents, names), print_);
            && |got| >= |wanted|
            && (|got| == |wanted| ==> got == wanted && forall d :: d in documents ==> ComesThrough(d, print_, identify, names))
            && ((forall d :: d in documents ==> ComesThrough(d, print_, identify, names)) ==> got == wanted)
  {
    hide Keeps, KeepsIdentity, ManifestText.Clean, ManifestText.Split, ReadsBack, Trimmed, KeptOf, KeptOfAll, Texts, Selected;
    if documents == [] {
      NothingKept(print_, identify, names);
    } else {
      var n := |documents| - 1;
      var init, d := documents[..n], documents[n];
      assert documents == init + [d];
      assert forall x :: x in init ==> x in documents;
      KeptAtLeast(init, print_, identify, names);
      KeptSnoc(init, d, print_, identify, names);
      WantedSnoc(init, d, print_, names);
      if Keeps(d, names) {
        KeptOfClean(d, print_, identify, names);
      }
    }
  }

  lemma NothingKept(print_: Document -> string, identify: string -> Option<ManifestText.Identity>, names: set<Name>)
    ensures KeptOfAll([], print_, identify, names) == [] && Texts(Selected([], names), print_) == []
  {
    assert Texts([], print_) == [];
    assert Selected([], names) == [];
  }

  lemma {:induction false} WantedHas(documents: seq<Document>, d: Document, print_: Document -> string, names: set<Name>)
    requires d in documents && Keeps(d, names)
    ensures print_(d) in Texts(Selected(documents, names), print_)
  {
    hide Keeps, Selected, Texts;
    var n := |documents| - 1;
    assert documents == documents[..n] + [documents[n]];
    WantedSnoc(documents[..n], documents[n], print_, names);
    if d in documents[..n] {
      WantedHas(documents[..n], d, print_, names);
    }
  }

  /** Filtering the text of a manifest leaves exactly the texts of the selected documents if and only if each of these is free of
      separator lines and no part of any other document is kept. A selected file with a line reading `---` is cut in two. */
  lemma FilteredManifest(documents: seq<Document>, print_: Document -> string, identify: string -> Option<ManifestText.Identity>, names: set<Name>)
    requires Readable(documents, print_, identify, names)
    ensures ManifestText.Split(ManifestText.Filter(identify, KeepFor(names), ManifestText.Print(Texts(documents, print_))))
            == Texts(Selected(documents, names), print_)
            <==> forall d :: d in documents ==> ComesThrough(d, print_, identify, names)
  {
    hide Texts, Selected, Keeps, KeepsIdentity, ManifestText.Filter, ManifestText.Print, ManifestText.Split, ManifestText.Select, ManifestText.Clean;
    hide Readable, KeptOf, ManifestText.AllPieces;
    var text := ManifestText.Print(Texts(documents, print_));
    var filtered := ManifestText.Filter(identify, KeepFor(names), text);
    var wanted := Texts(Selected(documents, names), print_);
    ManifestText.SplitFiltered(identify, KeepFor(names), text);
    ManifestText.SplitOfPrint(Texts(documents, print_));
    ManifestText.SplitGivesDocuments(filtered);
    if ManifestText.Split(filtered) == wanted {
      forall d | d in documents && Keeps(d, names) ensures ManifestText.Clean(print_(d)) {
        WantedHas(documents, d, print_, names);
        var i :| 0 <= i < |wanted| && wanted[i] == print_(d);
        assert ManifestText.IsDocument(ManifestText.Split(filtered)[i]);
      }
      KeptAtLeast(documents, print_, identify, names);
    }
    if forall d :: d in documents ==> ComesThrough(d, print_, identify, names) {
      KeptAtLeast(documents, print_, identify, names);
    }
  }

  /** Where no text has a separator line in it, the filtered text is the print of the selected documents. */
  lemma FilteredText(documents: seq<Document>, print_: Document -> string, identify: string -> Option<ManifestText.Identity>, names: set<Name>)
    requires Readable(documents, print_, identify, names) && forall d :: d in documents ==> ManifestText.Clean(print_(d))
    ensures ManifestText.Filter(identify, KeepFor(names), ManifestText.Print(Texts(documents, print_)))
            == ManifestText.Print(Texts(Selected(documents, names), print_))
  {
    hide Texts, Selected, Keeps, KeepsIdentity, ManifestText.Print, ManifestText.Split, ManifestText.Select, ManifestText.Clean, KeptOf;
    ManifestText.SplitOfPrint(Texts(documents, print_));
    forall d | d in documents ensures ComesThrough(d, print_, identify, names) {
      KeptOfClean(d, print_, identify, names);
    }
    KeptAtLeast(documents, print_, identify, names);
  }

  // ---------- Writing and reading documents ----------

  /** A document that holds no file. */
  predicate Fixed(d: Document) { d.DaemonSet? || (d.Plain? && d.kind !in {"DaemonSet", "ConfigMap"}) }

  predicate Printable(d: Document) { if d.ConfigMap? then d.name != "" && Trimmed(d.name) && Trimmed(d.data.content) else Fixed(d) }

  function TextOf(w: Wire, d: Document): string {
    if d.ConfigMap? then w.head(d) + "\n" + BlockText.Indent(d.data.content) else w.fixed(d)
  }

  function Printer(w: Wire): Document -> string { d => TextOf(w, d) }

  predicate Identified(w: Wire, text: string, kind: string, name: Name) {
    w.identify(text).Some? && w.identify(text).value.kind == kind && w.identify(text).value.name == name
  }

  predicate FixedOk(w: Wire, d: Document) {
    && ManifestText.IsDocument(w.fixed(d)) && ManifestDecoder.Whole(w.fixed(d)) && w.read(w.fixed(d)) == d
    && ResourceCheck.NoDashes(w.fixed(d)) && w.complete(w.fixed(d)) && w.identify(w.fixed(d)).Some?
    && w.identify(w.fixed(d)).value.kind == if d.DaemonSet? then "DaemonSet" else if d.Plain? then d.kind else ""
  }

  /** The text reads as the ConfigMap's, with this file in it. */
  predicate ReadsAs(w: Wire, text: string, d: Document, file: string)
    requires d.ConfigMap?
  {
    w.read(text) == ConfigMap(d.name, Data(d.data.key, file)) && Identified(w, text, "ConfigMap", d.name)
  }

  /** The block below the head is read as the file, whatever file it is, also where nothing of it is left. */
  ghost predicate HeadOk(w: Wire, d: Document)
    requires d.ConfigMap?
  {
    && ManifestText.IsDocument(w.head(d)) && ManifestDecoder.Whole(w.head(d)) && ResourceCheck.NoDashes(w.head(d))
    && ReadsAs(w, w.head(d), d, "") && w.complete(w.head(d))
    && forall file :: Trimmed(file) ==> ReadsAs(w, w.head(d) + "\n" + BlockText.Indent(file), d, file)
                                        && w.complete(BlockText.Block(w.head(d), file))
  }

  /** What the template writes is read back, and nothing reads as a ConfigMap that is not identified as that one. */
  ghost predicate WireOk(w: Wire) {
    && (forall d: Document :: Fixed(d) ==> FixedOk(w, d))
    && (forall d: Document :: d.ConfigMap? && Printable(d) ==> HeadOk(w, d))
    && (forall text :: w.read(text).ConfigMap? ==> Identified(w, text, "ConfigMap", w.read(text).name))
  }

  function PrintedManifest(b: Bundle, lib: Library): string { ManifestText.Print(Texts(Manifest(b, lib), Printer(lib.wire))) }

  /** The text of an incremental publish; when nothing would be left the whole manifest is sent. */
  function ServiceText(manifest: string, names: set<Name>, w: Wire): string {
    var filtered := ManifestText.Filter(w.identify, KeepFor(names), manifest);
    if TrimSpace(filtered) == "" then manifest else filtered
  }

  method RenderK8sRuntimeServiceConfigManifest(manifest: string, names: set<Name>, w: Wire) returns (text: string)
    ensures text == ServiceText(manifest, names, w)
  {
    var filtered := ManifestText.FilterYAMLDocuments(w.identify, KeepFor(names), manifest);
    text := if TrimSpace(filtered) == "" then manifest else filtered;
  }

  function ReadAll(texts: seq<string>, w: Wire): seq<Document> { seq(|texts|, i requires 0 <= i < |texts| => w.read(texts[i])) }

  /** What the apply engine reads off a text. */
  function Objects(text: string, w: Wire): seq<Document> { ReadAll(ManifestDecoder.Decoded(text), w) }

  method DecodeOperationObjects(text: string, w: Wire) returns (objects: seq<Document>)
    ensures objects == Objects(text, w)
  {
    hide ManifestDecoder.Decoded;
    var documents := ManifestDecoder.DecodeDocuments(text);
    objects := [];
    for i := 0 to |documents|
      invariant objects == ReadAll(documents[..i], w)
    {
      assert documents[..i + 1] == documents[..i] + [documents[i]];
      objects := objects + [w.read(documents[i])];
    }
    assert documents[..|documents|] == documents;
  }

  // ---------- The whole manifest comes through ----------

  lemma ManifestRefs(b: Bundle, lib: Library, d: Document) returns (r: Ref)
    requires d in Manifest(b, lib) && d.ConfigMap?
    ensures r in b.refs && d == ConfigMap(r.name, DataFor(b.files, r))
  {
    hide Ordered, DataFor, WorkloadFor;
    OrderedKeeps(b.refs);
    var ordered := Ordered(b.refs);
    assert d in MapsFor(b.files, ordered);
    var i :| 0 <= i < |ordered| && d == ConfigMap(ordered[i].name, DataFor(b.files, ordered[i]));
    r := ordered[i];
  }

  lemma ManifestPrintable(b: Bundle, lib: Library)
    requires WellFormed(b, lib)
    ensures forall d :: d in Manifest(b, lib) ==> Printable(d)
  {
    hide Ordered, MapsFor, TrimNewlines, UniquePaths, UniqueNames, WorkloadFor, Trimmed;
    forall d | d in Manifest(b, lib) ensures Printable(d) {
      if d.ConfigMap? {
        var r := ManifestRefs(b, lib, d);
        assert RefOk(r, lib);
        TrimmedData(b.files, r.path);
      } else {
        FixedDocuments(b, lib, d);
      }
    }
  }

  lemma FixedDocuments(b: Bundle, lib: Library, d: Document)
    requires d in Manifest(b, lib) && !d.ConfigMap?
    ensures Fixed(d)
  {
    hide Ordered, DataFor, WorkloadFor;
  }

  /** Nothing has to be trimmed off a file. */
  lemma TrimmedData(files: Files, path: Path)
    requires TrimmedFiles(files) && path in files
    ensures TrimNewlines(files[path]) == files[path]
  {}

  lemma TextReadsBack(w: Wire, d: Document)
    requires WireOk(w) && Printable(d)
    ensures w.read(TextOf(w, d)) == d && ManifestDecoder.Whole(TextOf(w, d)) && TrimSpace(TextOf(w, d)) != ""
    ensures Fixed(d) ==> ManifestText.IsDocument(TextOf(w, d))
  {
    hide TrimSpace, ManifestText.Clean, ManifestDecoder.Whole, BlockText.Indent;
    if d.ConfigMap? {
      assert HeadOk(w, d);
      BlockText.BlockWhole(w.head(d), d.data.content);
    } else {
      assert FixedOk(w, d);
    }
    BlockText.TrimmedStart(TextOf(w, d));
  }

  lemma PrintedDecoded(documents: seq<Document>, w: Wire)
    requires WireOk(w) && documents != [] && (forall d :: d in documents ==> Printable(d))
    requires Fixed(documents[0]) && Fixed(documents[|documents| - 1])
    ensures Objects(ManifestText.Print(Texts(documents, Printer(w))), w) == documents
  {
    hide WireOk, TextOf, Printable, Fixed, TrimSpace, ManifestText.Clean, ManifestText.Print, ManifestDecoder.Whole, ManifestDecoder.Decoded;
    var texts := Texts(documents, Printer(w));
    forall i | 0 <= i < |documents|
      ensures w.read(texts[i]) == documents[i] && ManifestDecoder.Whole(texts[i]) && TrimSpace(texts[i]) != ""
      ensures Fixed(documents[i]) ==> ManifestText.IsDocument(texts[i])
    {
      assert documents[i] in documents;
      TextReadsBack(w, documents[i]);
    }
    ManifestDecoder.DecodedPrint(texts);
  }

  /** A full publish applies the documents of the manifest as they are, whatever lines there are in its files. */
  lemma ManifestDecoded(b: Bundle, lib: Library)
    requires WellFormed(b, lib) && WireOk(lib.wire)
    ensures Objects(PrintedManifest(b, lib), lib.wire) == Manifest(b, lib)
  {
    hide WellFormed, WireOk, Objects, Printable, Texts, Printer;
    ManifestPrintable(b, lib);
    var documents := Manifest(b, lib);
    assert documents[0] == Plain("Namespace") && documents[|documents| - 1].DaemonSet?;
    PrintedDecoded(documents, lib.wire);
  }

  // ---------- What filtering lets through ----------

  /** The document as far as the first separator line in its file. */
  function Part(d: Document): Document {
    if d.ConfigMap? then ConfigMap(d.name, Data(d.data.key, BlockText.FirstPart(d.data.content))) else d
  }

  /** What is kept of the lines after it. */
  function Scraps(d: Document, names: set<Name>, w: Wire): seq<string> {
    if d.ConfigMap? then ManifestText.Select(w.identify, KeepFor(names), BlockText.Rest(d.data.content)) else []
  }

  function SentOf(d: Document, names: set<Name>, w: Wire): seq<Document> {
    (if Keeps(d, names) then [Part(d)] else []) + ReadAll(Scraps(d, names, w), w)
  }

  /** What an incremental publish applies. */
  function SentAll(documents: seq<Document>, names: set<Name>, w: Wire): seq<Document> {
    if documents == [] then [] else SentAll(documents[..|documents| - 1], names, w) + SentOf(documents[|documents| - 1], names, w)
  }

  function PartText(w: Wire, d: Document): string {
    if d.ConfigMap? then BlockText.Block(w.head(d), BlockText.FirstPart(d.data.content)) else w.fixed(d)
  }

  lemma PartReads(w: Wire, d: Document, names: set<Name>)
    requires WireOk(w) && Printable(d)
    ensures w.read(PartText(w, d)) == Part(d) && ManifestText.Kept(w.identify, KeepFor(names), PartText(w, d)) == Keeps(d, names)
    ensures ManifestDecoder.Whole(PartText(w, d))
  {
    hide ManifestText.Clean, ManifestDecoder.Whole, BlockText.Indent, BlockText.FirstPart, Trimmed;
    if d.ConfigMap? {
      assert HeadOk(w, d);
      BlockText.CleanPart(d.data.content);
      BlockText.BlockWhole(w.head(d), BlockText.FirstPart(d.data.content));
    } else {
      assert FixedOk(w, d);
    }
  }

  lemma TextSplits(w: Wire, d: Document)
    requires WireOk(w) && Printable(d)
    ensures ManifestText.Split(TextOf(w, d)) == [PartText(w, d)] + if d.ConfigMap? then BlockText.Rest(d.data.content) else []
  {
    hide ManifestText.IsDocument, ManifestText.Split, ManifestDecoder.Whole, BlockText.Indent, BlockText.FirstPart, BlockText.Rest, Trimmed;
    if d.ConfigMap? {
      assert HeadOk(w, d);
      BlockText.SplitBlock(w.head(d), d.data.content);
    } else {
      assert FixedOk(w, d);
      ManifestText.SplitDocument(w.fixed(d));
      assert [w.fixed(d)] + [] == [w.fixed(d)];
    }
  }

  lemma KeptOfText(w: Wire, d: Document, names: set<Name>)
    requires WireOk(w) && Printable(d)
    ensures KeptOf(d, Printer(w), w.identify, names) == (if Keeps(d, names) then [PartText(w, d)] else []) + Scraps(d, names, w)
  {
    hide WireOk, Printable, TextOf, PartText, Keeps, BlockText.Rest, ManifestDecoder.Whole;
    hide ManifestText.Split, ManifestText.Kept, ManifestText.Select;
    TextSplits(w, d);
    PartReads(w, d, names);
    var rest := if d.ConfigMap? then BlockText.Rest(d.data.content) else [];
    SelectConcat(w.identify, KeepFor(names), [PartText(w, d)], rest);
    SelectOne(w.identify, KeepFor(names), PartText(w, d));
    if !d.ConfigMap? {
      SelectNothing(w.identify, KeepFor(names));
    }
  }

  lemma SelectNothing(identify: string -> Option<ManifestText.Identity>, keep: ManifestText.Identity -> bool)
    ensures ManifestText.Select(identify, keep, []) == []
  {}

  lemma ReadConcat(a: seq<string>, b: seq<string>, w: Wire)
    ensures ReadAll(a + b, w) == ReadAll(a, w) + ReadAll(b, w)
  {}

  /** The texts that filtering keeps of a manifest, and what they read as. */
  lemma {:induction false} KeptReads(documents: seq<Document>, names: set<Name>, w: Wire)
    requires WireOk(w) && forall d :: d in documents ==> Printable(d)
    ensures ReadAll(KeptOfAll(documents, Printer(w), w.identify, names), w) == SentAll(documents, names, w)
    ensures forall t :: t in KeptOfAll(documents, Printer(w), w.identify, names) ==> ManifestDecoder.Whole(t)
  {
    hide WireOk, Printable, PartText, Part, Keeps, Scraps, KeptOf, KeptOfAll, ReadAll, ManifestDecoder.Whole, ManifestText.Kept;
    if documents == [] {
      NothingKept(Printer(w), w.identify, names);
      NothingRead(w);
    } else {
      var n := |documents| - 1;
      var init, d := documents[..n], documents[n];
      assert documents == init + [d];
      assert d in documents && forall x :: x in init ==> x in documents;
      KeptReads(init, names, w);
      KeptSnoc(init, d, Printer(w), w.identify, names);
      KeptOfText(w, d, names);
      PartReads(w, d, names);
      ScrapsWhole(d, names, w);
      var own := if Keeps(d, names) then [PartText(w, d)] else [];
      ReadConcat(KeptOfAll(init, Printer(w), w.identify, names), own + Scraps(d, names, w), w);
      ReadConcat(own, Scraps(d, names, w), w);
      ReadOne(PartText(w, d), w);
      NothingRead(w);
    }
  }

  lemma NothingRead(w: Wire)
    ensures ReadAll([], w) == []
  {}

  lemma ReadOne(text: string, w: Wire)
    ensures ReadAll([text], w) == [w.read(text)]
  {}

  lemma ScrapsWhole(d: Document, names: set<Name>, w: Wire)
    ensures forall t :: t in Scraps(d, names, w) ==> ManifestDecoder.Whole(t)
  {
    hide ManifestDecoder.Whole, ManifestText.IsDocument, BlockText.Rest, ManifestText.Kept;
    if d.ConfigMap? {
      BlockText.RestWhole(d.data.content);
      forall t | t in Scraps(d, names, w) ensures ManifestDecoder.Whole(t) {
        assert t in BlockText.Rest(d.data.content);
      }
    }
  }

  /** The text of an incremental publish is the print of what filtering keeps of each document. */
  lemma ServiceKept(b: Bundle, lib: Library, names: set<Name>)
    requires WellFormed(b, lib) && WireOk(lib.wire)
    ensures var kept := KeptOfAll(Manifest(b, lib), Printer(lib.wire), lib.wire.identify, names);
            && ServiceText(PrintedManifest(b, lib), names, lib.wire) == ManifestText.Print(kept)
            && kept != [] && ManifestDecoder.Bounded(kept) && ReadAll(kept, lib.wire) == SentAll(Manifest(b, lib), names, lib.wire)
            && forall i :: 0 <= i < |kept| ==> TrimSpace(kept[i]) != "" && ManifestDecoder.Whole(kept[i])
  {
    hide WellFormed, WireOk, Printable, Manifest, TrimSpace, Texts, Printer, ManifestDecoder.Bounded;
    hide ManifestText.Print, ManifestText.Split, ManifestText.Select, ManifestText.Kept, ManifestText.AllPieces;
    hide ManifestDecoder.Whole;
    var documents, w := Manifest(b, lib), lib.wire;
    ManifestPrintable(b, lib);
    KeptReads(documents, names, w);
    var kept := KeptOfAll(documents, Printer(w), w.identify, names);
    ManifestText.SplitOfPrint(Texts(documents, Printer(w)));
    ManifestText.SplitFiltered(w.identify, KeepFor(names), PrintedManifest(b, lib));
    SentEnds(b, lib, names);
    KeptNotBlank(kept);
    forall i | 0 <= i < |kept| ensures kept[i] in kept {}
  }

  /** An incremental publish applies the selected documents up to the first separator line in each, and what is kept of the
      lines after the first separator line of any, selected or not. */
  lemma ServiceDecoded(b: Bundle, lib: Library, names: set<Name>)
    requires WellFormed(b, lib) && WireOk(lib.wire)
    ensures Objects(ServiceText(PrintedManifest(b, lib), names, lib.wire), lib.wire) == SentAll(Manifest(b, lib), names, lib.wire)
  {
    hide WellFormed, WireOk, Manifest, TrimSpace, PrintedManifest, ServiceText, KeptOfAll, SentAll, ReadAll;
    hide ManifestText.Print, ManifestDecoder.Whole, ManifestDecoder.Decoded, ManifestDecoder.Bounded;
    ServiceKept(b, lib, names);
    var kept := KeptOfAll(Manifest(b, lib), Printer(lib.wire), lib.wire.identify, names);
    ManifestDecoder.DecodedPrint(kept);
    assert Objects(ManifestText.Print(kept), lib.wire) == ReadAll(kept, lib.wire);
  }

  /** A print of documents is not blank. */
  lemma KeptNotBlank(kept: seq<string>)
    requires kept != [] && ManifestText.Split(ManifestText.Print(kept)) == kept
    ensures TrimSpace(ManifestText.Print(kept)) != "" && ManifestDecoder.Bounded(kept)
    ensures forall i :: 0 <= i < |kept| ==> TrimSpace(kept[i]) != ""
  {
    hide TrimSpace, ManifestText.Clean, ManifestText.Split, ManifestText.Print, IsSpace;
    ManifestText.SplitGivesDocuments(ManifestText.Print(kept));
    forall i | 0 <= i < |kept| ensures kept[i] != "" && Trimmed(kept[i]) && TrimSpace(kept[i]) != "" {
      assert ManifestText.IsDocument(kept[i]);
      TrimTrimmed(kept[i]);
    }
    ManifestDecoder.TrimmedPrint(kept);
    ManifestDecoder.JoinEnds(kept);
  }

  /** The DaemonSet comes last. */
  lemma SentEnds(b: Bundle, lib: Library, names: set<Name>)
    ensures var sent := SentAll(Manifest(b, lib), names, lib.wire);
            sent != [] && sent == SentAll(Front(b) + [Plain("Service")], names, lib.wire) + [DaemonSet(WorkloadFor(b, lib))]
  {
    hide Manifest, WorkloadFor, Front;
    ManifestEnds(b, lib);
    var front, last := Front(b) + [Plain("Service")], DaemonSet(WorkloadFor(b, lib));
    assert (front + [last])[..|front|] == front;
    assert SentOf(last, names, lib.wire) == [last];
  }

  // ---------- What is accepted ----------

  lemma FixedComplete(w: Wire, d: Document)
    requires WireOk(w) && Fixed(d)
    ensures ResourceCheck.AllComplete(w.complete, w.fixed(d)) && ResourceCheck.Resources(w.fixed(d)) == [w.fixed(d)]
  {
    hide TrimSpace, ManifestText.Clean, ManifestDecoder.Whole, ResourceCheck.NoDashes, ResourceCheck.Resources, HeadOk;
    assert FixedOk(w, d);
    TrimTrimmed(w.fixed(d));
    ResourceCheck.OneResource(w.fixed(d));
  }

  /** A ConfigMap's document is complete with any file that has no dashes in it. */
  lemma BlockComplete(w: Wire, d: Document, file: string)
    requires WireOk(w) && Printable(d) && d.ConfigMap? && Trimmed(file) && ResourceCheck.NoDashes(file)
    ensures ResourceCheck.AllComplete(w.complete, w.head(d) + "\n" + BlockText.Indent(file))
    ensures ResourceCheck.AllComplete(w.complete, BlockText.Block(w.head(d), file))
  {
    hide TrimSpace, ManifestText.Clean, ManifestDecoder.Whole, ResourceCheck.NoDashes, ResourceCheck.Resources, BlockText.Indent, FixedOk;
    hide BlockText.Block;
    assert HeadOk(w, d);
    BlockText.BlockTrimmed(w.head(d), file);
    BlockText.BlockNoDashes(w.head(d), file);
    BlockText.BlockHasText(w.head(d), file);
    ResourceCheck.OneResource(w.head(d) + "\n" + BlockText.Indent(file));
    ResourceCheck.OneResource(BlockText.Block(w.head(d), file));
  }

  lemma {:induction false} SomeResource(texts: seq<string>, text: string)
    requires text in texts && ResourceCheck.Resources(text) != []
    ensures ResourceCheck.AllResources(texts) != []
  {
    hide ResourceCheck.Resources;
    var n := |texts| - 1;
    assert texts == texts[..n] + [texts[n]];
    if text in texts[..n] {
      SomeResource(texts[..n], text);
    }
  }

  /** The manifest is accepted exactly when every part between dashes in the document of every file is complete. */
  lemma ManifestAcceptedIff(b: Bundle, lib: Library)
    requires WellFormed(b, lib) && WireOk(lib.wire)
    ensures ResourceCheck.Accepts(lib.wire.complete, PrintedManifest(b, lib)) <==>
            forall d :: d in Manifest(b, lib) && d.ConfigMap? ==> ResourceCheck.AllComplete(lib.wire.complete, TextOf(lib.wire, d))
  {
    hide WellFormed, WireOk, Manifest, Printable, ResourceCheck.AllComplete, ResourceCheck.Accepts, ResourceCheck.Resources, ManifestText.Print;
    hide BlockText.Indent;
    var documents, w := Manifest(b, lib), lib.wire;
    var texts := Texts(documents, Printer(w));
    ManifestPrintable(b, lib);
    ResourceCheck.AcceptsPrint(w.complete, texts);
    LastIsFixed(b, lib);
    FixedComplete(w, documents[|documents| - 1]);
    SomeResource(texts, texts[|texts| - 1]);
    forall k | 0 <= k < |documents| && !documents[k].ConfigMap? ensures ResourceCheck.AllComplete(w.complete, texts[k]) {
      assert documents[k] in documents;
      FixedDocuments(b, lib, documents[k]);
      FixedComplete(w, documents[k]);
    }
    forall k | 0 <= k < |documents| ensures texts[k] == TextOf(w, documents[k]) && documents[k] in documents {}
  }

  lemma LastIsFixed(b: Bundle, lib: Library)
    ensures var documents := Manifest(b, lib); documents != [] && documents[|documents| - 1].DaemonSet?
  {
    hide Ordered, MapsFor, WorkloadFor;
  }

  /** The text of an incremental publish is accepted exactly when every part between dashes in what filtering keeps is complete. */
  lemma ServiceAcceptedIff(b: Bundle, lib: Library, names: set<Name>)
    requires WellFormed(b, lib) && WireOk(lib.wire)
    ensures ResourceCheck.Accepts(lib.wire.complete, ServiceText(PrintedManifest(b, lib), names, lib.wire)) <==>
            forall text :: text in KeptOfAll(Manifest(b, lib), Printer(lib.wire), lib.wire.identify, names) ==>
                             ResourceCheck.AllComplete(lib.wire.complete, text)
  {
    hide WellFormed, WireOk, Manifest, TrimSpace, Texts, Printer, KeptOfAll, ResourceCheck.AllComplete, ResourceCheck.Resources;
    hide ManifestText.Print, ManifestText.Filter, ResourceCheck.AllResources;
    var w := lib.wire;
    var kept := KeptOfAll(Manifest(b, lib), Printer(w), w.identify, names);
    ServiceKept(b, lib, names);
    ResourceCheck.AcceptsPrint(w.complete, kept);
    LastKept(b, lib, names);
    SomeResource(kept, w.fixed(DaemonSet(WorkloadFor(b, lib))));
    forall k | 0 <= k < |kept| ensures kept[k] in kept {}
  }

  /** The DaemonSet is kept. */
  lemma LastKept(b: Bundle, lib: Library, names: set<Name>)
    requires WellFormed(b, lib) && WireOk(lib.wire)
    ensures var text := lib.wire.fixed(DaemonSet(WorkloadFor(b, lib)));
            text in KeptOfAll(Manifest(b, lib), Printer(lib.wire), lib.wire.identify, names) && ResourceCheck.Resources(text) != []
  {
    hide WellFormed, WireOk, Manifest, WorkloadFor, Front, KeptOf, KeptOfAll, ResourceCheck.Resources, ResourceCheck.AllComplete;
    var front, last := Front(b) + [Plain("Service")], DaemonSet(WorkloadFor(b, lib));
    ManifestEnds(b, lib);
    KeptSnoc(front, last, Printer(lib.wire), lib.wire.identify, names);
    KeptOfText(lib.wire, last, names);
    FixedComplete(lib.wire, last);
  }

  predicate DashFreeFiles(files: Files) { forall p :: p in files ==> ResourceCheck.NoDashes(files[p]) }

  lemma DashFreeIsClean(files: Files)
    requires DashFreeFiles(files)
    ensures CleanFiles(files)
  {
    hide ManifestText.Clean, ResourceCheck.NoDashes;
    forall p | p in files ensures ManifestText.Clean(files[p]) {
      ResourceCheck.NoDashesClean(files[p]);
    }
  }

  /** Without dashes in its files a bundle is accepted, in full and in part. */
  lemma DashFreeAccepted(b: Bundle, lib: Library, names: set<Name>)
    requires WellFormed(b, lib) && WireOk(lib.wire) && DashFreeFiles(b.files)
    ensures ResourceCheck.Accepts(lib.wire.complete, PrintedManifest(b, lib))
    ensures ResourceCheck.Accepts(lib.wire.complete, ServiceText(PrintedManifest(b, lib), names, lib.wire))
  {
    hide WellFormed, WireOk, Manifest, KeptOfAll, ResourceCheck.Accepts, ResourceCheck.AllComplete, ResourceCheck.NoDashes, TextOf, PrintedManifest;
    hide ServiceText, Printable, ManifestText.Clean;
    ManifestAcceptedIff(b, lib);
    ServiceAcceptedIff(b, lib, names);
    ManifestPrintable(b, lib);
    DashFreeIsClean(b.files);
    forall d | d in Manifest(b, lib) ensures ResourceCheck.AllComplete(lib.wire.complete, TextOf(lib.wire, d)) {
      DashFreeComplete(b, lib, d, names);
    }
    KeptComplete(b, lib, Manifest(b, lib), names);
  }

  lemma DashFreeComplete(b: Bundle, lib: Library, d: Document, names: set<Name>)
    requires WellFormed(b, lib) && WireOk(lib.wire) && DashFreeFiles(b.files) && d in Manifest(b, lib)
    ensures ResourceCheck.AllComplete(lib.wire.complete, TextOf(lib.wire, d))
    ensures forall text :: text in KeptOf(d, Printer(lib.wire), lib.wire.identify, names) ==> ResourceCheck.AllComplete(lib.wire.complete, text)
  {
    hide WireOk, Manifest, DataFor, KeptOf, ResourceCheck.AllComplete, ResourceCheck.NoDashes, ManifestText.Clean, BlockText.FirstPart;
    hide BlockText.Rest, BlockText.Indent, BlockText.Block, UniquePaths, UniqueNames, Trimmed, Keeps;
    ManifestPrintable(b, lib);
    KeptOfText(lib.wire, d, names);
    if d.ConfigMap? {
      var r := ManifestRefs(b, lib, d);
      DashFreeData(b, lib, r);
      BlockText.CleanPart(d.data.content);
      ResourceCheck.NoDashesClean(d.data.content);
      BlockComplete(lib.wire, d, d.data.content);
      SelectNothing(lib.wire.identify, KeepFor(names));
    } else {
      FixedDocuments(b, lib, d);
      FixedComplete(lib.wire, d);
    }
  }

  lemma DashFreeData(b: Bundle, lib: Library, r: Ref)
    requires WellFormed(b, lib) && DashFreeFiles(b.files) && r in b.refs
    ensures Trimmed(DataFor(b.files, r).content) && ResourceCheck.NoDashes(DataFor(b.files, r).content)
  {
    hide ResourceCheck.NoDashes, TrimNewlines, UniquePaths, UniqueNames, Trimmed;
    assert RefOk(r, lib);
    TrimmedData(b.files, r.path);
  }

  lemma {:induction false} KeptComplete(b: Bundle, lib: Library, documents: seq<Document>, names: set<Name>)
    requires WellFormed(b, lib) && WireOk(lib.wire) && DashFreeFiles(b.files) && forall d :: d in documents ==> d in Manifest(b, lib)
    ensures forall text :: text in KeptOfAll(documents, Printer(lib.wire), lib.wire.identify, names) ==>
                             ResourceCheck.AllComplete(lib.wire.complete, text)
  {
    hide WellFormed, WireOk, Manifest, KeptOf, KeptOfAll, ResourceCheck.AllComplete, TextOf, DashFreeFiles;
    if documents == [] {
      NothingKept(Printer(lib.wire), lib.wire.identify, names);
    } else {
      var n := |documents| - 1;
      assert documents == documents[..n] + [documents[n]];
      KeptComplete(b, lib, documents[..n], names);
      KeptSnoc(documents[..n], documents[n], Printer(lib.wire), lib.wire.identify, names);
      DashFreeComplete(b, lib, documents[n], names);
    }
  }

  // ---------- What an incremental publish leaves in the cluster ----------

  lemma {:induction false} LastDataConcat(a: seq<Document>, b: seq<Document>, name: Name)
    ensures LastData(a + b, name) == if LastData(b, name).Some? then LastData(b, name) else LastData(a, name)
  {
    if b == [] {
      assert a + b == a;
    } else {
      var n := |b| - 1;
      LastDataConcat(a, b[..n], name);
      assert (a + b)[..|a| + n] == a + b[..n];
    }
  }

  /** The data that scraps put under a name after the ConfigMap of that name itself. */
  function ScrapAt(documents: seq<Document>, names: set<Name>, name: Name, w: Wire): Option<Data> {
    if documents == [] then None
    else
      var last := documents[|documents| - 1];
      var scrap := LastData(ReadAll(Scraps(last, names, w), w), name);
      if scrap.Some? then scrap
      else if last.ConfigMap? && last.name == name then None
      else ScrapAt(documents[..|documents| - 1], names, name, w)
  }

  function FirstOf(data: Data): Data { Data(data.key, BlockText.FirstPart(data.content)) }

  lemma OwnData(d: Document, names: set<Name>, name: Name)
    ensures LastData(if Keeps(d, names) then [Part(d)] else [], name)
            == if d.ConfigMap? && d.name == name && name in names then Some(FirstOf(d.data)) else None
  {
    hide BlockText.FirstPart;
    assert [Part(d)][..0] == [];
  }

  /** A selected ConfigMap ends up with what a scrap put there after it, or else with its own file up to the first separator line. */
  lemma {:induction false} SentData(documents: seq<Document>, names: set<Name>, name: Name, w: Wire)
    requires name in names
    ensures LastData(SentAll(documents, names, w), name) ==
            if ScrapAt(documents, names, name, w).Some? then ScrapAt(documents, names, name, w)
            else if LastData(documents, name).Some? then Some(FirstOf(LastData(documents, name).value)) else None
  {
    hide Scraps, ReadAll, Keeps, Part, FirstOf;
    if documents != [] {
      var n := |documents| - 1;
      var init, d := documents[..n], documents[n];
      SentData(init, names, name, w);
      var own, scraps := if Keeps(d, names) then [Part(d)] else [], ReadAll(Scraps(d, names, w), w);
      LastDataConcat(SentAll(init, names, w), own + scraps, name);
      LastDataConcat(own, scraps, name);
      OwnData(d, names, name);
    }
  }

  lemma {:induction false} NoData(documents: seq<Document>, name: Name)
    requires forall d :: d in documents && d.ConfigMap? ==> d.name != name
    ensures LastData(documents, name) == None
  {
    if documents != [] {
      NoData(documents[..|documents| - 1], name);
    }
  }

  /** What is kept of any text is a ConfigMap of that name only if the name is selected. */
  lemma ScrapsNamed(d: Document, names: set<Name>, w: Wire)
    requires WireOk(w)
    ensures forall x :: x in ReadAll(Scraps(d, names, w), w) && x.ConfigMap? ==> x.name in names
  {
    hide BlockText.Rest, Fixed, Printable;
    if d.ConfigMap? {
      SelectKeeps(w.identify, KeepFor(names), BlockText.Rest(d.data.content));
      var texts := Scraps(d, names, w);
      forall i | 0 <= i < |texts| && w.read(texts[i]).ConfigMap? ensures w.read(texts[i]).name in names {
        assert texts[i] in texts;
      }
    }
  }

  lemma {:induction false} SelectKeeps(identify: string -> Option<ManifestText.Identity>, keep: ManifestText.Identity -> bool, texts: seq<string>)
    ensures forall t :: t in ManifestText.Select(identify, keep, texts) ==> ManifestText.Kept(identify, keep, t)
  {
    hide ManifestText.Kept;
    if texts != [] {
      SelectKeeps(identify, keep, texts[..|texts| - 1]);
    }
  }

  /** A ConfigMap that is not selected is left alone. */
  lemma {:induction false} UnsentData(documents: seq<Document>, names: set<Name>, name: Name, w: Wire)
    requires WireOk(w) && name !in names
    ensures LastData(SentAll(documents, names, w), name) == None
  {
    hide WireOk, Scraps, ReadAll, Keeps, Part;
    if documents != [] {
      var n := |documents| - 1;
      var init, d := documents[..n], documents[n];
      UnsentData(init, names, name, w);
      var own, scraps := if Keeps(d, names) then [Part(d)] else [], ReadAll(Scraps(d, names, w), w);
      LastDataConcat(SentAll(init, names, w), own + scraps, name);
      LastDataConcat(own, scraps, name);
      OwnData(d, names, name);
      ScrapsNamed(d, names, w);
      NoData(scraps, name);
    }
  }

  /** The ConfigMap of a selected file ends up holding it: the file has no separator line, and no scrap of a file after it gets
      in its place -- or a scrap does, and says the same. */
  predicate ArrivesWhole(b: Bundle, lib: Library, names: set<Name>, path: Path)
    requires path in b.files
  {
    match ScrapAt(Manifest(b, lib), names, lib.name(path), lib.wire)
    case Some(data) => data == DataAt(b.files, path)
    case None => ManifestText.Clean(b.files[path])
  }

  function DataAt(files: Files, path: Path): Data
    requires path in files
  {
    Data(if path == "base.yaml" then "base.yaml" else "fragment.yaml", TrimNewlines(files[path]))
  }

  lemma DataOfRef(b: Bundle, lib: Library, r: Ref)
    requires WellFormed(b, lib) && r in b.refs
    ensures RefOk(r, lib) && r.path in b.files && DataFor(b.files, r) == DataAt(b.files, r.path)
    ensures FirstOf(DataFor(b.files, r)) == DataFor(b.files, r) <==> ManifestText.Clean(b.files[r.path])
  {
    hide TrimNewlines, UniquePaths, UniqueNames, BlockText.FirstPart, ManifestText.Clean, Trimmed;
    assert RefOk(r, lib);
    TrimmedData(b.files, r.path);
    BlockText.CleanPart(b.files[r.path]);
  }

  /** Sending the DaemonSet and the ConfigMaps in `names`, by filtering the text of the manifest, serves the bundle exactly when
      each of these arrives whole and every other ConfigMap is already right. Then, and only then, it comes to the same as
      sending the whole manifest. */
  lemma IncrementalServesIff(c: Cluster, b: Bundle, lib: Library, names: set<Name>)
    requires WellFormed(b, lib) && WireOk(lib.wire)
    ensures var after := Deploy(c, Objects(ServiceText(PrintedManifest(b, lib), names, lib.wire), lib.wire));
            && (forall r :: r in b.refs ==> r.path in b.files)
            && (Serves(after, b) <==>
                forall r :: r in b.refs ==> if r.name in names then ArrivesWhole(b, lib, names, r.path) else Holds(c, b.files, r))
            && (forall r :: r in b.refs ==>
                  (Holds(after, b.files, r) <==> if r.name in names then ArrivesWhole(b, lib, names, r.path) else Holds(c, b.files, r)))
  {
    hide Manifest, WorkloadFor, Deploy, DataFor, DataAt, FirstOf, Serves, SentAll, LastData, WireOk, Objects, ServiceText, PrintedManifest, ScrapAt;
    hide Front, ManifestText.Clean;
    var documents := Manifest(b, lib);
    var sent := SentAll(documents, names, lib.wire);
    var after := Deploy(c, sent);
    ServiceDecoded(b, lib, names);
    SentWorkload(c, b, lib, names);
    forall r | r in b.refs
      ensures r.path in b.files
      ensures Holds(after, b.files, r) <==> if r.name in names then ArrivesWhole(b, lib, names, r.path) else Holds(c, b.files, r)
    {
      SentHolds(c, b, lib, names, r);
    }
    ServesIff(after, b, lib);
  }

  lemma SentHolds(c: Cluster, b: Bundle, lib: Library, names: set<Name>, r: Ref)
    requires WellFormed(b, lib) && WireOk(lib.wire) && r in b.refs
    ensures r.path in b.files
    ensures Holds(Deploy(c, SentAll(Manifest(b, lib), names, lib.wire)), b.files, r)
            <==> if r.name in names then ArrivesWhole(b, lib, names, r.path) else Holds(c, b.files, r)
  {
    hide Manifest, Deploy, DataFor, DataAt, FirstOf, SentAll, LastData, WireOk, ScrapAt, ManifestText.Clean, UniquePaths;
    DataOfRef(b, lib, r);
    ManifestData(b, lib, r);
    DeployedData(c, SentAll(Manifest(b, lib), names, lib.wire), r.name);
    if r.name in names {
      SentData(Manifest(b, lib), names, r.name, lib.wire);
    } else {
      UnsentData(Manifest(b, lib), names, r.name, lib.wire);
    }
  }

  lemma SentWorkload(c: Cluster, b: Bundle, lib: Library, names: set<Name>)
    ensures Deploy(c, SentAll(Manifest(b, lib), names, lib.wire)).workload == Some(WorkloadFor(b, lib))
  {
    hide Manifest, WorkloadFor, Front, SentAll;
    SentEnds(b, lib, names);
    var sent := SentAll(Manifest(b, lib), names, lib.wire);
    assert sent[|sent| - 1] == DaemonSet(WorkloadFor(b, lib));
  }

  // ---------- Files without separator lines ----------

  predicate CleanFiles(files: Files) { forall p :: p in files ==> ManifestText.Clean(files[p]) }

  lemma {:induction false} CleanSent(documents: seq<Document>, names: set<Name>, w: Wire)
    requires forall d :: d in documents && d.ConfigMap? ==> Trimmed(d.data.content) && ManifestText.Clean(d.data.content)
    ensures SentAll(documents, names, w) == Selected(documents, names)
    ensures forall name :: ScrapAt(documents, names, name, w) == None
  {
    hide Trimmed, ManifestText.Clean, BlockText.FirstPart, BlockText.Rest, Keeps;
    if documents != [] {
      var n := |documents| - 1;
      var init, d := documents[..n], documents[n];
      assert documents == init + [d];
      assert forall x :: x in init ==> x in documents;
      CleanSent(init, names, w);
      if d.ConfigMap? {
        BlockText.CleanPart(d.data.content);
        SelectNothing(w.identify, KeepFor(names));
      }
      NothingRead(w);
      assert Scraps(d, names, w) == [];
      assert LastData([], "") == None;
    }
  }

  /** With clean files an incremental publish applies exactly the selected documents, and each arrives whole. */
  lemma CleanFilesArrive(b: Bundle, lib: Library, names: set<Name>)
    requires WellFormed(b, lib) && WireOk(lib.wire) && CleanFiles(b.files)
    ensures Objects(ServiceText(PrintedManifest(b, lib), names, lib.wire), lib.wire) == Selected(Manifest(b, lib), names)
    ensures forall p :: p in b.files ==> ArrivesWhole(b, lib, names, p)
  {
    hide WireOk, Objects, ServiceText, PrintedManifest, ScrapAt, SentAll, Selected, ManifestText.Clean, Manifest, DataFor;
    hide UniquePaths, UniqueNames, Trimmed, DataAt;
    ServiceDecoded(b, lib, names);
    forall d | d in Manifest(b, lib) && d.ConfigMap? ensures Trimmed(d.data.content) && ManifestText.Clean(d.data.content) {
      var r := ManifestRefs(b, lib, d);
      RefClean(b, lib, r);
    }
    CleanSent(Manifest(b, lib), names, lib.wire);
  }

  lemma RefClean(b: Bundle, lib: Library, r: Ref)
    requires WellFormed(b, lib) && CleanFiles(b.files) && r in b.refs
    ensures Trimmed(DataFor(b.files, r).content) && ManifestText.Clean(DataFor(b.files, r).content)
  {
    hide ManifestText.Clean, TrimNewlines, UniquePaths, UniqueNames, Trimmed;
    assert RefOk(r, lib);
    TrimmedData(b.files, r.path);
  }

  /** A selected ConfigMap whose file has a separator line, indented or not: it is sent with what comes before that line, and the
      lines after it are no part of it. */
  lemma DamagedConfigMap(name: Name, key: string, first: string, indent: string, second: string, names: set<Name>, w: Wire)
    requires ManifestText.IsDocument(first) && AllSpace(indent) && '\n' !in indent && name in names
    ensures var file := first + "\n" + (indent + "---") + "\n" + second;
            && SentOf(ConfigMap(name, Data(key, file)), names, w)
               == [ConfigMap(name, Data(key, first))] + ReadAll(Scraps(ConfigMap(name, Data(key, file)), names, w), w)
            && first != file && !ManifestText.Clean(file)
  {
    hide BlockText.FirstPart, BlockText.Rest, ManifestText.Pieces, ManifestText.Clean, Scraps;
    BlockText.SeparatedFile(first, indent, second);
  }
}
