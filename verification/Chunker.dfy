/** Chunking of a whole document: sections, size checks, and consecutive chunk indices. */
module Chunker {
  import opened Wrappers
  import opened Strings
  import opened Sections
  import opened Semantic

  const MAX_CHUNK_CHARS: nat := 4000

  datatype RawChunk = RawChunk(content: string, index: int, title: Option<string>)

  datatype Strategy = Fixed | BySimilarity

  datatype Section = Section(title: Option<string>, body: string)

  /** `markdownSections` stands for the Markdown parser, `clean` for the removal of boilerplate from a text. */
  datatype Document = Document(text: string, isMarkup: bool, markdownSections: string -> seq<Section>, clean: string -> string)

  function MaxSize(isMarkup: bool): nat {
    if isMarkup then MAX_CHUNK_CHARS else TEXT_WINDOW_SIZE
  }

  predicate Numbered(chunks: seq<RawChunk>) {
    forall i :: 0 <= i < |chunks| ==> chunks[i].index == i
  }

  predicate AllFit(chunks: seq<RawChunk>, size: nat) {
    forall i :: 0 <= i < |chunks| ==> |chunks[i].content| <= size
  }

  function WithLimit(settings: Settings, document: Document): Settings {
    settings.(maxChunkChars := MaxSize(document.isMarkup))
  }

  predicate IsSemantic(strategy: Strategy, hasEmbedder: bool) {
    strategy.BySimilarity? && hasEmbedder
  }

  // -------------------------------------------------------------- Specification

  /** Markup is cut by its parser; plain text is packed greedily, without titles. */
  ghost predicate AreSections(document: Document, sections: seq<Section>) {
    if document.isMarkup then sections == document.markdownSections(document.text)
    else exists groups :: IsPlainText(document.text, sections, groups)
  }

  ghost predicate IsPlainText(text: string, sections: seq<Section>, groups: seq<seq<string>>) {
    && IsPacking(groups, Paragraphs(text)) && IsGreedy(groups) && |sections| == |groups|
    && forall i :: 0 <= i < |groups| ==> sections[i] == Section(None, Join(groups[i], BLANK_LINE))
  }

  /** The text of a section that reaches the size check. */
  function Cleaned(settings: Settings, document: Document, body: string): (text: string)
    ensures !settings.filterGarbage || Trim(body) == [] ==> text == Trim(body)
    ensures settings.filterGarbage && Trim(body) != [] ==> text == document.clean(Trim(body))
  {
    var trimmed := Trim(body);
    if trimmed != [] && settings.filterGarbage then document.clean(trimmed) else trimmed
  }

  ghost predicate ArePieces(services: Services, settings: Settings, strategy: Strategy, hasEmbedder: bool, text: string, pieces: seq<string>)
    requires IsSemantic(strategy, hasEmbedder) ==> settings.maxSentences >= 1
  {
    if IsSemantic(strategy, hasEmbedder) then IsSplit(services, settings, text, pieces)
    else pieces == DropBlank(Windows(text, settings.maxChunkChars, Step(settings.maxChunkChars, TEXT_WINDOW_OVERLAP), 0))
  }

  /** Nothing from a section left blank, the section whole when it fits, and its pieces otherwise. */
  ghost predicate AreSectionPieces(services: Services, settings: Settings, strategy: Strategy, hasEmbedder: bool,
                                   document: Document, body: string, pieces: seq<string>)
    requires IsSemantic(strategy, hasEmbedder) ==> settings.maxSentences >= 1
  {
    var text := Cleaned(settings, document, body);
    if text == [] then pieces == []
    else if ByteLen(text) <= MaxSize(document.isMarkup) then pieces == [text]
    else ArePieces(services, WithLimit(settings, document), strategy, hasEmbedder, text, pieces)
  }

  /** What the pieces of a text show: no blank piece of a text that is not blank, and all of the text unless sentences are filtered. */
  predicate ShowText(semantic: bool, filtered: bool, text: string, pieces: seq<string>) {
    && (Trim(text) != [] ==> forall p :: 0 <= p < |pieces| ==> Trim(pieces[p]) != [])
    && (!semantic || !filtered ==> IsSubsequence(Visible(text), Visible(Flatten(pieces))))
  }

  lemma {:induction false} PiecesShowText(services: Services, settings: Settings, strategy: Strategy, hasEmbedder: bool, text: string, pieces: seq<string>)
    requires (IsSemantic(strategy, hasEmbedder) ==> settings.maxSentences >= 1) && settings.maxChunkChars >= 1
    requires ArePieces(services, settings, strategy, hasEmbedder, text, pieces)
    ensures ShowText(IsSemantic(strategy, hasEmbedder), settings.filterGarbage, text, pieces)
    ensures !IsSemantic(strategy, hasEmbedder) ==> forall p :: 0 <= p < |pieces| ==> |pieces[p]| <= settings.maxChunkChars
  {
    if IsSemantic(strategy, hasEmbedder) {
      SplitShowsKept(services, settings, text, pieces);
      if Trim(text) != [] {
        SplitIsNotBlank(services, settings, text, pieces);
      }
    } else {
      WindowsShowText(text, settings.maxChunkChars, TEXT_WINDOW_OVERLAP);
      ChunksFit(text, settings.maxChunkChars, TEXT_WINDOW_OVERLAP);
      DropBlankKeeps(Windows(text, settings.maxChunkChars, Step(settings.maxChunkChars, TEXT_WINDOW_OVERLAP), 0));
    }
  }

  lemma {:induction false} SectionPiecesShowText(services: Services, settings: Settings, strategy: Strategy, hasEmbedder: bool,
                                                 document: Document, body: string, pieces: seq<string>)
    requires IsSemantic(strategy, hasEmbedder) ==> settings.maxSentences >= 1
    requires AreSectionPieces(services, settings, strategy, hasEmbedder, document, body, pieces)
    ensures ShowText(IsSemantic(strategy, hasEmbedder), settings.filterGarbage, Cleaned(settings, document, body), pieces)
    ensures !IsSemantic(strategy, hasEmbedder) ==> forall p :: 0 <= p < |pieces| ==> |pieces[p]| <= MaxSize(document.isMarkup)
  {
    var text := Cleaned(settings, document, body);
    if text != [] && ByteLen(text) <= MaxSize(document.isMarkup) {
      FlattenOne(text);
      SubsequenceOfSelf(Visible(text));
    } else if text != [] {
      PiecesShowText(services, WithLimit(settings, document), strategy, hasEmbedder, text, pieces);
    }
  }

  function NumberFrom(start: nat, pieces: seq<string>, title: Option<string>): (chunks: seq<RawChunk>)
    ensures |chunks| == |pieces|
  {
    seq(|pieces|, p requires 0 <= p < |pieces| => RawChunk(pieces[p], start + p, title))
  }

  /** The pieces of all sections in order, numbered through, each under its section's title. */
  function NumberAll(sections: seq<Section>, pieces: seq<seq<string>>): seq<RawChunk>
    requires |sections| == |pieces|
  {
    if sections == [] then []
    else
      var n := |sections| - 1;
      var before := NumberAll(sections[..n], pieces[..n]);
      before + NumberFrom(|before|, pieces[n], sections[n].title)
  }

  /** What a document is cut into; a document with text but without chunks falls back to its first characters. */
  ghost predicate AreChunksOf(services: Services, settings: Settings, strategy: Strategy, hasEmbedder: bool, document: Document,
                              sections: seq<Section>, pieces: seq<seq<string>>, chunks: seq<RawChunk>)
    requires IsSemantic(strategy, hasEmbedder) ==> settings.maxSentences >= 1
  {
    && AreSections(document, sections) && |pieces| == |sections|
    && (forall s :: 0 <= s < |sections| ==>
          AreSectionPieces(services, settings, strategy, hasEmbedder, document, sections[s].body, pieces[s]))
    && chunks == if NumberAll(sections, pieces) == [] && Trim(document.text) != []
                 then [RawChunk(document.text[..Min(MaxSize(document.isMarkup), |document.text|)], 0, None)]
                 else NumberAll(sections, pieces)
  }

  /** The size limit holds for a section's pieces: it fits, or is cut by windows or by sentences, or what is returned early fits. */
  predicate SectionFits(services: Services, settings: Settings, strategy: Strategy, hasEmbedder: bool, document: Document, body: string) {
    var text, limited := Cleaned(settings, document, body), WithLimit(settings, document);
    IsSemantic(strategy, hasEmbedder) && ByteLen(text) > MaxSize(document.isMarkup) && EndsEarly(services, limited, text) ==>
      |EarlyText(services, limited, text)| <= MaxSize(document.isMarkup)
  }

  predicate SectionsFit(services: Services, settings: Settings, strategy: Strategy, hasEmbedder: bool, document: Document, sections: seq<Section>) {
    forall s :: 0 <= s < |sections| ==> SectionFits(services, settings, strategy, hasEmbedder, document, sections[s].body)
  }

  /** The embedder has no answer for the sentence windows of a section. */
  predicate EmbeddingFails(services: Services, settings: Settings, document: Document, section: Section) {
    services.embed(WindowTexts(Kept(services, WithLimit(settings, document), Cleaned(settings, document, section.body)))).None?
  }

  /** The embedder has no answer for the sentence windows of one of the sections. */
  predicate FailsSomewhere(services: Services, settings: Settings, document: Document, sections: seq<Section>) {
    exists s :: 0 <= s < |sections| && EmbeddingFails(services, settings, document, sections[s])
  }

  // ------------------------------------------------------------------ Algorithm

  method SplitOversized(services: Services, settings: Settings, strategy: Strategy, hasEmbedder: bool, text: string)
    returns (r: Option<seq<string>>)
    requires IsSemantic(strategy, hasEmbedder) ==> settings.maxSentences >= 1
    ensures r.Some? ==> ArePieces(services, settings, strategy, hasEmbedder, text, r.value)
    ensures r.Some? && settings.maxChunkChars >= 1 ==>
              && ShowText(IsSemantic(strategy, hasEmbedder), settings.filterGarbage, text, r.value)
              && (!IsSemantic(strategy, hasEmbedder) ==> forall p :: 0 <= p < |r.value| ==> |r.value[p]| <= settings.maxChunkChars)
    ensures r.None? ==> IsSemantic(strategy, hasEmbedder) && services.embed(WindowTexts(Kept(services, settings, text))).None?
  {
    if strategy.BySimilarity? && hasEmbedder {
      r := SemanticSplit(services, settings, text);
    } else {
      var pieces := SplitWithOverlap(text, settings.maxChunkChars, TEXT_WINDOW_OVERLAP);
      r := Some(pieces);
    }
    if r.Some? && settings.maxChunkChars >= 1 {
      PiecesShowText(services, settings, strategy, hasEmbedder, text, r.value);
    }
  }

  method FindSections(document: Document) returns (sections: seq<Section>)
    ensures AreSections(document, sections)
  {
    if document.isMarkup {
      sections := document.markdownSections(document.text);
    } else {
      var merged, groups := ExtractTextSections(document.text);
      sections := seq(|merged|, i requires 0 <= i < |merged| => Section(None, merged[i]));
      assert IsPlainText(document.text, sections, groups);
    }
  }

  /** The pieces of one section, numbered on from the chunks so far. */
  method AppendPieces(chunks: seq<RawChunk>, pieces: seq<string>, title: Option<string>) returns (more: seq<RawChunk>)
    ensures more == chunks + NumberFrom(|chunks|, pieces, title)
  {
    more := chunks;
    var idx := |chunks|;
    for p := 0 to |pieces|
      invariant idx == |chunks| + p && more == chunks + NumberFrom(|chunks|, pieces, title)[..p]
    {
      more := more + [RawChunk(pieces[p], idx, title)];
      idx := idx + 1;
    }
  }

  /** The pieces of one section's body, or none at all when the embedder fails. */
  method CutSection(services: Services, settings: Settings, strategy: Strategy, hasEmbedder: bool, document: Document, section: Section)
    returns (r: Option<seq<string>>)
    requires IsSemantic(strategy, hasEmbedder) ==> settings.maxSentences >= 1
    ensures r.Some? ==>
              && AreSectionPieces(services, settings, strategy, hasEmbedder, document, section.body, r.value)
              && ShowText(IsSemantic(strategy, hasEmbedder), settings.filterGarbage, Cleaned(settings, document, section.body), r.value)
              && (!IsSemantic(strategy, hasEmbedder) ==> forall p :: 0 <= p < |r.value| ==> |r.value[p]| <= MaxSize(document.isMarkup))
    ensures r.None? ==> IsSemantic(strategy, hasEmbedder) && EmbeddingFails(services, settings, document, section)
  {
    var body := Trim(section.body);
    if body == [] {
      return Some([]);
    }
    if settings.filterGarbage {
      body := document.clean(body);
    }
    if body == [] {
      return Some([]);
    }
    if ByteLen(body) <= MaxSize(document.isMarkup) {
      SectionPiecesShowText(services, settings, strategy, hasEmbedder, document, section.body, [body]);
      return Some([body]);
    }
    r := SplitOversized(services, WithLimit(settings, document), strategy, hasEmbedder, body);
  }

  /** The pieces so far are those of the first sections. */
  ghost predicate FirstAreCut(services: Services, settings: Settings, strategy: Strategy, hasEmbedder: bool, document: Document,
                              sections: seq<Section>, pieces: seq<seq<string>>)
    requires IsSemantic(strategy, hasEmbedder) ==> settings.maxSentences >= 1
  {
    |pieces| <= |sections| && forall s :: 0 <= s < |pieces| ==>
      AreSectionPieces(services, settings, strategy, hasEmbedder, document, sections[s].body, pieces[s])
  }

  lemma {:induction false} CutOneMore(services: Services, settings: Settings, strategy: Strategy, hasEmbedder: bool, document: Document,
                                      sections: seq<Section>, pieces: seq<seq<string>>, cut: seq<string>)
    requires IsSemantic(strategy, hasEmbedder) ==> settings.maxSentences >= 1
    requires FirstAreCut(services, settings, strategy, hasEmbedder, document, sections, pieces) && |pieces| < |sections|
    requires AreSectionPieces(services, settings, strategy, hasEmbedder, document, sections[|pieces|].body, cut)
    ensures FirstAreCut(services, settings, strategy, hasEmbedder, document, sections, pieces + [cut])
  {
    forall s | 0 <= s < |pieces| + 1
      ensures AreSectionPieces(services, settings, strategy, hasEmbedder, document, sections[s].body, (pieces + [cut])[s]) {
      assert s < |pieces| ==> (pieces + [cut])[s] == pieces[s];
    }
  }

  lemma {:induction false} NumberOneMore(sections: seq<Section>, pieces: seq<seq<string>>, cut: seq<string>)
    requires |pieces| < |sections|
    ensures var n, before := |pieces|, NumberAll(sections[..|pieces|], pieces);
            NumberAll(sections[..n + 1], pieces + [cut]) == before + NumberFrom(|before|, cut, sections[n].title)
  {
    var n := |pieces|;
    assert sections[..n + 1][..n] == sections[..n] && (pieces + [cut])[..n] == pieces;
  }

  /** The pieces of every section, numbered through. */
  method ChunkSections(services: Services, settings: Settings, strategy: Strategy, hasEmbedder: bool, document: Document, sections: seq<Section>)
    returns (r: Option<seq<RawChunk>>, ghost pieces: seq<seq<string>>)
    requires IsSemantic(strategy, hasEmbedder) ==> settings.maxSentences >= 1
    ensures r.Some? ==>
              && |pieces| == |sections| && r.value == NumberAll(sections, pieces)
              && FirstAreCut(services, settings, strategy, hasEmbedder, document, sections, pieces)
    ensures r.None? ==> IsSemantic(strategy, hasEmbedder) && FailsSomewhere(services, settings, document, sections)
  {
    pieces := [];
    var chunks: seq<RawChunk> := [];
    for s := 0 to |sections|
      invariant |pieces| == s && chunks == NumberAll(sections[..s], pieces)
      invariant FirstAreCut(services, settings, strategy, hasEmbedder, document, sections, pieces)
    {
      var cut := CutSection(services, settings, strategy, hasEmbedder, document, sections[s]);
      if cut.None? {
        return None, pieces;
      }
      NumberOneMore(sections, pieces, cut.value);
      CutOneMore(services, settings, strategy, hasEmbedder, document, sections, pieces, cut.value);
      chunks := AppendPieces(chunks, cut.value, sections[s].title);
      pieces := pieces + [cut.value];
    }
    assert sections[..|sections|] == sections;
    r := Some(chunks);
  }

  /** The chunks of a document, or none when the embedder fails on one of its sections. */
  method ChunkDocument(services: Services, settings: Settings, strategy: Strategy, hasEmbedder: bool, document: Document)
    returns (r: Option<seq<RawChunk>>, ghost sections: seq<Section>, ghost pieces: seq<seq<string>>)
    requires IsSemantic(strategy, hasEmbedder) ==> settings.maxSentences >= 1
    ensures r.Some? ==> AreChunksOf(services, settings, strategy, hasEmbedder, document, sections, pieces, r.value)
    ensures r.Some? ==> Numbered(r.value) && (Trim(document.text) != [] ==> r.value != [])
    ensures r.Some? ==> (AllFit(r.value, MaxSize(document.isMarkup)) <==> SectionsFit(services, settings, strategy, hasEmbedder, document, sections))
    ensures !IsSemantic(strategy, hasEmbedder) ==> SectionsFit(services, settings, strategy, hasEmbedder, document, sections)
    ensures r.None? ==> IsSemantic(strategy, hasEmbedder) && FailsSomewhere(services, settings, document, sections)
  {
    var found := FindSections(document);
    sections := found;
    r, pieces := ChunkSections(services, settings, strategy, hasEmbedder, document, found);
    if r.None? {
      return;
    }
    if r.value == [] && Trim(document.text) != [] {
      r := Some([RawChunk(document.text[..Min(MaxSize(document.isMarkup), |document.text|)], 0, None)]);
    }
    ChunksAreNumberedAndFit(services, settings, strategy, hasEmbedder, document, sections, pieces, r.value);
  }

  // ----------------------------------------------------------- What chunks are like

  lemma {:induction false} NumberAllIsNumbered(sections: seq<Section>, pieces: seq<seq<string>>, size: nat)
    requires |sections| == |pieces|
    ensures Numbered(NumberAll(sections, pieces))
    ensures PiecesFit(pieces, size) <==> AllFit(NumberAll(sections, pieces), size)
  {
    if sections != [] {
      var n := |sections| - 1;
      var before := NumberAll(sections[..n], pieces[..n]);
      var last := NumberFrom(|before|, pieces[n], sections[n].title);
      NumberAllIsNumbered(sections[..n], pieces[..n], size);
      assert pieces == pieces[..n] + [pieces[n]];
      AllFitTogether(before, last, size);
      assert AllFit(last, size) <==> AllShort(pieces[n], size) by {
        assert forall p :: 0 <= p < |last| ==> last[p].content == pieces[n][p];
      }
    }
  }

  lemma {:induction false} AllFitTogether(before: seq<RawChunk>, last: seq<RawChunk>, size: nat)
    ensures AllFit(before + last, size) <==> AllFit(before, size) && AllFit(last, size)
  {
    if AllFit(before + last, size) {
      assert forall i :: 0 <= i < |before| ==> (before + last)[i] == before[i];
      assert forall i :: 0 <= i < |last| ==> (before + last)[|before| + i] == last[i];
    }
  }

  predicate AllShort(pieces: seq<string>, size: nat) {
    forall p :: 0 <= p < |pieces| ==> |pieces[p]| <= size
  }

  predicate PiecesFit(pieces: seq<seq<string>>, size: nat) {
    forall s :: 0 <= s < |pieces| ==> AllShort(pieces[s], size)
  }

  lemma {:induction false} SectionFitsExactly(services: Services, settings: Settings, strategy: Strategy, hasEmbedder: bool,
                                              document: Document, body: string, pieces: seq<string>)
    requires IsSemantic(strategy, hasEmbedder) ==> settings.maxSentences >= 1
    requires AreSectionPieces(services, settings, strategy, hasEmbedder, document, body, pieces)
    ensures AllShort(pieces, MaxSize(document.isMarkup)) <==> SectionFits(services, settings, strategy, hasEmbedder, document, body)
  {
    var text := Cleaned(settings, document, body);
    if text != [] && ByteLen(text) > MaxSize(document.isMarkup) && IsSemantic(strategy, hasEmbedder) {
      SplitFitsExactly(services, WithLimit(settings, document), text, pieces);
    } else {
      SectionPiecesShowText(services, settings, strategy, hasEmbedder, document, body, pieces);
    }
  }

  /**
   * Chunks are numbered from zero without gaps, and a document that is not blank has at
   * least one. All chunks are within the size for their document type if and only if no
   * section that exceeds it makes the semantic splitter return a text of its own beyond it
   * early; with fixed windows that is always so.
   */
  lemma {:induction false} ChunksAreNumberedAndFit(services: Services, settings: Settings, strategy: Strategy, hasEmbedder: bool, document: Document,
                                                   sections: seq<Section>, pieces: seq<seq<string>>, chunks: seq<RawChunk>)
    requires IsSemantic(strategy, hasEmbedder) ==> settings.maxSentences >= 1
    requires AreChunksOf(services, settings, strategy, hasEmbedder, document, sections, pieces, chunks)
    ensures Numbered(chunks)
    ensures Trim(document.text) != [] ==> chunks != []
    ensures AllFit(chunks, MaxSize(document.isMarkup)) <==> SectionsFit(services, settings, strategy, hasEmbedder, document, sections)
    ensures !IsSemantic(strategy, hasEmbedder) ==> SectionsFit(services, settings, strategy, hasEmbedder, document, sections)
  {
    forall s | 0 <= s < |sections|
      ensures AllShort(pieces[s], MaxSize(document.isMarkup)) <==> SectionFits(services, settings, strategy, hasEmbedder, document, sections[s].body)
    {
      SectionFitsExactly(services, settings, strategy, hasEmbedder, document, sections[s].body, pieces[s]);
    }
    NumberAllIsNumbered(sections, pieces, MaxSize(document.isMarkup));
  }

  /** The chunk is the `p`-th piece of section `s`, under its title. */
  predicate IsPieceOf(chunk: RawChunk, sections: seq<Section>, pieces: seq<seq<string>>, s: nat, p: nat) {
    s < |sections| && s < |pieces| && p < |pieces[s]| && chunk.content == pieces[s][p] && chunk.title == sections[s].title
  }

  predicate IsSomePiece(chunk: RawChunk, sections: seq<Section>, pieces: seq<seq<string>>) {
    exists s, p :: 0 <= s < |pieces| && 0 <= p < |pieces[s]| && IsPieceOf(chunk, sections, pieces, s, p)
  }

  /** Every chunk is a piece of a section, under that section's title. */
  lemma {:induction false} ChunksAreTitled(sections: seq<Section>, pieces: seq<seq<string>>, k: nat)
    requires |sections| == |pieces| && k < |NumberAll(sections, pieces)|
    ensures IsSomePiece(NumberAll(sections, pieces)[k], sections, pieces)
  {
    var n := |sections| - 1;
    var before := NumberAll(sections[..n], pieces[..n]);
    if k < |before| {
      ChunksAreTitled(sections[..n], pieces[..n], k);
      var s, p :| 0 <= s < n && 0 <= p < |pieces[..n][s]| && IsPieceOf(before[k], sections[..n], pieces[..n], s, p);
      assert IsPieceOf(before[k], sections, pieces, s, p);
    } else {
      assert IsPieceOf(NumberAll(sections, pieces)[k], sections, pieces, n, k - |before|);
    }
  }

  /** Without a piece, a document that is not blank becomes one chunk of its first characters, as many as the size allows. */
  lemma {:induction false} FallbackIsPrefix(services: Services, settings: Settings, strategy: Strategy, hasEmbedder: bool, document: Document,
                                            sections: seq<Section>, pieces: seq<seq<string>>, chunks: seq<RawChunk>)
    requires IsSemantic(strategy, hasEmbedder) ==> settings.maxSentences >= 1
    requires AreChunksOf(services, settings, strategy, hasEmbedder, document, sections, pieces, chunks)
    requires Flatten(pieces) == [] && Trim(document.text) != []
    ensures |chunks| == 1 && chunks[0].index == 0 && chunks[0].title == None && chunks[0].content <= document.text
    ensures |chunks[0].content| == if |document.text| < MaxSize(document.isMarkup) then |document.text| else MaxSize(document.isMarkup)
  {
    NumberAllKeepsPieces(sections, pieces);
  }

  /** A Markdown document that is a single section. */
  function OneSection(text: string): Document {
    Document(text, true, _ => [Section(None, text)], (s: string) => s)
  }

  lemma {:induction false} EdgesStay(text: string)
    requires text != [] && !IsWhitespace(text[0]) && !IsWhitespace(text[|text| - 1])
    ensures Trim(text) == text
  {
  }

  /** The semantic splitter leaves a section without terminators whole, however long. */
  lemma {:induction false} LongSentenceExceeds(services: Services, settings: Settings, text: string,
                                               sections: seq<Section>, pieces: seq<seq<string>>, chunks: seq<RawChunk>)
    requires settings.maxSentences >= 1 && |text| > MAX_CHUNK_CHARS && forall i :: 0 <= i < |text| ==> text[i] == 'a'
    requires AreChunksOf(services, settings, BySimilarity, true, OneSection(text), sections, pieces, chunks)
    ensures !AllFit(chunks, MAX_CHUNK_CHARS)
  {
    UnbrokenSectionExceeds(services, settings, text);
    assert sections[0].body == text;
    ChunksAreNumberedAndFit(services, settings, BySimilarity, true, OneSection(text), sections, pieces, chunks);
  }

  lemma {:induction false} UnbrokenSectionExceeds(services: Services, settings: Settings, text: string)
    requires |text| > MAX_CHUNK_CHARS && Unbroken(text) && !IsWhitespace(text[0]) && !IsWhitespace(text[|text| - 1])
    ensures !SectionFits(services, settings, BySimilarity, true, OneSection(text), text)
  {
    EdgesStay(text);
    assert Cleaned(settings, OneSection(text), text) == text;
    UnbrokenIsOneSentence(services.lower, services.isUpper, text, 0, "");
  }

  function Contents(chunks: seq<RawChunk>): seq<string> {
    seq(|chunks|, i requires 0 <= i < |chunks| => chunks[i].content)
  }

  lemma {:induction false} NumberAllKeepsPieces(sections: seq<Section>, pieces: seq<seq<string>>)
    requires |sections| == |pieces|
    ensures Contents(NumberAll(sections, pieces)) == Flatten(pieces)
  {
    if sections != [] {
      var n := |sections| - 1;
      NumberAllKeepsPieces(sections[..n], pieces[..n]);
      assert pieces == pieces[..n] + [pieces[n]];
      FlattenSnoc(pieces[..n], pieces[n]);
      var before := NumberAll(sections[..n], pieces[..n]);
      assert Contents(NumberAll(sections, pieces)) == Contents(before) + pieces[n];
    }
  }

  lemma {:induction false} FittingSectionIsKept(services: Services, settings: Settings, strategy: Strategy, hasEmbedder: bool,
                                                document: Document, body: string, pieces: seq<string>)
    requires IsSemantic(strategy, hasEmbedder) ==> settings.maxSentences >= 1
    requires AreSectionPieces(services, settings, strategy, hasEmbedder, document, body, pieces)
    requires !settings.filterGarbage && ByteLen(Trim(body)) <= MaxSize(document.isMarkup)
    ensures Visible(Flatten(pieces)) == Visible(body)
  {
    TrimKeepsVisible(body);
    if pieces != [] {
      FlattenOne(Trim(body));
    }
  }

  /** A section within the size is one piece, trimmed and cleaned, or none when that leaves nothing. */
  lemma {:induction false} FittingSectionIsOnePiece(services: Services, settings: Settings, strategy: Strategy, hasEmbedder: bool,
                                                    document: Document, body: string, pieces: seq<string>)
    requires IsSemantic(strategy, hasEmbedder) ==> settings.maxSentences >= 1
    requires AreSectionPieces(services, settings, strategy, hasEmbedder, document, body, pieces)
    ensures var text := if settings.filterGarbage && !IsBlank(body) then document.clean(Trim(body)) else Trim(body);
            ByteLen(text) <= MaxSize(document.isMarkup) ==> pieces == if text == [] then [] else [text]
  {
    var before, after := TrimExactly(body);
    assert Trim(body) == [] ==> body == before + after;
    assert Trim(body) != [] ==> body[|before|] == Trim(body)[0];
  }

  /** The visible text of the first sections, in order. */
  lemma {:induction false} FittingSectionsAreKept(services: Services, settings: Settings, strategy: Strategy, hasEmbedder: bool, document: Document,
                                                  groups: seq<seq<string>>, sections: seq<Section>, pieces: seq<seq<string>>)
    requires IsSemantic(strategy, hasEmbedder) ==> settings.maxSentences >= 1
    requires !settings.filterGarbage && |pieces| == |sections| == |groups|
    requires forall s :: 0 <= s < |sections| ==>
      && sections[s].body == Join(groups[s], BLANK_LINE) && ByteLen(Trim(sections[s].body)) <= MaxSize(document.isMarkup)
      && AreSectionPieces(services, settings, strategy, hasEmbedder, document, sections[s].body, pieces[s])
    ensures Visible(Flatten(Flatten(pieces))) == Visible(Flatten(JoinAll(groups)))
  {
    if groups != [] {
      FittingSectionsAreKept(services, settings, strategy, hasEmbedder, document, groups[1..], sections[1..], pieces[1..]);
      FittingSectionIsKept(services, settings, strategy, hasEmbedder, document, sections[0].body, pieces[0]);
      FlattenConcat(pieces[0], Flatten(pieces[1..]));
      VisibleConcat(Flatten(pieces[0]), Flatten(Flatten(pieces[1..])));
      assert JoinAll(groups)[1..] == JoinAll(groups[1..]);
      VisibleConcat(Join(groups[0], BLANK_LINE), Flatten(JoinAll(groups[1..])));
    }
  }

  /** The texts of the sections as they reach the size check, one after the other. */
  function CleanedText(settings: Settings, document: Document, sections: seq<Section>): string {
    if sections == [] then []
    else Cleaned(settings, document, sections[0].body) + CleanedText(settings, document, sections[1..])
  }

  lemma {:induction false} SectionsAreShown(services: Services, settings: Settings, strategy: Strategy, hasEmbedder: bool, document: Document,
                                            sections: seq<Section>, pieces: seq<seq<string>>)
    requires IsSemantic(strategy, hasEmbedder) ==> settings.maxSentences >= 1 && !settings.filterGarbage
    requires |pieces| == |sections| && forall s :: 0 <= s < |sections| ==>
      AreSectionPieces(services, settings, strategy, hasEmbedder, document, sections[s].body, pieces[s])
    ensures IsSubsequence(Visible(CleanedText(settings, document, sections)), Visible(Flatten(Flatten(pieces))))
  {
    if sections != [] {
      var text, rest := Cleaned(settings, document, sections[0].body), CleanedText(settings, document, sections[1..]);
      SectionsAreShown(services, settings, strategy, hasEmbedder, document, sections[1..], pieces[1..]);
      SectionPiecesShowText(services, settings, strategy, hasEmbedder, document, sections[0].body, pieces[0]);
      VisibleConcat(text, rest);
      FlattenConcat(pieces[0], Flatten(pieces[1..]));
      VisibleConcat(Flatten(pieces[0]), Flatten(Flatten(pieces[1..])));
      SubsequenceConcat(Visible(text), Visible(Flatten(pieces[0])), Visible(rest), Visible(Flatten(Flatten(pieces[1..]))));
    }
  }

  /**
   * Whatever the size of the sections and whichever the strategy, chunking drops and
   * reorders no visible character of them; with the semantic strategy that holds while
   * sentences are not filtered.
   */
  lemma {:induction false} DocumentIsShown(services: Services, settings: Settings, strategy: Strategy, hasEmbedder: bool, document: Document,
                                           sections: seq<Section>, pieces: seq<seq<string>>, chunks: seq<RawChunk>)
    requires IsSemantic(strategy, hasEmbedder) ==> settings.maxSentences >= 1 && !settings.filterGarbage
    requires AreChunksOf(services, settings, strategy, hasEmbedder, document, sections, pieces, chunks)
    ensures IsSubsequence(Visible(CleanedText(settings, document, sections)), Visible(Flatten(Contents(chunks))))
  {
    SectionsAreShown(services, settings, strategy, hasEmbedder, document, sections, pieces);
    NumberAllKeepsPieces(sections, pieces);
    if NumberAll(sections, pieces) == [] {
      assert Flatten(pieces) == [] && Visible(Flatten(Flatten(pieces))) == [];
    }
  }

  lemma {:induction false} SectionsHoldText(settings: Settings, document: Document, groups: seq<seq<string>>, sections: seq<Section>)
    requires !settings.filterGarbage && |sections| == |groups|
    requires forall s :: 0 <= s < |sections| ==> sections[s].body == Join(groups[s], BLANK_LINE)
    ensures Visible(CleanedText(settings, document, sections)) == Visible(Flatten(JoinAll(groups)))
  {
    if groups != [] {
      SectionsHoldText(settings, document, groups[1..], sections[1..]);
      TrimKeepsVisible(sections[0].body);
      VisibleConcat(Trim(sections[0].body), CleanedText(settings, document, sections[1..]));
      assert JoinAll(groups)[1..] == JoinAll(groups[1..]);
      VisibleConcat(Join(groups[0], BLANK_LINE), Flatten(JoinAll(groups[1..])));
    }
  }

  /**
   * Plain text is cut, by windows or by sentences, without losing or moving a visible
   * character; and without repeating one when no section exceeds the window.
   */
  lemma {:induction false} PlainTextIsKept(services: Services, settings: Settings, strategy: Strategy, hasEmbedder: bool, document: Document,
                                           sections: seq<Section>, pieces: seq<seq<string>>, chunks: seq<RawChunk>)
    requires IsSemantic(strategy, hasEmbedder) ==> settings.maxSentences >= 1
    requires AreChunksOf(services, settings, strategy, hasEmbedder, document, sections, pieces, chunks)
    requires !document.isMarkup && !settings.filterGarbage
    ensures IsSubsequence(Visible(document.text), Visible(Flatten(Contents(chunks))))
    ensures (forall s :: 0 <= s < |sections| ==> ByteLen(Trim(sections[s].body)) <= TEXT_WINDOW_SIZE) ==>
              Visible(Flatten(Contents(chunks))) == Visible(document.text)
  {
    var groups :| IsPlainText(document.text, sections, groups);
    DocumentIsShown(services, settings, strategy, hasEmbedder, document, sections, pieces, chunks);
    SectionsHoldText(settings, document, groups, sections);
    PackingKeepsText(document.text, groups);
    if forall s :: 0 <= s < |sections| ==> ByteLen(Trim(sections[s].body)) <= TEXT_WINDOW_SIZE {
      FittingSectionsAreKept(services, settings, strategy, hasEmbedder, document, groups, sections, pieces);
      NumberAllKeepsPieces(sections, pieces);
      TrimKeepsVisible(document.text);
      if NumberAll(sections, pieces) == [] {
        assert Flatten(Contents(NumberAll(sections, pieces))) == [];
      }
    }
  }

  /** With fixed windows, the text of a section that is too large comes back from its windows: the kept ones are its pieces. */
  lemma {:induction false} FixedPiecesReconstruct(services: Services, settings: Settings, strategy: Strategy, hasEmbedder: bool,
                                                  document: Document, body: string, pieces: seq<string>) returns (ws: seq<string>)
    requires !IsSemantic(strategy, hasEmbedder) && ByteLen(Cleaned(settings, document, body)) > MaxSize(document.isMarkup)
    requires AreSectionPieces(services, settings, strategy, hasEmbedder, document, body, pieces)
    ensures pieces == DropBlank(ws) && ws != [] && ws[0] + Unshared(ws[1..], TEXT_WINDOW_OVERLAP) == Cleaned(settings, document, body)
    ensures forall w :: w in ws && w !in pieces ==> Visible(w) == []
  {
    var size := MaxSize(document.isMarkup);
    ws := Windows(Cleaned(settings, document, body), size, Step(size, TEXT_WINDOW_OVERLAP), 0);
    OverlappingWindows(Cleaned(settings, document, body), size, TEXT_WINDOW_OVERLAP);
    DropBlankKeeps(ws);
  }
}
