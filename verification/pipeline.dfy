/** `prepare_data` of the later version: the fixed order of the stages after
    the document has been read, and what holds of the chunks between them.
    Reading the PDF is not modelled: the stages start from the single chunk it
    produces, the whole text with only the file name as metadata. */
module Pipeline {
  import opened Text
  import opened Meta
  import opened Chunks
  import Toc
  import Vorbemerkungen
  import Baubeschreibung
  import Ausschreibung
  import Numbering
  import Junk
  import Ascii
  import Summaries

  /** The chunk list the reader hands to the first stage. */
  function Seed(text: string, name: string): (r: seq<Chunk>)
    ensures |r| == 1 && Lookup(r[0].meta, FileNameKey) == Some(Str(name))
    ensures SectionsReadable(r)
    ensures forall tag :: CountSection(r, tag) == 0
  {
    var md := [Entry(FileNameKey, Str(name))];
    assert |FileNameKey| != |SectionKey|;
    assert Lookup(md, SectionKey) == Lookup(md[1..], SectionKey) == None;
    var r := [Chunk(text, md)];
    assert r[1..] == [];
    r
  }

  // ---------------------------------------------------------------------------
  // The stages keep every `section` readable
  // ---------------------------------------------------------------------------

  lemma {:induction false} TocReadable(docs: seq<Chunk>)
    requires SectionsReadable(docs)
    ensures SectionsReadable(Toc.ProcessInhaltsverzeichnis(docs))
    decreases |docs|
  {
    if docs != [] {
      var head := Toc.TocStep(docs[0]);
      ReadableTail(docs);
      TocReadable(docs[1..]);
      StepReadable(docs[0], head, |head| - 1, Inhaltsverzeichnis);
      ReadableAppend(head, Toc.ProcessInhaltsverzeichnis(docs[1..]));
    }
  }

  lemma {:induction false} VorbemerkungenReadable(docs: seq<Chunk>, numbered: bool)
    requires SectionsReadable(docs)
    ensures SectionsReadable(Vorbemerkungen.ProcessVorbemerkungen(docs, numbered))
    decreases |docs|
  {
    if docs != [] {
      var head := Vorbemerkungen.VorbemerkungenStep(docs[0], numbered);
      ReadableTail(docs);
      VorbemerkungenReadable(docs[1..], numbered);
      StepReadable(docs[0], head, |head| - 1, Chunks.Vorbemerkungen);
      ReadableAppend(head, Vorbemerkungen.ProcessVorbemerkungen(docs[1..], numbered));
    }
  }

  lemma {:induction false} BaubeschreibungReadable(docs: seq<Chunk>, hs: seq<string>, labelled: bool)
    requires SectionsReadable(docs)
    ensures SectionsReadable(Baubeschreibung.ProcessWith(docs, hs, labelled))
    decreases |docs|
  {
    if docs != [] {
      var head := Baubeschreibung.BaubeschreibungStep(docs[0], hs, labelled);
      ReadableTail(docs);
      BaubeschreibungReadable(docs[1..], hs, labelled);
      StepReadable(docs[0], head, |head| - 1, Chunks.Baubeschreibung);
      ReadableAppend(head, Baubeschreibung.ProcessWith(docs[1..], hs, labelled));
    }
  }

  // ---------------------------------------------------------------------------
  // prepare_data
  // ---------------------------------------------------------------------------

  /** Stages 2 to 7 (table of contents, preliminary remarks, building
      description, tender text, numbering, junk), in that order. Each stage
      after the first reads the table of contents of its input, which it can
      do because no stage leaves a `section` of `None` behind. Only the first
      stage makes table-of-contents chunks, at most one per chunk that holds
      the anchor. */
  function Structure(docs: seq<Chunk>): (r: seq<Chunk>)
    requires SectionsReadable(docs)
    ensures SectionsReadable(r)
    ensures CountSection(r, Inhaltsverzeichnis) <= CountSection(docs, Inhaltsverzeichnis) + Toc.CountHasToc(docs)
  {
    var toc := Toc.ProcessInhaltsverzeichnis(docs);
    TocReadable(docs);
    var remarks := Vorbemerkungen.ProcessVorbemerkungen(toc, false);
    VorbemerkungenReadable(toc, false);
    Toc.ReadableReads(remarks, false);
    var description := Baubeschreibung.ProcessBaubeschreibung(remarks);
    BaubeschreibungReadable(remarks, Toc.TocHeadings(remarks, false), false);
    Toc.ReadableReads(description, false);
    var tender := Ausschreibung.ProcessAusschreibungstext(description, false);
    var unified := Numbering.UnifyNumberings(tender);
    Numbering.UnifyKeepsSections(tender);
    SameSectionsCount(unified, tender, Inhaltsverzeichnis);
    var kept := Junk.RemoveJunk(unified);
    Junk.RemoveJunkSections(unified, Inhaltsverzeichnis);
    assert Inhaltsverzeichnis != Chunks.Vorbemerkungen && Inhaltsverzeichnis != Chunks.Baubeschreibung;
    kept
  }

  /** A document yields at most one table-of-contents chunk: the reader's
      single chunk is untagged, and only the first stage tags. */
  lemma AtMostOneToc(text: string, name: string)
    ensures CountSection(Structure(Seed(text, name)), Inhaltsverzeichnis) <= 1
  {
    var seed := Seed(text, name);
    assert Toc.CountHasToc(seed) <= |seed|;
  }

  /** `prepare_data(pdf)` after reading: the structural stages, transliteration
      with `u`, then the summaries. Every chunk leaves with distinct metadata
      keys and a string under every key. */
  function PrepareData(text: string, name: string, u: string -> string,
                       countTokens: string -> nat, summarize: (string, string) -> string): (r: seq<Summaries.Summarized>)
    ensures |r| == |Structure(Seed(text, name))|
    ensures forall k :: 0 <= k < |r| ==> UniqueKeys(r[k].meta)
    ensures forall k, key :: 0 <= k < |r| && Has(r[k].meta, key) ==> Get(r[k].meta, key).Str?
  {
    Finish(Structure(Seed(text, name)), u, countTokens, summarize)
  }

  /** The last two stages, transliteration and summaries, on any chunk list. */
  function Finish(docs: seq<Chunk>, u: string -> string,
                  countTokens: string -> nat, summarize: (string, string) -> string): (r: seq<Summaries.Summarized>)
    ensures |r| == |docs|
    ensures forall k :: 0 <= k < |r| ==> UniqueKeys(r[k].meta)
    ensures forall k, key :: 0 <= k < |r| && Has(r[k].meta, key) ==> Get(r[k].meta, key).Str?
  {
    var ascii := Ascii.EnsureAscii(docs, u);
    Summaries.MakeSummaries(ascii, countTokens, summarize)
  }
}
