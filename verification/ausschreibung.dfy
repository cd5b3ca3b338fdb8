/** The tender text ("Ausschreibungstext"): `extract_ausschreibungstext`, which
    splits a chunk at the first level-1 table-of-contents heading,
    `extract_subchapters` in both versions, and `process_ausschreibungstext` in
    both versions. */
module Ausschreibung {
  import opened Text
  import opened Meta
  import opened Chunks
  import opened Matching
  import opened Subchapters
  import Toc

  // ---------------------------------------------------------------------------
  // extract_ausschreibungstext: re.escape(heading) with every space as \s+
  // ---------------------------------------------------------------------------

  /** The heading pattern from its `k`-th character on matches `t` from `j` on.
      A literal character matches itself ignoring case; a space stands for
      `\s+`, which may end anywhere inside the whitespace run. */
  predicate PatternFrom(h: string, k: nat, t: string, j: nat)
    requires k <= |h| && j <= |t|
    decreases |h| - k, 0
  {
    if k == |h| then true
    else if h[k] == ' ' then
      var w := RunEnd(t, j, IsSpace);
      w > j && SpaceSplit(h, k + 1, t, j + 1, w)
    else
      j < |t| && Fold(t[j]) == Fold(h[k]) && PatternFrom(h, k + 1, t, j + 1)
  }

  /** The rest of the pattern matches from some point in `[lo, hi]`. */
  predicate SpaceSplit(h: string, k: nat, t: string, lo: nat, hi: nat)
    requires k <= |h| && lo <= hi <= |t|
    decreases |h| - k, hi - lo + 1
  {
    PatternFrom(h, k, t, hi) || (lo < hi && SpaceSplit(h, k, t, lo, hi - 1))
  }

  /** `SpaceSplit` is the existential it stands for. */
  lemma {:induction false} SpaceSplitExists(h: string, k: nat, t: string, lo: nat, hi: nat)
    requires k <= |h| && lo <= hi <= |t|
    ensures SpaceSplit(h, k, t, lo, hi) ==> exists m: nat :: lo <= m <= hi && PatternFrom(h, k, t, m)
    ensures forall m: nat :: lo <= m <= hi && PatternFrom(h, k, t, m) ==> SpaceSplit(h, k, t, lo, hi)
    decreases hi - lo
  {
    if lo < hi {
      SpaceSplitExists(h, k, t, lo, hi - 1);
      if SpaceSplit(h, k, t, lo, hi) && !PatternFrom(h, k, t, hi) {
        var m: nat :| lo <= m <= hi - 1 && PatternFrom(h, k, t, m);
      }
    } else if PatternFrom(h, k, t, hi) {
      assert lo <= hi <= hi && PatternFrom(h, k, t, hi);
    }
  }

  /** Some heading's pattern matches at `i`. */
  predicate HeadingAt(t: string, hs: seq<string>, i: nat) {
    i <= |t| && exists k :: 0 <= k < |hs| && PatternFrom(hs[k], 0, t, i)
  }

  function AnyHeadingAt(t: string, hs: seq<string>, i: nat): (b: bool)
    requires i <= |t|
    ensures b <==> HeadingAt(t, hs, i)
  {
    if hs == [] then false
    else
      assert forall k :: 1 <= k < |hs| ==> hs[k] == hs[1..][k - 1];
      assert forall k :: 0 <= k < |hs| - 1 ==> hs[1..][k] == hs[k + 1];
      PatternFrom(hs[0], 0, t, i) || AnyHeadingAt(t, hs[1..], i)
  }

  /** The leftmost position at or after `from` where a heading matches. */
  function FindHeading(t: string, hs: seq<string>, from: nat): (r: Option<nat>)
    requires from <= |t| + 1
    ensures r.Some? ==> from <= r.value <= |t| && HeadingAt(t, hs, r.value)
    ensures r.Some? ==> forall j: nat :: from <= j < r.value ==> !HeadingAt(t, hs, j)
    ensures r.None? ==> forall j: nat :: from <= j ==> !HeadingAt(t, hs, j)
    decreases |t| + 1 - from
  {
    if from > |t| then None
    else if AnyHeadingAt(t, hs, from) then Some(from)
    else FindHeading(t, hs, from + 1)
  }

  /** `extract_ausschreibungstext(text, headings)`: the tender text from the
      leftmost heading occurrence on, and the text before it. */
  function ExtractAusschreibungstext(t: string, hs: seq<string>): (r: (Option<string>, string))
    ensures hs == [] ==> r == (None, t)
    ensures r.0.None? <==> forall i: nat :: !HeadingAt(t, hs, i)
    ensures r.0.None? ==> r.1 == t
    ensures r.0.Some? ==> exists i: nat :: && i <= |t| && HeadingAt(t, hs, i)
                                           && (forall j: nat :: j < i ==> !HeadingAt(t, hs, j))
                                           && r.0.value == Strip(t[i..]) && r.1 == Strip(t[..i])
  {
    if hs == [] then (None, t)
    else
      match FindHeading(t, hs, 0)
      case None => (None, t)
      case Some(i) => (Some(Strip(t[i..])), Strip(t[..i]))
  }

  /** A heading that matches word for word with single spaces matches. */
  lemma {:induction false} ExactHeadingMatches(h: string, k: nat, t: string, j: nat)
    requires k <= |h| && j + |h| - k <= |t|
    requires forall m :: k <= m < |h| ==> t[j + m - k] == h[m]
    requires forall m :: k <= m < |h| ==> (h[m] == ' ' ==> (j + m - k + 1 == |t| || !IsSpace(t[j + m - k + 1])))
    ensures PatternFrom(h, k, t, j)
    decreases |h| - k
  {
    if k < |h| {
      ExactHeadingMatches(h, k + 1, t, j + 1);
      if h[k] == ' ' {
        assert RunEnd(t, j, IsSpace) == j + 1;
      }
    }
  }

  // ---------------------------------------------------------------------------
  // process_ausschreibungstext, both versions
  // ---------------------------------------------------------------------------

  /** The sections the tender-text stage leaves alone. */
  predicate Bypassed(doc: Chunk) {
    InSection(doc, Inhaltsverzeichnis) || InSection(doc, Vorbemerkungen) || InSection(doc, Baubeschreibung)
  }

  /** What the tender-text stage makes of one chunk: the subchapter chunks of
      the tender text, then the parent holding the text before the heading
      unless that is empty. The earlier version drops a blank chunk that is
      not bypassed. */
  function TenderStep(doc: Chunk, hs: seq<string>, legacy: bool): (r: seq<Chunk>)
    ensures Bypassed(doc) ==> r == [doc]
    ensures !Bypassed(doc) && legacy && IsBlank(doc.text) ==> r == []
    ensures !Bypassed(doc) && (!legacy || !IsBlank(doc.text)) && ExtractAusschreibungstext(doc.text, hs).0.None? ==> r == [doc]
  {
    if Bypassed(doc) then [doc]
    else if legacy && IsBlank(doc.text) then []
    else
      var (tender, rest) := ExtractAusschreibungstext(doc.text, hs);
      if tender.Some? && tender.value != [] then
        ExtractSubchapters(tender.value, Tag(doc.meta, Ausschreibungstext), legacy)
          + (if rest != [] then [Chunk(rest, doc.meta)] else [])
      else [doc]
  }

  /** The chunks of a tender-text split: the subchapter chunks of the tender
      text, all in the tender-text section, and then the parent holding the
      text before the heading, with its metadata, unless that text is empty. */
  lemma TenderStepShape(doc: Chunk, hs: seq<string>, legacy: bool) returns (sub: seq<Chunk>, rest: string)
    requires !Bypassed(doc) && (!legacy || !IsBlank(doc.text))
    requires ExtractAusschreibungstext(doc.text, hs).0.Some?
    requires ExtractAusschreibungstext(doc.text, hs).0.value != []
    ensures TenderStep(doc, hs, legacy) == sub + (if rest != [] then [Chunk(rest, doc.meta)] else [])
    ensures sub == ExtractSubchapters(ExtractAusschreibungstext(doc.text, hs).0.value,
                                      Tag(doc.meta, Ausschreibungstext), legacy)
    ensures rest == ExtractAusschreibungstext(doc.text, hs).1
    ensures AllInSection(sub, Ausschreibungstext)
  {
    var e := ExtractAusschreibungstext(doc.text, hs);
    sub := ExtractSubchapters(e.0.value, Tag(doc.meta, Ausschreibungstext), legacy);
    rest := e.1;
  }

  /** A chunk of a bypassed section, or of one that is neither bypassed nor the
      tender text, is never newly created by the stage. */
  lemma TenderStepCount(doc: Chunk, hs: seq<string>, legacy: bool, name: string)
    requires name == Inhaltsverzeichnis || name == Vorbemerkungen || name == Baubeschreibung
    ensures CountSection(TenderStep(doc, hs, legacy), name) == if InSection(doc, name) then 1 else 0
  {
    var r := TenderStep(doc, hs, legacy);
    if !Bypassed(doc) && (!legacy || !IsBlank(doc.text)) {
      var e := ExtractAusschreibungstext(doc.text, hs);
      if e.0.Some? && e.0.value != [] {
        var sub, rest := TenderStepShape(doc, hs, legacy);
        var tail := if rest != [] then [Chunk(rest, doc.meta)] else [];
        CountSectionAppend(sub, tail, name);
        CountTagged(sub, Ausschreibungstext, name);
        assert !InSection(doc, name);
        if rest != [] {
          assert !InSection(tail[0], name);
          assert tail[1..] == [];
        }
      }
    }
  }

  /** The stage over all chunks, with the level-1 headings it searches for. */
  function TenderAll(docs: seq<Chunk>, hs: seq<string>, legacy: bool): (r: seq<Chunk>)
    ensures forall name :: name == Inhaltsverzeichnis || name == Vorbemerkungen || name == Baubeschreibung
              ==> CountSection(r, name) == CountSection(docs, name)
    ensures hs == [] && !legacy ==> r == docs
    ensures SectionsReadable(docs) ==> SectionsReadable(r)
    decreases |docs|
  {
    if docs == [] then []
    else
      var here := TenderStep(docs[0], hs, legacy);
      var rest := TenderAll(docs[1..], hs, legacy);
      forall name | name == Inhaltsverzeichnis || name == Vorbemerkungen || name == Baubeschreibung
        ensures CountSection(here + rest, name) == CountSection(docs, name)
      {
        TenderStepCount(docs[0], hs, legacy, name);
        CountSectionAppend(here, rest, name);
      }
      TenderStepReadable(docs[0], hs, legacy);
      ReadableAppend(here, rest);
      assert hs == [] && !legacy ==> here == [docs[0]];
      here + rest
  }

  /** A chunk whose section is not `None` becomes chunks whose sections are
      not `None`. */
  lemma TenderStepReadable(doc: Chunk, hs: seq<string>, legacy: bool)
    ensures Lookup(doc.meta, SectionKey) != Some(Null) ==> SectionsReadable(TenderStep(doc, hs, legacy))
  {
    if Lookup(doc.meta, SectionKey) != Some(Null) {
      var e := ExtractAusschreibungstext(doc.text, hs);
      if !Bypassed(doc) && (!legacy || !IsBlank(doc.text)) && e.0.Some? && e.0.value != [] {
        var sub, rest := TenderStepShape(doc, hs, legacy);
        SplitReadable(sub, rest, doc.meta);
      } else {
        assert TenderStep(doc, hs, legacy) in {[], [doc]};
      }
    }
  }

  /** Chunks in the tender-text section followed by at most a parent whose
      section is not `None` are all readable. */
  lemma SplitReadable(sub: seq<Chunk>, rest: string, md: Dict)
    requires AllInSection(sub, Ausschreibungstext) && Lookup(md, SectionKey) != Some(Null)
    ensures SectionsReadable(sub + (if rest != [] then [Chunk(rest, md)] else []))
  {
    var r := sub + (if rest != [] then [Chunk(rest, md)] else []);
    assert forall k :: 0 <= k < |sub| ==> r[k] == sub[k];
  }

  /** `process_ausschreibungstext(docs)`: the headings come from the first
      table-of-contents chunk, as the level-1 collector reads them. */
  function ProcessAusschreibungstext(docs: seq<Chunk>, legacy: bool): (r: seq<Chunk>)
    requires Toc.CollectorReads(docs, legacy)
    ensures forall name :: name == Inhaltsverzeichnis || name == Vorbemerkungen || name == Baubeschreibung
              ==> CountSection(r, name) == CountSection(docs, name)
    ensures SectionsReadable(docs) ==> SectionsReadable(r)
  {
    TenderAll(docs, Toc.TocHeadingsLevel1(docs, legacy), legacy)
  }

  /** Without a table of contents there is nothing to search for: the later
      version passes every chunk through unchanged. */
  lemma NoTocPassesThrough(docs: seq<Chunk>)
    requires Toc.CollectorReads(docs, false)
    requires forall k :: 0 <= k < |docs| ==> !Toc.IsTocChunk(docs[k], false)
    ensures ProcessAusschreibungstext(docs, false) == docs
  {
  }
}
