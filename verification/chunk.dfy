/** The chunk record every stage of the pipeline consumes and produces, and the
    metadata keys and section names the stages write. */
module Chunks {
  import opened Text
  import opened Meta

  /** `{'text': ..., 'metadata': {...}}`. */
  datatype Chunk = Chunk(text: string, meta: Dict)

  const SectionKey: string := "section"
  const SubsectionKey: string := "subsection"
  const SubsubsectionKey: string := "subsubsection"
  const SubsectionNumberKey: string := "subsection_number"
  const SubsubsectionNumberKey: string := "subsubsection_number"
  const FileNameKey: string := "Dateiname"
  const NumberKey: string := "number"
  const HeaderKey: string := "\U{DC}berschrift"
  const KeywordKey: string := "keyword"

  const Inhaltsverzeichnis: string := "Inhaltsverzeichnis"
  const Vorbemerkungen: string := "Zus\U{E4}tzliche Vorbemerkungen"
  const Baubeschreibung: string := "Baubeschreibung"
  const Ausschreibungstext: string := "Ausschreibungstext"

  /** `md.get('section') == name`. */
  predicate InSection(c: Chunk, name: string) {
    Lookup(c.meta, SectionKey) == Some(Str(name))
  }

  /** `{**md, 'section': name}`. */
  function Tag(md: Dict, name: string): Dict {
    Set(md, SectionKey, Str(name))
  }

  /** How many chunks of `docs` are in section `name`. */
  function CountSection(docs: seq<Chunk>, name: string): (n: nat)
    ensures n <= |docs|
  {
    if docs == [] then 0
    else (if InSection(docs[0], name) then 1 else 0) + CountSection(docs[1..], name)
  }

  lemma {:induction false} CountSectionAppend(xs: seq<Chunk>, ys: seq<Chunk>, name: string)
    ensures CountSection(xs + ys, name) == CountSection(xs, name) + CountSection(ys, name)
  {
    if xs == [] {
      assert xs + ys == ys;
    } else {
      assert (xs + ys)[1..] == xs[1..] + ys;
      CountSectionAppend(xs[1..], ys, name);
    }
  }

  /** No chunk's `section` is `None`: the heading collectors can read every
      `section` value without raising. */
  predicate SectionsReadable(docs: seq<Chunk>) {
    forall k :: 0 <= k < |docs| ==> Lookup(docs[k].meta, SectionKey) != Some(Null)
  }

  /** Every chunk of `cs` is in section `tag`. */
  predicate AllInSection(cs: seq<Chunk>, tag: string) {
    forall k :: 0 <= k < |cs| ==> InSection(cs[k], tag)
  }

  lemma {:induction false} CountTagged(cs: seq<Chunk>, tag: string, name: string)
    requires AllInSection(cs, tag)
    ensures CountSection(cs, name) == if name == tag then |cs| else 0
  {
    if cs != [] {
      assert AllInSection(cs[1..], tag) by {
        forall k | 0 <= k < |cs[1..]|
          ensures InSection(cs[1..][k], tag)
        {
          assert cs[1..][k] == cs[k + 1];
        }
      }
      CountTagged(cs[1..], tag, name);
    }
  }

  /** What every `process_*` wrapper makes of one chunk: the extracted chunks,
      then the parent, whose text becomes `rest` only when something was
      extracted. */
  function Emit(doc: Chunk, extracted: seq<Chunk>, rest: string): (r: seq<Chunk>)
    ensures |r| == |extracted| + 1 && r[..|extracted|] == extracted
    ensures r[|extracted|].meta == doc.meta
    ensures r[|extracted|].text == if extracted == [] then doc.text else rest
  {
    if extracted == [] then [doc] else extracted + [Chunk(rest, doc.meta)]
  }

  /** The extracted chunks all carry section `tag`, and the parent keeps its own. */
  lemma EmitCount(doc: Chunk, extracted: seq<Chunk>, rest: string, tag: string, name: string)
    requires AllInSection(extracted, tag)
    ensures CountSection(Emit(doc, extracted, rest), name)
            == (if name == tag then |extracted| else 0) + (if InSection(doc, name) then 1 else 0)
  {
    var r := Emit(doc, extracted, rest);
    assert r == extracted + [r[|extracted|]];
    CountSectionAppend(extracted, [r[|extracted|]], name);
    CountTagged(extracted, tag, name);
    assert [r[|extracted|]][1..] == [];
  }

  /** Every chunk has `section` looked up as `v`. */
  predicate AllCarry(cs: seq<Chunk>, v: Option<Value>) {
    forall j :: 0 <= j < |cs| ==> Lookup(cs[j].meta, SectionKey) == v
  }

  lemma CarryAppend(xs: seq<Chunk>, ys: seq<Chunk>, v: Option<Value>)
    requires AllCarry(xs, v) && AllCarry(ys, v)
    ensures AllCarry(xs + ys, v)
  {
    forall j | 0 <= j < |xs + ys|
      ensures Lookup((xs + ys)[j].meta, SectionKey) == v
    {
      if j >= |xs| {
        assert (xs + ys)[j] == ys[j - |xs|];
      }
    }
  }

  lemma ReadableAppend(xs: seq<Chunk>, ys: seq<Chunk>)
    ensures SectionsReadable(xs) && SectionsReadable(ys) ==> SectionsReadable(xs + ys)
  {
    if SectionsReadable(xs) && SectionsReadable(ys) {
      forall k | 0 <= k < |xs + ys|
        ensures Lookup((xs + ys)[k].meta, SectionKey) != Some(Null)
      {
        if k >= |xs| {
          assert (xs + ys)[k] == ys[k - |xs|];
        }
      }
    }
  }

  /** Two chunk lists of the same length whose chunks have the same `section`, position by position. */
  predicate SameSections(xs: seq<Chunk>, ys: seq<Chunk>) {
    |xs| == |ys| && forall k :: 0 <= k < |xs| ==> Lookup(xs[k].meta, SectionKey) == Lookup(ys[k].meta, SectionKey)
  }

  lemma {:induction false} SameSectionsCount(xs: seq<Chunk>, ys: seq<Chunk>, name: string)
    requires SameSections(xs, ys)
    ensures CountSection(xs, name) == CountSection(ys, name)
    ensures SectionsReadable(xs) <==> SectionsReadable(ys)
  {
    if xs != [] {
      assert SameSections(xs[1..], ys[1..]) by {
        forall k | 0 <= k < |xs| - 1
          ensures Lookup(xs[1..][k].meta, SectionKey) == Lookup(ys[1..][k].meta, SectionKey)
        {
          assert xs[1..][k] == xs[k + 1] && ys[1..][k] == ys[k + 1];
        }
      }
      SameSectionsCount(xs[1..], ys[1..], name);
      assert InSection(xs[0], name) <==> InSection(ys[0], name);
    }
  }

  lemma ReadableTail(docs: seq<Chunk>)
    requires docs != [] && SectionsReadable(docs)
    ensures SectionsReadable(docs[1..])
  {
    forall k | 0 <= k < |docs| - 1
      ensures Lookup(docs[1..][k].meta, SectionKey) != Some(Null)
    {
      assert docs[1..][k] == docs[k + 1];
    }
  }

  /** A wrapper's output for one chunk whose `section` is readable is
      readable: the new chunks are tagged and the parent keeps its metadata. */
  lemma StepReadable(doc: Chunk, r: seq<Chunk>, n: nat, tag: string)
    requires |r| == n + 1 && AllInSection(r[..n], tag) && r[n].meta == doc.meta
    requires Lookup(doc.meta, SectionKey) != Some(Null)
    ensures SectionsReadable(r)
  {
    forall k | 0 <= k < |r|
      ensures Lookup(r[k].meta, SectionKey) != Some(Null)
    {
      if k < n {
        assert r[..n][k] == r[k];
      }
    }
  }
}
