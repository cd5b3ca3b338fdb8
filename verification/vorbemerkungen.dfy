/** The additional preliminary remarks ("Zusätzliche Vorbemerkungen"):
    `extract_vorbemerkungen`, its numbered list items, and the wrapper
    `process_vorbemerkungen` in both of its versions. */
module Vorbemerkungen {
  import opened Text
  import opened Meta
  import opened Chunks
  import opened Matching

  const AnchorHead: string := "Zus\U{E4}tzliche"
  const AnchorTail: string := "Vorbemerkungen"
  const EndMarker: string := "Baubeschreibung"

  // ---------------------------------------------------------------------------
  // The anchor  Zusätzliche\s+Vorbemerkungen  (ignoring case)
  // ---------------------------------------------------------------------------

  /** The anchor matches at `i` with its whitespace run ending at `w`. */
  predicate AnchorSplit(t: string, i: nat, w: nat) {
    && i + |AnchorHead| < w <= |t| && LiteralAt(t, AnchorHead, i)
    && AllSpace(t[i + |AnchorHead|..w]) && LiteralAt(t, AnchorTail, w)
  }

  /** The anchor matches at `i` for some whitespace run. */
  ghost predicate AnchorMatches(t: string, i: nat) {
    exists w :: AnchorSplit(t, i, w)
  }

  /** Where the anchor ends when the search tries position `i`. `\s+` must take
      the whole run: the next pattern character is a letter. */
  function AnchorAt(t: string, i: nat): (r: Option<nat>)
    ensures r.Some? <==> AnchorMatches(t, i)
    ensures r.Some? ==> && i + |AnchorHead| + |AnchorTail| < r.value <= |t|
                        && LiteralAt(t, AnchorTail, r.value - |AnchorTail|)
  {
    if !LiteralAt(t, AnchorHead, i) then None
    else
      var h := i + |AnchorHead|;
      var w := RunEnd(t, h, IsSpace);
      AnchorRun(t, i, w);
      if w > h && LiteralAt(t, AnchorTail, w) then
        var e := w + |AnchorTail|;
        assert e - |AnchorTail| == w;
        Some(e)
      else None
  }

  /** After the head, the anchor matches exactly when the whole whitespace run
      is non-empty and the tail follows it. */
  lemma AnchorRun(t: string, i: nat, w: nat)
    requires LiteralAt(t, AnchorHead, i)
    requires i + |AnchorHead| <= w <= |t| && (w == |t| || !IsSpace(t[w]))
    requires forall k :: i + |AnchorHead| <= k < w ==> IsSpace(t[k])
    ensures AnchorMatches(t, i) <==> w > i + |AnchorHead| && LiteralAt(t, AnchorTail, w)
  {
    var h := i + |AnchorHead|;
    assert AllSpace(t[h..w]) by {
      assert forall k :: 0 <= k < w - h ==> t[h..w][k] == t[h + k];
    }
    SpaceRunUnique(t, h, w);
    if w > h && LiteralAt(t, AnchorTail, w) {
      assert AnchorSplit(t, i, w);
    }
  }

  /** The only whitespace run after the head that the tail can follow is the whole run. */
  lemma SpaceRunUnique(t: string, h: nat, w: nat)
    requires h <= w <= |t| && AllSpace(t[h..w]) && (w == |t| || !IsSpace(t[w]))
    ensures forall w' :: h < w' <= |t| && AllSpace(t[h..w']) && LiteralAt(t, AnchorTail, w') ==> w' == w
  {
    forall w' | h < w' <= |t| && AllSpace(t[h..w']) && LiteralAt(t, AnchorTail, w')
      ensures w' == w
    {
      TailNotSpace(t, w');
    }
  }

  lemma TailNotSpace(t: string, w: nat)
    requires LiteralAt(t, AnchorTail, w)
    ensures w < |t| && !IsSpace(t[w])
  {
    LiteralNotSpace(t, AnchorTail, w, 0);
  }

  /** The leftmost position at or after `from` where the anchor matches. */
  function FindAnchor(t: string, from: nat): (r: Option<nat>)
    ensures r.Some? ==> from <= r.value && AnchorAt(t, r.value).Some?
    ensures r.Some? ==> forall j: nat :: from <= j < r.value ==> AnchorAt(t, j).None?
    ensures r.None? ==> forall j: nat :: from <= j ==> AnchorAt(t, j).None?
  {
    if from > |t| then None
    else
      var found := (j: nat) => AnchorAt(t, j).Some?;
      var q := FirstWhere(|t| + 1, from, found);
      assert forall j: nat :: found(j) == AnchorAt(t, j).Some?;
      if q == |t| + 1 then None else Some(q)
  }

  /** The cut `extract_vorbemerkungen` makes: where the anchor starts, where it
      ends, and where the remarks end. */
  function Bounds(t: string): (r: Option<(nat, nat, nat)>)
    ensures r.None? <==> forall i: nat :: AnchorAt(t, i).None?
    ensures r.Some? ==> var (s, a, e) := r.value;
      && AnchorAt(t, s) == Some(a) && (forall j: nat :: j < s ==> AnchorAt(t, j).None?)
      && s < a <= e <= |t|
      && (e == |t| || LiteralAt(t, EndMarker, e))
      && forall z :: a <= z < e ==> !LiteralAt(t, EndMarker, z)
  {
    match FindAnchor(t, 0)
    case None => None
    case Some(s) =>
      var a := AnchorAt(t, s).value;
      match FindLiteral(t, EndMarker, a)
      case None => Some((s, a, |t|))
      case Some(z) => Some((s, a, z))
  }

  // ---------------------------------------------------------------------------
  // List items  (\d+)\.\s+(.*?)(?=\s+\d+\.|\Z)  on the collapsed remarks
  // ---------------------------------------------------------------------------

  /** The lookahead `\s+\d+\.` holds at `q`: the next item's number follows. */
  predicate NextItemAt(c: string, q: nat)
    requires q <= |c|
  {
    var w := RunEnd(c, q, IsSpace);
    var x := RunEnd(c, w, IsDigit);
    w > q && x > w && x < |c| && c[x] == '.'
  }

  /** The lazy body `(.*?)` from `b`: it stops at the first position where the
      next item begins, or at the end of the text. */
  function ItemEnd(c: string, b: nat): (q: nat)
    requires b <= |c|
    ensures b <= q <= |c|
    ensures q == |c| || NextItemAt(c, q)
    ensures forall p :: b <= p < q ==> !NextItemAt(c, p)
    decreases |c| - b
  {
    if b == |c| || NextItemAt(c, b) then b else ItemEnd(c, b + 1)
  }

  /** `\d+\.\s` at `i`: the number, its dot and at least one whitespace character. */
  predicate ItemHeadAt(c: string, i: nat) {
    && i < |c| && IsDigit(c[i])
    && var d := RunEnd(c, i, IsDigit);
       d + 1 < |c| && c[d] == '.' && IsSpace(c[d + 1])
  }

  /** The list-item pattern tried at `i`; the groups are (number, body). Since
      `\Z` always succeeds at the end, the body search never fails, so neither
      `\d+` nor `\s+` is ever asked to give anything back. */
  function ItemAt(c: string, i: nat): (r: Option<Hit>)
    ensures r.Some? ==> r.value.start == i < r.value.end <= |c|
    ensures r.Some? ==> |r.value.groups| == 2 && DigitString(r.value.groups[0])
    ensures r.Some? ==> r.value.end == |c| || NextItemAt(c, r.value.end)
  {
    if i >= |c| || !IsDigit(c[i]) then None
    else
      var d := RunEnd(c, i, IsDigit);
      if d == |c| || c[d] != '.' then None
      else
        var b := RunEnd(c, d + 1, IsSpace);
        if b == d + 1 then None
        else
          var q := ItemEnd(c, b);
          Some(Hit(i, q, [c[i..d], c[b..q]]))
  }

  /** The list-item pattern matches at `i` exactly when its head `\d+\.\s`
      is there; the number is the whole digit run, and the body starts after
      the whitespace and ends where the lazy search first sees the next item. */
  lemma ItemAtMatch(c: string, i: nat)
    ensures ItemAt(c, i).Some? <==> ItemHeadAt(c, i)
    ensures ItemAt(c, i).Some? ==> var d := RunEnd(c, i, IsDigit);
              var b := RunEnd(c, d + 1, IsSpace);
              var r := ItemAt(c, i).value;
              r.end == ItemEnd(c, b) && r.groups == [c[i..d], c[b..r.end]]
  {
  }

  function ItemPattern(c: string): nat -> Option<Hit> {
    (i: nat) => ItemAt(c, i)
  }

  lemma ItemMatcher(c: string)
    ensures MatcherOn(c, ItemPattern(c))
  {
    forall i: nat | ItemPattern(c)(i).Some?
      ensures ItemPattern(c)(i).value.start == i < ItemPattern(c)(i).value.end <= |c|
    {
    }
  }

  /** `list_item_pattern.findall(c)`. */
  function ItemHits(c: string): (ms: seq<Hit>)
    ensures Ordered(ms)
    ensures forall k :: 0 <= k < |ms| ==> ItemAt(c, ms[k].start) == Some(ms[k])
    ensures forall j: nat :: j <= |c| && ItemAt(c, j).Some? ==> Covered(ms, j)
  {
    ItemMatcher(c);
    FindAll(c, 0, ItemPattern(c))
  }

  /** The (number, cleaned body) pairs of the list in `c`. */
  function ListItems(c: string): (items: seq<(string, string)>)
    ensures |items| == |ItemHits(c)|
    ensures forall k :: 0 <= k < |items| ==> DigitString(items[k].0) && IsClean(items[k].1)
    ensures forall k :: 0 <= k < |items| ==> items[k] == (ItemHits(c)[k].groups[0], Clean(ItemHits(c)[k].groups[1]))
  {
    var ms := ItemHits(c);
    seq(|ms|, k requires 0 <= k < |ms| => (ms[k].groups[0], Clean(ms[k].groups[1])))
  }

  /** `extract_vorbemerkungen(text)`: the list items and the rest of the text. */
  function ExtractVorbemerkungen(t: string): (r: (seq<(string, string)>, string))
    ensures Bounds(t).None? ==> r == ([], t)
    ensures Bounds(t).Some? ==> var (s, a, e) := Bounds(t).value;
      && r.0 == ListItems(Collapse(t[a..e]))
      && r.1 == Strip(t[..s] + t[e..])
    ensures forall k :: 0 <= k < |r.0| ==> DigitString(r.0[k].0) && IsClean(r.0[k].1)
  {
    match Bounds(t)
    case None => ([], t)
    case Some((s, a, e)) => (ListItems(Collapse(t[a..e])), Strip(t[..s] + t[e..]))
  }

  /** The end marker is not cut out: when the remarks stop at "Baubeschreibung",
      the rest still holds it. */
  lemma EndMarkerSurvives(t: string)
    requires Bounds(t).Some? && Bounds(t).value.2 < |t|
    ensures exists p :: LiteralAt(ExtractVorbemerkungen(t).1, EndMarker, p)
  {
    var b := Bounds(t).value;
    var u := t[..b.0] + t[b.2..];
    assert ExtractVorbemerkungen(t).1 == Strip(u);
    LiteralAfterCut(t, EndMarker, b.0, b.2);
    var p := LiteralSurvivesStrip(u, EndMarker, b.0);
    assert LiteralAt(ExtractVorbemerkungen(t).1, EndMarker, p);
  }

  // ---------------------------------------------------------------------------
  // process_vorbemerkungen
  // ---------------------------------------------------------------------------

  /** The metadata of a remark chunk: the parent's, with section set; the older
      version (`numbered`) also records the item's number. */
  function RemarkMeta(md: Dict, number: string, numbered: bool): (r: Dict)
    ensures Lookup(r, SectionKey) == Some(Str(Vorbemerkungen))
    ensures Lookup(r, NumberKey) == if numbered then Some(Str(number)) else Lookup(md, NumberKey)
    ensures forall k :: k != SectionKey && k != NumberKey ==> Lookup(r, k) == Lookup(md, k)
  {
    var tagged := Tag(md, Vorbemerkungen);
    if numbered then Set(tagged, NumberKey, Str(number)) else tagged
  }

  /** One chunk through `process_vorbemerkungen`: a chunk per list item, then
      the parent. */
  function VorbemerkungenStep(doc: Chunk, numbered: bool): (r: seq<Chunk>)
    ensures var (items, rest) := ExtractVorbemerkungen(doc.text);
      && |r| == |items| + 1
      && (forall k :: 0 <= k < |items| ==> r[k] == Chunk(items[k].1, RemarkMeta(doc.meta, items[k].0, numbered)))
      && r[|items|].meta == doc.meta
      && r[|items|].text == (if items == [] then doc.text else rest)
    ensures AllInSection(r[..|r| - 1], Vorbemerkungen)
  {
    var (items, rest) := ExtractVorbemerkungen(doc.text);
    Remarks(doc, items, rest, numbered)
  }

  /** The chunks made from the list items found in `doc`, then the parent. */
  function Remarks(doc: Chunk, items: seq<(string, string)>, rest: string, numbered: bool): (r: seq<Chunk>)
    ensures |r| == |items| + 1
    ensures forall k :: 0 <= k < |items| ==> r[k] == Chunk(items[k].1, RemarkMeta(doc.meta, items[k].0, numbered))
    ensures r[|items|].meta == doc.meta
    ensures r[|items|].text == (if items == [] then doc.text else rest)
    ensures AllInSection(r[..|r| - 1], Vorbemerkungen)
  {
    var made := seq(|items|, k requires 0 <= k < |items| => Chunk(items[k].1, RemarkMeta(doc.meta, items[k].0, numbered)));
    Emit(doc, made, rest)
  }

  /** How many list items the whole input yields. */
  function ItemCount(docs: seq<Chunk>): nat {
    if docs == [] then 0 else |ExtractVorbemerkungen(docs[0].text).0| + ItemCount(docs[1..])
  }

  /** `process_vorbemerkungen(docs)`, every chunk searched; `numbered` selects
      the older version's `number` key. That version's guard that would let
      table-of-contents chunks through reads a top-level `section` key no
      chunk has, so it never fires and is not modelled. */
  function ProcessVorbemerkungen(docs: seq<Chunk>, numbered: bool): (r: seq<Chunk>)
    ensures |r| == |docs| + ItemCount(docs)
    ensures forall name :: name != Vorbemerkungen ==> CountSection(r, name) == CountSection(docs, name)
    ensures CountSection(r, Vorbemerkungen) == CountSection(docs, Vorbemerkungen) + ItemCount(docs)
    decreases |docs|
  {
    if docs == [] then []
    else
      var head := VorbemerkungenStep(docs[0], numbered);
      var tail := ProcessVorbemerkungen(docs[1..], numbered);
      StepCount(docs[0], numbered);
      forall name {
        CountSectionAppend(head, tail, name);
      }
      head + tail
  }

  lemma StepCount(doc: Chunk, numbered: bool)
    ensures forall name ::
      CountSection(VorbemerkungenStep(doc, numbered), name)
        == (if name == Vorbemerkungen then |ExtractVorbemerkungen(doc.text).0| else 0)
           + (if InSection(doc, name) then 1 else 0)
  {
    var r := VorbemerkungenStep(doc, numbered);
    var n := |ExtractVorbemerkungen(doc.text).0|;
    forall name
      ensures CountSection(r, name) == (if name == Vorbemerkungen then n else 0) + (if InSection(doc, name) then 1 else 0)
    {
      assert r == r[..n] + [r[n]];
      CountSectionAppend(r[..n], [r[n]], name);
      CountTagged(r[..n], Vorbemerkungen, name);
      assert [r[n]][1..] == [];
      assert InSection(r[n], name) == InSection(doc, name);
    }
  }

  /** Without the anchor anywhere the stage changes nothing. */
  lemma {:induction false} NoAnchorNoChange(docs: seq<Chunk>, numbered: bool)
    requires forall k :: 0 <= k < |docs| ==> Bounds(docs[k].text).None?
    ensures ProcessVorbemerkungen(docs, numbered) == docs
  {
    if docs != [] {
      assert VorbemerkungenStep(docs[0], numbered) == [docs[0]];
      NoAnchorNoChange(docs[1..], numbered);
    }
  }
}
