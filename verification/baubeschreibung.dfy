/** The building description ("Baubeschreibung"): `extract_baubeschreibung`, its
    `N.N header: body` items, and the wrapper `process_baubeschreibung` in both
    of its versions. */
module Baubeschreibung {
  import opened Text
  import opened Meta
  import opened Chunks
  import opened Matching
  import Toc

  const Anchor: string := "Baubeschreibung"

  // ---------------------------------------------------------------------------
  // The table-of-contents numbers that end the description
  // ---------------------------------------------------------------------------

  /** `^(\d+(?:\.\d+)*)\.` can match with the number `h[..n]`. */
  predicate NumberDotAt(h: string, n: nat) {
    0 < n < |h| && DottedNumber(h[..n]) && h[n] == '.'
  }

  /** The match `^(\d+(?:\.\d+)*)\.` makes on a heading, as `group(1) + '.'`:
      the longest dotted number that starts the heading and is followed by a
      dot, dot included. */
  function HeadingNumber(h: string): (r: Option<string>)
    ensures r.Some? ==> |r.value| >= 2 && IsDigit(r.value[0]) && r.value[|r.value| - 1] == '.'
  {
    if h == [] || !IsDigit(h[0]) then None
    else
      match DotScan(h, 1, None)
      case None => None
      case Some(n) => Some(h[..n + 1])
  }

  /** Reads the heading from `i` on while it still looks like the start of a
      dotted number, remembering in `best` the last dot that follows a digit. */
  function DotScan(h: string, i: nat, best: Option<nat>): (r: Option<nat>)
    requires 1 <= i
    requires best.Some? ==> 0 < best.value < |h| && h[best.value] == '.'
    ensures r.Some? ==> 0 < r.value < |h| && h[r.value] == '.'
    decreases |h| - i
  {
    if i >= |h| then best
    else if IsDigit(h[i]) then DotScan(h, i + 1, best)
    else if h[i] == '.' && IsDigit(h[i - 1]) then DotScan(h, i + 1, Some(i))
    else best
  }

  /** `h[..i]` can still grow into a dotted number: it starts with a digit,
      holds only digits and dots, and every dot but a last one is followed by
      a digit. */
  predicate Alive(h: string, i: nat) {
    && 1 <= i <= |h| && IsDigit(h[0])
    && (forall k :: 0 <= k < i ==> IsDigitOrDot(h[k]))
    && (forall j, k :: 0 <= j < i && 0 <= k < i && k == j + 1 && h[j] == '.' ==> IsDigit(h[k]))
  }

  /** A live prefix that ends in a digit is a dotted number. */
  lemma AliveDotted(h: string, i: nat)
    requires Alive(h, i) && IsDigit(h[i - 1])
    ensures DottedNumber(h[..i])
  {
    var s := h[..i];
    assert forall k :: 0 <= k < i ==> s[k] == h[k];
  }

  /** A dotted number followed by a dot that starts the heading keeps every
      shorter prefix alive, and starts and ends with a digit. */
  lemma NumberDotShape(h: string, m: nat, i: nat)
    ensures NumberDotAt(h, m) && 1 <= i <= m ==> Alive(h, i)
    ensures NumberDotAt(h, m) ==> IsDigit(h[0]) && IsDigit(h[m - 1])
  {
    if NumberDotAt(h, m) {
      var s := h[..m];
      assert forall k :: 0 <= k < m ==> s[k] == h[k];
    }
  }


  /** The scan returns the last position where a dotted number followed by a
      dot ends, given that `best` is the last such position before `i`. */
  lemma {:induction false} DotScanLongest(h: string, i: nat, best: Option<nat>)
    requires Alive(h, i)
    requires best.Some? ==> best.value < i && NumberDotAt(h, best.value)
    requires forall m: nat :: m < i && NumberDotAt(h, m) ==> best.Some? && m <= best.value
    ensures DotScan(h, i, best).Some? ==> NumberDotAt(h, DotScan(h, i, best).value)
    ensures forall m: nat :: NumberDotAt(h, m) ==> DotScan(h, i, best).Some? && m <= DotScan(h, i, best).value
    decreases |h| - i
  {
    if i >= |h| {
    } else if IsDigit(h[i]) {
      DotScanLongest(h, i + 1, best);
    } else if h[i] == '.' && IsDigit(h[i - 1]) {
      AliveDotted(h, i);
      DotScanLongest(h, i + 1, Some(i));
    } else {
      forall m: nat | i <= m
        ensures !NumberDotAt(h, m)
      {
        NumberDotShape(h, m, i + 1);
      }
    }
  }

  /** What `HeadingNumber` finds: nothing exactly when no dotted number followed
      by a dot starts the heading, and otherwise the longest such number, dot
      included, whose end is returned as `n`. */
  lemma HeadingNumberLongest(h: string) returns (n: nat)
    ensures HeadingNumber(h).None? <==> forall m: nat :: !NumberDotAt(h, m)
    ensures HeadingNumber(h).Some? ==> && NumberDotAt(h, n) && HeadingNumber(h).value == h[..n + 1]
                                       && forall m: nat :: n < m ==> !NumberDotAt(h, m)
  {
    n := 0;
    if h == [] || !IsDigit(h[0]) {
      forall m: nat
        ensures !NumberDotAt(h, m)
      {
        NumberDotShape(h, m, 1);
      }
    } else {
      forall m: nat | m < 1 && NumberDotAt(h, m)
        ensures false
      {
      }
      DotScanLongest(h, 1, None);
      match DotScan(h, 1, None)
      case None =>
      case Some(d) =>
        n := d;
    }
  }

  /** Every number is a digit, more, and a final dot. */
  predicate NumbersWithDot(ns: seq<string>) {
    forall k :: 0 <= k < |ns| ==> |ns[k]| >= 2 && IsDigit(ns[k][0]) && ns[k][|ns[k]| - 1] == '.'
  }

  /** The escaped numbers the description may end at, in heading order. */
  function EndNumbers(hs: seq<string>): (ns: seq<string>)
    ensures NumbersWithDot(ns)
  {
    if hs == [] then []
    else
      var rest := EndNumbers(hs[1..]);
      var n := HeadingNumber(hs[0]);
      if n.None? then rest else [n.value] + rest
  }

  /** No end number at all exactly when no heading starts with a number and a dot. */
  lemma {:induction false} EndNumbersEmpty(hs: seq<string>)
    ensures EndNumbers(hs) == [] <==> forall k :: 0 <= k < |hs| ==> HeadingNumber(hs[k]).None?
  {
    if hs != [] {
      EndNumbersEmpty(hs[1..]);
      EmptyNumbersStep(hs, HeadingNumber(hs[0]), EndNumbers(hs[1..]));
    }
  }

  lemma EmptyNumbersStep(hs: seq<string>, n: Option<string>, rest: seq<string>)
    requires hs != [] && n == HeadingNumber(hs[0])
    requires rest == [] <==> forall k :: 0 <= k < |hs[1..]| ==> HeadingNumber(hs[1..][k]).None?
    ensures (n.None? && rest == []) <==> forall k :: 0 <= k < |hs| ==> HeadingNumber(hs[k]).None?
  {
    if n.None? && rest == [] {
      forall k | 0 <= k < |hs|
        ensures HeadingNumber(hs[k]).None?
      {
        if k > 0 {
          assert hs[k] == hs[1..][k - 1];
        }
      }
    }
    if forall k :: 0 <= k < |hs| ==> HeadingNumber(hs[k]).None? {
      forall k | 0 <= k < |hs[1..]|
        ensures HeadingNumber(hs[1..][k]).None?
      {
        assert hs[1..][k] == hs[k + 1];
      }
    }
  }

  /** `(n1|n2|...)\s` matches at `i`: one of the numbers occurs there exactly,
      followed by whitespace. */
  predicate NumberAt(t: string, ns: seq<string>, i: nat) {
    exists k :: 0 <= k < |ns| && ExactAt(t, ns[k], i) && i + |ns[k]| < |t| && IsSpace(t[i + |ns[k]|])
  }

  function AnyNumberAt(t: string, ns: seq<string>, i: nat): (b: bool)
    ensures b <==> NumberAt(t, ns, i)
  {
    if ns == [] then false
    else
      assert forall k :: 1 <= k < |ns| ==> ns[k] == ns[1..][k - 1];
      assert forall k :: 0 <= k < |ns| - 1 ==> ns[1..][k] == ns[k + 1];
      (ExactAt(t, ns[0], i) && i + |ns[0]| < |t| && IsSpace(t[i + |ns[0]|])) || AnyNumberAt(t, ns[1..], i)
  }

  function FindNumber(t: string, ns: seq<string>, from: nat): (r: Option<nat>)
    ensures r.Some? ==> from <= r.value && NumberAt(t, ns, r.value)
    ensures r.Some? ==> forall j: nat :: from <= j < r.value ==> !NumberAt(t, ns, j)
    ensures r.None? ==> forall j: nat :: from <= j ==> !NumberAt(t, ns, j)
    decreases |t| + 1 - from
  {
    if from > |t| then None
    else if AnyNumberAt(t, ns, from) then Some(from)
    else FindNumber(t, ns, from + 1)
  }

  /** The cut `extract_baubeschreibung` makes for headings `hs`: where the anchor
      starts, where it ends, and where the description ends. */
  function Bounds(t: string, hs: seq<string>): (r: Option<(nat, nat, nat)>)
    ensures r.None? <==> forall i :: !LiteralAt(t, Anchor, i)
    ensures r.Some? ==> var (s, a, e) := r.value;
      && LiteralAt(t, Anchor, s) && (forall j: nat :: j < s ==> !LiteralAt(t, Anchor, j))
      && a == s + |Anchor| && a <= e <= |t|
      && (e == |t| || NumberAt(t, EndNumbers(hs), e))
      && forall z: nat :: a <= z < e ==> !NumberAt(t, EndNumbers(hs), z)
  {
    match FindLiteral(t, Anchor, 0)
    case None => None
    case Some(s) =>
      var a := s + |Anchor|;
      var ns := EndNumbers(hs);
      if ns == [] then Some((s, a, |t|))
      else
        match FindNumber(t, ns, a)
        case None => Some((s, a, |t|))
        case Some(e) => Some((s, a, e))
  }

  /** Without table-of-contents headings the description runs to the end of the text. */
  lemma NoHeadingsRunsToEnd(t: string)
    requires Bounds(t, []).Some?
    ensures Bounds(t, []).value.2 == |t|
  {
  }

  // ---------------------------------------------------------------------------
  // Items  (\d+\.\d+)\s+([^:]+):\s+(.*?)(?=\s+\d+\.\d+\s+[^:]+:|\Z)
  // ---------------------------------------------------------------------------

  predicate NotColon(c: char) {
    c != ':'
  }

  /** `\d+\.\d+` at `i`: where it ends. Shorter digit runs leave a digit where
      the next part needs a dot or whitespace, so only the longest is tried. */
  function PairEnd(c: string, i: nat): (r: Option<nat>)
    ensures r.Some? ==> i + 3 <= r.value <= |c|
  {
    if i >= |c| || !IsDigit(c[i]) then None
    else
      var x := RunEnd(c, i, IsDigit);
      if x == |c| || c[x] != '.' then None
      else
        var y := RunEnd(c, x + 1, IsDigit);
        if y == x + 1 then None else Some(y)
  }

  /** `\s+[^:]+:` after a number ending at `y`: the header span and the colon.
      The header runs to the first colon; when the colon comes right after the
      whitespace, `\s+` gives its last character to the header. */
  function HeaderAt(c: string, y: nat): (r: Option<(nat, nat)>)
    requires y <= |c|
    ensures r.Some? ==> y < r.value.0 < r.value.1 < |c| && c[r.value.1] == ':'
    ensures r.Some? ==> forall k :: r.value.0 <= k < r.value.1 ==> c[k] != ':'
  {
    var d := RunEnd(c, y, IsSpace);
    if d == y then None
    else
      var p := RunEnd(c, d, NotColon);
      if p == |c| then None
      else if p > d then Some((d, p))
      else if d >= y + 2 then Some((d - 1, d))
      else None
  }

  /** The lookahead `\s+\d+\.\d+\s+[^:]+:` at `q`: the next item follows. */
  predicate NextSubsectionAt(c: string, q: nat)
    requires q <= |c|
  {
    var w := RunEnd(c, q, IsSpace);
    w > q && PairEnd(c, w).Some? && HeaderAt(c, PairEnd(c, w).value).Some?
  }

  /** The lazy body from `f`: up to the next item or the end of the text. */
  function BodyEnd(c: string, f: nat): (q: nat)
    requires f <= |c|
    ensures f <= q <= |c|
    ensures q == |c| || NextSubsectionAt(c, q)
    ensures forall p :: f <= p < q ==> !NextSubsectionAt(c, p)
  {
    var next := (p: nat) => p <= |c| && NextSubsectionAt(c, p);
    var q := FirstWhere(|c|, f, next);
    assert forall p: nat :: f <= p < q ==> !NextSubsectionAt(c, p) by {
      forall p: nat | f <= p < q
        ensures !NextSubsectionAt(c, p)
      {
        assert !next(p);
      }
    }
    q
  }

  /** The item pattern tried at `i`; the groups are (number, header, body). */
  function SubsectionAt(c: string, i: nat): (r: Option<Hit>)
    ensures r.Some? ==> r.value.start == i < r.value.end <= |c| && ItemShaped(r.value)
    ensures r.Some? ==> r.value.end == |c| || NextSubsectionAt(c, r.value.end)
  {
    match PairEnd(c, i)
    case None => None
    case Some(y) =>
      match HeaderAt(c, y)
      case None => None
      case Some((h, p)) =>
        var f := RunEnd(c, p + 1, IsSpace);
        if f == p + 1 then None
        else
          var q := BodyEnd(c, f);
          Some(Hit(i, q, [c[i..y], c[h..p], c[f..q]]))
  }

  /** `\d+\.\d+\s+[^:]+:\s` at `i`: a number pair, a header ending in a
      colon, and whitespace after the colon. */
  predicate SubsectionHeadAt(c: string, i: nat) {
    && PairEnd(c, i).Some?
    && var y := PairEnd(c, i).value;
       && HeaderAt(c, y).Some?
       && var p := HeaderAt(c, y).value.1;
          p + 1 < |c| && IsSpace(c[p + 1])
  }

  /** The item pattern matches at `i` exactly when its head is there; the
      groups are the number pair, the header up to the first colon, and the
      body from after the whitespace to where the lazy search first sees the
      next item. */
  lemma SubsectionAtMatch(c: string, i: nat)
    ensures SubsectionAt(c, i).Some? <==> SubsectionHeadAt(c, i)
    ensures SubsectionAt(c, i).Some? ==> var y := PairEnd(c, i).value;
              var (h, p) := HeaderAt(c, y).value;
              var f := RunEnd(c, p + 1, IsSpace);
              var r := SubsectionAt(c, i).value;
              r.end == BodyEnd(c, f) && r.groups == [c[i..y], c[h..p], c[f..r.end]]
  {
  }

  function SubsectionPattern(c: string): nat -> Option<Hit> {
    (i: nat) => SubsectionAt(c, i)
  }

  lemma SubsectionMatcher(c: string)
    ensures MatcherOn(c, SubsectionPattern(c))
  {
    forall i: nat | SubsectionPattern(c)(i).Some?
      ensures SubsectionPattern(c)(i).value.start == i < SubsectionPattern(c)(i).value.end <= |c|
    {
    }
  }

  /** `subsection_pattern.findall(c)`. */
  function SubsectionHits(c: string): (ms: seq<Hit>)
    ensures Ordered(ms)
    ensures forall k :: 0 <= k < |ms| ==> SubsectionAt(c, ms[k].start) == Some(ms[k])
    ensures forall j: nat :: j <= |c| && SubsectionAt(c, j).Some? ==> Covered(ms, j)
    ensures forall k :: 0 <= k < |ms| ==> ItemShaped(ms[k])
  {
    SubsectionMatcher(c);
    FindAll(c, 0, SubsectionPattern(c))
  }

  /** A cleaned item: number, stripped header, cleaned body. */
  datatype Item = Item(number: string, header: string, body: string)

  /** A hit of the item pattern: three groups, a header without colons. */
  predicate ItemShaped(h: Hit) {
    |h.groups| == 3 && forall ch :: ch in h.groups[1] ==> ch != ':'
  }

  /** One hit as a cleaned item. */
  function ItemOf(h: Hit): (it: Item)
    requires ItemShaped(h)
    ensures IsClean(it.body) && Strip(it.header) == it.header
    ensures forall ch :: ch in it.header ==> ch != ':'
    ensures it.number == h.groups[0]
  {
    HeaderClean(h.groups[1]);
    Item(h.groups[0], Strip(h.groups[1]), Clean(h.groups[2]))
  }

  /** A good item: cleaned body, stripped header without colons. */
  predicate GoodItem(it: Item) {
    IsClean(it.body) && Strip(it.header) == it.header && forall ch :: ch in it.header ==> ch != ':'
  }

  /** The hits as cleaned items, in order. */
  function ItemsOf(ms: seq<Hit>): (items: seq<Item>)
    requires forall k :: 0 <= k < |ms| ==> ItemShaped(ms[k])
    ensures |items| == |ms|
    ensures forall k :: 0 <= k < |items| ==> items[k] == ItemOf(ms[k])
  {
    seq(|ms|, k requires 0 <= k < |ms| => ItemOf(ms[k]))
  }

  /** `findall` of the item pattern, cleaned: one good item per match, in
      order, item `k` made from match `k`. */
  function Items(c: string): (items: seq<Item>)
    ensures |items| == |SubsectionHits(c)|
    ensures forall k :: 0 <= k < |items| ==> items[k] == ItemOf(SubsectionHits(c)[k])
    ensures forall k :: 0 <= k < |items| ==> GoodItem(items[k])
  {
    var ms := SubsectionHits(c);
    var items := ItemsOf(ms);
    assert forall k :: 0 <= k < |items| ==> GoodItem(items[k]) by {
      forall k | 0 <= k < |items|
        ensures GoodItem(items[k])
      {
        var it := ItemOf(ms[k]);
        assert GoodItem(it);
      }
    }
    items
  }

  lemma HeaderClean(h: string)
    requires forall ch :: ch in h ==> ch != ':'
    ensures Strip(Strip(h)) == Strip(h) && forall ch :: ch in Strip(h) ==> ch != ':'
  {
    StripStrip(h);
    StripSubset(h);
  }

  /** What `extract_baubeschreibung` leaves of the text: the text itself when
      there is no anchor, and otherwise the text with the anchor and the
      description cut out, stripped. */
  function Rest(t: string, hs: seq<string>): (rest: string)
    ensures Bounds(t, hs).None? ==> rest == t
    ensures Bounds(t, hs).Some? ==> rest == Strip(t[..Bounds(t, hs).value.0] + t[Bounds(t, hs).value.2..])
  {
    match Bounds(t, hs)
    case None => t
    case Some((s, _, e)) => Strip(t[..s] + t[e..])
  }

  /** `extract_baubeschreibung(text, toc_headings)`. */
  function ExtractBaubeschreibung(t: string, hs: seq<string>): (r: (seq<Item>, string))
    ensures Bounds(t, hs).None? ==> r == ([], t)
    ensures Bounds(t, hs).Some? ==> var (s, a, e) := Bounds(t, hs).value;
      && r.0 == Items(Collapse(t[a..e]))
      && r.1 == Strip(t[..s] + t[e..])
  {
    match Bounds(t, hs)
    case None => ([], Rest(t, hs))
    case Some((_, a, e)) => (Items(Collapse(t[a..e])), Rest(t, hs))
  }

  /** The number that ends the description is not cut out: the rest still
      holds it, at the returned position `p`. */
  lemma EndNumberSurvives(t: string, hs: seq<string>) returns (k: nat, p: nat)
    requires Bounds(t, hs).Some? && Bounds(t, hs).value.2 < |t|
    ensures k < |EndNumbers(hs)| && ExactAt(Rest(t, hs), EndNumbers(hs)[k], p)
  {
    var b := Bounds(t, hs).value;
    k, p := CutKeepsNumber(t, EndNumbers(hs), b.0, b.2, Rest(t, hs));
  }

  /** Cutting `t[s..e]` out of a text with an end number at `e` and stripping
      the result keeps that number. */
  lemma CutKeepsNumber(t: string, ns: seq<string>, s: nat, e: nat, rest: string) returns (k: nat, p: nat)
    requires NumbersWithDot(ns)
    requires s <= e && NumberAt(t, ns, e) && rest == Strip(t[..s] + t[e..])
    ensures k < |ns| && ExactAt(rest, ns[k], p)
  {
    k :| 0 <= k < |ns| && ExactAt(t, ns[k], e) && e + |ns[k]| < |t| && IsSpace(t[e + |ns[k]|]);
    p := NumberSurvivesCut(t, ns[k], s, e);
  }

  /** Cutting out `t[s..e]` and stripping keeps an end number found at `e`. */
  lemma NumberSurvivesCut(t: string, num: string, s: nat, e: nat) returns (p: nat)
    requires |num| >= 2 && IsDigit(num[0]) && num[|num| - 1] == '.'
    requires s <= e && ExactAt(t, num, e)
    ensures ExactAt(Strip(t[..s] + t[e..]), num, p)
  {
    ExactAfterCut(t, num, s, e);
    p := ExactSurvivesStrip(t[..s] + t[e..], num, s);
  }

  // ---------------------------------------------------------------------------
  // process_baubeschreibung
  // ---------------------------------------------------------------------------

  /** The metadata of a description chunk: the parent's with section set; the
      older version (`labelled`) also records the item's number and header. */
  function ItemMeta(md: Dict, item: Item, labelled: bool): (r: Dict)
    ensures Lookup(r, SectionKey) == Some(Str(Baubeschreibung))
    ensures Lookup(r, NumberKey) == if labelled then Some(Str(item.number)) else Lookup(md, NumberKey)
    ensures Lookup(r, HeaderKey) == if labelled then Some(Str(item.header)) else Lookup(md, HeaderKey)
    ensures forall k :: k != SectionKey && k != NumberKey && k != HeaderKey ==> Lookup(r, k) == Lookup(md, k)
  {
    var tagged := Tag(md, Baubeschreibung);
    if labelled then Set(Set(tagged, NumberKey, Str(item.number)), HeaderKey, Str(item.header)) else tagged
  }

  /** The description chunks made from the items, in order. */
  function ItemChunks(md: Dict, items: seq<Item>, labelled: bool): (made: seq<Chunk>)
    ensures |made| == |items|
    ensures forall k :: 0 <= k < |items| ==> made[k] == Chunk(items[k].body, ItemMeta(md, items[k], labelled))
    ensures AllInSection(made, Baubeschreibung)
  {
    seq(|items|, k requires 0 <= k < |items| => Chunk(items[k].body, ItemMeta(md, items[k], labelled)))
  }

  /** One chunk through `process_baubeschreibung` with the collected headings. */
  function BaubeschreibungStep(doc: Chunk, hs: seq<string>, labelled: bool): (r: seq<Chunk>)
    ensures var (items, rest) := ExtractBaubeschreibung(doc.text, hs);
      && |r| == |items| + 1
      && (forall k :: 0 <= k < |items| ==> r[k] == Chunk(items[k].body, ItemMeta(doc.meta, items[k], labelled)))
      && r[|items|].meta == doc.meta
      && r[|items|].text == (if items == [] then doc.text else rest)
    ensures AllInSection(r[..|r| - 1], Baubeschreibung)
  {
    var e := ExtractBaubeschreibung(doc.text, hs);
    var made := ItemChunks(doc.meta, e.0, labelled);
    var r := Emit(doc, made, e.1);
    assert r[..|made|] == made;
    r
  }

  function ItemCount(docs: seq<Chunk>, hs: seq<string>): nat {
    if docs == [] then 0 else |ExtractBaubeschreibung(docs[0].text, hs).0| + ItemCount(docs[1..], hs)
  }

  /** Every chunk through the step, tagged or not. */
  function ProcessWith(docs: seq<Chunk>, hs: seq<string>, labelled: bool): (r: seq<Chunk>)
    ensures |r| == |docs| + ItemCount(docs, hs)
    ensures forall name :: name != Baubeschreibung ==> CountSection(r, name) == CountSection(docs, name)
    ensures CountSection(r, Baubeschreibung) == CountSection(docs, Baubeschreibung) + ItemCount(docs, hs)
    decreases |docs|
  {
    if docs == [] then []
    else
      var head := BaubeschreibungStep(docs[0], hs, labelled);
      var tail := ProcessWith(docs[1..], hs, labelled);
      StepCount(docs[0], hs, labelled);
      forall name {
        CountSectionAppend(head, tail, name);
      }
      head + tail
  }

  lemma StepCount(doc: Chunk, hs: seq<string>, labelled: bool)
    ensures forall name ::
      CountSection(BaubeschreibungStep(doc, hs, labelled), name)
        == (if name == Baubeschreibung then |ExtractBaubeschreibung(doc.text, hs).0| else 0)
           + (if InSection(doc, name) then 1 else 0)
  {
    var r := BaubeschreibungStep(doc, hs, labelled);
    var n := |ExtractBaubeschreibung(doc.text, hs).0|;
    forall name
      ensures CountSection(r, name) == (if name == Baubeschreibung then n else 0) + (if InSection(doc, name) then 1 else 0)
    {
      assert r == r[..n] + [r[n]];
      CountSectionAppend(r[..n], [r[n]], name);
      CountTagged(r[..n], Baubeschreibung, name);
      assert [r[n]][1..] == [];
      assert InSection(r[n], name) == InSection(doc, name);
    }
  }

  /** `process_baubeschreibung(docs)`: the headings of every depth from the
      table of contents end the description. */
  function ProcessBaubeschreibung(docs: seq<Chunk>): (r: seq<Chunk>)
    requires Toc.CollectorReads(docs, false)
    ensures r == ProcessWith(docs, Toc.TocHeadings(docs, false), false)
    ensures forall name :: name != Baubeschreibung ==> CountSection(r, name) == CountSection(docs, name)
  {
    ProcessWith(docs, Toc.TocHeadings(docs, false), false)
  }

  /** The older `process_baubeschreibung`: it gives up, returning `None`, when
      the table of contents yields no heading, and labels each item chunk with
      its number and header. */
  function ProcessBaubeschreibungLabelled(docs: seq<Chunk>): (r: Option<seq<Chunk>>)
    requires Toc.CollectorReads(docs, true)
    ensures r.None? <==> Toc.TocHeadings(docs, true) == []
    ensures r.Some? ==> r.value == ProcessWith(docs, Toc.TocHeadings(docs, true), true)
  {
    var hs := Toc.TocHeadings(docs, true);
    if hs == [] then None else Some(ProcessWith(docs, hs, true))
  }
}
