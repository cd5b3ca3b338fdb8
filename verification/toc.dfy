/** The table of contents ("Inhaltsverzeichnis"): `extract_inhaltsverzeichnis`,
    its wrapper `process_inhaltsverzeichnis`, and the two heading collectors
    that later stages run over the tagged table-of-contents chunk. */
module Toc {
  import opened Text
  import opened Meta
  import opened Chunks
  import opened Matching

  const StartAnchor: string := "Inhaltsverzeichnis"
  const EndAnchor: string := "Zusammenstellung"

  // ---------------------------------------------------------------------------
  // extract_inhaltsverzeichnis
  // ---------------------------------------------------------------------------

  /** `i` is the leftmost case-insensitive occurrence of "Inhaltsverzeichnis". */
  ghost predicate IsTocStart(t: string, i: nat) {
    LiteralAt(t, StartAnchor, i) && forall j: nat :: j < i ==> !LiteralAt(t, StartAnchor, j)
  }

  /** `e` is the end of the line that runs on from `p`: just past the first
      newline at or after `p`, or the end of the text when there is none. */
  ghost predicate EndsLine(t: string, p: nat, e: nat) {
    && p <= e <= |t|
    && (|| (e == |t| && forall k :: p <= k < |t| ==> t[k] != '\n')
        || (p < e && t[e - 1] == '\n' && forall k :: p <= k < e - 1 ==> t[k] != '\n'))
  }

  /** `e` ends the table of contents whose start anchor ends at `from`: the end of
      the line holding the first "Zusammenstellung" at or after `from`, or the
      end of the text when there is none. */
  ghost predicate IsTocEnd(t: string, from: nat, e: nat) {
    && from <= e <= |t|
    && (|| ((forall z :: from <= z ==> !LiteralAt(t, EndAnchor, z)) && e == |t|)
        || (exists z :: && from <= z && LiteralAt(t, EndAnchor, z)
                         && (forall z' :: from <= z' < z ==> !LiteralAt(t, EndAnchor, z'))
                         && EndsLine(t, z + |EndAnchor|, e)))
  }

  /** Where `Zusammenstellung.*(?:\n|$)`, searched from `from`, ends; `.*` stops
      at the first newline, which `\n` then consumes. */
  function TocEnd(t: string, from: nat): (e: nat)
    requires from <= |t|
    ensures IsTocEnd(t, from, e)
  {
    match FindLiteral(t, EndAnchor, from)
    case None => |t|
    case Some(z) =>
      var nl := NewlineFrom(t, z + |EndAnchor|);
      var e := if nl < |t| then nl + 1 else |t|;
      assert EndsLine(t, z + |EndAnchor|, e);
      e
  }

  /** `extract_inhaltsverzeichnis(text)`: the pair (table of contents, rest). */
  function ExtractInhaltsverzeichnis(t: string): (r: (Option<string>, string))
    ensures r.0.None? <==> forall i :: !LiteralAt(t, StartAnchor, i)
    ensures r.0.None? ==> r.1 == t
    ensures r.0.Some? ==> r.0.value != []
    ensures r.0.Some? ==>
      exists i: nat, e: nat :: && IsTocStart(t, i) && i + |StartAnchor| <= e <= |t|
                     && IsTocEnd(t, i + |StartAnchor|, e)
                     && r.0.value == Strip(t[i..e])
                     && r.1 == Strip(t[..i] + t[e..])
  {
    match FindLiteral(t, StartAnchor, 0)
    case None => (None, t)
    case Some(i) =>
      var e := TocEnd(t, i + |StartAnchor|);
      ExtractFound(t, i, e);
      (Some(Strip(t[i..e])), Strip(t[..i] + t[e..]))
  }

  lemma ExtractFound(t: string, i: nat, e: nat)
    requires LiteralAt(t, StartAnchor, i) && forall j: nat :: j < i ==> !LiteralAt(t, StartAnchor, j)
    requires IsTocEnd(t, i + |StartAnchor|, e)
    ensures IsTocStart(t, i) && i + |StartAnchor| <= e <= |t|
    ensures Strip(t[i..e]) != []
  {
    LiteralNotSpace(t, StartAnchor, i, 0);
    assert t[i..e][0] == t[i];
  }

  /** `process_inhaltsverzeichnis` on one chunk: a table-of-contents chunk, if
      one is found, followed by the chunk itself with the rest as its text. */
  function TocStep(doc: Chunk): (r: seq<Chunk>)
    ensures |r| == 1 || |r| == 2
    ensures r[|r| - 1].meta == doc.meta
    ensures |r| == 2 <==> ExtractInhaltsverzeichnis(doc.text).0.Some?
    ensures |r| == 1 ==> r[0] == doc
    ensures |r| == 2 ==> && r[0].meta == Tag(doc.meta, Inhaltsverzeichnis)
                         && Some(r[0].text) == ExtractInhaltsverzeichnis(doc.text).0
                         && r[1].text == ExtractInhaltsverzeichnis(doc.text).1
  {
    var (ivz, rest) := ExtractInhaltsverzeichnis(doc.text);
    if ivz.Some? && ivz.value != [] then
      [Chunk(ivz.value, Tag(doc.meta, Inhaltsverzeichnis)), Chunk(rest, doc.meta)]
    else
      [doc]
  }

  /** The chunk's text holds the start anchor. */
  predicate HasToc(c: Chunk) {
    ExtractInhaltsverzeichnis(c.text).0.Some?
  }

  function CountHasToc(docs: seq<Chunk>): (n: nat)
    ensures n <= |docs|
  {
    if docs == [] then 0 else (if HasToc(docs[0]) then 1 else 0) + CountHasToc(docs[1..])
  }

  /** `process_inhaltsverzeichnis(docs)`: every chunk, tagged or not, is searched. */
  function ProcessInhaltsverzeichnis(docs: seq<Chunk>): (r: seq<Chunk>)
    ensures |r| == |docs| + CountHasToc(docs)
    ensures CountSection(r, Inhaltsverzeichnis) == CountSection(docs, Inhaltsverzeichnis) + CountHasToc(docs)
    decreases |docs|
  {
    if docs == [] then []
    else
      var head := TocStep(docs[0]);
      var tail := ProcessInhaltsverzeichnis(docs[1..]);
      CountSectionAppend(head, tail, Inhaltsverzeichnis);
      assert CountSection(head, Inhaltsverzeichnis) ==
             (if InSection(docs[0], Inhaltsverzeichnis) then 1 else 0) + (if HasToc(docs[0]) then 1 else 0) by {
        if |head| == 2 {
          assert head[1..][1..] == [];
        } else {
          assert head[1..] == [];
        }
      }
      head + tail
  }

  // ---------------------------------------------------------------------------
  // Table-of-contents lines: (\d+(?:\.\d+)*)\.\s+(.+?)\s*\.+\s*\d+  and  (\d+)\.\s+(.+?)\s*\.+\s*\d+
  // ---------------------------------------------------------------------------

  /** Extends a dotted number that ends at `a` by `\.\d+` groups for as long as
      the text allows. */
  function ChainFrom(t: string, i: nat, a: nat): (e: nat)
    requires i < a <= |t| && DottedNumber(t[i..a])
    requires a == |t| || !IsDigit(t[a])
    ensures a <= e <= |t| && DottedNumber(t[i..e])
    ensures e == |t| || !IsDigit(t[e])
    ensures !(e + 1 < |t| && t[e] == '.' && IsDigit(t[e + 1]))
  {
    ChainDotted(t, i, a);
    ChainEnd(t, a)
  }

  /** Where the `\.\d+` groups that follow position `a` end. */
  function ChainEnd(t: string, a: nat): (e: nat)
    requires a <= |t|
    ensures a <= e <= |t|
    ensures !(e + 1 < |t| && t[e] == '.' && IsDigit(t[e + 1]))
    decreases |t| - a
  {
    if a + 1 < |t| && t[a] == '.' && IsDigit(t[a + 1]) then ChainEnd(t, RunEnd(t, a + 1, IsDigit)) else a
  }

  /** The groups extend a dotted number to a longer dotted number. */
  lemma {:induction false} ChainDotted(t: string, i: nat, a: nat)
    requires i < a <= |t| && DottedNumber(t[i..a])
    requires a == |t| || !IsDigit(t[a])
    ensures DottedNumber(t[i..ChainEnd(t, a)]) && (ChainEnd(t, a) == |t| || !IsDigit(t[ChainEnd(t, a)]))
    decreases |t| - a
  {
    if a + 1 < |t| && t[a] == '.' && IsDigit(t[a + 1]) {
      var b := RunEnd(t, a + 1, IsDigit);
      DottedExtend(t, i, a, b);
      ChainDotted(t, i, b);
    }
  }

  /** A dotted number followed by a dot and a digit run is a longer dotted number. */
  lemma DottedExtend(t: string, i: nat, a: nat, b: nat)
    requires i < a && a + 1 < b <= |t| && DottedNumber(t[i..a]) && t[a] == '.'
    requires forall k :: a + 1 <= k < b ==> IsDigit(t[k])
    ensures DottedNumber(t[i..b])
  {
    var s := t[i..b];
    var u := t[i..a];
    assert forall k :: 0 <= k < |u| ==> u[k] == s[k];
    assert forall k :: |u| < k < |s| ==> IsDigit(s[k]) by {
      forall k | |u| < k < |s|
        ensures IsDigit(s[k])
      {
        assert s[k] == t[i + k];
      }
    }
    assert s[|u|] == '.';
  }

  /** Where the number group ends when the search tries position `i`: the
      longest `\d+(?:\.\d+)*` (dotted) or `\d+`. A shorter choice always leaves
      a digit or a `.`+digit where `\.\s+` must follow, so backtracking never
      succeeds with one. */
  function NumberEnd(t: string, i: nat, dotted: bool): (e: nat)
    requires i < |t| && IsDigit(t[i])
    ensures i < e <= |t|
    ensures dotted ==> DottedNumber(t[i..e])
    ensures !dotted ==> DigitString(t[i..e])
    ensures e == |t| || !IsDigit(t[e])
    ensures dotted ==> !(e + 1 < |t| && t[e] == '.' && IsDigit(t[e + 1]))
  {
    var a := RunEnd(t, i, IsDigit);
    assert DigitString(t[i..a]);
    if dotted then ChainFrom(t, i, a) else a
  }

  /** Where `\s*\.+\s*\d+` ends when tried at `q` (greedy throughout; giving
      characters back never helps because each part's successor cannot match
      what its predecessor gives up). */
  function LeaderEnd(t: string, q: nat): (r: Option<nat>)
    requires q <= |t|
    ensures r.Some? ==> q < r.value <= |t|
  {
    var c := RunEnd(t, q, IsSpace);
    var d := RunEnd(t, c, IsDot);
    if d == c then None
    else
      var f := RunEnd(t, d, IsSpace);
      var g := RunEnd(t, f, IsDigit);
      if g == f then None else Some(g)
  }

  /** The lazy `(.+?)`: the first title end `q` in `[from, hi]` after which the
      dot leader and page number match. */
  function LazyTitleEnd(t: string, from: nat, hi: nat): (r: Option<nat>)
    requires hi <= |t|
    ensures r.Some? ==> from <= r.value <= hi && LeaderEnd(t, r.value).Some?
    ensures r.Some? ==> forall q :: from <= q < r.value ==> LeaderEnd(t, q).None?
    ensures r.None? ==> forall q :: from <= q <= hi ==> LeaderEnd(t, q).None?
  {
    if from > hi then None
    else
      var leads := (q: nat) => q <= |t| && LeaderEnd(t, q).Some?;
      var q := FirstWhere(hi + 1, from, leads);
      assert forall q: nat :: q <= |t| ==> leads(q) == LeaderEnd(t, q).Some?;
      if q == hi + 1 then None else Some(q)
  }

  /** The last position in `[lo, hi)` that holds something other than a newline. */
  function LastNonNewline(t: string, lo: nat, hi: nat): (r: Option<nat>)
    requires hi <= |t|
    ensures r.Some? ==> lo <= r.value < hi && t[r.value] != '\n'
    ensures r.Some? ==> forall s :: r.value < s < hi ==> t[s] == '\n'
    ensures r.None? ==> forall s :: lo <= s < hi ==> t[s] == '\n'
    decreases hi
  {
    if hi <= lo then None
    else if t[hi - 1] != '\n' then Some(hi - 1)
    else LastNonNewline(t, lo, hi - 1)
  }

  /** The `(number)\.\s+` part of a line pattern tried at `i`: where the
      number ends (at its dot) and where the whitespace after the dot ends. */
  function NumberPrefix(t: string, i: nat, dotted: bool): (r: Option<(nat, nat)>)
    ensures r.Some? ==> i < r.value.0 && r.value.0 + 1 < r.value.1 <= |t| && t[r.value.0] == '.'
    ensures r.Some? && dotted ==> DottedNumber(t[i..r.value.0])
    ensures r.Some? && !dotted ==> DigitString(t[i..r.value.0])
    ensures r.Some? ==> forall k :: r.value.0 < k < r.value.1 ==> IsSpace(t[k])
    ensures r.Some? ==> r.value.1 == |t| || !IsSpace(t[r.value.1])
  {
    if i >= |t| || !IsDigit(t[i]) then None
    else
      var e := NumberEnd(t, i, dotted);
      if e == |t| || t[e] != '.' then None
      else
        var b := RunEnd(t, e + 1, IsSpace);
        if b == e + 1 then None else Some((e, b))
  }

  /** The `(.+?)\s*\.+\s*\d+` part, once `\.\s+` has matched the dot at `e`
      and whitespace up to `b`: the title span and where the match ends. With
      `\s+` at its longest the title starts at `b`; only when no title end
      works from there does `\s+` give back a space, and the title becomes
      that one whitespace character. */
  function TitleAt(t: string, e: nat, b: nat): (r: Option<(nat, nat, nat)>)
    requires e + 1 < b <= |t|
    ensures r.Some? ==> e + 2 <= r.value.0 < r.value.1 < r.value.2 <= |t|
    ensures r.Some? ==> LeaderEnd(t, r.value.1) == Some(r.value.2)
  {
    match LazyTitleEnd(t, b + 1, NewlineFrom(t, b))
    case Some(q) => Some((b, q, LeaderEnd(t, q).value))
    case None =>
      GivenBackShape(t, e, b);
      GivenBackTitle(t, e, b)
  }

  /** The title made of the last non-newline character `\s+` gives back. */
  function GivenBackTitle(t: string, e: nat, b: nat): Option<(nat, nat, nat)>
    requires e + 1 < b <= |t|
  {
    match LastNonNewline(t, e + 2, b)
    case None => None
    case Some(s) =>
      match LeaderEnd(t, s + 1)
      case None => None
      case Some(g) => Some((s, s + 1, g))
  }

  lemma GivenBackShape(t: string, e: nat, b: nat)
    requires e + 1 < b <= |t|
    ensures var r := GivenBackTitle(t, e, b);
      && (r.Some? ==> e + 2 <= r.value.0 < b && r.value.1 == r.value.0 + 1 < r.value.2 <= |t|)
      && (r.Some? ==> LeaderEnd(t, r.value.1) == Some(r.value.2) && t[r.value.0] != '\n')
  {
  }

  /** The lazy title: with `\s+` at its longest the title starts at `b` and
      ends at the first position on the line after which a dot leader and page
      number follow; only when there is none does the title become a single
      character that `\s+` gives back. */
  lemma TitleAtLazy(t: string, e: nat, b: nat)
    requires e + 1 < b <= |t|
    ensures var r := TitleAt(t, e, b);
      && (r.Some? && r.value.0 == b ==>
            && r.value.1 <= NewlineFrom(t, b)
            && forall q :: b + 1 <= q < r.value.1 ==> LeaderEnd(t, q).None?)
      && (r.Some? && r.value.0 != b ==>
            && e + 2 <= r.value.0 < b && r.value.1 == r.value.0 + 1 && t[r.value.0] != '\n'
            && forall q :: b + 1 <= q <= NewlineFrom(t, b) ==> LeaderEnd(t, q).None?)
      && ((exists q :: b + 1 <= q <= NewlineFrom(t, b) && LeaderEnd(t, q).Some?) ==> r.Some? && r.value.0 == b)
  {
    GivenBackShape(t, e, b);
  }

  /** The title part after a matched `(number)\.\s+`. */
  function TitleAfter(t: string, eb: (nat, nat)): Option<(nat, nat, nat)> {
    if eb.0 + 1 < eb.1 <= |t| then TitleAt(t, eb.0, eb.1) else None
  }

  /** What a line pattern's match at `i` looks like: it starts at `i`, and its
      two groups are a number as written at `i` (dotted when `dotted`) and a
      non-empty title. */
  predicate LineHit(t: string, i: nat, dotted: bool, r: Option<Hit>) {
    r.Some? ==>
      && r.value.start == i < r.value.end <= |t|
      && |r.value.groups| == 2 && r.value.groups[1] != []
      && (dotted ==> DottedNumber(r.value.groups[0]))
      && (!dotted ==> DigitString(r.value.groups[0]))
      && i + |r.value.groups[0]| + 1 < |t| && t[i..i + |r.value.groups[0]|] == r.value.groups[0]
  }

  /** A table-of-contents line pattern tried at position `i`; the groups are
      (number, title). */
  function TocLineAt(t: string, i: nat, dotted: bool): (r: Option<Hit>)
    ensures LineHit(t, i, dotted, r)
    ensures r.Some? <==> NumberPrefix(t, i, dotted).Some? && TitleAfter(t, NumberPrefix(t, i, dotted).value).Some?
    ensures r.Some? ==> var (e, _) := NumberPrefix(t, i, dotted).value;
                        var (s, q, g) := TitleAfter(t, NumberPrefix(t, i, dotted).value).value;
                        r.value.groups == [t[i..e], t[s..q]] && r.value.end == g
  {
    match NumberPrefix(t, i, dotted)
    case None => None
    case Some((e, b)) => LineAfterNumber(t, i, e, b, dotted)
  }

  /** The rest of a line pattern once the number `t[i..e]`, its dot and the
      whitespace up to `b` have matched. */
  function LineAfterNumber(t: string, i: nat, e: nat, b: nat, dotted: bool): (r: Option<Hit>)
    requires i < e && e + 1 < b <= |t|
    requires dotted ==> DottedNumber(t[i..e])
    requires !dotted ==> DigitString(t[i..e])
    ensures LineHit(t, i, dotted, r)
    ensures r.Some? <==> TitleAt(t, e, b).Some?
    ensures r.Some? ==> var (s, q, g) := TitleAt(t, e, b).value;
                        r.value.groups == [t[i..e], t[s..q]] && r.value.end == g
  {
    match TitleAt(t, e, b)
    case None => None
    case Some((s, q, g)) =>
      LineHitShape(t, i, e, s, q, g, dotted);
      Some(Hit(i, g, [t[i..e], t[s..q]]))
  }

  /** A number `t[i..e]` before its dot and a non-empty title after it make a
      line hit whose first group is that number. */
  lemma LineHitShape(t: string, i: nat, e: nat, s: nat, q: nat, g: nat, dotted: bool)
    requires i < e && e + 2 <= s < q < g <= |t|
    requires dotted ==> DottedNumber(t[i..e])
    requires !dotted ==> DigitString(t[i..e])
    ensures LineHit(t, i, dotted, Some(Hit(i, g, [t[i..e], t[s..q]])))
  {
  }

  function TocLinePattern(t: string, dotted: bool): nat -> Option<Hit> {
    (i: nat) => TocLineAt(t, i, dotted)
  }

  lemma TocLineMatcher(t: string, dotted: bool)
    ensures MatcherOn(t, TocLinePattern(t, dotted))
  {
    forall i: nat | TocLinePattern(t, dotted)(i).Some?
      ensures TocLinePattern(t, dotted)(i).value.start == i < TocLinePattern(t, dotted)(i).value.end <= |t|
    {
    }
  }

  /** `pattern.findall(text)` for a table-of-contents line pattern. */
  function TocLines(t: string, dotted: bool): (ms: seq<Hit>)
    ensures Ordered(ms)
    ensures forall k :: 0 <= k < |ms| ==> TocLineAt(t, ms[k].start, dotted) == Some(ms[k])
    ensures forall j: nat :: j <= |t| && TocLineAt(t, j, dotted).Some? ==> Covered(ms, j)
    ensures forall k :: 0 <= k < |ms| ==> |ms[k].groups| == 2
  {
    TocLineMatcher(t, dotted);
    var ms := FindAll(t, 0, TocLinePattern(t, dotted));
    LineGroups(t, dotted, ms);
    ms
  }

  /** Line matches have two groups each. */
  lemma LineGroups(t: string, dotted: bool, ms: seq<Hit>)
    requires forall k :: 0 <= k < |ms| ==> TocLinePattern(t, dotted)(ms[k].start) == Some(ms[k])
    ensures forall k :: 0 <= k < |ms| ==> |ms[k].groups| == 2
  {
    forall k | 0 <= k < |ms|
      ensures |ms[k].groups| == 2
    {
      assert TocLineAt(t, ms[k].start, dotted) == Some(ms[k]);
    }
  }

  /** `f"{num}. {title.strip()}"`. */
  function HeadingOf(h: Hit): string
    requires |h.groups| == 2
  {
    h.groups[0] + ". " + Strip(h.groups[1])
  }

  /** A collected heading: a number (a dotted one when `dotted`), ". ", and a stripped title. */
  ghost predicate HeadingShape(h: string, dotted: bool) {
    exists n, title :: && h == n + ". " + title && Strip(title) == title
                       && (if dotted then DottedNumber(n) else DigitString(n))
  }

  /** One heading per line match, in order: match `k` gives heading `k`. */
  function Headings(t: string, dotted: bool): (hs: seq<string>)
    ensures |hs| == |TocLines(t, dotted)|
    ensures forall k :: 0 <= k < |hs| ==> hs[k] == HeadingOf(TocLines(t, dotted)[k])
    ensures forall k :: 0 <= k < |hs| ==> HeadingShape(hs[k], dotted)
  {
    var ms := TocLines(t, dotted);
    var hs := seq(|ms|, k requires 0 <= k < |ms| => HeadingOf(ms[k]));
    assert forall k :: 0 <= k < |hs| ==> HeadingShape(hs[k], dotted) by {
      forall k | 0 <= k < |hs|
        ensures HeadingShape(hs[k], dotted)
      {
        assert TocLineAt(t, ms[k].start, dotted) == Some(ms[k]);
        HeadingOfShape(ms[k], dotted);
      }
    }
    hs
  }

  lemma HeadingOfShape(h: Hit, dotted: bool)
    requires |h.groups| == 2
    requires if dotted then DottedNumber(h.groups[0]) else DigitString(h.groups[0])
    ensures HeadingShape(HeadingOf(h), dotted)
  {
    StripStrip(h.groups[1]);
    var title := Strip(h.groups[1]);
    assert HeadingOf(h) == h.groups[0] + ". " + title;
  }

  /** `text.replace('\n', ' ')`. */
  function ReplaceNewlines(s: string): (r: string)
    ensures |r| == |s|
    ensures forall k :: 0 <= k < |s| ==> r[k] == (if s[k] == '\n' then ' ' else s[k])
  {
    seq(|s|, k requires 0 <= k < |s| => if s[k] == '\n' then ' ' else s[k])
  }

  // ---------------------------------------------------------------------------
  // The heading collectors
  // ---------------------------------------------------------------------------

  /** The chunk the collectors read. `prepare_data.py` compares
      `md.get('section', '').lower()`; `prepare_data_test.py` compares
      `md['section'].strip().lower()` (`stripFirst`). */
  predicate IsTocChunk(c: Chunk, stripFirst: bool) {
    match Lookup(c.meta, SectionKey)
    case Some(Str(s)) => LowerStr(if stripFirst then Strip(s) else s) == "inhaltsverzeichnis"
    case _ => false
  }

  /** The collectors read `section` of each chunk up to the first
      table-of-contents chunk; calling `.lower()` or `.strip()` on a `None`
      there raises, so none of those chunks may hold one. */
  predicate CollectorReads(docs: seq<Chunk>, stripFirst: bool) {
    || docs == []
    || (&& Lookup(docs[0].meta, SectionKey) != Some(Null)
        && (IsTocChunk(docs[0], stripFirst) || CollectorReads(docs[1..], stripFirst)))
  }

  lemma {:induction false} ReadableReads(docs: seq<Chunk>, stripFirst: bool)
    requires SectionsReadable(docs)
    ensures CollectorReads(docs, stripFirst)
  {
    if docs != [] {
      assert SectionsReadable(docs[1..]) by {
        forall k | 0 <= k < |docs[1..]|
          ensures Lookup(docs[1..][k].meta, SectionKey) != Some(Null)
        {
          assert docs[1..][k] == docs[k + 1];
        }
      }
      ReadableReads(docs[1..], stripFirst);
    }
  }

  /** The first table-of-contents chunk; the loop `break`s there. */
  function FirstTocChunk(docs: seq<Chunk>, stripFirst: bool): (r: Option<Chunk>)
    requires CollectorReads(docs, stripFirst)
    ensures r.None? <==> forall k :: 0 <= k < |docs| ==> !IsTocChunk(docs[k], stripFirst)
    ensures r.Some? ==> exists k :: && 0 <= k < |docs| && docs[k] == r.value && IsTocChunk(r.value, stripFirst)
                                    && forall j :: 0 <= j < k ==> !IsTocChunk(docs[j], stripFirst)
  {
    var toc := (k: nat) => k < |docs| && IsTocChunk(docs[k], stripFirst);
    var k := FirstWhere(|docs|, 0, toc);
    assert forall j: nat :: j < |docs| ==> toc(j) == IsTocChunk(docs[j], stripFirst);
    if k == |docs| then None else Some(docs[k])
  }

  /** `docs[k]` is the first table-of-contents chunk. */
  predicate FirstToc(docs: seq<Chunk>, k: nat, stripFirst: bool)
    requires k < |docs|
  {
    IsTocChunk(docs[k], stripFirst) && forall j :: 0 <= j < k ==> !IsTocChunk(docs[j], stripFirst)
  }

  /** The chunk the search finds is the first table-of-contents chunk. */
  lemma FirstTocIsFound(docs: seq<Chunk>, stripFirst: bool)
    requires CollectorReads(docs, stripFirst)
    ensures forall k :: 0 <= k < |docs| && FirstToc(docs, k, stripFirst) ==>
              FirstTocChunk(docs, stripFirst) == Some(docs[k])
  {
    forall k | 0 <= k < |docs| && FirstToc(docs, k, stripFirst)
      ensures FirstTocChunk(docs, stripFirst) == Some(docs[k])
    {
      var r := FirstTocChunk(docs, stripFirst);
      assert r.Some?;
      var m :| && 0 <= m < |docs| && docs[m] == r.value && IsTocChunk(r.value, stripFirst)
               && forall j :: 0 <= j < m ==> !IsTocChunk(docs[j], stripFirst);
      assert FirstToc(docs, m, stripFirst);
    }
  }

  /** `extract_inhaltsverzeichnis_headings(docs)`: the headings of every depth,
      read from the table of contents with its newlines turned into spaces. */
  function TocHeadings(docs: seq<Chunk>, stripFirst: bool): (hs: seq<string>)
    requires CollectorReads(docs, stripFirst)
    ensures (forall k :: 0 <= k < |docs| ==> !IsTocChunk(docs[k], stripFirst)) ==> hs == []
    ensures forall k :: 0 <= k < |docs| && FirstToc(docs, k, stripFirst) ==>
              hs == Headings(ReplaceNewlines(docs[k].text), true)
    ensures forall k :: 0 <= k < |hs| ==> HeadingShape(hs[k], true)
  {
    FirstTocIsFound(docs, stripFirst);
    match FirstTocChunk(docs, stripFirst)
    case None => []
    case Some(c) => Headings(ReplaceNewlines(c.text), true)
  }

  /** `extract_inhaltsverzeichnis_headings_level1(docs)`: the same lines read
      with a number that has no dots, from the whitespace-collapsed table of
      contents. The number has no left boundary (`TocLineLocal`): in
      `1.2. Titel .... 5` it matches at `2` (`Level1HasNoLeftBoundary`). */
  function TocHeadingsLevel1(docs: seq<Chunk>, stripFirst: bool): (hs: seq<string>)
    requires CollectorReads(docs, stripFirst)
    ensures (forall k :: 0 <= k < |docs| ==> !IsTocChunk(docs[k], stripFirst)) ==> hs == []
    ensures forall k :: 0 <= k < |docs| && FirstToc(docs, k, stripFirst) ==>
              hs == Headings(Collapse(docs[k].text), false)
    ensures forall k :: 0 <= k < |hs| ==> HeadingShape(hs[k], false)
  {
    FirstTocIsFound(docs, stripFirst);
    match FirstTocChunk(docs, stripFirst)
    case None => []
    case Some(c) => Headings(Collapse(c.text), false)
  }

  // ---------------------------------------------------------------------------
  // The number group has no left boundary
  // ---------------------------------------------------------------------------

  /** The line patterns have no left boundary: whether and how they match at
      `i` depends only on the text from `i` on, whatever precedes it. */
  lemma TocLineLocal(t: string, u: string, i: nat, dotted: bool)
    requires |t| == |u| && i <= |t| && t[i..] == u[i..]
    ensures TocLineAt(t, i, dotted) == TocLineAt(u, i, dotted)
  {
    AgreeOfSlices(t, u, i);
    TocLineAgree(t, u, i, dotted);
  }

  /** `t` and `u` have the same length and agree from `i` on. */
  predicate AgreeFrom(t: string, u: string, i: nat)
    decreases |t| - i
  {
    |t| == |u| && i <= |t| && (i == |t| || (t[i] == u[i] && AgreeFrom(t, u, i + 1)))
  }

  lemma {:induction false} AgreeOfSlices(t: string, u: string, i: nat)
    requires |t| == |u| && i <= |t| && t[i..] == u[i..]
    ensures AgreeFrom(t, u, i)
    decreases |t| - i
  {
    if i < |t| {
      assert t[i] == t[i..][0] && u[i] == u[i..][0];
      assert t[i + 1..] == t[i..][1..] && u[i + 1..] == u[i..][1..];
      AgreeOfSlices(t, u, i + 1);
    }
  }

  lemma {:induction false} AgreeAt(t: string, u: string, i: nat, k: nat)
    requires AgreeFrom(t, u, i) && i <= k < |t|
    ensures t[k] == u[k]
    decreases k - i
  {
    if i < k {
      AgreeAt(t, u, i + 1, k);
    }
  }

  lemma SliceAgree(t: string, u: string, i: nat, a: nat, b: nat)
    requires AgreeFrom(t, u, i) && i <= a <= b <= |t|
    ensures t[a..b] == u[a..b]
  {
    forall k | 0 <= k < b - a
      ensures t[a..b][k] == u[a..b][k]
    {
      AgreeAt(t, u, i, a + k);
    }
  }

  lemma TocLineAgree(t: string, u: string, i: nat, dotted: bool)
    requires AgreeFrom(t, u, i)
    ensures TocLineAt(t, i, dotted) == TocLineAt(u, i, dotted)
  {
    NumberPrefixAgree(t, u, i, dotted);
    match NumberPrefix(t, i, dotted)
    case None =>
    case Some((e, b)) =>
      TitleAgree(t, u, i, e, b);
      match TitleAt(t, e, b)
      case None =>
      case Some((s, q, g)) =>
        SliceAgree(t, u, i, i, e);
        SliceAgree(t, u, i, s, q);
  }

  lemma {:induction false} RunEndAgree(t: string, u: string, i: nat, j: nat, p: char -> bool)
    requires AgreeFrom(t, u, i) && i <= j <= |t|
    ensures RunEnd(t, j, p) == RunEnd(u, j, p)
    decreases |t| - j
  {
    if j < |t| {
      AgreeAt(t, u, i, j);
      if p(t[j]) {
        RunEndAgree(t, u, i, j + 1, p);
      }
    }
  }

  lemma {:induction false} ChainAgree(t: string, u: string, i: nat, a: nat)
    requires AgreeFrom(t, u, i) && i <= a <= |t|
    ensures ChainEnd(t, a) == ChainEnd(u, a)
    decreases |t| - a
  {
    if a < |t| {
      AgreeAt(t, u, i, a);
    }
    if a + 1 < |t| {
      AgreeAt(t, u, i, a + 1);
    }
    if a + 1 < |t| && t[a] == '.' && IsDigit(t[a + 1]) {
      RunEndAgree(t, u, i, a + 1, IsDigit);
      ChainAgree(t, u, i, RunEnd(t, a + 1, IsDigit));
    }
  }

  lemma NumberPrefixAgree(t: string, u: string, i: nat, dotted: bool)
    requires AgreeFrom(t, u, i)
    ensures NumberPrefix(t, i, dotted) == NumberPrefix(u, i, dotted)
  {
    if i < |t| && IsDigit(t[i]) {
      NumberEndAgree(t, u, i, dotted);
      var e := NumberEnd(t, i, dotted);
      if e < |t| && t[e] == '.' {
        RunEndAgree(t, u, i, e + 1, IsSpace);
      }
      PrefixAfterNumber(t, u, i, e, dotted);
    }
  }

  /** The prefix after a number that ends alike in both texts at `e`. */
  lemma PrefixAfterNumber(t: string, u: string, i: nat, e: nat, dotted: bool)
    requires AgreeFrom(t, u, i) && i < |t| && IsDigit(t[i]) && IsDigit(u[i])
    requires e == NumberEnd(t, i, dotted) == NumberEnd(u, i, dotted)
    requires e < |t| && t[e] == '.' ==> RunEnd(t, e + 1, IsSpace) == RunEnd(u, e + 1, IsSpace)
    ensures NumberPrefix(t, i, dotted) == NumberPrefix(u, i, dotted)
  {
    if e < |t| {
      AgreeAt(t, u, i, e);
    }
  }

  lemma NumberEndAgree(t: string, u: string, i: nat, dotted: bool)
    requires AgreeFrom(t, u, i) && i < |t| && IsDigit(t[i])
    ensures IsDigit(u[i]) && NumberEnd(t, i, dotted) == NumberEnd(u, i, dotted)
  {
    AgreeAt(t, u, i, i);
    var a := RunEnd(t, i, IsDigit);
    RunEndAgree(t, u, i, i, IsDigit);
    ChainAgree(t, u, i, a);
  }

  lemma LeaderAgree(t: string, u: string, i: nat, q: nat)
    requires AgreeFrom(t, u, i) && i <= q <= |t|
    ensures LeaderEnd(t, q) == LeaderEnd(u, q)
  {
    var c := RunEnd(t, q, IsSpace);
    RunEndAgree(t, u, i, q, IsSpace);
    var d := RunEnd(t, c, IsDot);
    RunEndAgree(t, u, i, c, IsDot);
    var f := RunEnd(t, d, IsSpace);
    RunEndAgree(t, u, i, d, IsSpace);
    RunEndAgree(t, u, i, f, IsDigit);
  }

  lemma LazyAgree(t: string, u: string, i: nat, from: nat, hi: nat)
    requires AgreeFrom(t, u, i) && i <= from && hi <= |t|
    ensures LazyTitleEnd(t, from, hi) == LazyTitleEnd(u, from, hi)
  {
    forall q | from <= q <= hi
      ensures LeaderEnd(t, q) == LeaderEnd(u, q)
    {
      LeaderAgree(t, u, i, q);
    }
    var r, w := LazyTitleEnd(t, from, hi), LazyTitleEnd(u, from, hi);
    var x := if r.Some? then r.value else hi + 1;
    var y := if w.Some? then w.value else hi + 1;
    if x <= hi {
      var lx := LeaderEnd(u, x);
    }
    if y <= hi {
      var ly := LeaderEnd(t, y);
    }
    assert x == y;
  }

  lemma {:induction false} LastNonNewlineAgree(t: string, u: string, i: nat, lo: nat, hi: nat)
    requires AgreeFrom(t, u, i) && i <= lo && hi <= |t|
    ensures LastNonNewline(t, lo, hi) == LastNonNewline(u, lo, hi)
    decreases hi
  {
    if lo < hi {
      AgreeAt(t, u, i, hi - 1);
      if t[hi - 1] == '\n' {
        LastNonNewlineAgree(t, u, i, lo, hi - 1);
      }
    }
  }

  lemma TitleAgree(t: string, u: string, i: nat, e: nat, b: nat)
    requires AgreeFrom(t, u, i) && i <= e && e + 1 < b <= |t|
    ensures TitleAt(t, e, b) == TitleAt(u, e, b)
  {
    var n := LazyPartsAgree(t, u, i, b);
    if LazyTitleEnd(t, b + 1, n).Some? {
      TitleAgreeLazy(t, u, i, e, b, n, LazyTitleEnd(t, b + 1, n).value);
    } else {
      TitleAgreeGivenBack(t, u, i, e, b, n);
    }
  }

  /** The line end and the lazy title search agree. */
  lemma LazyPartsAgree(t: string, u: string, i: nat, b: nat) returns (n: nat)
    requires AgreeFrom(t, u, i) && i <= b <= |t|
    ensures n == NewlineFrom(t, b) == NewlineFrom(u, b)
    ensures LazyTitleEnd(t, b + 1, n) == LazyTitleEnd(u, b + 1, n)
  {
    n := NewlineFrom(t, b);
    RunEndAgree(t, u, i, b, NotNewline);
    LazyAgree(t, u, i, b + 1, n);
  }

  lemma TitleAgreeLazy(t: string, u: string, i: nat, e: nat, b: nat, n: nat, q: nat)
    requires AgreeFrom(t, u, i) && i <= e && e + 1 < b <= |t| && n == NewlineFrom(t, b) == NewlineFrom(u, b)
    requires LazyTitleEnd(t, b + 1, n) == Some(q) == LazyTitleEnd(u, b + 1, n)
    ensures TitleAt(t, e, b) == TitleAt(u, e, b)
  {
    LeaderAgree(t, u, i, q);
    TitleLazyCase(t, e, b, q);
    TitleLazyCase(u, e, b, q);
  }

  lemma TitleAgreeGivenBack(t: string, u: string, i: nat, e: nat, b: nat, n: nat)
    requires AgreeFrom(t, u, i) && i <= e && e + 1 < b <= |t| && n == NewlineFrom(t, b) == NewlineFrom(u, b)
    requires LazyTitleEnd(t, b + 1, n).None? && LazyTitleEnd(u, b + 1, n).None?
    ensures TitleAt(t, e, b) == TitleAt(u, e, b)
  {
    GivenBackAgree(t, u, i, e, b);
  }

  /** A title end found by the lazy search makes the title. */
  lemma TitleLazyCase(t: string, e: nat, b: nat, q: nat)
    requires e + 1 < b <= |t| && LazyTitleEnd(t, b + 1, NewlineFrom(t, b)) == Some(q)
    ensures LeaderEnd(t, q).Some? && TitleAt(t, e, b) == Some((b, q, LeaderEnd(t, q).value))
  {
  }

  lemma GivenBackAgree(t: string, u: string, i: nat, e: nat, b: nat)
    requires AgreeFrom(t, u, i) && i <= e && e + 1 < b <= |t|
    ensures GivenBackTitle(t, e, b) == GivenBackTitle(u, e, b)
  {
    LastNonNewlineAgree(t, u, i, e + 2, b);
    var m := LastNonNewline(t, e + 2, b);
    if m.Some? {
      LeaderAgree(t, u, i, m.value + 1);
      var g := LeaderEnd(t, m.value + 1);
      GivenBackSome(t, e, b, m.value, g);
      GivenBackSome(u, e, b, m.value, g);
    } else {
      GivenBackNone(t, e, b);
      GivenBackNone(u, e, b);
    }
  }

  lemma GivenBackSome(t: string, e: nat, b: nat, s: nat, g: Option<nat>)
    requires e + 1 < b <= |t| && LastNonNewline(t, e + 2, b) == Some(s) && s + 1 <= |t| && LeaderEnd(t, s + 1) == g
    ensures GivenBackTitle(t, e, b) == if g.Some? then Some((s, s + 1, g.value)) else None
  {
  }

  lemma GivenBackNone(t: string, e: nat, b: nat)
    requires e + 1 < b <= |t| && LastNonNewline(t, e + 2, b).None?
    ensures GivenBackTitle(t, e, b).None?
  {
  }

  /** No dot leader starts at a character that is neither whitespace nor a dot. */
  lemma NoLeaderAtWord(t: string, q: nat)
    requires q < |t| && !IsSpace(t[q]) && !IsDot(t[q])
    ensures LeaderEnd(t, q) == None
  {
    assert RunEnd(t, q, IsSpace) == q;
    assert RunEnd(t, q, IsDot) == q;
  }

  const SampleLine: string := "1.2. Titel .... 5"

  lemma SampleNoMatchBefore()
    ensures TocLineAt(SampleLine, 0, false) == None
    ensures TocLineAt(SampleLine, 1, false) == None
  {
    var t := SampleLine;
    assert NumberEnd(t, 0, false) == 1;
    assert RunEnd(t, 2, IsSpace) == 2;
  }

  lemma SampleTitle()
    ensures LazyTitleEnd(SampleLine, 6, 17) == Some(10)
    ensures LeaderEnd(SampleLine, 10) == Some(17)
  {
    SampleNoLeader();
    SampleLeader();
    LazyTitleEndAt(SampleLine, 6, 17, 10);
  }

  /** The lazy title ends at the first position a dot leader follows. */
  lemma LazyTitleEndAt(t: string, from: nat, hi: nat, q: nat)
    requires from <= q <= hi <= |t| && LeaderEnd(t, q).Some?
    requires forall j :: from <= j < q ==> LeaderEnd(t, j).None?
    ensures LazyTitleEnd(t, from, hi) == Some(q)
  {
    var r := LazyTitleEnd(t, from, hi);
    var v := if r.Some? then r.value else q;
    var found, other := LeaderEnd(t, q), LeaderEnd(t, v);
    assert r.Some? && v >= q;
  }

  lemma SampleNoLeader()
    ensures forall q :: 6 <= q < 10 ==> LeaderEnd(SampleLine, q).None?
  {
    forall q | 6 <= q < 10
      ensures LeaderEnd(SampleLine, q).None?
    {
      NoLeaderAtWord(SampleLine, q);
    }
  }

  lemma SampleLeader()
    ensures LeaderEnd(SampleLine, 10) == Some(17)
  {
    var t := SampleLine;
    assert RunEnd(t, 10, IsSpace) == 11;
    assert RunEnd(t, 11, IsDot) == 15;
    assert RunEnd(t, 15, IsSpace) == 16;
    assert RunEnd(t, 16, IsDigit) == 17;
  }

  lemma SamplePrefix()
    ensures NumberPrefix(SampleLine, 2, false) == Some((3, 5))
    ensures NewlineFrom(SampleLine, 5) == 17
  {
    SampleNumberEnd();
    SampleNewline();
  }

  lemma SampleNumberEnd()
    ensures NumberEnd(SampleLine, 2, false) == 3
    ensures RunEnd(SampleLine, 4, IsSpace) == 5
  {
    assert RunEnd(SampleLine, 4, IsSpace) == 5;
  }

  lemma SampleNewline()
    ensures NewlineFrom(SampleLine, 5) == 17
  {
  }

  lemma SampleTitleAt()
    ensures TitleAt(SampleLine, 3, 5) == Some((5, 10, 17))
  {
    SamplePrefix();
    SampleTitle();
  }

  lemma SampleMatch()
    ensures TocLineAt(SampleLine, 2, false) == Some(Hit(2, 17, ["2", "Titel"]))
  {
    var t := SampleLine;
    SamplePrefix();
    SampleTitleAt();
    assert TocLineAt(t, 2, false) == Some(Hit(2, 17, [t[2..3], t[5..10]]));
    SampleGroups();
  }

  lemma SampleGroups()
    ensures SampleLine[2..3] == "2" && SampleLine[5..10] == "Titel"
  {
  }

  /** The level-1 pattern cannot match at `1` (a `2` follows its dot), so it
      matches at `2` and reports the heading "2. Titel". */
  lemma {:induction false} Level1HasNoLeftBoundary()
    ensures TocLines(SampleLine, false) == [Hit(2, 17, ["2", "Titel"])]
  {
    var t := SampleLine;
    TocLineMatcher(t, false);
    var at := TocLinePattern(t, false);
    SampleMatch();
    SampleFirstHit();
    SampleNoMoreHits();
    assert FindAll(t, 0, at) == [at(2).value] + FindAll(t, 17, at);
  }

  /** The search from the start of the sample line stops at `2`. */
  lemma SampleFirstHit()
    ensures NextHit(SampleLine, 0, TocLinePattern(SampleLine, false)) == Some(2)
  {
    SampleNoMatchBefore();
    SampleMatch();
  }

  /** Nothing matches once the first match has consumed the whole line. */
  lemma SampleNoMoreHits()
    ensures MatcherOn(SampleLine, TocLinePattern(SampleLine, false))
    ensures FindAll(SampleLine, 17, TocLinePattern(SampleLine, false)) == []
  {
    TocLineMatcher(SampleLine, false);
  }
}
