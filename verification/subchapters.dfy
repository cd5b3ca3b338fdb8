/** The subchapter split of the tender text (`extract_subchapters`): the scan
    for level-2 and level-3 headings, the left-to-right sweep that cuts the
    text at every heading and carries the headings in force, and a reference
    definition of the pieces the sweep emits. */
module Subchapters {
  import opened Text
  import opened Meta
  import opened Chunks
  import opened Matching

  // ---------------------------------------------------------------------------
  // Subchapter headings
  //   (?P<level>(\d+\.\d+\.\d+\.|\d+\.\d+\.))\s*(?P<title>[^\n]+)(?:\r?\n)+
  // ---------------------------------------------------------------------------

  /** `\d+\.` at `i`: where it ends (after the dot). */
  function GroupEnd(t: string, i: nat): (r: Option<nat>)
    ensures r.Some? ==> i + 2 <= r.value <= |t| && t[r.value - 1] == '.'
    ensures r.Some? ==> DigitString(t[i..r.value - 1])
  {
    if i >= |t| || !IsDigit(t[i]) then None
    else
      var x := RunEnd(t, i, IsDigit);
      if x == |t| || t[x] != '.' then None else Some(x + 1)
  }

  /** The number of dots in `s` (`str.count('.')`). */
  function DotCount(s: string): nat {
    if s == [] then 0 else (if s[0] == '.' then 1 else 0) + DotCount(s[1..])
  }

  lemma {:induction false} DotCountAppend(a: string, b: string)
    ensures DotCount(a + b) == DotCount(a) + DotCount(b)
  {
    if a == [] {
      assert a + b == b;
    } else {
      assert (a + b)[1..] == a[1..] + b;
      DotCountAppend(a[1..], b);
    }
  }

  lemma {:induction false} DigitsHaveNoDot(s: string)
    requires DigitString(s) || s == []
    ensures DotCount(s) == 0
  {
    if s != [] {
      assert DigitString(s[1..]) || s[1..] == [] by {
        assert forall k :: 0 <= k < |s[1..]| ==> s[1..][k] == s[k + 1];
      }
      DigitsHaveNoDot(s[1..]);
    }
  }

  /** A group `digits.` has one dot. */
  lemma GroupDots(t: string, i: nat, e: nat)
    requires i + 2 <= e <= |t| && t[e - 1] == '.' && DigitString(t[i..e - 1])
    ensures DotCount(t[i..e]) == 1
  {
    assert t[i..e] == t[i..e - 1] + [t[e - 1]];
    DotCountAppend(t[i..e - 1], [t[e - 1]]);
    DigitsHaveNoDot(t[i..e - 1]);
    assert DotCount([t[e - 1]]) == 1 by {
      assert [t[e - 1]][1..] == [];
    }
  }

  /** One more group `digits.` after `t[i..a]` adds one dot. */
  lemma NextGroup(t: string, i: nat, a: nat, b: nat, m: nat)
    requires i <= a && GroupEnd(t, a) == Some(b) && DotCount(t[i..a]) == m
    ensures DotCount(t[i..b]) == m + 1
  {
    GroupDots(t, a, b);
    assert t[i..b] == t[i..a] + t[a..b];
    DotCountAppend(t[i..a], t[a..b]);
  }

  /** The number's end for the first alternative that lets the rest match. */
  function LevelEnd(t: string, i: nat, depth: nat): (r: Option<nat>)
    requires depth == 2 || depth == 3
    ensures r.Some? ==> i < r.value <= |t| && DotCount(t[i..r.value]) == depth
    ensures r.Some? ==> IsDigit(t[i]) && t[r.value - 1] == '.'
  {
    match GroupEnd(t, i)
    case None => None
    case Some(a) =>
      assert t[i..i] == [];
      NextGroup(t, i, i, a, 0);
      match GroupEnd(t, a)
      case None => None
      case Some(b) =>
        NextGroup(t, i, a, b, 1);
        if depth == 2 then Some(b)
        else
          match GroupEnd(t, b)
          case None => None
          case Some(c) =>
            NextGroup(t, i, b, c, 2);
            Some(c)
  }

  /** Where the title can start: the latest point in `[p, s]` that is not a
      newline and has a newline somewhere after it. The greedy `\s*` first
      offers the whole whitespace run and then gives it back one character at
      a time. */
  function TitleStart(t: string, p: nat, s: nat): (r: Option<nat>)
    requires p <= s <= |t|
    ensures r.Some? ==> p <= r.value <= s && r.value < |t| && t[r.value] != '\n' && NewlineFrom(t, r.value) < |t|
    ensures r.None? ==> forall q :: p <= q <= s && q < |t| && t[q] != '\n' ==> NewlineFrom(t, q) == |t|
    decreases s
  {
    if s < |t| && t[s] != '\n' && NewlineFrom(t, s) < |t| then Some(s)
    else if s == p then None
    else TitleStart(t, p, s - 1)
  }

  /** `(?:\r?\n)+` from a newline at `n`: as many line ends as follow. */
  function LineEnds(t: string, n: nat): (e: nat)
    requires n <= |t|
    ensures n <= e <= |t|
    ensures e == |t| || (t[e] != '\n' && !(t[e] == '\r' && e + 1 < |t| && t[e + 1] == '\n'))
    decreases |t| - n
  {
    if n < |t| && t[n] == '\n' then LineEnds(t, n + 1)
    else if n + 1 < |t| && t[n] == '\r' && t[n + 1] == '\n' then LineEnds(t, n + 2)
    else n
  }

  /** The heading pattern with the number ending at `p`: the title and the match end. */
  function TitleAt(t: string, p: nat): (r: Option<(nat, nat, nat)>)
    requires p <= |t|
    ensures r.Some? ==> p <= r.value.0 < r.value.1 < r.value.2 <= |t|
    ensures r.Some? ==> t[r.value.1] == '\n' && forall k :: r.value.0 <= k < r.value.1 ==> t[k] != '\n'
  {
    var s := RunEnd(t, p, IsSpace);
    match TitleStart(t, p, s)
    case None => None
    case Some(q) =>
      var n := NewlineFrom(t, q);
      Some((q, n, LineEnds(t, n)))
  }

  /** The subchapter heading pattern tried at `i`; the groups are (level, title).
      The three-group alternative is tried first; when its rest fails, the
      two-group one is tried at the same position. */
  function SubheadingAt(t: string, i: nat): (r: Option<Hit>)
    ensures r.Some? ==> r.value.start == i < r.value.end <= |t|
    ensures r.Some? ==> |r.value.groups| == 2
    ensures r.Some? ==> DotCount(r.value.groups[0]) == 2 || DotCount(r.value.groups[0]) == 3
    ensures r.Some? ==> Strip(r.value.groups[0]) == r.value.groups[0]
    ensures r.Some? ==> r.value.groups[1] != [] && OneLine(r.value.groups[1])
  {
    match Alternative(t, i, 3)
    case Some(h) => Some(h)
    case None => Alternative(t, i, 2)
  }

  /** A heading match at `i` with a level of `depth` dots, written without
      surrounding whitespace, and a non-empty one-line title. */
  predicate HeadingHit(t: string, i: nat, h: Hit, depth: nat) {
    && h.start == i < h.end <= |t| && |h.groups| == 2 && DotCount(h.groups[0]) == depth
    && Strip(h.groups[0]) == h.groups[0] && h.groups[1] != [] && OneLine(h.groups[1])
  }

  /** One alternative of the heading pattern: the level number with `depth`
      dots, then the title. */
  function Alternative(t: string, i: nat, depth: nat): (r: Option<Hit>)
    requires depth == 2 || depth == 3
    ensures r.Some? ==> HeadingHit(t, i, r.value, depth)
  {
    match LevelEnd(t, i, depth)
    case None => None
    case Some(p) => TitledHit(t, i, p, depth)
  }

  /** The rest of an alternative once its level number `t[i..p]` has matched. */
  function TitledHit(t: string, i: nat, p: nat, depth: nat): (r: Option<Hit>)
    requires i < p <= |t| && IsDigit(t[i]) && t[p - 1] == '.' && DotCount(t[i..p]) == depth
    ensures r.Some? ==> HeadingHit(t, i, r.value, depth)
  {
    match TitleAt(t, p)
    case None => None
    case Some((q, n, e)) =>
      HitShape(t, i, p, q, n, e, depth);
      Some(Hit(i, e, [t[i..p], t[q..n]]))
  }

  /** A level number ending at `p` and a one-line title `t[q..n]` make a hit
      of that depth. */
  lemma HitShape(t: string, i: nat, p: nat, q: nat, n: nat, e: nat, depth: nat)
    requires i < p <= q < n < e <= |t| && IsDigit(t[i]) && t[p - 1] == '.'
    requires DotCount(t[i..p]) == depth
    requires forall k :: q <= k < n ==> t[k] != '\n'
    ensures HeadingHit(t, i, Hit(i, e, [t[i..p], t[q..n]]), depth)
  {
    LevelTrimmed(t, i, p);
    NoNewlineIn(t, q, n);
  }

  lemma LevelTrimmed(t: string, i: nat, p: nat)
    requires i < p <= |t| && IsDigit(t[i]) && t[p - 1] == '.'
    ensures Strip(t[i..p]) == t[i..p]
  {
    StripTrimmed(t[i..p]);
  }

  lemma NoNewlineIn(t: string, q: nat, n: nat)
    requires q <= n <= |t| && forall k :: q <= k < n ==> t[k] != '\n'
    ensures OneLine(t[q..n])
  {
    forall ch | ch in t[q..n]
      ensures ch != '\n'
    {
      var k :| 0 <= k < |t[q..n]| && t[q..n][k] == ch;
      assert t[q + k] == ch;
    }
  }

  /** No newline in `s`. */
  predicate OneLine(s: string) {
    forall ch :: ch in s ==> ch != '\n'
  }

  function SubheadingPattern(t: string): nat -> Option<Hit> {
    (i: nat) => SubheadingAt(t, i)
  }

  lemma SubheadingMatcher(t: string)
    ensures MatcherOn(t, SubheadingPattern(t))
  {
    forall i: nat | SubheadingPattern(t)(i).Some?
      ensures SubheadingPattern(t)(i).value.start == i < SubheadingPattern(t)(i).value.end <= |t|
    {
    }
  }

  /** `list(heading_pattern.finditer(t))`. */
  function Subheadings(t: string): (ms: seq<Hit>)
    ensures Ordered(ms)
    ensures forall k :: 0 <= k < |ms| ==> SubheadingAt(t, ms[k].start) == Some(ms[k])
    ensures forall k :: 0 <= k < |ms| ==> ms[k].start < ms[k].end <= |t|
    ensures forall j: nat :: j <= |t| && SubheadingAt(t, j).Some? ==> Covered(ms, j)
    ensures Levels(ms) && Increasing(t, ms)
  {
    SubheadingMatcher(t);
    var ms := FindAll(t, 0, SubheadingPattern(t));
    HitsShape(t, ms);
    ms
  }

  // ---------------------------------------------------------------------------
  // The sweep
  // ---------------------------------------------------------------------------

  /** `(current_subsection, current_subsubsection)`. */
  datatype Context = Context(sub: Value, subsub: Value)

  const Start: Context := Context(Null, Null)

  /** A heading as the sweep reads it: level and title are stripped. */
  predicate IsHeading(h: Hit) {
    |h.groups| == 2
  }

  function Depth(h: Hit): nat
    requires IsHeading(h)
  {
    DotCount(Strip(h.groups[0]))
  }

  /** `f"{level} {title}"`. */
  function Label(h: Hit): string
    requires IsHeading(h)
  {
    Strip(h.groups[0]) + " " + Strip(h.groups[1])
  }

  /** A heading as the context update sees it: the number of dots in its
      level, and its label. */
  datatype Heading = Heading(depth: nat, name: string)

  function Read(h: Hit): Heading
    requires IsHeading(h)
  {
    Heading(Depth(h), Label(h))
  }

  predicate AllHeadings(ms: seq<Hit>) {
    forall k :: 0 <= k < |ms| ==> IsHeading(ms[k])
  }

  /** The headings read one by one. */
  function Headings(ms: seq<Hit>): (hs: seq<Heading>)
    requires AllHeadings(ms)
    ensures |hs| == |ms|
  {
    if ms == [] then [] else [Read(ms[0])] + Headings(ms[1..])
  }

  /** Reading the headings keeps them in place. */
  lemma {:induction false} HeadingsAt(ms: seq<Hit>, k: nat)
    requires AllHeadings(ms) && k < |ms|
    ensures Headings(ms)[k] == Read(ms[k])
  {
    if k > 0 {
      HeadingsAt(ms[1..], k - 1);
    }
  }

  /** What one heading does to the context: a level-2 heading starts a new
      subsection and closes the subsubsection, a level-3 heading changes only
      the subsubsection. */
  function Step(ctx: Context, h: Heading): (r: Context)
    ensures h.depth == 2 ==> r == Context(Str(h.name), Null)
    ensures h.depth == 3 ==> r == Context(ctx.sub, Str(h.name))
    ensures h.depth != 2 && h.depth != 3 ==> r == ctx
  {
    if h.depth == 2 then Context(Str(h.name), Null)
    else if h.depth == 3 then Context(ctx.sub, Str(h.name))
    else ctx
  }

  /** The context after the first `k` headings. */
  function ContextAfter(hs: seq<Heading>, k: nat): Context
    requires k <= |hs|
  {
    if k == 0 then Start else Step(ContextAfter(hs, k - 1), hs[k - 1])
  }

  /** `{**base, 'subsection': ..., 'subsubsection': ...}`. */
  function PieceMeta(base: Dict, ctx: Context): (r: Dict)
    ensures Lookup(r, SubsectionKey) == Some(ctx.sub)
    ensures Lookup(r, SubsubsectionKey) == Some(ctx.subsub)
    ensures forall k :: k != SubsectionKey && k != SubsubsectionKey ==> Lookup(r, k) == Lookup(base, k)
  {
    Set(Set(base, SubsectionKey, ctx.sub), SubsubsectionKey, ctx.subsub)
  }

  /** The chunk a piece becomes: none when it is blank, else the stripped piece. */
  function Emitted(piece: string, md: Dict): (r: seq<Chunk>)
    ensures r == [] <==> IsBlank(piece)
    ensures r != [] ==> r == [Chunk(Strip(piece), md)]
  {
    if IsBlank(piece) then [] else [Chunk(Strip(piece), md)]
  }

  /** Headings in text order, each starting after the previous one. */
  predicate Increasing(t: string, ms: seq<Hit>) {
    && (forall k :: 0 <= k < |ms| ==> ms[k].start < |t|)
    && (forall a, b :: 0 <= a < b < |ms| ==> ms[a].start < ms[b].start)
  }

  /** The loop of `extract_subchapters` from heading `ms[0]` on, with the text
      since `last` still to be emitted under `ctx`. */
  function Sweep(t: string, ms: seq<Hit>, last: nat, ctx: Context, base: Dict): seq<Chunk>
    requires AllHeadings(ms) && Increasing(t, ms)
    requires last <= |t| && (ms != [] ==> last <= ms[0].start)
    decreases |ms|
  {
    if ms == [] then
      if last < |t| then Emitted(t[last..], PieceMeta(base, ctx)) else []
    else
      var here := if last < ms[0].start then Emitted(t[last..ms[0].start], PieceMeta(base, ctx)) else [];
      here + Sweep(t, ms[1..], ms[0].start, Step(ctx, Read(ms[0])), base)
  }

  // ---------------------------------------------------------------------------
  // The pieces: a reference definition of what the sweep emits
  // ---------------------------------------------------------------------------

  /** Where piece `k` starts: the text start, then each heading's start. */
  function Cut(t: string, ms: seq<Hit>, k: nat): nat
    requires Increasing(t, ms) && k <= |ms|
  {
    if k == 0 then 0 else ms[k - 1].start
  }

  /** Where piece `k` ends: the next heading's start, or the end of the text. */
  function CutEnd(t: string, ms: seq<Hit>, k: nat): nat
    requires Increasing(t, ms) && k <= |ms|
  {
    if k == |ms| then |t| else ms[k].start
  }

  lemma CutOrder(t: string, ms: seq<Hit>, k: nat)
    requires Increasing(t, ms) && k <= |ms|
    ensures Cut(t, ms, k) <= CutEnd(t, ms, k) <= |t|
    ensures k > 0 ==> Cut(t, ms, k) < CutEnd(t, ms, k)
  {
  }

  /** Piece `k` of the text, unstripped. */
  function Piece(t: string, ms: seq<Hit>, k: nat): string
    requires Increasing(t, ms) && k <= |ms|
  {
    CutOrder(t, ms, k);
    t[Cut(t, ms, k)..CutEnd(t, ms, k)]
  }

  /** Pieces `k` to `|ms|` in order. */
  function PiecesFrom(t: string, ms: seq<Hit>, k: nat): seq<string>
    requires Increasing(t, ms) && k <= |ms|
    decreases |ms| - k
  {
    [Piece(t, ms, k)] + (if k == |ms| then [] else PiecesFrom(t, ms, k + 1))
  }

  /** The pieces concatenate back to the text from where piece `k` starts. */
  lemma {:induction false} PiecesPartition(t: string, ms: seq<Hit>, k: nat)
    requires Increasing(t, ms) && k <= |ms|
    ensures Concat(PiecesFrom(t, ms, k)) == t[Cut(t, ms, k)..]
    decreases |ms| - k
  {
    CutOrder(t, ms, k);
    var p := Piece(t, ms, k);
    if k == |ms| {
      assert PiecesFrom(t, ms, k) == [p];
      assert Concat([p]) == p + Concat([p][1..]);
      assert [p][1..] == [];
    } else {
      PiecesPartition(t, ms, k + 1);
      var a, b := Cut(t, ms, k), CutEnd(t, ms, k);
      assert Cut(t, ms, k + 1) == b;
      assert PiecesFrom(t, ms, k) == [t[a..b]] + PiecesFrom(t, ms, k + 1);
      JoinPiece(t, a, b, PiecesFrom(t, ms, k + 1));
    }
  }

  /** A slice followed by pieces that concatenate to the rest of the text. */
  lemma JoinPiece(t: string, a: nat, b: nat, rest: seq<string>)
    requires a <= b <= |t| && Concat(rest) == t[b..]
    ensures Concat([t[a..b]] + rest) == t[a..]
  {
    assert ([t[a..b]] + rest)[1..] == rest;
    assert t[a..] == t[a..b] + t[b..];
  }

  /** Every piece cut from a text: the unstripped pieces concatenate back to it. */
  lemma Partition(t: string, ms: seq<Hit>)
    requires Increasing(t, ms)
    ensures Concat(PiecesFrom(t, ms, 0)) == t
  {
    PiecesPartition(t, ms, 0);
  }

  /** What piece `k` becomes: nothing when blank, else one chunk under the
      context of the headings before it. */
  function PieceChunk(t: string, ms: seq<Hit>, k: nat, base: Dict): (r: seq<Chunk>)
    requires AllHeadings(ms) && Increasing(t, ms) && k <= |ms|
    ensures |r| <= 1
    ensures AllCarry(r, Lookup(base, SectionKey))
  {
    Emitted(Piece(t, ms, k), PieceMeta(base, ContextAfter(Headings(ms), k)))
  }

  /** The reference output from piece `k` on: each non-blank piece, stripped,
      under the context of the headings before it. Every piece turns into at
      most one chunk, and every chunk keeps the section of `base`. */
  function Reference(t: string, ms: seq<Hit>, k: nat, base: Dict): (r: seq<Chunk>)
    requires AllHeadings(ms) && Increasing(t, ms) && k <= |ms|
    ensures |r| <= |ms| + 1 - k
    ensures AllCarry(r, Lookup(base, SectionKey))
    decreases |ms| - k
  {
    PieceChunk(t, ms, k, base) + (if k == |ms| then [] else Reference(t, ms, k + 1, base))
  }

  lemma IncreasingTail(t: string, ms: seq<Hit>)
    requires Increasing(t, ms) && ms != []
    ensures Increasing(t, ms[1..])
    ensures ms[1..] != [] ==> ms[0].start < ms[1..][0].start
  {
    assert forall k :: 0 <= k < |ms[1..]| ==> ms[1..][k] == ms[k + 1];
  }

  lemma Suffix(t: string, ms: seq<Hit>, k: nat)
    requires AllHeadings(ms) && Increasing(t, ms) && k < |ms|
    ensures AllHeadings(ms[k..]) && Increasing(t, ms[k..])
    ensures ms[k..][0] == ms[k] && ms[k..][1..] == ms[k + 1..]
  {
    assert forall j :: 0 <= j < |ms[k..]| ==> ms[k..][j] == ms[k + j];
  }

  /** One sweep step from heading `k - 1`: the piece before heading `k`, then the rest. */
  lemma SweepUnfold(t: string, ms: seq<Hit>, k: nat, base: Dict)
    requires AllHeadings(ms) && Increasing(t, ms) && 0 < k < |ms|
    ensures AllHeadings(ms[k..]) && Increasing(t, ms[k..])
    ensures AllHeadings(ms[k + 1..]) && Increasing(t, ms[k + 1..])
    ensures Sweep(t, ms[k..], ms[k - 1].start, ContextAfter(Headings(ms), k), base)
            == PieceChunk(t, ms, k, base) + Sweep(t, ms[k + 1..], ms[k].start, ContextAfter(Headings(ms), k + 1), base)
  {
    Suffix(t, ms, k);
    HeadingsAt(ms, k);
    if k + 1 < |ms| {
      Suffix(t, ms, k + 1);
    } else {
      assert ms[k + 1..] == [];
    }
  }

  /** After the last heading the sweep emits the final piece. */
  lemma SweepLast(t: string, ms: seq<Hit>, base: Dict)
    requires AllHeadings(ms) && Increasing(t, ms) && ms != []
    ensures Sweep(t, ms[|ms|..], ms[|ms| - 1].start, ContextAfter(Headings(ms), |ms|), base) == Reference(t, ms, |ms|, base)
  {
    var k := |ms|;
    assert ms[k..] == [];
    var last := ms[k - 1].start;
    assert last < |t|;
    assert Piece(t, ms, k) == t[last..];
    var piece := Emitted(t[last..], PieceMeta(base, ContextAfter(Headings(ms), k)));
    assert Sweep(t, [], last, ContextAfter(Headings(ms), k), base) == piece;
    assert Reference(t, ms, k, base) == piece + [];
  }

  /** The sweep, started at heading `k - 1`'s start with the context that
      heading left, emits exactly the reference pieces from `k` on. */
  lemma {:induction false} SweepFrom(t: string, ms: seq<Hit>, k: nat, base: Dict)
    requires AllHeadings(ms) && Increasing(t, ms) && 0 < k <= |ms|
    ensures AllHeadings(ms[k..]) && Increasing(t, ms[k..])
    ensures Sweep(t, ms[k..], ms[k - 1].start, ContextAfter(Headings(ms), k), base) == Reference(t, ms, k, base)
    decreases |ms| - k
  {
    if k == |ms| {
      SweepLast(t, ms, base);
    } else {
      SweepUnfold(t, ms, k, base);
      SweepFrom(t, ms, k + 1, base);
    }
  }

  /** The sweep from the start of the text emits the reference pieces. */
  lemma SweepIsReference(t: string, ms: seq<Hit>, base: Dict)
    requires AllHeadings(ms) && Increasing(t, ms) && ms != []
    ensures Sweep(t, ms, 0, Start, base) == Reference(t, ms, 0, base)
  {
    SweepFrom(t, ms, 1, base);
    assert ms[1..] == ms[1..];
    CutOrder(t, ms, 0);
    if 0 < ms[0].start {
    } else {
      assert IsBlank(Piece(t, ms, 0));
    }
  }

  // ---------------------------------------------------------------------------
  // What the context holds
  // ---------------------------------------------------------------------------

  /** Every heading is of level 2 or level 3. */
  predicate Levels(ms: seq<Hit>) {
    AllHeadings(ms) && forall k :: 0 <= k < |ms| ==> Depth(ms[k]) == 2 || Depth(ms[k]) == 3
  }

  /** Subchapter hits in text order are headings of level 2 or 3 at
      increasing positions. */
  lemma HitsShape(t: string, ms: seq<Hit>)
    requires Ordered(ms)
    requires forall k :: 0 <= k < |ms| ==> SubheadingAt(t, ms[k].start) == Some(ms[k])
    requires forall k :: 0 <= k < |ms| ==> ms[k].start < ms[k].end <= |t|
    ensures Levels(ms) && Increasing(t, ms)
  {
    forall k | 0 <= k < |ms|
      ensures IsHeading(ms[k]) && (Depth(ms[k]) == 2 || Depth(ms[k]) == 3)
    {
      assert SubheadingAt(t, ms[k].start) == Some(ms[k]);
    }
    forall a, b | 0 <= a < b < |ms|
      ensures ms[a].start < ms[b].start
    {
      OrderedStarts(ms, a, b);
    }
  }

  /** No heading of level 2 among `hs[a..b]`. */
  predicate NoLevel2(hs: seq<Heading>, a: nat, b: nat)
    requires b <= |hs|
  {
    forall j :: a <= j < b ==> hs[j].depth != 2
  }

  /** The last level-2 heading among the first `k`. */
  function LastLevel2(hs: seq<Heading>, k: nat): (r: Option<nat>)
    requires k <= |hs|
    ensures r.Some? ==> r.value < k && hs[r.value].depth == 2 && NoLevel2(hs, r.value + 1, k)
    ensures r.None? ==> NoLevel2(hs, 0, k)
  {
    if k == 0 then None
    else if hs[k - 1].depth == 2 then Some(k - 1)
    else LastLevel2(hs, k - 1)
  }

  /** The subsection in force after `k` headings is the label of the last
      level-2 heading among them, or `None` before the first one. */
  lemma {:induction false} SubsectionIsLastLevel2(hs: seq<Heading>, k: nat)
    requires k <= |hs|
    ensures ContextAfter(hs, k).sub == match LastLevel2(hs, k)
                                       case None => Null
                                       case Some(j) => Str(hs[j].name)
  {
    if k > 0 {
      SubsectionIsLastLevel2(hs, k - 1);
    }
  }

  /** The subsubsection in force after `k` headings of level 2 or 3 is the
      label of the heading just before, when that one is of level 3; a
      level-2 heading closes it. */
  lemma SubsubsectionIsLatest(hs: seq<Heading>, k: nat)
    requires forall j :: 0 <= j < |hs| ==> hs[j].depth == 2 || hs[j].depth == 3
    requires k <= |hs|
    ensures ContextAfter(hs, k).subsub == if k > 0 && hs[k - 1].depth == 3 then Str(hs[k - 1].name) else Null
  {
  }

  // ---------------------------------------------------------------------------
  // extract_subchapters, both versions
  // ---------------------------------------------------------------------------

  /** `extract_subchapters(text, base)`. The later version returns a blank text
      untouched; the earlier one writes `subsection` and `subsubsection` as
      `None` when the text has no heading. */
  function ExtractSubchapters(t: string, base: Dict, legacy: bool): (r: seq<Chunk>)
    ensures !legacy && IsBlank(t) ==> r == [Chunk(t, base)]
    ensures Subheadings(t) == [] && (legacy || !IsBlank(t))
            ==> r == [Chunk(Strip(t), if legacy then PieceMeta(base, Start) else base)]
    ensures (legacy || !IsBlank(t)) && Subheadings(t) != [] ==> r == Reference(t, Subheadings(t), 0, base)
    ensures AllCarry(r, Lookup(base, SectionKey))
  {
    var ms := Subheadings(t);
    if !legacy && IsBlank(t) then [Chunk(t, base)]
    else if ms == [] then [Chunk(Strip(t), if legacy then PieceMeta(base, Start) else base)]
    else
      SweepIsReference(t, ms, base);
      Sweep(t, ms, 0, Start, base)
  }
}
