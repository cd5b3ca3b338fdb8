/** `make_summaries` of the later version: every chunk gets a `summary`. A
    short chunk's summary is its stripped text, a blank line, the header
    "[METADATEN]" and one `key: value` line per shown metadata key; a long
    chunk's summary is whatever the summarizer returns for the stripped text
    and that metadata block. The token counter and the summarizer are
    parameters. The chunk's own text and metadata are kept as they were. */
module Summaries {
  import opened Text
  import opened Meta
  import opened Chunks
  import opened Ascii

  datatype Summarized = Summarized(text: string, meta: Dict, summary: string)

  /** Texts under this many tokens are kept verbatim in the summary. */
  const TokenLimit: nat := 300

  const MetaHeader: string := "[METADATEN]"

  /** The keys shown in the metadata block, in the order they are shown. */
  const ShownKeys: seq<string> := [FileNameKey, SectionKey, SubsectionKey, SubsubsectionKey, SubsectionNumberKey]

  // ---------------------------------------------------------------------------
  // Lines
  // ---------------------------------------------------------------------------

  predicate NotNewline(c: char) {
    c != '\n'
  }

  /** `s.split("\n")`: the pieces between newlines, at least one. */
  function SplitLines(s: string): (lines: seq<string>)
    ensures |lines| >= 1
    ensures forall k :: 0 <= k < |lines| ==> '\n' !in lines[k]
    decreases |s|
  {
    var i := RunEnd(s, 0, NotNewline);
    if i == |s| then [s] else [s[..i]] + SplitLines(s[i + 1..])
  }

  /** `"\n".join(lines)`. */
  function JoinLines(lines: seq<string>): string {
    if lines == [] then []
    else if |lines| == 1 then lines[0]
    else lines[0] + "\n" + JoinLines(lines[1..])
  }

  /** A text without a newline is one line. */
  lemma SplitLinesSingle(a: string)
    requires '\n' !in a
    ensures SplitLines(a) == [a]
  {
  }

  /** Joining two texts with a newline joins their lines. */
  lemma {:induction false} SplitLinesAppend(a: string, b: string)
    ensures SplitLines(a + "\n" + b) == SplitLines(a) + SplitLines(b)
    decreases |a|
  {
    var s := a + "\n" + b;
    var i := RunEnd(a, 0, NotNewline);
    assert a <= s;
    if i == |a| {
      assert RunEnd(s, 0, NotNewline) == |a| by {
        assert s[|a|] == '\n';
        forall k | 0 <= k < |a|
          ensures NotNewline(s[k])
        {
          assert s[k] == a[k];
        }
      }
      assert s[..|a|] == a;
      assert s[|a| + 1..] == b;
    } else {
      RunEndExtends(a, s, 0, NotNewline);
      assert s[..i] == a[..i];
      assert s[i + 1..] == a[i + 1..] + "\n" + b;
      SplitLinesAppend(a[i + 1..], b);
    }
  }

  /** Splitting undoes joining lines that hold no newline. */
  lemma {:induction false} SplitJoin(lines: seq<string>)
    requires lines != []
    requires forall k :: 0 <= k < |lines| ==> '\n' !in lines[k]
    ensures SplitLines(JoinLines(lines)) == lines
    decreases |lines|
  {
    if |lines| == 1 {
      SplitLinesSingle(lines[0]);
    } else {
      var rest := JoinLines(lines[1..]);
      assert JoinLines(lines) == lines[0] + "\n" + rest;
      assert forall k :: 0 <= k < |lines| - 1 ==> lines[1..][k] == lines[k + 1];
      SplitJoin(lines[1..]);
      SplitCons(lines[0], rest, lines[1..]);
      assert [lines[0]] + lines[1..] == lines;
    }
  }

  /** A line without a newline, a newline, and a text: the line comes first. */
  lemma SplitCons(a: string, rest: string, tail: seq<string>)
    requires '\n' !in a && SplitLines(rest) == tail
    ensures SplitLines(a + "\n" + rest) == [a] + tail
  {
    SplitLinesAppend(a, rest);
    SplitLinesSingle(a);
  }

  /** The joined text starts with the first line's first character. */
  lemma JoinLinesFirst(lines: seq<string>)
    requires lines != [] && lines[0] != []
    ensures JoinLines(lines) != [] && JoinLines(lines)[0] == lines[0][0]
  {
    if |lines| > 1 {
      assert JoinLines(lines) == lines[0] + ("\n" + JoinLines(lines[1..]));
    }
  }

  /** The joined text ends with the last line's last character. */
  lemma {:induction false} JoinLinesLast(lines: seq<string>)
    requires lines != [] && lines[|lines| - 1] != []
    ensures var s := JoinLines(lines);
            s != [] && s[|s| - 1] == lines[|lines| - 1][|lines[|lines| - 1]| - 1]
    decreases |lines|
  {
    if |lines| > 1 {
      assert lines[1..][|lines| - 2] == lines[|lines| - 1];
      JoinLinesLast(lines[1..]);
      assert JoinLines(lines) == (lines[0] + "\n") + JoinLines(lines[1..]);
    }
  }

  // ---------------------------------------------------------------------------
  // The metadata block
  // ---------------------------------------------------------------------------

  /** The line shown for a key the metadata has: `f"{key}: {md[key]}"`. */
  function MetaLine(md: Dict, key: string): string {
    key + ": " + Show(Get(md, key))
  }

  /** `line` is the line of some key of `keys` that the metadata has. */
  predicate ShownLine(md: Dict, keys: seq<string>, line: string) {
    exists key :: key in keys && Has(md, key) && line == MetaLine(md, key)
  }

  /** One line per key of `keys` that the metadata has, in the order of `keys`. */
  function MetaLines(md: Dict, keys: seq<string>): (lines: seq<string>)
    ensures |lines| <= |keys|
    ensures forall i :: 0 <= i < |lines| ==> ShownLine(md, keys, lines[i])
    ensures forall key :: key in keys && Has(md, key) ==> MetaLine(md, key) in lines
    decreases |keys|
  {
    if keys == [] then []
    else
      var rest := MetaLines(md, keys[1..]);
      assert forall key :: key in keys[1..] ==> key in keys;
      assert forall key :: key in keys ==> key == keys[0] || key in keys[1..];
      assert forall line :: ShownLine(md, keys[1..], line) ==> ShownLine(md, keys, line);
      assert Has(md, keys[0]) ==> ShownLine(md, keys, MetaLine(md, keys[0]));
      (if Has(md, keys[0]) then [MetaLine(md, keys[0])] else []) + rest
  }

  /** The positions in `xs`, from `k` on, of the elements `p` holds for. */
  function Positions<T>(xs: seq<T>, p: T -> bool, k: nat): (idx: seq<nat>)
    requires k <= |xs|
    ensures forall i :: 0 <= i < |idx| ==> k <= idx[i] < |xs| && p(xs[idx[i]])
    decreases |xs| - k
  {
    if k == |xs| then []
    else (if p(xs[k]) then [k] else []) + Positions(xs, p, k + 1)
  }

  /** The positions are increasing. */
  lemma {:induction false} PositionsIncreasing<T>(xs: seq<T>, p: T -> bool, k: nat)
    requires k <= |xs|
    ensures var idx := Positions(xs, p, k);
            forall i, j :: 0 <= i < j < |idx| ==> idx[i] < idx[j]
    decreases |xs| - k
  {
    if k < |xs| && p(xs[k]) {
      PositionsIncreasing(xs, p, k + 1);
      var ri := Positions(xs, p, k + 1);
      var idx := Positions(xs, p, k);
      assert idx == [k] + ri;
      forall i, j | 0 <= i < j < |idx|
        ensures idx[i] < idx[j]
      {
        assert idx[j] == ri[j - 1] && k + 1 <= ri[j - 1];
        if i > 0 {
          assert idx[i] == ri[i - 1];
        } else {
          assert idx[i] == k;
        }
      }
    } else if k < |xs| {
      PositionsIncreasing(xs, p, k + 1);
      assert Positions(xs, p, k) == Positions(xs, p, k + 1);
    }
  }

  /** Every position `p` holds for is listed. */
  lemma {:induction false} PositionsCover<T>(xs: seq<T>, p: T -> bool, k: nat)
    requires k <= |xs|
    ensures forall a :: k <= a < |xs| && p(xs[a]) ==> a in Positions(xs, p, k)
    decreases |xs| - k
  {
    if k < |xs| {
      PositionsCover(xs, p, k + 1);
      var ri := Positions(xs, p, k + 1);
      var idx := Positions(xs, p, k);
      assert idx == (if p(xs[k]) then [k] else []) + ri;
      forall a | k <= a < |xs| && p(xs[a])
        ensures a in idx
      {
        if a > k {
          assert a in ri;
        } else {
          assert idx[0] == k;
        }
      }
    }
  }

  /** `[f(x) for x in xs if p(x)]`. */
  function FilterMap<T, U>(xs: seq<T>, p: T -> bool, f: T -> U): seq<U> {
    if xs == [] then [] else (if p(xs[0]) then [f(xs[0])] else []) + FilterMap(xs[1..], p, f)
  }

  /** Element `i` of a filter-map comes from the `i`-th position `p` holds for. */
  lemma {:induction false} FilterMapPositions<T, U>(xs: seq<T>, p: T -> bool, f: T -> U, k: nat)
    requires k <= |xs|
    ensures var ys := FilterMap(xs[k..], p, f);
            var idx := Positions(xs, p, k);
            && |ys| == |idx|
            && forall i :: 0 <= i < |ys| ==> ys[i] == f(xs[idx[i]])
    decreases |xs| - k
  {
    if k < |xs| {
      FilterMapPositions(xs, p, f, k + 1);
      var rest := FilterMap(xs[k + 1..], p, f);
      var ri := Positions(xs, p, k + 1);
      assert xs[k..][1..] == xs[k + 1..];
      assert xs[k..][0] == xs[k];
      var ys := FilterMap(xs[k..], p, f);
      var idx := Positions(xs, p, k);
      if p(xs[k]) {
        assert ys == [f(xs[k])] + rest;
        assert idx == [k] + ri;
        forall i | 0 <= i < |ys|
          ensures ys[i] == f(xs[idx[i]])
        {
          if i > 0 {
            assert ys[i] == rest[i - 1] && idx[i] == ri[i - 1];
          }
        }
      } else {
        assert ys == rest;
        assert idx == ri;
      }
    }
  }

  function Present(md: Dict): string -> bool {
    key => Has(md, key)
  }

  function LineFor(md: Dict): string -> string {
    key => MetaLine(md, key)
  }

  /** The metadata lines are the lines of the present keys, in order. */
  lemma {:induction false} MetaLinesFilter(md: Dict, keys: seq<string>)
    ensures MetaLines(md, keys) == FilterMap(keys, Present(md), LineFor(md))
    decreases |keys|
  {
    if keys != [] {
      MetaLinesFilter(md, keys[1..]);
    }
  }

  /** The lines come in the order of `keys`, exactly one per key the metadata
      has: line `i` is the line of the `i`-th present key. */
  lemma MetaLinesOrder(md: Dict, keys: seq<string>)
    ensures var lines := MetaLines(md, keys);
            var idx := Positions(keys, Present(md), 0);
            && (forall i, j :: 0 <= i < j < |idx| ==> idx[i] < idx[j])
            && (forall a :: 0 <= a < |keys| && Has(md, keys[a]) ==> a in idx)
            && (forall i :: 0 <= i < |idx| ==> Has(md, keys[idx[i]]))
            && |lines| == |idx|
            && forall i :: 0 <= i < |lines| ==> lines[i] == MetaLine(md, keys[idx[i]])
  {
    assert keys[0..] == keys;
    PositionsIncreasing(keys, Present(md), 0);
    PositionsCover(keys, Present(md), 0);
    MetaLinesFilter(md, keys);
    FilterMapPositions(keys, Present(md), LineFor(md), 0);
  }

  /** `"\n".join(meta_str).strip()`. */
  function MetaText(md: Dict): string {
    Strip(JoinLines(MetaLines(md, ShownKeys)))
  }

  /** A shown value that keeps its line intact: non-empty, without a newline
      and not ending in whitespace. */
  predicate Tidy(s: string) {
    s != [] && '\n' !in s && !IsSpace(s[|s| - 1])
  }

  /** Every shown value the metadata has is tidy. */
  predicate TidyMeta(md: Dict) {
    forall key :: key in ShownKeys && Has(md, key) ==> Tidy(Show(Get(md, key)))
  }

  /** A key that can head a line: non-empty, no newline, no leading whitespace. */
  predicate LineKey(key: string) {
    key != [] && '\n' !in key && !IsSpace(key[0])
  }

  lemma ShownKeysAreLineKeys()
    ensures forall key :: key in ShownKeys ==> LineKey(key)
  {
    assert LineKey(FileNameKey);
    assert LineKey(SectionKey);
    assert LineKey(SubsectionKey);
    assert LineKey(SubsubsectionKey);
    assert LineKey(SubsectionNumberKey);
  }

  /** A line made of a line key and a tidy value has no newline and no
      whitespace at either end. */
  lemma LineShape(key: string, v: string)
    requires LineKey(key) && Tidy(v)
    ensures var line := key + ": " + v;
            line != [] && '\n' !in line && !IsSpace(line[0]) && !IsSpace(line[|line| - 1])
  {
    var line := key + ": " + v;
    assert line == key + (": " + v);
    assert line[0] == key[0];
    assert line[|line| - 1] == v[|v| - 1];
  }

  /** With tidy values and line keys, every line is a non-empty line without
      a newline and without whitespace at either end. */
  lemma MetaLinesShape(md: Dict, keys: seq<string>)
    requires forall key :: key in keys ==> LineKey(key)
    requires forall key :: key in keys && Has(md, key) ==> Tidy(Show(Get(md, key)))
    ensures var lines := MetaLines(md, keys);
            forall i :: 0 <= i < |lines| ==> (&& lines[i] != [] && '\n' !in lines[i]
                                            && !IsSpace(lines[i][0]) && !IsSpace(lines[i][|lines[i]| - 1]))
  {
    var lines := MetaLines(md, keys);
    forall i | 0 <= i < |lines|
      ensures && lines[i] != [] && '\n' !in lines[i]
              && !IsSpace(lines[i][0]) && !IsSpace(lines[i][|lines[i]| - 1])
    {
      assert ShownLine(md, keys, lines[i]);
      var key :| key in keys && Has(md, key) && lines[i] == MetaLine(md, key);
      LineShape(key, Show(Get(md, key)));
    }
  }

  /** With tidy values the block is exactly the shown lines: stripping it
      removes nothing and splitting it at newlines gives the lines back. */
  lemma MetaTextLines(md: Dict)
    requires TidyMeta(md)
    ensures var lines := MetaLines(md, ShownKeys);
            SplitLines(MetaText(md)) == if lines == [] then [""] else lines
  {
    var lines := MetaLines(md, ShownKeys);
    ShownKeysAreLineKeys();
    MetaLinesShape(md, ShownKeys);
    if lines == [] {
      SplitLinesSingle("");
    } else {
      JoinLinesFirst(lines);
      JoinLinesLast(lines);
      StripTrimmed(JoinLines(lines));
      SplitJoin(lines);
    }
  }

  // ---------------------------------------------------------------------------
  // make_summaries
  // ---------------------------------------------------------------------------

  /** The summary of one chunk. */
  function SummaryOf(doc: Chunk, countTokens: string -> nat, summarize: (string, string) -> string): (s: string)
    ensures var txt := Strip(doc.text);
            countTokens(txt) < TokenLimit ==> s == txt + "\n\n" + MetaHeader + "\n" + MetaText(doc.meta)
    ensures var txt := Strip(doc.text);
            countTokens(txt) >= TokenLimit ==> s == summarize(txt, MetaText(doc.meta))
  {
    var txt := Strip(doc.text);
    var meta := MetaText(doc.meta);
    if countTokens(txt) < TokenLimit then txt + "\n\n" + MetaHeader + "\n" + meta
    else summarize(txt, meta)
  }

  /** `make_summaries(docs)`. */
  function MakeSummaries(docs: seq<Chunk>, countTokens: string -> nat, summarize: (string, string) -> string): (r: seq<Summarized>)
    ensures |r| == |docs|
    ensures forall k :: 0 <= k < |r| ==> r[k].text == docs[k].text && r[k].meta == docs[k].meta
    ensures forall k :: 0 <= k < |r| ==> r[k].summary == SummaryOf(docs[k], countTokens, summarize)
  {
    seq(|docs|, k requires 0 <= k < |docs| => Summarized(docs[k].text, docs[k].meta, SummaryOf(docs[k], countTokens, summarize)))
  }

  /** A short chunk's summary, read line by line, is the lines of its stripped
      text, an empty line, the header, and then one line per shown key the
      metadata has (a single empty line when it has none). */
  lemma ShortSummaryLines(doc: Chunk, countTokens: string -> nat, summarize: (string, string) -> string)
    requires countTokens(Strip(doc.text)) < TokenLimit
    requires TidyMeta(doc.meta)
    ensures var lines := MetaLines(doc.meta, ShownKeys);
            SplitLines(SummaryOf(doc, countTokens, summarize))
              == SplitLines(Strip(doc.text)) + ["", MetaHeader] + (if lines == [] then [""] else lines)
  {
    LayoutLines(Strip(doc.text), MetaText(doc.meta));
    MetaTextLines(doc.meta);
  }

  /** The short-summary layout, read line by line. */
  lemma LayoutLines(txt: string, meta: string)
    ensures SplitLines(txt + "\n\n" + MetaHeader + "\n" + meta) == SplitLines(txt) + ["", MetaHeader] + SplitLines(meta)
  {
    assert forall k :: 0 <= k < |MetaHeader| ==> MetaHeader[k] != '\n';
    LayoutWith(txt, MetaHeader, meta);
  }

  /** The layout with any one-line header. */
  lemma LayoutWith(txt: string, h: string, meta: string)
    requires '\n' !in h
    ensures SplitLines(txt + "\n\n" + h + "\n" + meta) == SplitLines(txt) + ["", h] + SplitLines(meta)
  {
    var tail := h + "\n" + meta;
    var mid := [] + "\n" + tail;
    assert txt + "\n\n" + h + "\n" + meta == txt + "\n" + mid;
    SplitLinesAppend(txt, mid);
    GapLines(tail);
    HeaderLines(h, meta);
    LinesAssemble(SplitLines(txt), h, SplitLines(meta));
  }

  /** A text that starts with a newline starts with an empty line. */
  lemma GapLines(tail: string)
    ensures SplitLines([] + "\n" + tail) == [[]] + SplitLines(tail)
  {
    SplitLinesAppend([], tail);
    SplitLinesSingle([]);
  }

  /** A one-line header before a newline is a line of its own. */
  lemma HeaderLines(h: string, meta: string)
    requires '\n' !in h
    ensures SplitLines(h + "\n" + meta) == [h] + SplitLines(meta)
  {
    SplitLinesAppend(h, meta);
    SplitLinesSingle(h);
  }

  lemma LinesAssemble(xs: seq<string>, h: string, ys: seq<string>)
    ensures xs + ([[]] + ([h] + ys)) == xs + ["", h] + ys
  {
  }
}
