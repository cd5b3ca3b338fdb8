/** `remove_junk_chunks`: dropping chunks that are only a table-of-contents
    line ("1.2. Titel .....") or a cover sheet of a cost summary
    ("Zusammenstellung", "Projekt:", a numbered line, short). */
module Junk {
  import opened Text
  import opened Meta
  import opened Chunks

  /** What `[0-9]+\.[0-9]+(\.[0-9]+)*\.?` matches: a dotted number with at
      least two groups, optionally followed by one more dot. */
  predicate JunkNumber(r: string) {
    || (DottedNumber(r) && '.' in r)
    || (|r| >= 2 && r[|r| - 1] == '.' && DottedNumber(r[..|r| - 1]) && '.' in r[..|r| - 1])
  }

  predicate AllDots(s: string) {
    forall k :: 0 <= k < |s| ==> s[k] == '.'
  }

  predicate NoNewline(s: string) {
    forall k :: 0 <= k < |s| ==> s[k] != '\n'
  }

  /** `re.match(r'^[0-9]+\.[0-9]+(\.[0-9]+)*\.?\s+.+\.+\s*$', s)`: the number
      up to `x`, whitespace up to `q`, any text without a newline up to `m`,
      dots up to `e`, and only whitespace after that. */
  predicate SingleLinePattern(s: string) {
    exists x: nat, q: nat, m: nat, e: nat :: 0 < x < q < m < e <= |s| && PatternSplit(s, x, q, m, e)
  }

  /** The single-line pattern matches `s` with its parts ending at `x`, `q`,
      `m` and `e`. */
  predicate PatternSplit(s: string, x: nat, q: nat, m: nat, e: nat) {
    && 0 < x < q < m < e <= |s|
    && JunkNumber(s[..x]) && AllSpace(s[x..q]) && NoNewline(s[q..m])
    && AllDots(s[m..e]) && AllSpace(s[e..])
  }

  /** `re.search(r'^\s*\d+\.\d+', s, re.MULTILINE)`: some line starts, after
      whitespace, with digits, a dot and a digit. */
  predicate NumberedLine(s: string) {
    exists p, w, x :: && 0 <= p <= w < x && x + 1 < |s|
                      && (p == 0 || s[p - 1] == '\n')
                      && AllSpace(s[p..w]) && DigitString(s[w..x]) && s[x] == '.' && IsDigit(s[x + 1])
  }

  /** `len(txt.splitlines()) == 1` for a stripped, non-empty `txt`: its line
      breaks are whitespace, so none sits at either end, and any one of them
      would split it in two. */
  predicate OneLine(txt: string) {
    forall k :: 0 <= k < |txt| ==> !IsLineBreak(txt[k])
  }

  /** The single-line rule on the stripped text. */
  predicate SingleLineJunk(txt: string) {
    OneLine(txt) && SingleLinePattern(txt) && |txt| < 200
  }

  /** The multi-line rule on the stripped text. */
  predicate MultiLineJunk(txt: string) {
    && Contains(LowerStr(txt), "zusammenstellung")
    && Contains(LowerStr(txt), "projekt:")
    && NumberedLine(txt)
    && |txt| < 600
  }

  /** A chunk the filter drops: its stripped text is non-empty and meets one of the rules. */
  predicate IsJunk(c: Chunk) {
    var txt := Strip(c.text);
    txt != [] && (SingleLineJunk(txt) || MultiLineJunk(txt))
  }

  /** A single-line junk text ends in a dot and starts with a digit. */
  lemma SingleLineEndsWithDot(txt: string)
    requires txt == Strip(txt) && SingleLineJunk(txt)
    ensures IsDigit(txt[0]) && txt[|txt| - 1] == '.'
  {
    PatternEnds(txt);
  }

  /** A text the single-line pattern matches, and that does not end in
      whitespace, ends with the pattern's dots. */
  lemma PatternEnds(txt: string)
    requires SingleLinePattern(txt) && txt != [] && !IsSpace(txt[|txt| - 1])
    ensures IsDigit(txt[0]) && txt[|txt| - 1] == '.'
  {
    var x: nat, q: nat, m: nat, e: nat :| PatternSplit(txt, x, q, m, e);
    assert PatternSplit(txt, x, q, m, e);
    SpacesToEnd(txt, e);
    assert txt[m..e][e - 1 - m] == txt[e - 1];
    JunkNumberDigit(txt[..x]);
    assert txt[..x][0] == txt[0];
  }

  lemma JunkNumberDigit(r: string)
    requires JunkNumber(r)
    ensures IsDigit(r[0])
  {
    if !DottedNumber(r) {
      assert r[..|r| - 1][0] == r[0];
    }
  }

  /** A whitespace tail from `e` on reaches the last character, if there is one after `e`. */
  lemma SpacesToEnd(s: string, e: nat)
    requires e <= |s| && AllSpace(s[e..])
    ensures e < |s| ==> IsSpace(s[|s| - 1])
  {
    if e < |s| {
      assert s[e..][|s| - 1 - e] == s[|s| - 1];
    }
  }

  /** `remove_junk_chunks(docs)`: the chunks that are not junk, in order.
      Blank chunks and chunks of 600 or more stripped characters always stay. */
  function RemoveJunk(docs: seq<Chunk>): (r: seq<Chunk>)
    ensures |r| <= |docs|
    ensures forall k :: 0 <= k < |r| ==> r[k] in docs && !IsJunk(r[k])
    ensures forall c :: c in docs && !IsJunk(c) ==> c in r
    decreases |docs|
  {
    if docs == [] then []
    else
      var rest := RemoveJunk(docs[1..]);
      FilterCons(docs, rest, IsJunk);
      (if IsJunk(docs[0]) then [] else [docs[0]]) + rest
  }

  /** The filter keeps every chunk that is not junk as often as the input
      holds it, repeated chunks included, and no junk chunk at all. */
  lemma {:induction false} RemoveJunkCounts(docs: seq<Chunk>)
    ensures forall c :: multiset(RemoveJunk(docs))[c] == if IsJunk(c) then 0 else multiset(docs)[c]
    decreases |docs|
  {
    if docs != [] {
      RemoveJunkCounts(docs[1..]);
      FilterConsCount(docs, RemoveJunk(docs[1..]), IsJunk);
    }
  }

  /** The counting half of a filtering step: every spared chunk keeps its
      number of occurrences, and every dropped one has none. */
  lemma FilterConsCount(docs: seq<Chunk>, rest: seq<Chunk>, drop: Chunk -> bool)
    requires docs != []
    requires forall c :: multiset(rest)[c] == if drop(c) then 0 else multiset(docs[1..])[c]
    ensures var r := (if drop(docs[0]) then [] else [docs[0]]) + rest;
            forall c :: multiset(r)[c] == if drop(c) then 0 else multiset(docs)[c]
  {
    assert docs == [docs[0]] + docs[1..];
    assert multiset(docs) == multiset([docs[0]]) + multiset(docs[1..]);
  }

  /** One filtering step: if `rest` holds exactly the chunks of `docs[1..]`
      that `drop` spares, putting back the first chunk unless `drop` takes it
      gives exactly the chunks of `docs` that `drop` spares. */
  lemma FilterCons(docs: seq<Chunk>, rest: seq<Chunk>, drop: Chunk -> bool)
    requires docs != []
    requires forall k :: 0 <= k < |rest| ==> rest[k] in docs[1..] && !drop(rest[k])
    requires forall c :: c in docs[1..] && !drop(c) ==> c in rest
    ensures var r := (if drop(docs[0]) then [] else [docs[0]]) + rest;
            && (forall k :: 0 <= k < |r| ==> r[k] in docs && !drop(r[k]))
            && (forall c :: c in docs && !drop(c) ==> c in r)
  {
    assert forall c :: c in docs[1..] ==> c in docs;
    assert forall c :: c in docs ==> c == docs[0] || c in docs[1..];
  }

  /** Neither rule applies to a blank text or to one of 600 or more stripped
      characters. */
  lemma NeverJunk(c: Chunk)
    ensures IsBlank(c.text) || |Strip(c.text)| >= 600 ==> !IsJunk(c)
  {
  }

  /** Blank chunks and chunks of 600 or more stripped characters always stay. */
  lemma RemoveJunkKeepsLong(docs: seq<Chunk>)
    ensures forall c :: c in docs && (IsBlank(c.text) || |Strip(c.text)| >= 600) ==> c in RemoveJunk(docs)
  {
    forall c | c in docs && (IsBlank(c.text) || |Strip(c.text)| >= 600)
      ensures c in RemoveJunk(docs)
    {
      NeverJunk(c);
    }
  }

  /** `xs` is `ys` with some elements left out, in the same order. */
  predicate Subsequence(xs: seq<Chunk>, ys: seq<Chunk>)
    decreases |ys|
  {
    if xs == [] then true
    else if ys == [] then false
    else (xs[0] == ys[0] && Subsequence(xs[1..], ys[1..])) || Subsequence(xs, ys[1..])
  }

  /** The filter keeps chunks unchanged and in order. */
  lemma {:induction false} RemoveJunkSubsequence(docs: seq<Chunk>)
    ensures Subsequence(RemoveJunk(docs), docs)
    decreases |docs|
  {
    if docs != [] {
      RemoveJunkSubsequence(docs[1..]);
      var rest := RemoveJunk(docs[1..]);
      if !IsJunk(docs[0]) {
        assert RemoveJunk(docs) == [docs[0]] + rest;
        assert ([docs[0]] + rest)[1..] == rest;
      } else {
        assert RemoveJunk(docs) == rest;
      }
    }
  }

  /** A list without junk passes the filter unchanged. */
  lemma {:induction false} NothingToRemove(docs: seq<Chunk>)
    requires forall k :: 0 <= k < |docs| ==> !IsJunk(docs[k])
    ensures RemoveJunk(docs) == docs
    decreases |docs|
  {
    if docs != [] {
      assert !IsJunk(docs[0]);
      NothingToRemove(docs[1..]);
      assert [docs[0]] + docs[1..] == docs;
    }
  }

  /** Filtering twice drops nothing more. */
  lemma RemoveJunkIdempotent(docs: seq<Chunk>)
    ensures RemoveJunk(RemoveJunk(docs)) == RemoveJunk(docs)
  {
    NothingToRemove(RemoveJunk(docs));
  }

  /** Dropping chunks can only lower a section's count, and keeps every
      `section` readable. */
  lemma RemoveJunkSections(docs: seq<Chunk>, name: string)
    ensures CountSection(RemoveJunk(docs), name) <= CountSection(docs, name)
    ensures SectionsReadable(docs) ==> SectionsReadable(RemoveJunk(docs))
  {
    RemoveJunkCount(docs, name);
    RemoveJunkReadable(docs);
  }

  lemma {:induction false} RemoveJunkCount(docs: seq<Chunk>, name: string)
    ensures CountSection(RemoveJunk(docs), name) <= CountSection(docs, name)
    decreases |docs|
  {
    if docs != [] {
      RemoveJunkCount(docs[1..], name);
      var here := if IsJunk(docs[0]) then [] else [docs[0]];
      var rest := RemoveJunk(docs[1..]);
      CountSectionAppend(here, rest, name);
      if here != [] {
        assert here[1..] == [];
      }
    }
  }

  lemma {:induction false} RemoveJunkReadable(docs: seq<Chunk>)
    ensures SectionsReadable(docs) ==> SectionsReadable(RemoveJunk(docs))
    decreases |docs|
  {
    if docs != [] {
      RemoveJunkReadable(docs[1..]);
      var here := if IsJunk(docs[0]) then [] else [docs[0]];
      var rest := RemoveJunk(docs[1..]);
      if SectionsReadable(docs) {
        assert SectionsReadable(docs[1..]) by {
          forall k | 0 <= k < |docs| - 1
            ensures Lookup(docs[1..][k].meta, SectionKey) != Some(Null)
          {
            assert docs[1..][k] == docs[k + 1];
          }
        }
      }
      ReadableAppend(here, rest);
    }
  }

}
