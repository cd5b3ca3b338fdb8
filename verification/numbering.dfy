/** The numbering step: splitting a leading section number such as "1.1." off
    the `subsection` and `subsubsection` labels. The later version
    (`extract_numbering_and_remainder`, `unify_numberings_in_metadata`) needs
    whitespace after the number and records only the subsection's number; the
    earlier one (`extract_numbering`, `process_data`) takes the whitespace as
    optional and records both numbers. */
module Numbering {
  import opened Text
  import opened Meta
  import opened Chunks

  /** What `[\d\.]+` matches: a non-empty run of digits and dots. */
  predicate NumberToken(s: string) {
    s != [] && forall k :: 0 <= k < |s| ==> IsDigitOrDot(s[k])
  }

  /** The part of `s` that `.*` reaches: everything before the first newline. */
  function FirstLine(s: string): (r: string)
    ensures r <= s
    ensures forall k :: 0 <= k < |r| ==> r[k] != '\n'
    ensures r == s || s[|r|] == '\n'
  {
    s[..NewlineFrom(s, 0)]
  }

  /** `s` starts, after optional whitespace, with a number token followed by whitespace. */
  ghost predicate Numbered(s: string) {
    exists w: nat, x: nat :: w < x < |s| && AllSpace(s[..w]) && NumberToken(s[w..x]) && IsSpace(s[x])
  }

  /** Leading whitespace is exactly the run `RunEnd` finds when a non-space follows it. */
  lemma LeadingSpace(s: string, w: nat)
    requires w < |s| && AllSpace(s[..w]) && !IsSpace(s[w])
    ensures RunEnd(s, 0, IsSpace) == w
  {
    assert forall k :: 0 <= k < w ==> s[..w][k] == s[k];
  }

  /** A token ends exactly where the digit-or-dot run ends when whitespace follows it. */
  lemma TokenRun(s: string, w: nat, x: nat)
    requires w < x < |s| && NumberToken(s[w..x]) && IsSpace(s[x])
    ensures RunEnd(s, w, IsDigitOrDot) == x
  {
    assert forall k :: w <= k < x ==> s[w..x][k - w] == s[k];
    assert !IsDigitOrDot(s[x]);
  }

  /** Where a numbered label is cut: leading whitespace up to `w`, the token
      `n`, and at least one whitespace character up to `y`. */
  ghost predicate NumberCut(s: string, n: string, w: nat, y: nat) {
    && w + |n| < y <= |s|
    && AllSpace(s[..w]) && s[w..w + |n|] == n && AllSpace(s[w + |n|..y])
    && (y == |s| || !IsSpace(s[y]))
  }

  /** The pieces of a numbered label: the cut, and the first line of what
      follows it, stripped. */
  ghost predicate SplitAt(s: string, n: string, rem: string, w: nat, y: nat) {
    NumberCut(s, n, w, y) && rem == Strip(FirstLine(s[y..]))
  }

  /** `extract_numbering_and_remainder(s)`: `^\s*([\d\.]+)\s+(.*)`. */
  function ExtractNumberingAndRemainder(s: string): (r: (Option<string>, string))
    ensures r.0.Some? <==> Numbered(s)
    ensures r.0.None? ==> r.1 == Strip(s)
    ensures r.0.Some? ==> NumberToken(r.0.value) && exists w: nat, y: nat :: SplitAt(s, r.0.value, r.1, w, y)
  {
    var w := RunEnd(s, 0, IsSpace);
    var x := RunEnd(s, w, IsDigitOrDot);
    if w < x < |s| && IsSpace(s[x]) then
      var y := RunEnd(s, x, IsSpace);
      SplitHolds(s, w, x, y);
      assert SplitAt(s, s[w..x], Strip(FirstLine(s[y..])), w, y);
      (Some(s[w..x]), Strip(FirstLine(s[y..])))
    else
      NotNumbered(s, w, x);
      (None, Strip(s))
  }

  /** The runs the later split reads cut the text as `NumberCut` says. */
  lemma SplitHolds(s: string, w: nat, x: nat, y: nat)
    requires w == RunEnd(s, 0, IsSpace) && x == RunEnd(s, w, IsDigitOrDot)
    requires w < x < |s| && IsSpace(s[x]) && y == RunEnd(s, x, IsSpace)
    ensures NumberToken(s[w..x]) && Numbered(s)
    ensures NumberCut(s, s[w..x], w, y)
  {
    RunsCut(s, w, x, y);
    assert w < x < |s| && AllSpace(s[..w]) && NumberToken(s[w..x]) && IsSpace(s[x]);
  }

  /** Three consecutive maximal runs, whitespace, digits-or-dots, whitespace,
      cut the text as `LooseCut` says. */
  lemma RunsCut(s: string, w: nat, x: nat, y: nat)
    requires w < x <= y <= |s|
    requires forall k :: 0 <= k < w ==> IsSpace(s[k])
    requires forall k :: w <= k < x ==> IsDigitOrDot(s[k])
    requires x == |s| || !IsDigitOrDot(s[x])
    requires forall k :: x <= k < y ==> IsSpace(s[k])
    requires y == |s| || !IsSpace(s[y])
    ensures NumberToken(s[w..x]) && LooseCut(s, s[w..x], w, y)
  {
    var n := s[w..x];
    assert forall k :: w <= k < x ==> n[k - w] == s[k];
    assert w + |n| == x;
    SpaceSlice(s, 0, w);
    assert s[..w] == s[0..w];
    SpaceSlice(s, x, y);
    assert s[w..w + |n|] == n;
  }

  lemma NotNumbered(s: string, w: nat, x: nat)
    requires w == RunEnd(s, 0, IsSpace) && x == RunEnd(s, w, IsDigitOrDot)
    requires !(w < x < |s| && IsSpace(s[x]))
    ensures !Numbered(s)
  {
    if Numbered(s) {
      var w': nat, x': nat :| w' < x' < |s| && AllSpace(s[..w']) && NumberToken(s[w'..x']) && IsSpace(s[x']);
      assert s[w'..x'][0] == s[w'];
      LeadingSpace(s, w');
      TokenRun(s, w', x');
    }
  }

  /** Writing a number, a space and a one-line stripped remainder, and splitting
      it again, gives back the number and the remainder. */
  lemma NumberingRoundTrip(n: string, rest: string)
    requires NumberToken(n)
    requires forall k :: 0 <= k < |rest| ==> rest[k] != '\n'
    requires rest == [] || (!IsSpace(rest[0]) && !IsSpace(rest[|rest| - 1]))
    ensures ExtractNumberingAndRemainder(n + " " + rest) == (Some(n), rest)
  {
    var s := n + " " + rest;
    assert s[..0] == [];
    assert !IsSpace(s[0]);
    LeadingSpace(s, 0);
    assert s[0..|n|] == n;
    TokenRun(s, 0, |n|);
    var y := RunEnd(s, |n|, IsSpace);
    assert s[|n| + 1..] == rest;
    if rest == [] {
      assert y == |s|;
    } else {
      assert s[|n| + 1] == rest[0];
      assert y == |n| + 1;
    }
    assert s[y..] == rest;
    assert FirstLine(rest) == rest;
    StripTrimmed(rest);
  }

  // ---------------------------------------------------------------------------
  // unify_numberings_in_metadata
  // ---------------------------------------------------------------------------

  /** One chunk's metadata after the numbering step: a numbered `subsection`
      gives its number to `subsection_number` and keeps the rest; a numbered
      `subsubsection` loses its number, which is not recorded. */
  function UnifyMeta(md: Dict): (r: Dict)
    ensures Truthy(md, SubsectionKey) && ExtractNumberingAndRemainder(Get(md, SubsectionKey).s).0.Some? ==>
              var (n, rem) := ExtractNumberingAndRemainder(Get(md, SubsectionKey).s);
              Lookup(r, SubsectionNumberKey) == Some(Str(n.value)) && Lookup(r, SubsectionKey) == Some(Str(rem))
    ensures !(Truthy(md, SubsectionKey) && ExtractNumberingAndRemainder(Get(md, SubsectionKey).s).0.Some?) ==>
              Lookup(r, SubsectionNumberKey) == Lookup(md, SubsectionNumberKey) && Lookup(r, SubsectionKey) == Lookup(md, SubsectionKey)
    ensures Truthy(md, SubsubsectionKey) && ExtractNumberingAndRemainder(Get(md, SubsubsectionKey).s).0.Some? ==>
              Lookup(r, SubsubsectionKey) == Some(Str(ExtractNumberingAndRemainder(Get(md, SubsubsectionKey).s).1))
    ensures !(Truthy(md, SubsubsectionKey) && ExtractNumberingAndRemainder(Get(md, SubsubsectionKey).s).0.Some?) ==>
              Lookup(r, SubsubsectionKey) == Lookup(md, SubsubsectionKey)
    ensures forall k :: k != SubsectionKey && k != SubsectionNumberKey && k != SubsubsectionKey ==> Lookup(r, k) == Lookup(md, k)
  {
    var md1 :=
      if Truthy(md, SubsectionKey) then
        match ExtractNumberingAndRemainder(Get(md, SubsectionKey).s)
        case (Some(n), rem) => Set(Set(md, SubsectionNumberKey, Str(n)), SubsectionKey, Str(rem))
        case (None, _) => md
      else md;
    assert Lookup(md1, SubsubsectionKey) == Lookup(md, SubsubsectionKey);
    if Truthy(md1, SubsubsectionKey) then
      match ExtractNumberingAndRemainder(Get(md1, SubsubsectionKey).s)
      case (Some(_), rem) => Set(md1, SubsubsectionKey, Str(rem))
      case (None, _) => md1
    else md1
  }

  /** `unify_numberings_in_metadata(docs)`. */
  function UnifyNumberings(docs: seq<Chunk>): (r: seq<Chunk>)
    ensures |r| == |docs|
    ensures forall k :: 0 <= k < |docs| ==> r[k] == Chunk(docs[k].text, UnifyMeta(docs[k].meta))
  {
    seq(|docs|, k requires 0 <= k < |docs| => Chunk(docs[k].text, UnifyMeta(docs[k].meta)))
  }

  /** The numbering step never changes a chunk's section. */
  lemma UnifyKeepsSections(docs: seq<Chunk>)
    ensures SameSections(UnifyNumberings(docs), docs)
  {
    var r := UnifyNumberings(docs);
    forall k | 0 <= k < |docs|
      ensures Lookup(r[k].meta, SectionKey) == Lookup(docs[k].meta, SectionKey)
    {
      assert r[k].meta == UnifyMeta(docs[k].meta);
    }
  }

  /** A subsection label that splits into a number and `rem` is replaced by `rem`. */
  lemma UnifySubsection(md: Dict, sub: string, n: string, rem: string)
    requires Lookup(md, SubsectionKey) == Some(Str(sub)) && sub != []
    requires ExtractNumberingAndRemainder(sub) == (Some(n), rem)
    ensures Lookup(UnifyMeta(md), SubsectionKey) == Some(Str(rem))
  {
  }

  lemma FirstLabel()
    ensures ExtractNumberingAndRemainder("1.1. 2 Foo") == (Some("1.1."), "2 Foo")
  {
    var n, rest := "1.1.", "2 Foo";
    assert NumberToken(n) by {
      assert IsDigitOrDot(n[0]) && IsDigitOrDot(n[1]) && IsDigitOrDot(n[2]) && IsDigitOrDot(n[3]);
    }
    assert !IsSpace(rest[0]) && !IsSpace(rest[4]);
    assert n + " " + rest == "1.1. 2 Foo";
    NumberingRoundTrip(n, rest);
  }

  lemma SecondLabel()
    ensures ExtractNumberingAndRemainder("2 Foo") == (Some("2"), "Foo")
  {
    var n, rest := "2", "Foo";
    assert NumberToken(n) by {
      assert IsDigitOrDot(n[0]);
    }
    assert !IsSpace(rest[0]) && !IsSpace(rest[2]);
    assert n + " " + rest == "2 Foo";
    NumberingRoundTrip(n, rest);
  }

  /** The step is not idempotent: a subsection label whose remainder starts
      with another number loses that number too on a second run. */
  lemma UnifyNotIdempotent()
    ensures var md := [Entry(SubsectionKey, Str("1.1. 2 Foo"))];
            UnifyMeta(UnifyMeta(md)) != UnifyMeta(md)
  {
    var md := [Entry(SubsectionKey, Str("1.1. 2 Foo"))];
    FirstLabel();
    UnifySubsection(md, "1.1. 2 Foo", "1.1.", "2 Foo");
    SecondLabel();
    UnifySubsection(UnifyMeta(md), "2 Foo", "2", "Foo");
  }

  // ---------------------------------------------------------------------------
  // The earlier version: extract_numbering, process_data
  // ---------------------------------------------------------------------------

  /** The pieces of a numbered label for the earlier split: leading whitespace
      up to `w`, the whole digit-and-dot run, optional whitespace up to `y`,
      and the first line of what follows. */
  ghost predicate LooseSplitAt(s: string, n: string, rem: string, w: nat, y: nat) {
    LooseCut(s, n, w, y) && rem == Strip(FirstLine(s[y..]))
  }

  /** Where the earlier split cuts: leading whitespace up to `w`, the whole
      digit-and-dot run `n`, and optional whitespace up to `y`. */
  ghost predicate LooseCut(s: string, n: string, w: nat, y: nat) {
    && w + |n| <= y <= |s| && AllSpace(s[..w]) && s[w..w + |n|] == n
    && (w + |n| == |s| || !IsDigitOrDot(s[w + |n|]))
    && AllSpace(s[w + |n|..y]) && (y == |s| || !IsSpace(s[y]))
  }

  lemma SpaceSlice(s: string, a: nat, b: nat)
    requires a <= b <= |s| && forall k :: a <= k < b ==> IsSpace(s[k])
    ensures AllSpace(s[a..b])
  {
    assert forall k :: 0 <= k < b - a ==> s[a..b][k] == s[a + k];
  }

  /** `extract_numbering(text)`: `^\s*([\d\.]+)\.?\s*(.*)`; an empty text is
      returned as it is. */
  function ExtractNumbering(s: string): (r: (Option<string>, string))
    ensures s == [] ==> r == (None, s)
    ensures s != [] ==> (r.0.Some? <==> Strip(s) != [] && IsDigitOrDot(Strip(s)[0]))
    ensures s != [] && r.0.None? ==> r.1 == Strip(s)
    ensures r.0.Some? ==> NumberToken(r.0.value)
    ensures r.0.Some? ==> exists w: nat, y: nat :: LooseSplitAt(s, r.0.value, r.1, w, y)
  {
    if s == [] then (None, s)
    else
      var w := RunEnd(s, 0, IsSpace);
      StripFirst(s, w);
      if w == |s| || !IsDigitOrDot(s[w]) then (None, Strip(s))
      else LooseSplit(s, w)
  }

  /** The match once the number is known to start at `w`. */
  function LooseSplit(s: string, w: nat): (r: (Option<string>, string))
    requires w == RunEnd(s, 0, IsSpace) && w < |s| && IsDigitOrDot(s[w])
    ensures r.0.Some? && NumberToken(r.0.value)
    ensures exists y: nat :: LooseSplitAt(s, r.0.value, r.1, w, y)
  {
    var x := RunEnd(s, w, IsDigitOrDot);
    var y := RunEnd(s, x, IsSpace);
    LooseSplitHolds(s, w, x, y);
    assert LooseSplitAt(s, s[w..x], Strip(FirstLine(s[y..])), w, y);
    (Some(s[w..x]), Strip(FirstLine(s[y..])))
  }

  /** The runs the earlier split reads cut the text as `LooseCut` says. */
  lemma LooseSplitHolds(s: string, w: nat, x: nat, y: nat)
    requires w == RunEnd(s, 0, IsSpace) && w < |s| && IsDigitOrDot(s[w])
    requires x == RunEnd(s, w, IsDigitOrDot) && y == RunEnd(s, x, IsSpace)
    ensures NumberToken(s[w..x])
    ensures LooseCut(s, s[w..x], w, y)
  {
    RunsCut(s, w, x, y);
  }

  /** The first character of the stripped text is the first non-space one. */
  lemma StripFirst(s: string, w: nat)
    requires w == RunEnd(s, 0, IsSpace)
    ensures Strip(s) == [] <==> w == |s|
    ensures w < |s| ==> Strip(s)[0] == s[w]
  {
  }

  /** The earlier split needs no whitespace after the number. */
  lemma NumberingRoundTripLegacy(n: string, gap: string, rest: string)
    requires NumberToken(n) && AllSpace(gap)
    requires forall k :: 0 <= k < |rest| ==> rest[k] != '\n'
    requires rest == [] || (!IsSpace(rest[0]) && !IsDigitOrDot(rest[0]) && !IsSpace(rest[|rest| - 1]))
    ensures ExtractNumbering(n + gap + rest) == (Some(n), rest)
  {
    var s := n + gap + rest;
    assert s[0] == n[0];
    assert RunEnd(s, 0, IsSpace) == 0;
    var x := RunEnd(s, 0, IsDigitOrDot);
    assert forall k :: 0 <= k < |n| ==> s[k] == n[k];
    if gap != [] {
      assert s[|n|] == gap[0];
    } else if rest != [] {
      assert s[|n|] == rest[0];
    }
    assert x == |n|;
    assert s[..x] == n;
    var y := RunEnd(s, x, IsSpace);
    assert forall k :: 0 <= k < |gap| ==> s[|n| + k] == gap[k];
    if rest != [] {
      assert s[|n| + |gap|] == rest[0];
    }
    assert y == |n| + |gap|;
    assert s[y..] == rest;
    assert FirstLine(rest) == rest;
    StripTrimmed(rest);
  }

  /** `metadata[key + '_number']`. */
  function NumberKeyOf(key: string): string {
    key + "_number"
  }

  /** One key of `process_data`: a truthy value that starts with a number
      gives the number to `<key>_number` and keeps the rest. */
  function SplitKey(md: Dict, key: string): (r: Dict)
    requires key != NumberKeyOf(key)
    ensures Truthy(md, key) && ExtractNumbering(Get(md, key).s).0.Some? ==>
              && Lookup(r, NumberKeyOf(key)) == Some(Str(ExtractNumbering(Get(md, key).s).0.value))
              && Lookup(r, key) == Some(Str(ExtractNumbering(Get(md, key).s).1))
    ensures !(Truthy(md, key) && ExtractNumbering(Get(md, key).s).0.Some?) ==> r == md
    ensures forall k :: k != key && k != NumberKeyOf(key) ==> Lookup(r, k) == Lookup(md, k)
  {
    if Truthy(md, key) then
      match ExtractNumbering(Get(md, key).s)
      case (Some(n), rem) => Set(Set(md, NumberKeyOf(key), Str(n)), key, Str(rem))
      case (None, _) => md
    else md
  }

  /** `process_data` on one chunk's metadata: `subsection`, then `subsubsection`. */
  function ProcessDataMeta(md: Dict): (r: Dict)
    ensures forall k :: k != SubsectionKey && k != SubsectionNumberKey && k != SubsubsectionKey && k != SubsubsectionNumberKey
              ==> Lookup(r, k) == Lookup(md, k)
  {
    NumberKeys();
    SplitKey(SplitKey(md, SubsectionKey), SubsubsectionKey)
  }

  lemma NumberKeys()
    ensures NumberKeyOf(SubsectionKey) == SubsectionNumberKey
    ensures NumberKeyOf(SubsubsectionKey) == SubsubsectionNumberKey
  {
  }

  /** The earlier numbering step treats both levels alike: each numbered
      label's number lands in its own `_number` key. This is the subsubsection half. */
  lemma ProcessDataSubsubsection(md: Dict)
    ensures Truthy(md, SubsubsectionKey) && ExtractNumbering(Get(md, SubsubsectionKey).s).0.Some? ==>
              && Lookup(ProcessDataMeta(md), SubsubsectionNumberKey) == Some(Str(ExtractNumbering(Get(md, SubsubsectionKey).s).0.value))
              && Lookup(ProcessDataMeta(md), SubsubsectionKey) == Some(Str(ExtractNumbering(Get(md, SubsubsectionKey).s).1))
  {
    NumberKeys();
    var md1 := SplitKey(md, SubsectionKey);
    SubsubsectionUntouched(md);
    assert Get(md1, SubsubsectionKey) == Get(md, SubsubsectionKey);
    assert ProcessDataMeta(md) == SplitKey(md1, SubsubsectionKey);
  }

  /** The subsection half. */
  lemma ProcessDataSubsection(md: Dict)
    ensures Truthy(md, SubsectionKey) && ExtractNumbering(Get(md, SubsectionKey).s).0.Some? ==>
              && Lookup(ProcessDataMeta(md), SubsectionNumberKey) == Some(Str(ExtractNumbering(Get(md, SubsectionKey).s).0.value))
              && Lookup(ProcessDataMeta(md), SubsectionKey) == Some(Str(ExtractNumbering(Get(md, SubsectionKey).s).1))
  {
    NumberKeys();
    var md1 := SplitKey(md, SubsectionKey);
    SubsectionNumberUntouched(md1);
    SubsectionUntouched(md1);
    assert ProcessDataMeta(md) == SplitKey(md1, SubsubsectionKey);
    if Truthy(md, SubsectionKey) && ExtractNumbering(Get(md, SubsectionKey).s).0.Some? {
      var e := ExtractNumbering(Get(md, SubsectionKey).s);
      assert Lookup(md1, NumberKeyOf(SubsectionKey)) == Some(Str(e.0.value));
    }
  }

  lemma SubsectionUntouched(md: Dict)
    ensures Lookup(SplitKey(md, SubsubsectionKey), SubsectionKey) == Lookup(md, SubsectionKey)
  {
    assert SubsectionKey != NumberKeyOf(SubsubsectionKey) by {
      assert |SubsectionKey| != |NumberKeyOf(SubsubsectionKey)|;
    }
    assert SubsectionKey != SubsubsectionKey by {
      assert |SubsectionKey| != |SubsubsectionKey|;
    }
  }

  lemma SubsubsectionUntouched(md: Dict)
    ensures Lookup(SplitKey(md, SubsectionKey), SubsubsectionKey) == Lookup(md, SubsubsectionKey)
  {
    assert SubsubsectionKey != NumberKeyOf(SubsectionKey) by {
      assert |SubsubsectionKey| != |NumberKeyOf(SubsectionKey)|;
    }
    assert SubsubsectionKey != SubsectionKey by {
      assert |SubsubsectionKey| != |SubsectionKey|;
    }
  }

  lemma SubsectionNumberUntouched(md: Dict)
    ensures Lookup(SplitKey(md, SubsubsectionKey), SubsectionNumberKey) == Lookup(md, SubsectionNumberKey)
  {
    assert SubsectionNumberKey != NumberKeyOf(SubsubsectionKey) by {
      assert |SubsectionNumberKey| != |NumberKeyOf(SubsubsectionKey)|;
    }
    assert SubsectionNumberKey != SubsubsectionKey by {
      assert |SubsectionNumberKey| != |SubsubsectionKey|;
    }
  }

  /** `process_data(documents)`. */
  function ProcessData(docs: seq<Chunk>): (r: seq<Chunk>)
    ensures |r| == |docs|
    ensures forall k :: 0 <= k < |docs| ==> r[k] == Chunk(docs[k].text, ProcessDataMeta(docs[k].meta))
  {
    seq(|docs|, k requires 0 <= k < |docs| => Chunk(docs[k].text, ProcessDataMeta(docs[k].meta)))
  }
}
