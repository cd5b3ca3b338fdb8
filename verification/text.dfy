/** Characters and strings as Python's `str` methods and its `re` module see them.

    Every regular expression of the chunking pipeline is modelled in the later
    modules as a scanner over `string`; this module holds the character classes
    those scanners share (`\s`, `\d`, line breaks, case folding), the run and
    search helpers, and the whitespace operations `str.strip()`, `str.split()`
    and `re.sub(r'\s+', ' ', s)`.
 */
module Text {

  datatype Option<+T> = None | Some(value: T)

  // ---------------------------------------------------------------------------
  // Character classes
  // ---------------------------------------------------------------------------

  /** `str.isspace()`; in a `str` pattern `\s` matches exactly these characters. */
  predicate IsSpace(c: char) {
    || c == ' '
    || ('\t' <= c <= '\r')
    || ('\U{1C}' <= c <= '\U{1F}')
    || c == '\U{85}' || c == '\U{A0}' || c == '\U{1680}'
    || ('\U{2000}' <= c <= '\U{200A}')
    || c == '\U{2028}' || c == '\U{2029}' || c == '\U{202F}' || c == '\U{205F}' || c == '\U{3000}'
  }

  /** `[0-9]`, and `\d` as this model reads it: the ASCII digits only. Python's
      `\d` on text also accepts every other Unicode decimal digit. */
  predicate IsDigit(c: char) {
    '0' <= c <= '9'
  }

  predicate IsDot(c: char) {
    c == '.'
  }

  predicate IsDigitOrDot(c: char) {
    IsDigit(c) || c == '.'
  }

  predicate NotNewline(c: char) {
    c != '\n'
  }

  /** The line boundaries `str.splitlines()` splits at. Each is also a space. */
  predicate IsLineBreak(c: char) {
    || c == '\n' || c == '\r' || c == '\U{0B}' || c == '\U{0C}'
    || c == '\U{1C}' || c == '\U{1D}' || c == '\U{1E}'
    || c == '\U{85}' || c == '\U{2028}' || c == '\U{2029}'
  }

  lemma LineBreakIsSpace(c: char)
    requires IsLineBreak(c)
    ensures IsSpace(c)
  {
  }

  /** The character a case-insensitive (`re.IGNORECASE`) pattern compares:
      simple lower case for ASCII and Latin-1 letters, every other character
      that `re` treats as equal to one of them (the Kelvin and Angstrom signs,
      the capital sharp s, the Greek mu of the micro sign), and the special
      classes Python's `re` adds for `i` and `s`. Letters of other scripts are
      compared as they are. */
  function Fold(c: char): char {
    if 'A' <= c <= 'Z' then (c as int + 32) as char
    else if '\U{C0}' <= c <= '\U{DE}' && c != '\U{D7}' then (c as int + 32) as char
    else if c == '\U{178}' then '\U{FF}'
    else if c == '\U{130}' || c == '\U{131}' then 'i'
    else if c == '\U{17F}' then 's'
    else if c == '\U{212A}' then 'k'
    else if c == '\U{212B}' then '\U{E5}'
    else if c == '\U{1E9E}' then '\U{DF}'
    else if c == '\U{39C}' || c == '\U{3BC}' then '\U{B5}'
    else c
  }

  /** `str.lower()` on one character, for the comparisons the pipeline makes
      against ASCII words (`"inhaltsverzeichnis"`, `"zusammenstellung"`,
      `"projekt:"`): ASCII and Latin-1 letters and the Kelvin sign. */
  function Lower(c: char): char {
    if 'A' <= c <= 'Z' then (c as int + 32) as char
    else if '\U{C0}' <= c <= '\U{DE}' && c != '\U{D7}' then (c as int + 32) as char
    else if c == '\U{178}' then '\U{FF}'
    else if c == '\U{212A}' then 'k'
    else if c == '\U{1E9E}' then '\U{DF}'
    else c
  }

  function LowerStr(s: string): (r: string)
    ensures |r| == |s|
    ensures forall k :: 0 <= k < |s| ==> r[k] == Lower(s[k])
  {
    seq(|s|, k requires 0 <= k < |s| => Lower(s[k]))
  }

  lemma FoldKeepsSpaces(c: char)
    ensures IsSpace(Fold(c)) <==> IsSpace(c)
  {
  }

  // ---------------------------------------------------------------------------
  // Runs and searches
  // ---------------------------------------------------------------------------

  /** The end of the longest run of characters satisfying `p` that starts at `i`
      (what a greedy `p*` consumes). */
  function RunEnd(t: string, i: nat, p: char -> bool): (j: nat)
    requires i <= |t|
    ensures i <= j <= |t|
    ensures forall k :: i <= k < j ==> p(t[k])
    ensures j == |t| || !p(t[j])
    decreases |t| - i
  {
    if i == |t| || !p(t[i]) then i else RunEnd(t, i + 1, p)
  }

  /** The start of the longest run of characters satisfying `p` that ends at `j`. */
  function RunStart(t: string, j: nat, p: char -> bool): (i: nat)
    requires j <= |t|
    ensures i <= j
    ensures forall k :: i <= k < j ==> p(t[k])
    ensures i == 0 || !p(t[i - 1])
  {
    if j == 0 || !p(t[j - 1]) then j else RunStart(t, j - 1, p)
  }

  /** The first `\n` at or after `i`, or the end of the text. */
  function NewlineFrom(t: string, i: nat): (j: nat)
    requires i <= |t|
    ensures i <= j <= |t|
    ensures forall k :: i <= k < j ==> t[k] != '\n'
    ensures j == |t| || t[j] == '\n'
  {
    RunEnd(t, i, NotNewline)
  }

  /** `lit` occurs at `i` under `re.IGNORECASE`. */
  predicate LiteralAt(t: string, lit: string, i: nat) {
    && i + |lit| <= |t|
    && forall k :: 0 <= k < |lit| ==> Fold(t[i + k]) == Fold(lit[k])
  }

  /** `lit` occurs at `i` exactly (a case-sensitive escaped literal). */
  predicate ExactAt(t: string, lit: string, i: nat) {
    i + |lit| <= |t| && t[i..i + |lit|] == lit
  }

  /** `re.compile(lit, re.IGNORECASE).search(t, from)`: the leftmost position at
      or after `from` where `lit` occurs. */
  function FindLiteral(t: string, lit: string, from: nat): (r: Option<nat>)
    ensures r.Some? ==> from <= r.value && LiteralAt(t, lit, r.value)
    ensures r.Some? ==> forall j :: from <= j < r.value ==> !LiteralAt(t, lit, j)
    ensures r.None? ==> forall j :: from <= j ==> !LiteralAt(t, lit, j)
    decreases |t| + 1 - from
  {
    if from > |t| then None
    else if LiteralAt(t, lit, from) then Some(from)
    else FindLiteral(t, lit, from + 1)
  }

  /** A character of a literal that is not whitespace matches only characters
      that are not whitespace. */
  lemma LiteralNotSpace(t: string, lit: string, i: nat, k: nat)
    requires LiteralAt(t, lit, i) && k < |lit| && !IsSpace(lit[k])
    ensures !IsSpace(t[i + k])
  {
    assert Fold(t[i + k]) == Fold(lit[k]);
    FoldKeepsSpaces(t[i + k]);
    FoldKeepsSpaces(lit[k]);
  }

  /** Cutting out `t[s..e]` moves an occurrence at `e` to `s`. */
  lemma LiteralAfterCut(t: string, lit: string, s: nat, e: nat)
    requires s <= e && LiteralAt(t, lit, e)
    ensures LiteralAt(t[..s] + t[e..], lit, s)
  {
    var u := t[..s] + t[e..];
    forall k | 0 <= k < |lit|
      ensures Fold(u[s + k]) == Fold(lit[k])
    {
      assert u[s + k] == t[e + k];
    }
  }

  /** Stripping keeps an occurrence whose first and last characters are not whitespace. */
  lemma LiteralSurvivesStrip(u: string, lit: string, p: nat) returns (q: nat)
    requires LiteralAt(u, lit, p) && |lit| > 0
    requires !IsSpace(lit[0]) && !IsSpace(lit[|lit| - 1])
    ensures LiteralAt(Strip(u), lit, q)
  {
    var i, j := StripBounds(u);
    LiteralInsideStrip(u, lit, p, i, j);
    LiteralInSlice(u, lit, p, i, j);
    q := p - i;
  }

  /** An occurrence that starts and ends with non-whitespace lies between the cuts of `Strip`. */
  lemma LiteralInsideStrip(u: string, lit: string, p: nat, i: nat, j: nat)
    requires LiteralAt(u, lit, p) && |lit| > 0
    requires !IsSpace(lit[0]) && !IsSpace(lit[|lit| - 1])
    requires i <= j <= |u| && AllSpace(u[..i]) && AllSpace(u[j..])
    ensures i <= p && p + |lit| <= j
  {
    LiteralNotSpace(u, lit, p, 0);
    LiteralNotSpace(u, lit, p, |lit| - 1);
    InsideStrip(u, i, j, p);
    InsideStrip(u, i, j, p + |lit| - 1);
  }

  /** A character that is not whitespace lies between the cuts of `Strip`. */
  lemma InsideStrip(u: string, i: nat, j: nat, m: nat)
    requires i <= j <= |u| && AllSpace(u[..i]) && AllSpace(u[j..])
    requires m < |u| && !IsSpace(u[m])
    ensures i <= m < j
  {
    assert forall k :: 0 <= k < i ==> u[..i][k] == u[k];
    assert forall k :: j <= k < |u| ==> u[j..][k - j] == u[k];
  }

  /** An occurrence inside `u[i..j]` is an occurrence of the slice, shifted by `i`. */
  lemma LiteralInSlice(u: string, lit: string, p: nat, i: nat, j: nat)
    requires LiteralAt(u, lit, p) && i <= p && p + |lit| <= j <= |u|
    ensures LiteralAt(u[i..j], lit, p - i)
  {
    var r := u[i..j];
    forall k | 0 <= k < |lit|
      ensures Fold(r[p - i + k]) == Fold(lit[k])
    {
      assert r[p - i + k] == u[p + k];
    }
  }

  /** Cutting out `t[s..e]` moves an exact occurrence at `e` to `s`. */
  lemma ExactAfterCut(t: string, lit: string, s: nat, e: nat)
    requires s <= e && ExactAt(t, lit, e)
    ensures ExactAt(t[..s] + t[e..], lit, s)
  {
    var u := t[..s] + t[e..];
    assert u[s..s + |lit|] == t[e..e + |lit|];
  }

  /** Stripping keeps an exact occurrence whose first and last characters are not whitespace. */
  lemma ExactSurvivesStrip(u: string, lit: string, p: nat) returns (q: nat)
    requires ExactAt(u, lit, p) && |lit| > 0 && !IsSpace(lit[0]) && !IsSpace(lit[|lit| - 1])
    ensures ExactAt(Strip(u), lit, q)
  {
    var i, j := StripBounds(u);
    ExactInsideStrip(u, lit, p, i, j);
    ExactInSlice(u, lit, p, i, j);
    q := p - i;
  }

  /** An exact occurrence inside `u[i..j]` is one of the slice, shifted by `i`. */
  lemma ExactInSlice(u: string, lit: string, p: nat, i: nat, j: nat)
    requires ExactAt(u, lit, p) && i <= p && p + |lit| <= j <= |u|
    ensures ExactAt(u[i..j], lit, p - i)
  {
    var r := u[i..j];
    forall k | 0 <= k < |lit|
      ensures r[p - i..p - i + |lit|][k] == lit[k]
    {
      assert r[p - i + k] == u[p + k] == u[p..p + |lit|][k];
    }
  }

  /** An exact occurrence that starts and ends with non-whitespace lies between the cuts of `Strip`. */
  lemma ExactInsideStrip(u: string, lit: string, p: nat, i: nat, j: nat)
    requires ExactAt(u, lit, p) && |lit| > 0 && !IsSpace(lit[0]) && !IsSpace(lit[|lit| - 1])
    requires i <= j <= |u| && AllSpace(u[..i]) && AllSpace(u[j..])
    ensures i <= p && p + |lit| <= j
  {
    assert u[p..p + |lit|][0] == u[p];
    assert u[p..p + |lit|][|lit| - 1] == u[p + |lit| - 1];
    InsideStrip(u, i, j, p);
    InsideStrip(u, i, j, p + |lit| - 1);
  }

  /** Stripping removes characters only from the ends. */
  lemma StripSubset(s: string)
    ensures forall ch :: ch in Strip(s) ==> ch in s
  {
    var i, j := StripBounds(s);
    forall ch | ch in Strip(s)
      ensures ch in s
    {
      var k :| 0 <= k < |Strip(s)| && Strip(s)[k] == ch;
      assert s[i + k] == ch;
    }
  }

  /** All of `s` is ASCII digits, and there is at least one. */
  predicate DigitString(s: string) {
    |s| > 0 && forall k :: 0 <= k < |s| ==> IsDigit(s[k])
  }

  /** `s` is what `\d+(?:\.\d+)*` matches: digit groups joined by single dots. */
  predicate DottedNumber(s: string) {
    && |s| > 0 && IsDigit(s[0]) && IsDigit(s[|s| - 1])
    && (forall k :: 0 <= k < |s| ==> IsDigitOrDot(s[k]))
    && (forall j, k :: 0 <= j < |s| && 0 <= k < |s| && k == j + 1 && s[j] == '.' ==> IsDigit(s[k]))
  }

  /** `sub in s`. */
  predicate Contains(s: string, sub: string) {
    exists i :: 0 <= i <= |s| && ExactAt(s, sub, i)
  }

  // ---------------------------------------------------------------------------
  // Whitespace operations
  // ---------------------------------------------------------------------------

  predicate AllSpace(s: string) {
    forall k :: 0 <= k < |s| ==> IsSpace(s[k])
  }

  /** `not s.strip()`. */
  predicate IsBlank(s: string) {
    AllSpace(s)
  }

  /** `s.strip()`: `s` without its leading and trailing whitespace. */
  function Strip(s: string): (r: string)
    ensures r == [] <==> IsBlank(s)
    ensures r != [] ==> !IsSpace(r[0]) && !IsSpace(r[|r| - 1])
    ensures |r| <= |s|
  {
    var i := RunEnd(s, 0, IsSpace);
    if i == |s| then [] else s[i..RunStart(s, |s|, IsSpace)]
  }

  /** The indices `Strip` cuts at: `s[..i]` and `s[j..]` are whitespace. */
  lemma StripBounds(s: string) returns (i: nat, j: nat)
    ensures i <= j <= |s|
    ensures Strip(s) == s[i..j]
    ensures AllSpace(s[..i]) && AllSpace(s[j..])
  {
    i := RunEnd(s, 0, IsSpace);
    if i == |s| {
      j := i;
    } else {
      j := RunStart(s, |s|, IsSpace);
      assert !IsSpace(s[i]);
    }
  }

  /** Stripping is idempotent. */
  lemma {:induction false} StripStrip(s: string)
    ensures Strip(Strip(s)) == Strip(s)
  {
    var r := Strip(s);
    if r != [] {
      assert RunEnd(r, 0, IsSpace) == 0;
      assert RunStart(r, |r|, IsSpace) == |r|;
    }
  }

  /** A text with neither leading nor trailing whitespace is its own strip. */
  lemma StripTrimmed(s: string)
    requires s == [] || (!IsSpace(s[0]) && !IsSpace(s[|s| - 1]))
    ensures Strip(s) == s
  {
    if s != [] {
      assert RunEnd(s, 0, IsSpace) == 0;
      assert RunStart(s, |s|, IsSpace) == |s|;
    }
  }

  /** `re.sub(r'\s+', ' ', s)`: every maximal run of whitespace becomes one space. */
  function Collapse(s: string): (r: string)
    ensures |r| <= |s|
    ensures forall k :: 0 <= k < |r| && IsSpace(r[k]) ==> r[k] == ' '
    ensures r != [] && s != [] ==> (IsSpace(r[0]) <==> IsSpace(s[0]))
    ensures r == [] <==> s == []
    decreases |s|
  {
    if s == [] then []
    else if IsSpace(s[0]) then [' '] + Collapse(s[RunEnd(s, 0, IsSpace)..])
    else [s[0]] + Collapse(s[1..])
  }

  /** Two spaces never stand next to each other in a collapsed text. */
  predicate NoDoubleSpace(s: string) {
    forall j, k :: 0 <= j < |s| && 0 <= k < |s| && k == j + 1 ==> !(IsSpace(s[j]) && IsSpace(s[k]))
  }

  lemma {:induction false} CollapseNoDoubleSpace(s: string)
    ensures NoDoubleSpace(Collapse(s))
    decreases |s|
  {
    if s == [] {
    } else if IsSpace(s[0]) {
      var j := RunEnd(s, 0, IsSpace);
      CollapseNoDoubleSpace(s[j..]);
      var rest := Collapse(s[j..]);
      if rest != [] {
        assert !IsSpace(s[j..][0]);
      }
      assert Collapse(s) == [' '] + rest;
    } else {
      CollapseNoDoubleSpace(s[1..]);
    }
  }

  /** A text whose only whitespace is single spaces is left alone by `Collapse`. */
  lemma {:induction false} CollapseFixed(s: string)
    requires NoDoubleSpace(s)
    requires forall k :: 0 <= k < |s| && IsSpace(s[k]) ==> s[k] == ' '
    ensures Collapse(s) == s
    decreases |s|
  {
    if s == [] {
    } else if IsSpace(s[0]) {
      var j := RunEnd(s, 0, IsSpace);
      assert j == 1 by {
        if |s| > 1 {
          assert !IsSpace(s[1]);
        }
      }
      CollapseFixed(s[1..]);
    } else {
      CollapseFixed(s[1..]);
    }
  }

  /** Collapsing twice is collapsing once. */
  lemma CollapseIdempotent(s: string)
    ensures Collapse(Collapse(s)) == Collapse(s)
  {
    CollapseNoDoubleSpace(s);
    CollapseFixed(Collapse(s));
  }

  /** A text is blank exactly when its collapse is. */
  lemma {:induction false} CollapseBlank(s: string)
    ensures IsBlank(Collapse(s)) <==> IsBlank(s)
    decreases |s|
  {
    if s != [] {
      if IsSpace(s[0]) {
        var j := RunEnd(s, 0, IsSpace);
        CollapseBlank(s[j..]);
        var x := Collapse(s[j..]);
        assert Collapse(s) == [' '] + x;
        assert IsBlank([' '] + x) <==> IsBlank(x) by {
          assert forall k :: 0 <= k < |x| ==> x[k] == ([' '] + x)[k + 1];
        }
        assert IsBlank(s) <==> IsBlank(s[j..]) by {
          assert forall k :: 0 <= k < |s[j..]| ==> s[j..][k] == s[j + k];
          if j < |s| {
            assert s[j..][0] == s[j];
          }
        }
      } else {
        assert !IsBlank(Collapse(s)) by {
          assert Collapse(s)[0] == s[0];
        }
      }
    }
  }

  /** A text as cleaning leaves it: single spaces only, and none at either end. */
  predicate IsClean(s: string) {
    && NoDoubleSpace(s)
    && (forall k :: 0 <= k < |s| && IsSpace(s[k]) ==> s[k] == ' ')
    && (s == [] || (!IsSpace(s[0]) && !IsSpace(s[|s| - 1])))
  }

  lemma StripKeepsSingleSpaces(c: string)
    requires NoDoubleSpace(c)
    requires forall k :: 0 <= k < |c| && IsSpace(c[k]) ==> c[k] == ' '
    ensures IsClean(Strip(c))
  {
    var i, j := StripBounds(c);
    var r := Strip(c);
    assert forall k :: 0 <= k < |r| ==> r[k] == c[i + k];
  }

  /** `re.sub(r'\s+', ' ', s).strip()`. */
  function Clean(s: string): (r: string)
    ensures IsClean(r)
    ensures r == [] <==> IsBlank(s)
    ensures |r| <= |s|
  {
    CollapseNoDoubleSpace(s);
    StripKeepsSingleSpaces(Collapse(s));
    CollapseBlank(s);
    Strip(Collapse(s))
  }

  /** A clean text is its own cleaning, so cleaning twice is cleaning once. */
  lemma CleanFixed(s: string)
    requires IsClean(s)
    ensures Clean(s) == s
  {
    CollapseFixed(s);
    StripTrimmed(s);
  }

  lemma CleanIdempotent(s: string)
    ensures Clean(Clean(s)) == Clean(s)
  {
    CleanFixed(Clean(s));
  }

  /** `s.split()`: the maximal runs of non-whitespace characters, in order. */
  function SplitWs(s: string): (ws: seq<string>)
    ensures forall k :: 0 <= k < |ws| ==> IsWord(ws[k])
    decreases |s|
  {
    var i := RunEnd(s, 0, IsSpace);
    if i == |s| then []
    else
      var j := RunEnd(s, i, NotSpace);
      RunIsWord(s, i, j);
      [s[i..j]] + SplitWs(s[j..])
  }

  /** A word of `str.split()`: non-empty and free of whitespace. */
  predicate IsWord(w: string) {
    w != [] && !exists c :: c in w && IsSpace(c)
  }

  /** A non-empty run of non-space characters is a word. */
  lemma RunIsWord(s: string, i: nat, j: nat)
    requires i < j <= |s| && forall k :: i <= k < j ==> NotSpace(s[k])
    ensures IsWord(s[i..j])
  {
    forall c | c in s[i..j] ensures !IsSpace(c) {
      var m :| 0 <= m < j - i && s[i..j][m] == c;
      assert s[i + m] == c;
    }
  }

  predicate NotSpace(c: char) {
    !IsSpace(c)
  }

  /** `" ".join(words)`. */
  function JoinSpace(words: seq<string>): string {
    if words == [] then [] else if |words| == 1 then words[0] else words[0] + " " + JoinSpace(words[1..])
  }

  function Concat<T>(xss: seq<seq<T>>): (r: seq<T>)
    ensures xss == [] ==> r == []
  {
    if xss == [] then [] else xss[0] + Concat(xss[1..])
  }

  lemma ConcatAppend<T>(xss: seq<seq<T>>, ys: seq<T>)
    ensures Concat(xss + [ys]) == Concat(xss) + ys
  {
    if xss == [] {
      assert [ys][1..] == [];
    } else {
      assert (xss + [ys])[1..] == xss[1..] + [ys];
      ConcatAppend(xss[1..], ys);
    }
  }

  /** The first position in `from..n` where `p` holds, or `n`: what a lazy
      quantifier or a search loop finds. */
  function FirstWhere(n: nat, from: nat, p: nat -> bool): (q: nat)
    requires from <= n
    ensures from <= q <= n
    ensures q == n || p(q)
    ensures forall j :: from <= j < q ==> !p(j)
    decreases n - from
  {
    if from == n || p(from) then from else FirstWhere(n, from + 1, p)
  }

  /** Each element of `xs` replaced by the sequence `f` makes of it. */
  function FlatMap<T, U>(xs: seq<T>, f: T -> seq<U>): seq<U> {
    if xs == [] then [] else f(xs[0]) + FlatMap(xs[1..], f)
  }

  lemma {:induction false} FlatMapAppend<T, U>(xs: seq<T>, ys: seq<T>, f: T -> seq<U>)
    ensures FlatMap(xs + ys, f) == FlatMap(xs, f) + FlatMap(ys, f)
  {
    if xs == [] {
      assert xs + ys == ys;
    } else {
      assert (xs + ys)[1..] == xs[1..] + ys;
      FlatMapAppend(xs[1..], ys, f);
    }
  }

  /** A run found in `t` ends at the same place in any extension of `t` when
      it stops before the end of `t`. */
  lemma RunEndExtends(t: string, u: string, i: nat, p: char -> bool)
    requires i <= |t| && t <= u
    requires RunEnd(t, i, p) < |t|
    ensures RunEnd(u, i, p) == RunEnd(t, i, p)
  {
    var j := RunEnd(t, i, p);
    var r := RunEnd(u, i, p);
    assert u[j] == t[j];
  }

  /** Leading whitespace contributes no word. */
  lemma SplitWsAfterSpace(sp: string, b: string)
    requires AllSpace(sp)
    ensures SplitWs(sp + b) == SplitWs(b)
  {
    var s := sp + b;
    var ib := LeadShift(sp, b);
    if ib < |b| {
      var j, jb := WordShift(sp, b, ib);
      SameSplit(s, b, |sp| + ib, j, ib, jb);
    } else {
      SplitWsNone(s);
      SplitWsNone(b);
    }
  }

  /** Leading whitespace lengthens the leading run of whitespace by its own length. */
  lemma LeadShift(sp: string, b: string) returns (ib: nat)
    requires AllSpace(sp)
    ensures ib == RunEnd(b, 0, IsSpace) && RunEnd(sp + b, 0, IsSpace) == |sp| + ib
  {
    var s := sp + b;
    assert forall k :: 0 <= k < |sp| ==> s[k] == sp[k];
    RunEndSkip(s, 0, |sp|, IsSpace);
    RunEndShift(sp, b, 0, IsSpace);
    ib := RunEnd(b, 0, IsSpace);
  }

  /** The word at `ib` in `b` is the word at `|sp| + ib` in `sp + b`. */
  lemma WordShift(sp: string, b: string, ib: nat) returns (j: nat, jb: nat)
    requires ib < |b|
    ensures jb == RunEnd(b, ib, NotSpace) && j == RunEnd(sp + b, |sp| + ib, NotSpace) && j == |sp| + jb
    ensures (sp + b)[|sp| + ib..j] == b[ib..jb] && (sp + b)[j..] == b[jb..]
  {
    RunEndShift(sp, b, ib, NotSpace);
    jb := RunEnd(b, ib, NotSpace);
    j := |sp| + jb;
    ShiftSlices(sp, b, ib, jb);
  }

  /** `(a + b)[|a| + i..|a| + j] == b[i..j]`, and likewise for the tail. */
  lemma ShiftSlices(a: string, b: string, i: nat, j: nat)
    requires i <= j <= |b|
    ensures (a + b)[|a| + i..|a| + j] == b[i..j] && (a + b)[|a| + j..] == b[j..]
  {
  }

  /** One step of the split: the first word and what follows it. */
  lemma SplitWsAt(s: string, i: nat, j: nat)
    requires i == RunEnd(s, 0, IsSpace) && i < |s| && j == RunEnd(s, i, NotSpace)
    ensures SplitWs(s) == [s[i..j]] + SplitWs(s[j..])
  {
  }

  /** Two texts with the same first word and the same text after it have the same words. */
  lemma SameSplit(s: string, t: string, i: nat, j: nat, it: nat, jt: nat)
    requires i == RunEnd(s, 0, IsSpace) && i < |s| && j == RunEnd(s, i, NotSpace)
    requires it == RunEnd(t, 0, IsSpace) && it < |t| && jt == RunEnd(t, it, NotSpace)
    requires s[i..j] == t[it..jt] && s[j..] == t[jt..]
    ensures SplitWs(s) == SplitWs(t)
  {
    SplitWsAt(s, i, j);
    SplitWsAt(t, it, jt);
  }

  /** A text whose leading run of whitespace is all of it has no words. */
  lemma SplitWsNone(s: string)
    requires RunEnd(s, 0, IsSpace) == |s|
    ensures SplitWs(s) == []
  {
  }

  /** A run that starts inside a stretch of matching characters ends where
      the run from the start of the stretch ends. */
  lemma {:induction false} RunEndSkip(t: string, i: nat, m: nat, p: char -> bool)
    requires i <= m <= |t| && forall k :: i <= k < m ==> p(t[k])
    ensures RunEnd(t, i, p) == RunEnd(t, m, p)
    decreases m - i
  {
    if i < m {
      RunEndSkip(t, i + 1, m, p);
    }
  }

  /** A run in `b` ends at the same place, shifted, in `a + b`. */
  lemma {:induction false} RunEndShift(a: string, b: string, i: nat, p: char -> bool)
    requires i <= |b|
    ensures RunEnd(a + b, |a| + i, p) == |a| + RunEnd(b, i, p)
    decreases |b| - i
  {
    if i < |b| {
      assert (a + b)[|a| + i] == b[i];
      if p(b[i]) {
        RunEndShift(a, b, i + 1, p);
      }
    }
  }

  /** Two texts meet at whitespace. */
  predicate MeetAtSpace(a: string, b: string) {
    a == [] || b == [] || IsSpace(a[|a| - 1]) || IsSpace(b[0])
  }

  /** The first word of `a` is the first word of `a + b` when the two meet at
      whitespace; `a[j..]` is what follows it. */
  lemma SplitWsHead(a: string, b: string) returns (w: string, j: nat)
    requires MeetAtSpace(a, b) && !AllSpace(a)
    ensures 0 < j <= |a|
    ensures SplitWs(a) == [w] + SplitWs(a[j..])
    ensures SplitWs(a + b) == [w] + SplitWs(a[j..] + b)
    ensures MeetAtSpace(a[j..], b)
  {
    var i;
    i, j := FirstWordRuns(a, b);
    w := a[i..j];
    SliceAppend(a, b, i, j);
    SplitWsAt(a, i, j);
    SplitWsAt(a + b, i, j);
    if j < |a| {
      assert a[j..][0] == a[j];
    }
  }

  /** The runs that find the first word of `a` find the same word in `a + b`. */
  lemma FirstWordRuns(a: string, b: string) returns (i: nat, j: nat)
    requires MeetAtSpace(a, b) && !AllSpace(a)
    ensures i == RunEnd(a, 0, IsSpace) == RunEnd(a + b, 0, IsSpace) && i < |a|
    ensures j == RunEnd(a, i, NotSpace) == RunEnd(a + b, i, NotSpace) && i < j
    ensures j < |a| ==> IsSpace(a[j])
  {
    var s := a + b;
    i := RunEnd(a, 0, IsSpace);
    assert a <= s;
    RunEndExtends(a, s, 0, IsSpace);
    j := RunEnd(a, i, NotSpace);
    if j < |a| {
      RunEndExtends(a, s, i, NotSpace);
    } else {
      assert b != [] ==> IsSpace(s[|a|]);
      RunEndStops(a, s, i, NotSpace);
    }
  }

  /** A run that reaches the end of `t` ends there in an extension that
      does not continue it. */
  lemma RunEndStops(t: string, u: string, i: nat, p: char -> bool)
    requires i <= |t| && t <= u && RunEnd(t, i, p) == |t|
    requires |u| == |t| || !p(u[|t|])
    ensures RunEnd(u, i, p) == |t|
  {
    forall k | i <= k < |t|
      ensures p(u[k])
    {
      assert u[k] == t[k];
    }
  }

  lemma SliceAppend(a: string, b: string, i: nat, j: nat)
    requires i <= j <= |a|
    ensures (a + b)[i..j] == a[i..j] && (a + b)[j..] == a[j..] + b
  {
  }

  /** `[w] + (x + y) == ([w] + x) + y`, for named sequences. */
  lemma ConsAppend<T>(l: seq<T>, lx: seq<T>, r: seq<T>, x: seq<T>, y: seq<T>, w: T)
    requires l == [w] + r && lx == [w] + x && r == x + y
    ensures l == lx + y
  {
  }

  /** A blank text has no words, before anything. */
  lemma SplitWsBlank(a: string, b: string)
    requires AllSpace(a)
    ensures SplitWs(a) == [] && SplitWs(a + b) == SplitWs(b)
  {
    SplitWsAfterSpace(a, b);
    SplitWsAfterSpace(a, []);
    assert a + [] == a;
  }

  /** Splitting two texts that meet at whitespace gives the words of each, in order. */
  lemma {:induction false} SplitWsAppend(a: string, b: string)
    requires MeetAtSpace(a, b)
    ensures SplitWs(a + b) == SplitWs(a) + SplitWs(b)
    decreases |a|
  {
    if AllSpace(a) {
      SplitWsBlank(a, b);
    } else {
      var w, j := SplitWsHead(a, b);
      SplitWsAppend(a[j..], b);
      ConsAppend(SplitWs(a + b), SplitWs(a), SplitWs(a[j..] + b), SplitWs(a[j..]), SplitWs(b), w);
    }
  }

  /** The words of texts joined by single spaces are the words of each text, in order. */
  lemma {:induction false} SplitWsJoin(ws: seq<string>)
    ensures SplitWs(JoinSpace(ws)) == FlatMap(ws, SplitWs)
    decreases |ws|
  {
    if |ws| == 1 {
      assert FlatMap(ws, SplitWs) == SplitWs(ws[0]) + FlatMap(ws[1..], SplitWs);
      assert ws[1..] == [];
    } else if |ws| > 1 {
      var rest := JoinSpace(ws[1..]);
      SplitWsJoin(ws[1..]);
      assert ws[0] + " " + rest == ws[0] + (" " + rest);
      SplitWsAppend(ws[0], " " + rest);
      SplitWsAfterSpace(" ", rest);
    }
  }

  /** A single word splits into itself. */
  lemma SplitWsWord(w: string)
    requires IsWord(w)
    ensures SplitWs(w) == [w]
  {
    var j := WordRun(w, []);
    assert w + [] == w;
    SplitWsAt(w, 0, j);
    assert w[j..] == [];
    SplitWsNone([]);
  }

  /** A word is one run of non-space characters, also when `b` follows it. */
  lemma WordRun(w: string, b: string) returns (j: nat)
    requires IsWord(w) && (b == [] || IsSpace(b[0]))
    ensures j == |w| && RunEnd(w + b, 0, IsSpace) == 0 && RunEnd(w + b, 0, NotSpace) == j
    ensures w + b == w || (w + b)[j..] == b
  {
    j := |w|;
    var s := w + b;
    assert !IsSpace(s[0]) by {
      assert w[0] in w;
    }
    forall k | 0 <= k < |w|
      ensures NotSpace(s[k])
    {
      assert w[k] in w;
    }
    assert j == |s| || !NotSpace(s[j]);
  }

  /** The words after a non-space character `c` when `x` does not begin with
      one: `c` is a word of its own. */
  lemma ConsSplitApart(c: char, x: string)
    requires !IsSpace(c) && (x == [] || IsSpace(x[0]))
    ensures SplitWs([c] + x) == [[c]] + SplitWs(x)
  {
    var j := WordRun([c], x);
    SplitWsAt([c] + x, 0, j);
    assert ([c] + x)[0..j] == [c];
  }

  /** The words after a non-space character `c` when `x` begins with one: `c`
      joins the first word of `x`. */
  lemma ConsSplitJoined(c: char, x: string)
    requires !IsSpace(c) && x != [] && !IsSpace(x[0])
    ensures SplitWs(x) != [] && SplitWs([c] + x) == [[c] + SplitWs(x)[0]] + SplitWs(x)[1..]
  {
    var j := ConsRuns(c, x);
    SplitWsAt(x, 0, j);
    SplitWsAt([c] + x, 0, 1 + j);
  }

  /** The runs that find the first word of `x` and of `[c] + x`. */
  lemma ConsRuns(c: char, x: string) returns (j: nat)
    requires !IsSpace(c) && x != [] && !IsSpace(x[0])
    ensures 0 < j == RunEnd(x, 0, NotSpace) && RunEnd(x, 0, IsSpace) == 0
    ensures RunEnd([c] + x, 0, NotSpace) == 1 + j && RunEnd([c] + x, 0, IsSpace) == 0
    ensures ([c] + x)[0..1 + j] == [c] + x[0..j] && ([c] + x)[1 + j..] == x[j..]
  {
    j := RunEnd(x, 0, NotSpace);
    RunEndShift([c], x, 0, NotSpace);
    assert ([c] + x)[0] == c;
  }

  /** Texts with the same words that agree on starting with whitespace keep
      the same words behind a non-space character. */
  lemma ConsSameSplit(c: char, x: string, y: string)
    requires !IsSpace(c) && SplitWs(x) == SplitWs(y)
    requires x == [] <==> y == []
    requires x != [] && y != [] ==> (IsSpace(x[0]) <==> IsSpace(y[0]))
    ensures SplitWs([c] + x) == SplitWs([c] + y)
  {
    if x == [] || IsSpace(x[0]) {
      ConsSplitApart(c, x);
      ConsSplitApart(c, y);
    } else {
      ConsSplitJoined(c, x);
      ConsSplitJoined(c, y);
    }
  }

  /** Collapsing whitespace keeps the words. */
  lemma {:induction false} SplitWsCollapse(s: string)
    ensures SplitWs(Collapse(s)) == SplitWs(s)
    decreases |s|
  {
    if s != [] {
      if IsSpace(s[0]) {
        var j := RunEnd(s, 0, IsSpace);
        SplitWsCollapse(s[j..]);
        CollapseSpaceStep(s, j);
      } else {
        SplitWsCollapse(s[1..]);
        assert Collapse(s) == [s[0]] + Collapse(s[1..]);
        assert s == [s[0]] + s[1..];
        ConsSameSplit(s[0], Collapse(s[1..]), s[1..]);
      }
    }
  }

  /** A leading whitespace run, collapsed or not, adds no words. */
  lemma CollapseSpaceStep(s: string, j: nat)
    requires s != [] && IsSpace(s[0]) && j == RunEnd(s, 0, IsSpace)
    requires SplitWs(Collapse(s[j..])) == SplitWs(s[j..])
    ensures SplitWs(Collapse(s)) == SplitWs(s)
  {
    assert Collapse(s) == [' '] + Collapse(s[j..]);
    SplitWsAfterSpace([' '], Collapse(s[j..]));
    LeadingSpace(s, j);
    SplitWsAfterSpace(s[..j], s[j..]);
  }

  lemma LeadingSpace(s: string, j: nat)
    requires j == RunEnd(s, 0, IsSpace)
    ensures AllSpace(s[..j]) && s == s[..j] + s[j..]
  {
  }

  /** Stripping keeps the words. */
  lemma SplitWsStrip(s: string)
    ensures SplitWs(Strip(s)) == SplitWs(s)
  {
    var i, j := StripBounds(s);
    assert s == s[..i] + (s[i..j] + s[j..]);
    SplitWsTrim(s[..i], s[i..j], s[j..]);
  }

  /** Whitespace around a text adds no words. */
  lemma SplitWsTrim(a: string, m: string, z: string)
    requires AllSpace(a) && AllSpace(z)
    ensures SplitWs(a + (m + z)) == SplitWs(m)
  {
    SplitWsBlank(a, m + z);
    if z != [] {
      assert IsSpace(z[0]);
    }
    SplitWsAppend(m, z);
    SplitWsBlank(z, []);
    assert m + z == m + z + [];
  }

  /** A clean text is its words joined by single spaces. */
  lemma {:induction false} CleanJoin(r: string)
    requires IsClean(r)
    ensures r == JoinSpace(SplitWs(r))
    decreases |r|
  {
    if r != [] {
      var j := CleanFirstWord(r);
      if j < |r| {
        var w, rest := r[..j], r[j + 1..];
        CleanJoin(rest);
        var ws := SplitWs(rest);
        assert ([w] + ws)[1..] == ws;
      }
    }
  }

  /** The first word of a non-empty clean text, ending at `j`: either the whole
      text, or followed by one space and a non-empty clean rest. */
  lemma CleanFirstWord(r: string) returns (j: nat)
    requires IsClean(r) && r != []
    ensures 0 < j <= |r|
    ensures j == |r| ==> SplitWs(r) == [r]
    ensures j < |r| ==> && j + 1 < |r| && IsClean(r[j + 1..]) && SplitWs(r[j + 1..]) != []
                        && r == r[..j] + " " + r[j + 1..]
                        && SplitWs(r) == [r[..j]] + SplitWs(r[j + 1..])
  {
    j := RunEnd(r, 0, NotSpace);
    assert RunEnd(r, 0, IsSpace) == 0;
    SplitWsAt(r, 0, j);
    if j == |r| {
      assert r[j..] == [];
      SplitWsNone([]);
      assert r[0..j] == r;
    } else {
      CleanSplitAt(r, j);
    }
  }

  /** A clean text split at the space after its first word `r[..j]`. */
  lemma CleanSplitAt(r: string, j: nat)
    requires IsClean(r) && 0 < j < |r| && j == RunEnd(r, 0, NotSpace)
    requires SplitWs(r) == [r[0..j]] + SplitWs(r[j..])
    ensures && j + 1 < |r| && IsClean(r[j + 1..]) && SplitWs(r[j + 1..]) != []
            && r == r[..j] + " " + r[j + 1..]
            && SplitWs(r) == [r[..j]] + SplitWs(r[j + 1..])
  {
    CleanRest(r, j);
    SpaceAt(r, j);
    SplitWsAfterSpace([' '], r[j + 1..]);
    NonBlankHasWord(r[j + 1..]);
  }

  /** A text cut around the space at `j`. */
  lemma SpaceAt(r: string, j: nat)
    requires j < |r| && r[j] == ' '
    ensures r == r[..j] + " " + r[j + 1..] && r[j..] == [' '] + r[j + 1..]
  {
  }

  /** A text that starts with a non-space character has a word. */
  lemma NonBlankHasWord(x: string)
    requires x != [] && !IsSpace(x[0])
    ensures SplitWs(x) != []
  {
    assert RunEnd(x, 0, IsSpace) == 0;
    SplitWsAt(x, 0, RunEnd(x, 0, NotSpace));
  }

  /** In a clean text, what follows the space after the first word is clean
      and not empty. */
  lemma CleanRest(r: string, j: nat)
    requires IsClean(r) && 0 < j < |r| && IsSpace(r[j])
    ensures r[j] == ' ' && j + 1 < |r| && IsClean(r[j + 1..]) && r[j + 1..] != []
  {
    var rest := r[j + 1..];
    assert j + 1 < |r|;
    assert !IsSpace(r[j + 1]) by {
      assert !(IsSpace(r[j]) && IsSpace(r[j + 1]));
    }
    assert forall k :: 0 <= k < |rest| ==> rest[k] == r[j + 1 + k];
  }

  /** `re.sub(r'\s+', ' ', s).strip()` is `" ".join(s.split())`. */
  lemma CleanIsJoin(s: string)
    ensures Clean(s) == JoinSpace(SplitWs(s))
  {
    SplitWsCollapse(s);
    SplitWsStrip(Collapse(s));
    CleanJoin(Clean(s));
  }
}
