/** What `re.findall` and `re.finditer` do with a pattern: scan a text left to
    right, report the leftmost match, resume at its end.

    A pattern is given as the function `at` that says whether, and how, the
    pattern matches when the search tries starting position `i`; every scanner
    of the pipeline (table-of-contents lines, list items, building-description
    items, tender-text headings) supplies one.
 */
module Matching {
  import opened Text

  /** One match: its span and its capture groups, in the order `findall` lists them. */
  datatype Hit = Hit(start: nat, end: nat, groups: seq<string>)

  /** `at` describes a non-empty-matching pattern on `t`: a hit reported for
      position `i` starts at `i` and ends inside `t`, after `i`. */
  ghost predicate MatcherOn(t: string, at: nat -> Option<Hit>) {
    forall i: nat :: at(i).Some? ==> at(i).value.start == i < at(i).value.end <= |t|
  }

  /** Position `j` lies inside one of the hits. */
  predicate Covered(ms: seq<Hit>, j: nat) {
    exists k :: 0 <= k < |ms| && ms[k].start <= j < ms[k].end
  }

  /** The hits are in text order and do not overlap. */
  predicate Ordered(ms: seq<Hit>) {
    forall j, k :: 0 <= j < |ms| && 0 <= k < |ms| && k == j + 1 ==> ms[j].end <= ms[k].start
  }

  /** The first starting position at or after `from` where `at` matches. */
  function NextHit(t: string, from: nat, at: nat -> Option<Hit>): (r: Option<nat>)
    requires from <= |t| + 1
    ensures r.Some? ==> from <= r.value <= |t| && at(r.value).Some?
    ensures r.Some? ==> forall j: nat :: from <= j < r.value ==> at(j).None?
    ensures r.None? ==> forall j: nat :: from <= j <= |t| ==> at(j).None?
    decreases |t| + 1 - from
  {
    if from > |t| then None
    else if at(from).Some? then Some(from)
    else NextHit(t, from + 1, at)
  }

  /** `pattern.finditer(t, pos)`. */
  function FindAll(t: string, pos: nat, at: nat -> Option<Hit>): (ms: seq<Hit>)
    requires pos <= |t|
    requires MatcherOn(t, at)
    ensures forall k :: 0 <= k < |ms| ==> pos <= ms[k].start && at(ms[k].start) == Some(ms[k])
    ensures forall k :: 0 <= k < |ms| ==> ms[k].start < ms[k].end <= |t|
    ensures Ordered(ms)
    ensures forall j: nat :: pos <= j <= |t| && at(j).Some? ==> Covered(ms, j)
    decreases |t| - pos
  {
    match NextHit(t, pos, at)
    case None => []
    case Some(i) =>
      var m := at(i).value;
      var rest := FindAll(t, m.end, at);
      CoverStep(t, pos, at, m, rest);
      Prepend(t, pos, at, m, rest);
      [m] + rest
  }

  /** Putting a hit before the hits that follow it keeps them ordered and in bounds. */
  lemma Prepend(t: string, pos: nat, at: nat -> Option<Hit>, m: Hit, rest: seq<Hit>)
    requires pos <= m.start < m.end <= |t| && at(m.start) == Some(m)
    requires forall k :: 0 <= k < |rest| ==> m.end <= rest[k].start && at(rest[k].start) == Some(rest[k])
    requires forall k :: 0 <= k < |rest| ==> rest[k].start < rest[k].end <= |t|
    requires Ordered(rest)
    ensures forall k :: 0 <= k < |[m] + rest| ==> pos <= ([m] + rest)[k].start && at(([m] + rest)[k].start) == Some(([m] + rest)[k])
    ensures forall k :: 0 <= k < |[m] + rest| ==> ([m] + rest)[k].start < ([m] + rest)[k].end <= |t|
    ensures Ordered([m] + rest)
  {
    var ms := [m] + rest;
    assert forall k :: 1 <= k < |ms| ==> ms[k] == rest[k - 1];
  }

  lemma CoverStep(t: string, pos: nat, at: nat -> Option<Hit>, m: Hit, rest: seq<Hit>)
    requires pos <= m.start < m.end <= |t|
    requires forall j: nat :: pos <= j < m.start ==> at(j).None?
    requires forall j: nat :: m.end <= j <= |t| && at(j).Some? ==> Covered(rest, j)
    ensures forall j: nat :: pos <= j <= |t| && at(j).Some? ==> Covered([m] + rest, j)
  {
    forall j: nat | pos <= j <= |t| && at(j).Some?
      ensures Covered([m] + rest, j)
    {
      if j < m.end {
        assert ([m] + rest)[0] == m;
      } else {
        var k :| 0 <= k < |rest| && rest[k].start <= j < rest[k].end;
        assert ([m] + rest)[k + 1] == rest[k];
      }
    }
  }

  /** No hit of an ordered list straddles a position that lies between two of them. */
  lemma OrderedStarts(ms: seq<Hit>, a: nat, b: nat)
    requires Ordered(ms)
    requires forall k :: 0 <= k < |ms| ==> ms[k].start < ms[k].end
    requires a < b < |ms|
    ensures ms[a].end <= ms[b].start
    decreases b - a
  {
    if a + 1 < b {
      OrderedStarts(ms, a + 1, b);
    }
  }
}
