/** `ensure_ascii_conformance`, identical in both versions: the text and every
    metadata key and value go through a transliteration `u` (`unidecode`),
    which is a parameter here. Values are first turned into strings, so a
    stored `None` becomes the string "None". Two keys that transliterate to the
    same key collapse into one entry: it sits where the first of them was
    inserted and holds the value of the last, as `d[k] = v` does in a loop. */
module Ascii {
  import opened Text
  import opened Meta
  import opened Chunks

  /** `str(v)`. */
  function Show(v: Value): (s: string)
    ensures v.Str? ==> s == v.s
    ensures v.Null? ==> s == "None"
  {
    match v
    case Null => "None"
    case Str(s) => s
  }

  /** The last position in `md` whose key transliterates to `k`. */
  function LastWith(md: Dict, u: string -> string, k: string): (r: Option<nat>)
    ensures r.Some? ==> r.value < |md| && u(md[r.value].key) == k
    ensures r.Some? ==> forall j :: r.value < j < |md| ==> u(md[j].key) != k
    ensures r.None? ==> forall j :: 0 <= j < |md| ==> u(md[j].key) != k
    decreases |md|
  {
    if md == [] then None
    else if u(md[|md| - 1].key) == k then Some(|md| - 1)
    else LastWith(md[..|md| - 1], u, k)
  }

  /** `r` holds, under every key, the transliterated string of the last entry
      of `md` whose key transliterates to it, and nothing else. */
  ghost predicate LastValues(r: Dict, md: Dict, u: string -> string) {
    forall k :: Lookup(r, k) == match LastWith(md, u, k)
                                case None => None
                                case Some(i) => Some(Str(u(Show(md[i].value))))
  }

  /** The transliterated metadata of a chunk, built entry by entry in
      insertion order. */
  function AsciiMeta(md: Dict, u: string -> string): (r: Dict)
    ensures UniqueKeys(r)
    ensures LastValues(r, md, u)
    decreases |md|
  {
    if md == [] then []
    else
      var init := AsciiMeta(md[..|md| - 1], u);
      var last := md[|md| - 1];
      SetUnique(init, u(last.key), Str(u(Show(last.value))));
      AsciiStep(init, md, u);
      Set(init, u(last.key), Str(u(Show(last.value))))
  }

  /** Writing the last entry over the metadata of the others gives the
      metadata of all of them. */
  lemma AsciiStep(init: Dict, md: Dict, u: string -> string)
    requires md != [] && LastValues(init, md[..|md| - 1], u)
    ensures LastValues(Set(init, u(md[|md| - 1].key), Str(u(Show(md[|md| - 1].value)))), md, u)
  {
    assert forall i :: 0 <= i < |md| - 1 ==> md[..|md| - 1][i] == md[i];
  }

  /** `ensure_ascii_conformance(docs)`. */
  function EnsureAscii(docs: seq<Chunk>, u: string -> string): (r: seq<Chunk>)
    ensures |r| == |docs|
    ensures forall k :: 0 <= k < |r| ==> r[k].text == u(docs[k].text)
    ensures forall k :: 0 <= k < |r| ==> r[k].meta == AsciiMeta(docs[k].meta, u)
  {
    seq(|docs|, k requires 0 <= k < |docs| => Chunk(u(docs[k].text), AsciiMeta(docs[k].meta, u)))
  }

  /** With distinct keys, the entry at position `i` is the one found under its key. */
  lemma {:induction false} LookupAt(md: Dict, i: nat)
    requires UniqueKeys(md) && i < |md|
    ensures Lookup(md, md[i].key) == Some(md[i].value)
  {
    if i > 0 {
      assert md[0].key != md[i].key;
      assert md[1..][i - 1] == md[i];
      LookupAt(md[1..], i - 1);
    }
  }

  /** A key missing from `md` is found at no position. */
  lemma {:induction false} LookupAbsent(md: Dict, k: string)
    requires forall j :: 0 <= j < |md| ==> md[j].key != k
    ensures Lookup(md, k) == None
  {
    if md != [] {
      assert forall j :: 0 <= j < |md| - 1 ==> md[1..][j] == md[j + 1];
      LookupAbsent(md[1..], k);
    }
  }

  /** When the transliteration leaves every key alone and the keys are
      distinct, a key keeps its value, turned into a string and transliterated;
      in particular a value the transliteration leaves alone stays as it was. */
  lemma AsciiKeepsValues(md: Dict, u: string -> string, k: string)
    requires UniqueKeys(md)
    requires forall j :: 0 <= j < |md| ==> u(md[j].key) == md[j].key
    ensures Lookup(AsciiMeta(md, u), k) == match Lookup(md, k)
                                          case None => None
                                          case Some(v) => Some(Str(u(Show(v))))
  {
    match LastWith(md, u, k)
    case None =>
      LookupAbsent(md, k);
    case Some(i) =>
      LookupAt(md, i);
  }

  /** Two keys that transliterate alike leave one entry, holding the value of
      the later one. */
  lemma CollisionLaterWins(k1: string, v1: Value, k2: string, v2: Value, u: string -> string)
    requires u(k1) == u(k2)
    ensures AsciiMeta([Entry(k1, v1), Entry(k2, v2)], u) == [Entry(u(k1), Str(u(Show(v2))))]
  {
    var md := [Entry(k1, v1), Entry(k2, v2)];
    var one := [Entry(k1, v1)];
    assert md[..1] == one;
    assert one[..0] == [];
    var first := AsciiMeta(one, u);
    assert first == Set(AsciiMeta(one[..0], u), u(k1), Str(u(Show(v1))));
    assert first == [Entry(u(k1), Str(u(Show(v1))))];
    assert AsciiMeta(md, u) == Set(first, u(k2), Str(u(Show(v2))));
  }
}
