/** `flatten_structure` of the earlier version: every chunk gets a `keywords`
    list, the whitespace-separated words of seven metadata fields in a fixed
    order. A field that is missing, holds `None`, is empty, or holds the
    string "None" contributes nothing. */
module Keywords {
  import opened Text
  import opened Meta
  import opened Chunks

  /** A chunk with its keyword list. */
  datatype Flat = Flat(chunk: Chunk, keywords: seq<string>)

  /** The fields read, in the order their words appear. */
  const KeywordFields: seq<string> := [KeywordKey, SectionKey, SubsectionKey, SubsubsectionKey,
                                       SubsectionNumberKey, SubsubsectionNumberKey, NumberKey]

  /** `metadata.get(key, "")` is kept when it is truthy and not "None". */
  predicate Kept(md: Dict, key: string) {
    Get(md, key).Str? && Get(md, key).s != [] && Get(md, key).s != "None"
  }

  /** The kept field values for `keys`, in order. */
  function KeptValues(md: Dict, keys: seq<string>): (vs: seq<string>)
    ensures |vs| <= |keys|
    ensures forall i :: 0 <= i < |vs| ==> vs[i] != [] && vs[i] != "None"
    decreases |keys|
  {
    if keys == [] then []
    else (if Kept(md, keys[0]) then [Get(md, keys[0]).s] else []) + KeptValues(md, keys[1..])
  }

  /** The words of each kept value, one value after another. */
  function FieldWords(md: Dict, keys: seq<string>): seq<string>
    decreases |keys|
  {
    if keys == [] then []
    else (if Kept(md, keys[0]) then SplitWs(Get(md, keys[0]).s) else []) + FieldWords(md, keys[1..])
  }

  /** `" ".join(kept).split()`. */
  function KeywordsOf(md: Dict): (ws: seq<string>)
    ensures forall k :: 0 <= k < |ws| ==> IsWord(ws[k])
  {
    SplitWs(JoinSpace(KeptValues(md, KeywordFields)))
  }

  /** `flatten_structure(docs)`. */
  function FlattenStructure(docs: seq<Chunk>): (r: seq<Flat>)
    ensures |r| == |docs|
    ensures forall k :: 0 <= k < |r| ==> r[k].chunk == docs[k]
    ensures forall k :: 0 <= k < |r| ==> r[k].keywords == KeywordsOf(docs[k].meta)
  {
    seq(|docs|, k requires 0 <= k < |docs| => Flat(docs[k], KeywordsOf(docs[k].meta)))
  }

  /** Splitting the kept values one by one gives the words field by field. */
  lemma {:induction false} KeptWords(md: Dict, keys: seq<string>)
    ensures FlatMap(KeptValues(md, keys), SplitWs) == FieldWords(md, keys)
    decreases |keys|
  {
    if keys != [] {
      KeptWords(md, keys[1..]);
      var here := if Kept(md, keys[0]) then [Get(md, keys[0]).s] else [];
      FlatMapAppend(here, KeptValues(md, keys[1..]), SplitWs);
      if here != [] {
        assert FlatMap(here, SplitWs) == SplitWs(here[0]) + FlatMap(here[1..], SplitWs);
        assert here[1..] == [];
      }
    }
  }

  /** The keywords are the words of the kept fields, field after field in the
      fixed order: joining with spaces and splitting again neither merges nor
      splits a word across fields. */
  lemma KeywordsAreFieldWords(md: Dict)
    ensures KeywordsOf(md) == FieldWords(md, KeywordFields)
  {
    SplitWsJoin(KeptValues(md, KeywordFields));
    KeptWords(md, KeywordFields);
  }

  /** A field that is missing, holds `None`, or holds "None" adds no keyword. */
  lemma {:induction false} SkippedFieldAddsNothing(md: Dict, keys: seq<string>, key: string, v: Value)
    requires v == Null || v == Str("None") || v == Str([])
    ensures FieldWords(Set(md, key, v), keys) == FieldWords(Delete(md, key), keys)
    decreases |keys|
  {
    if keys != [] {
      SkippedFieldAddsNothing(md, keys[1..], key, v);
      DeleteLookup(md, key, keys[0]);
    }
  }

  /** `md` without `key`. */
  function Delete(md: Dict, key: string): Dict
    decreases |md|
  {
    if md == [] then []
    else if md[0].key == key then Delete(md[1..], key)
    else [md[0]] + Delete(md[1..], key)
  }

  /** Deleting a key removes it and leaves every other key's value alone. */
  lemma {:induction false} DeleteLookup(md: Dict, key: string, k: string)
    ensures Lookup(Delete(md, key), k) == if k == key then None else Lookup(md, k)
    decreases |md|
  {
    if md != [] {
      DeleteLookup(md[1..], key, k);
    }
  }
}
