/** A chunk's metadata: a Python `dict` from string keys to a string or `None`.

    A `dict` remembers insertion order, and the ASCII stage depends on it when two
    keys transliterate to the same key, so the metadata is an association list:
    assigning to a present key replaces its value in place, assigning to a new key
    appends it, exactly like `d[k] = v` and `{**d, k: v}`.
 */
module Meta {
  import opened Text

  /** A metadata value: Python's `None` or a `str`. */
  datatype Value = Null | Str(s: string)

  datatype Entry = Entry(key: string, value: Value)

  type Dict = seq<Entry>

  /** The value stored under `k`, or `None` when `k` is not a key. */
  function Lookup(d: Dict, k: string): Option<Value> {
    if d == [] then None
    else if d[0].key == k then Some(d[0].value)
    else Lookup(d[1..], k)
  }

  /** `k in d`. */
  predicate Has(d: Dict, k: string) {
    Lookup(d, k).Some?
  }

  /** `d.get(k)`: `None` both for a missing key and for a stored `None`. */
  function Get(d: Dict, k: string): Value {
    match Lookup(d, k)
    case None => Null
    case Some(v) => v
  }

  /** `bool(d.get(k))`: a non-empty string is stored under `k`. */
  predicate Truthy(d: Dict, k: string) {
    Get(d, k).Str? && Get(d, k).s != []
  }

  /** The keys of `d` in insertion order. */
  function Keys(d: Dict): (ks: seq<string>)
    ensures |ks| == |d|
    ensures forall i :: 0 <= i < |d| ==> ks[i] == d[i].key
  {
    seq(|d|, i requires 0 <= i < |d| => d[i].key)
  }

  predicate UniqueKeys(d: Dict) {
    forall i, j :: 0 <= i < j < |d| ==> d[i].key != d[j].key
  }

  /** `d[k] = v` on a copy of `d`. */
  function Set(d: Dict, k: string, v: Value): (r: Dict)
    ensures Lookup(r, k) == Some(v)
    ensures forall k' :: k' != k ==> Lookup(r, k') == Lookup(d, k')
    ensures Has(d, k) ==> |r| == |d| && forall i :: 0 <= i < |d| ==> r[i].key == d[i].key
    ensures !Has(d, k) ==> r == d + [Entry(k, v)]
  {
    if d == [] then [Entry(k, v)]
    else if d[0].key == k then [Entry(k, v)] + d[1..]
    else [d[0]] + Set(d[1..], k, v)
  }

  lemma {:induction false} LookupMember(d: Dict, k: string)
    ensures Has(d, k) <==> k in Keys(d)
  {
    if d != [] {
      LookupMember(d[1..], k);
      assert Keys(d) == [d[0].key] + Keys(d[1..]);
    }
  }

  /** Assigning keeps the keys distinct. */
  lemma {:induction false} SetUnique(d: Dict, k: string, v: Value)
    requires UniqueKeys(d)
    ensures UniqueKeys(Set(d, k, v))
  {
    var r := Set(d, k, v);
    if Has(d, k) {
      assert forall i :: 0 <= i < |d| ==> r[i].key == d[i].key;
    } else {
      LookupMember(d, k);
      assert forall i :: 0 <= i < |d| ==> d[i].key == Keys(d)[i];
    }
  }

  /** Assigning the value a key already holds changes nothing. */
  lemma {:induction false} SetSame(d: Dict, k: string)
    requires Has(d, k)
    ensures Set(d, k, Lookup(d, k).value) == d
  {
    if d[0].key != k {
      SetSame(d[1..], k);
    }
  }
}
