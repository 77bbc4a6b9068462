/** Python dictionaries with string keys, as insertion-ordered lists of
    key/value pairs. */
module Dicts {
  import opened Results
  import opened Seqs

  predicate KeysDistinct<V>(d: seq<(string, V)>) {
    forall i, j :: 0 <= i < j < |d| ==> d[i].0 != d[j].0
  }

  /** A dictionary: no key occurs twice. */
  type Dict<V> = d: seq<(string, V)> | KeysDistinct(d) witness []

  /** `list(d.keys())`. */
  function Keys<V>(d: seq<(string, V)>): seq<string> {
    seq(|d|, i requires 0 <= i < |d| => d[i].0)
  }

  /** `list(d.values())`. */
  function Values<V>(d: seq<(string, V)>): seq<V> {
    seq(|d|, i requires 0 <= i < |d| => d[i].1)
  }

  /** `d[k]`, `None` for a missing key. */
  function Lookup<V>(d: Dict<V>, k: string): (r: Option<V>)
    ensures r.None? <==> k !in Keys(d)
    ensures forall i :: 0 <= i < |d| && d[i].0 == k ==> r == Some(d[i].1)
  {
    KeyPositions(d);
    if k in Keys(d) then Some(d[FirstIndex(Keys(d), k)].1) else None
  }

  lemma KeyPositions<V>(d: seq<(string, V)>)
    ensures forall i :: 0 <= i < |d| ==> d[i].0 in Keys(d)
  {
    forall i | 0 <= i < |d|
      ensures d[i].0 in Keys(d)
    {
      assert Keys(d)[i] == d[i].0;
    }
  }

  /** `d[k] = v`: a present key keeps its place and takes the new value, a
      new key goes at the end. */
  function Put<V>(d: Dict<V>, k: string, v: V): (r: Dict<V>)
    ensures Keys(r) == if k in Keys(d) then Keys(d) else Keys(d) + [k]
    ensures Lookup(r, k) == Some(v)
    ensures forall k' :: k' != k ==> Lookup(r, k') == Lookup(d, k')
  {
    if k in Keys(d) then
      var i := FirstIndex(Keys(d), k);
      var r := d[i := (k, v)];
      assert Keys(r) == Keys(d);
      r
    else
      KeyPositions(d);
      var r := d + [(k, v)];
      assert Keys(r) == Keys(d) + [k];
      r
  }
}
