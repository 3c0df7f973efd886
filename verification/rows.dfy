/**
 * A sheet row as the JSON decoder hands it over: a dictionary from column
 * names to scalars, which keeps its keys in insertion order. It is
 * modelled as a list of entries whose keys are pairwise distinct.
 */
module Rows {
  import opened Wrappers
  import opened Cells

  type Entry = (string, Scalar)

  predicate UniqueKeys(es: seq<Entry>) {
    forall i, j | 0 <= i < j < |es| :: es[i].0 != es[j].0
  }

  type Row = es: seq<Entry> | UniqueKeys(es)

  /** `list(row.keys())` */
  function Keys(es: seq<Entry>): (r: seq<string>)
    ensures |r| == |es| && forall i | 0 <= i < |es| :: r[i] == es[i].0
  {
    if es == [] then [] else [es[0].0] + Keys(es[1..])
  }

  /** `row.get(k)`, None when the key is absent. */
  function Lookup(es: seq<Entry>, k: string): (r: Option<Scalar>)
    ensures r.None? <==> k !in Keys(es)
    ensures r.Some? ==> exists i | 0 <= i < |es| :: es[i] == (k, r.value)
  {
    if es == [] then None
    else if es[0].0 == k then Some(es[0].1)
    else Lookup(es[1..], k)
  }

  /** In a row with distinct keys an entry is what looking up its key finds. */
  lemma {:induction false} LookupEntry(es: seq<Entry>, i: nat)
    requires UniqueKeys(es) && i < |es|
    ensures Lookup(es, es[i].0) == Some(es[i].1)
  {
    if i > 0 {
      assert es[1..][i - 1] == es[i];
      LookupEntry(es[1..], i - 1);
    }
  }

  /**
   * `d[k] = v`: a key already present keeps its place and takes the new
   * value; a new key goes at the end.
   */
  function Put(es: seq<Entry>, k: string, v: Scalar): (r: seq<Entry>)
    ensures |r| == |es| || |r| == |es| + 1
    decreases |es|
  {
    if es == [] then [(k, v)]
    else if es[0].0 == k then [(k, v)] + es[1..]
    else [es[0]] + Put(es[1..], k, v)
  }

  /** Storing a present key leaves the columns as they are; a new key is appended. */
  lemma {:induction false} PutKeys(es: seq<Entry>, k: string, v: Scalar)
    ensures Keys(Put(es, k, v)) == if k in Keys(es) then Keys(es) else Keys(es) + [k]
    decreases |es|
  {
    if es != [] {
      assert Keys(es) == [es[0].0] + Keys(es[1..]);
      if es[0].0 != k {
        PutKeys(es[1..], k, v);
        var r := Put(es, k, v);
        assert r[1..] == Put(es[1..], k, v);
        assert Keys(r) == [es[0].0] + Keys(Put(es[1..], k, v));
      }
    }
  }

  /** After `d[k] = v`, `d.get(k)` is `v` and every other key reads as before. */
  lemma {:induction false} PutLookup(es: seq<Entry>, k: string, v: Scalar, k': string)
    ensures Lookup(Put(es, k, v), k') == if k' == k then Some(v) else Lookup(es, k')
    decreases |es|
  {
    if es != [] && es[0].0 != k {
      PutLookup(es[1..], k, v, k');
      var r := Put(es, k, v);
      assert r[0] == es[0] && r[1..] == Put(es[1..], k, v);
    } else if es != [] {
      var r := Put(es, k, v);
      assert r[0] == (k, v) && r[1..] == es[1..];
    }
  }

  /** Assignment keeps the keys of a dictionary distinct. */
  lemma PutUnique(es: seq<Entry>, k: string, v: Scalar)
    requires UniqueKeys(es)
    ensures UniqueKeys(Put(es, k, v))
  {
    PutKeys(es, k, v);
    var ks := Keys(Put(es, k, v));
    assert forall i, j | 0 <= i < j < |ks| :: ks[i] != ks[j] by {
      assert forall i, j | 0 <= i < j < |es| :: Keys(es)[i] != Keys(es)[j];
    }
  }
}
