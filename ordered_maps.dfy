/** Ruby's insertion-ordered Hash from strings to strings, as `Hash[pairs]`
    builds it: the attribute and keyword maps of Curly are such hashes. */
module OrderedMaps {
  import opened Wrappers

  type Pair = (string, string)

  /** Entries in insertion order; a well-formed map has distinct keys. */
  type OrderedMap = seq<Pair>

  function Keys(m: OrderedMap): (ks: seq<string>)
    ensures |ks| == |m|
    ensures forall i :: 0 <= i < |m| ==> ks[i] == m[i].0
  {
    seq(|m|, i requires 0 <= i < |m| => m[i].0)
  }

  predicate DistinctKeys(m: OrderedMap)
  {
    forall i, j :: 0 <= i < j < |m| ==> m[i].0 != m[j].0
  }

  /** Position of the first entry holding `k`. */
  function IndexOf(m: OrderedMap, k: string): (r: Option<nat>)
    ensures r.None? <==> k !in Keys(m)
    ensures r.Some? ==> r.value < |m| && m[r.value].0 == k
    ensures r.Some? ==> forall j :: 0 <= j < r.value ==> m[j].0 != k
  {
    if m == [] then None
    else if m[0].0 == k then Some(0)
    else match IndexOf(m[1..], k)
      case None => None
      case Some(i) => Some(i + 1)
  }

  /** `hash[k]`, with `None` for a missing key. */
  function Get(m: OrderedMap, k: string): (r: Option<string>)
    ensures r.None? <==> k !in Keys(m)
    ensures r.Some? ==> (k, r.value) in m
  {
    match IndexOf(m, k)
    case None => None
    case Some(i) => Some(m[i].1)
  }

  /** `hash[k] = v`: an existing key keeps its position and takes the new
      value; a new key is appended. */
  function Put(m: OrderedMap, k: string, v: string): (r: OrderedMap)
  {
    match IndexOf(m, k)
    case Some(i) => m[i := (k, v)]
    case None => m + [(k, v)]
  }

  /** What `Put` keeps and changes: it preserves distinct keys, stores `v`
      under `k`, keeps every other key's value, and only ever appends a key
      that was missing. */
  lemma PutGet(m: OrderedMap, k: string, v: string, k': string)
    requires DistinctKeys(m)
    ensures DistinctKeys(Put(m, k, v))
    ensures Keys(Put(m, k, v)) == if k in Keys(m) then Keys(m) else Keys(m) + [k]
    ensures Get(Put(m, k, v), k') == if k' == k then Some(v) else Get(m, k')
  {
    var r := Put(m, k, v);
    if k' != k {
      match IndexOf(m, k')
      case None =>
        assert k' !in Keys(r);
      case Some(i) =>
        assert r[i] == m[i];
        GetAt(r, k', i);
    } else {
      match IndexOf(m, k)
      case None =>
        GetAt(r, k, |m|);
      case Some(i) =>
        GetAt(r, k, i);
    }
  }

  /** In a map with distinct keys, `Get` finds the one entry holding the key. */
  lemma GetAt(m: OrderedMap, k: string, i: nat)
    requires DistinctKeys(m) && i < |m| && m[i].0 == k
    ensures Get(m, k) == Some(m[i].1)
  {
  }

  /** `Hash[pairs]`: the pairs are inserted left to right. */
  function FromPairs(pairs: seq<Pair>): (r: OrderedMap)
    ensures DistinctKeys(r)
  {
    if pairs == [] then []
    else
      var prefix := FromPairs(pairs[..|pairs| - 1]);
      PutGet(prefix, pairs[|pairs| - 1].0, pairs[|pairs| - 1].1, pairs[|pairs| - 1].0);
      Put(prefix, pairs[|pairs| - 1].0, pairs[|pairs| - 1].1)
  }

  /** The value a key ends up with: the one of its last pair. */
  function LastValue(pairs: seq<Pair>, k: string): Option<string>
  {
    if pairs == [] then None
    else if pairs[|pairs| - 1].0 == k then Some(pairs[|pairs| - 1].1)
    else LastValue(pairs[..|pairs| - 1], k)
  }

  /** Keys in the order of their first occurrence. */
  function FirstOccurrences(ks: seq<string>): seq<string>
  {
    if ks == [] then []
    else
      var prefix := FirstOccurrences(ks[..|ks| - 1]);
      if ks[|ks| - 1] in prefix then prefix else prefix + [ks[|ks| - 1]]
  }

  /** A repeated key keeps the value of its last pair. */
  lemma {:induction false} FromPairsGet(pairs: seq<Pair>, k: string)
    ensures Get(FromPairs(pairs), k) == LastValue(pairs, k)
  {
    if pairs != [] {
      var last := pairs[|pairs| - 1];
      FromPairsGet(pairs[..|pairs| - 1], k);
      PutGet(FromPairs(pairs[..|pairs| - 1]), last.0, last.1, k);
    }
  }

  /** A repeated key keeps the position of its first pair. */
  lemma {:induction false} FromPairsKeys(pairs: seq<Pair>)
    ensures Keys(FromPairs(pairs)) == FirstOccurrences(Keys(pairs))
  {
    if pairs != [] {
      var init := pairs[..|pairs| - 1];
      var last := pairs[|pairs| - 1];
      FromPairsKeys(init);
      PutGet(FromPairs(init), last.0, last.1, last.0);
      assert Keys(pairs)[..|pairs| - 1] == Keys(init);
    }
  }

  /** Pairs whose keys are already distinct come back unchanged. */
  lemma {:induction false} FromDistinctPairs(pairs: seq<Pair>)
    requires DistinctKeys(pairs)
    ensures FromPairs(pairs) == pairs
  {
    if pairs != [] {
      var init := pairs[..|pairs| - 1];
      var last := pairs[|pairs| - 1];
      FromDistinctPairs(init);
      forall i | 0 <= i < |init| ensures Keys(init)[i] != last.0 {
        assert pairs[i].0 != pairs[|pairs| - 1].0;
      }
      assert IndexOf(init, last.0).None?;
      assert init + [last] == pairs;
    }
  }
}
