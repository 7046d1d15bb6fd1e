/** Insertion-ordered dictionaries, as Python's `dict` behaves: keys are
  distinct, iteration follows the order keys were FIRST inserted, and
  storing under a key already present replaces its value in place.

  The converter uses this twice: for its table of per-property spill
  buffers, and for the dictionaries its value parsers build.
 */
module OrderedMaps {
  import opened Results

  type Assoc<K, V> = seq<(K, V)>

  function Keys<K, V>(m: Assoc<K, V>): seq<K> {
    seq(|m|, i requires 0 <= i < |m| => m[i].0)
  }

  predicate Distinct<K(==)>(ks: seq<K>) {
    forall i, j :: 0 <= i < j < |ks| ==> ks[i] != ks[j]
  }

  predicate DistinctKeys<K(==), V>(m: Assoc<K, V>) {
    Distinct(Keys(m))
  }

  /** `m.get(k)` */
  function Lookup<K(==), V>(m: Assoc<K, V>, k: K): (r: Option<V>)
    ensures r.Some? <==> k in Keys(m)
  {
    if |m| == 0 then None
    else if m[0].0 == k then
      assert Keys(m)[0] == k;
      Some(m[0].1)
    else
      assert Keys(m) == [m[0].0] + Keys(m[1..]);
      Lookup(m[1..], k)
  }

  /** `m[k] = v`: replaces the value in place when `k` is present,
      otherwise adds `k` at the end of the iteration order. */
  function Put<K(==,!new), V>(m: Assoc<K, V>, k: K, v: V): (r: Assoc<K, V>)
    ensures Keys(r) == if k in Keys(m) then Keys(m) else Keys(m) + [k]
    ensures Lookup(r, k) == Some(v)
  {
    if |m| == 0 then [(k, v)]
    else
      KeysCons(m[0], m[1..]);
      assert [m[0]] + m[1..] == m;
      if m[0].0 == k then
        KeysCons((k, v), m[1..]);
        LookupCons((k, v), m[1..]);
        [(k, v)] + m[1..]
      else
        var rest := Put(m[1..], k, v);
        KeysCons(m[0], rest);
        LookupCons(m[0], rest);
        [m[0]] + rest
  }

  /** Storing under `k` leaves every other key's value as it was. */
  lemma {:induction false} PutOther<K(!new), V>(m: Assoc<K, V>, k: K, v: V, k': K)
    requires k' != k
    ensures Lookup(Put(m, k, v), k') == Lookup(m, k')
    decreases |m|
  {
    if |m| > 0 {
      LookupCons(m[0], m[1..]);
      assert [m[0]] + m[1..] == m;
      if m[0].0 == k {
        LookupCons((k, v), m[1..]);
      } else {
        PutOther(m[1..], k, v, k');
        LookupCons(m[0], Put(m[1..], k, v));
      }
    }
  }

  /** Storing a key never duplicates one. */
  lemma PutDistinct<K(!new), V>(m: Assoc<K, V>, k: K, v: V)
    requires DistinctKeys(m)
    ensures DistinctKeys(Put(m, k, v))
  {
  }

  lemma KeysCons<K, V>(p: (K, V), m: Assoc<K, V>)
    ensures Keys([p] + m) == [p.0] + Keys(m)
  {
    assert ([p] + m)[1..] == m;
  }

  lemma LookupCons<K, V>(p: (K, V), m: Assoc<K, V>)
    ensures forall k :: Lookup([p] + m, k) == if p.0 == k then Some(p.1) else Lookup(m, k)
  {
    assert ([p] + m)[1..] == m;
  }

  /** The value of the LAST pair whose key is `k`. */
  function LastValue<K(==), V>(ps: seq<(K, V)>, k: K): Option<V> {
    if |ps| == 0 then None
    else if ps[|ps| - 1].0 == k then Some(ps[|ps| - 1].1)
    else LastValue(ps[..|ps| - 1], k)
  }

  /** The distinct elements of `xs`, each where it first occurs. */
  function FirstSeen<K(==)>(xs: seq<K>): seq<K> {
    if |xs| == 0 then []
    else
      var init := FirstSeen(xs[..|xs| - 1]);
      if xs[|xs| - 1] in xs[..|xs| - 1] then init else init + [xs[|xs| - 1]]
  }

  /** `dict(pairs)`, and equally a dict comprehension over `pairs`. */
  function FromPairs<K(==,!new), V>(ps: seq<(K, V)>): (r: Assoc<K, V>)
    ensures DistinctKeys(r)
  {
    if |ps| == 0 then []
    else
      var m := FromPairs(ps[..|ps| - 1]);
      PutDistinct(m, ps[|ps| - 1].0, ps[|ps| - 1].1);
      Put(m, ps[|ps| - 1].0, ps[|ps| - 1].1)
  }

  /** A later pair overrides an earlier one with the same key. */
  lemma {:induction false} FromPairsLookup<K(!new), V>(ps: seq<(K, V)>, k: K)
    ensures Lookup(FromPairs(ps), k) == LastValue(ps, k)
    decreases |ps|
  {
    if |ps| > 0 {
      var (k', v) := ps[|ps| - 1];
      FromPairsLookup(ps[..|ps| - 1], k);
      if k' != k {
        PutOther(FromPairs(ps[..|ps| - 1]), k', v, k);
      }
    }
  }

  /** Keys come out in the order each was first seen. */
  lemma {:induction false} FromPairsKeys<K(!new), V>(ps: seq<(K, V)>)
    ensures Keys(FromPairs(ps)) == FirstSeen(Keys(ps))
    decreases |ps|
  {
    if |ps| > 0 {
      var init := ps[..|ps| - 1];
      FromPairsKeys(init);
      assert Keys(init) == Keys(ps)[..|ps| - 1];
      FirstSeenMembers(Keys(init));
    }
  }

  lemma {:induction false} FirstSeenMembers<K>(xs: seq<K>)
    ensures forall x :: x in FirstSeen(xs) <==> x in xs
    decreases |xs|
  {
    if |xs| > 0 {
      var init := xs[..|xs| - 1];
      FirstSeenMembers(init);
      assert xs == init + [xs[|xs| - 1]];
    }
  }

  /** Without duplicate keys, building a dictionary keeps every pair as it is. */
  lemma {:induction false} FromDistinctPairs<K(!new), V>(ps: seq<(K, V)>)
    requires DistinctKeys(ps)
    ensures FromPairs(ps) == ps
    decreases |ps|
  {
    if |ps| > 0 {
      var init := ps[..|ps| - 1];
      var (k, v) := ps[|ps| - 1];
      DistinctKeysInit(ps);
      FromDistinctPairs(init);
      PutNew(init, k, v);
      assert init + [(k, v)] == ps;
    }
  }

  /** Dropping the last pair keeps the keys distinct, and its key is not among the rest. */
  lemma DistinctKeysInit<K, V>(ps: Assoc<K, V>)
    requires DistinctKeys(ps) && |ps| > 0
    ensures DistinctKeys(ps[..|ps| - 1]) && ps[|ps| - 1].0 !in Keys(ps[..|ps| - 1])
  {
    var init := ps[..|ps| - 1];
    assert forall i :: 0 <= i < |init| ==> Keys(init)[i] == Keys(ps)[i];
    assert ps[|ps| - 1].0 == Keys(ps)[|ps| - 1];
  }

  /** Storing a key that is absent appends it. */
  lemma {:induction false} PutNew<K(!new), V>(m: Assoc<K, V>, k: K, v: V)
    requires k !in Keys(m)
    ensures Put(m, k, v) == m + [(k, v)]
    decreases |m|
  {
    if |m| > 0 {
      var rest := m[1..];
      KeysCons(m[0], rest);
      assert [m[0]] + rest == m;
      assert m[0].0 != k && k !in Keys(rest);
      PutNew(rest, k, v);
      assert Put(m, k, v) == [m[0]] + Put(rest, k, v);
      assert m + [(k, v)] == [m[0]] + (rest + [(k, v)]);
    }
  }

  /** Every pair of a dictionary built from `ps` is one of `ps`. */
  lemma {:induction false} FromPairsFrom<K(!new), V>(ps: seq<(K, V)>)
    ensures forall p :: p in FromPairs(ps) ==> p in ps
    decreases |ps|
  {
    if |ps| > 0 {
      var init := ps[..|ps| - 1];
      FromPairsFrom(init);
      PutFrom(FromPairs(init), ps[|ps| - 1].0, ps[|ps| - 1].1);
    }
  }

  lemma {:induction false} PutFrom<K(!new), V>(m: Assoc<K, V>, k: K, v: V)
    ensures forall p :: p in Put(m, k, v) ==> p in m || p == (k, v)
    decreases |m|
  {
    if |m| > 0 && m[0].0 != k {
      PutFrom(m[1..], k, v);
      assert forall p :: p in m[1..] ==> p in m;
    }
  }

  /** A successful lookup finds one of the map's own pairs. */
  lemma {:induction false} LookupFound<K, V>(m: Assoc<K, V>, k: K)
    requires Lookup(m, k).Some?
    ensures (k, Lookup(m, k).value) in m
    decreases |m|
  {
    if m[0].0 != k {
      LookupFound(m[1..], k);
    }
  }

  /** With distinct keys, each pair is what its key looks up. */
  lemma {:induction false} LookupAt<K, V>(m: Assoc<K, V>, i: nat)
    requires DistinctKeys(m) && i < |m|
    ensures Lookup(m, m[i].0) == Some(m[i].1)
    decreases i
  {
    if i > 0 {
      assert Keys(m)[0] != Keys(m)[i];
      var tail := m[1..];
      assert forall a :: 0 <= a < |tail| ==> Keys(tail)[a] == Keys(m)[a + 1];
      assert DistinctKeys(tail);
      assert tail[i - 1] == m[i];
      LookupAt(tail, i - 1);
    }
  }
}
