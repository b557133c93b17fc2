/**
 * JavaScript objects with string keys, such as an output's `possibleOutputs`
 * (path name to output), seen as their entries in insertion order. Assigning
 * `obj[k] = v` overwrites the value of an existing key in its original position
 * and appends a new key at the end; `for (k in obj)` visits the entries in that
 * order.
 */
module OrderedMaps {
  import opened Outcomes

  type Entries<V> = seq<(string, V)>

  function Keys<V>(m: Entries<V>): (r: set<string>) {
    set p | 0 <= p < |m| :: m[p].0
  }

  predicate DistinctKeys<V>(m: Entries<V>) {
    forall p, q :: 0 <= p < q < |m| ==> m[p].0 != m[q].0
  }

  lemma KeysCons<V>(x: (string, V), m: Entries<V>)
    ensures Keys([x] + m) == {x.0} + Keys(m)
  {
    var r := [x] + m;
    assert forall p :: 0 < p < |r| ==> r[p] == m[p - 1];
    assert r[0] == x;
    forall k | k in Keys(m) ensures k in Keys(r) {
      var p :| 0 <= p < |m| && m[p].0 == k;
      assert r[p + 1] == m[p];
    }
  }

  /** The position of key `k`: the first entry that has it. */
  function IndexOf<V>(m: Entries<V>, k: string): (i: nat)
    requires k in Keys(m)
    ensures i < |m| && m[i].0 == k
    ensures forall p :: 0 <= p < i ==> m[p].0 != k
  {
    if m[0].0 == k then 0
    else
      assert m == [m[0]] + m[1..];
      KeysCons(m[0], m[1..]);
      1 + IndexOf(m[1..], k)
  }

  /** Two objects with the same keys in the same positions find every key at the same position. */
  lemma SameKeysSameIndex<U, V>(m: Entries<U>, r: Entries<V>, k: string)
    requires |m| == |r| && forall p :: 0 <= p < |m| ==> r[p].0 == m[p].0
    ensures k in Keys(m) <==> k in Keys(r)
    ensures k in Keys(m) ==> IndexOf(r, k) == IndexOf(m, k)
  {
    if k in Keys(r) {
      var p :| 0 <= p < |r| && r[p].0 == k;
      assert m[p].0 == k;
    }
    if k in Keys(m) {
      var p :| 0 <= p < |m| && m[p].0 == k;
      assert r[p].0 == k;
    }
  }

  /** `obj[k] = v`: an existing key keeps its position and takes the new value; a new key goes last. */
  function Put<V>(m: Entries<V>, k: string, v: V): (r: Entries<V>)
    ensures Keys(r) == Keys(m) + {k}
    ensures k in Keys(m) ==> |r| == |m|
    ensures k !in Keys(m) ==> r == m + [(k, v)]
    ensures forall p :: 0 <= p < |m| ==> r[p].0 == m[p].0
    ensures forall p :: 0 <= p < |r| ==> r[p] in m || r[p] == (k, v)
    ensures DistinctKeys(m) ==> DistinctKeys(r)
  {
    if k in Keys(m) then
      var i := IndexOf(m, k);
      var r := m[i := (k, v)];
      assert forall p :: 0 <= p < |m| ==> r[p].0 == m[p].0;
      assert Keys(r) == Keys(m) by {
        forall x | x in Keys(m) ensures x in Keys(r) {
          var p :| 0 <= p < |m| && m[p].0 == x;
          assert r[p].0 == x;
        }
      }
      r
    else
      var r := m + [(k, v)];
      assert r[|m|].0 == k;
      assert forall p :: 0 <= p < |m| ==> r[p] == m[p];
      r
  }

  /** `obj[k]`: the value under `k`, or None (`undefined`) when there is none. */
  function Lookup<V>(m: Entries<V>, k: string): (r: Option<V>)
    ensures r.None? <==> k !in Keys(m)
    ensures r.Some? ==> (k, r.value) in m
    ensures DistinctKeys(m) ==> forall p :: 0 <= p < |m| && m[p].0 == k ==> r == Some(m[p].1)
  {
    if k in Keys(m) then
      var i := IndexOf(m, k);
      assert m[i] == (k, m[i].1);
      Some(m[i].1)
    else None
  }

  /** After `obj[k] = v`, `obj[k]` is `v` and every other key reads as before. */
  lemma {:induction false} LookupPut<V>(m: Entries<V>, k: string, v: V, k': string)
    ensures Lookup(Put(m, k, v), k') == if k' == k then Some(v) else Lookup(m, k')
  {
    var r := Put(m, k, v);
    if k' in Keys(m) {
      var i, j := IndexOf(m, k'), IndexOf(r, k');
      assert r[i].0 == k';
    }
  }

  /** The value the last pair with key `k` carries. */
  function LastValue<V>(pairs: Entries<V>, k: string): (r: Option<V>) {
    if pairs == [] then None
    else if pairs[|pairs| - 1].0 == k then Some(pairs[|pairs| - 1].1)
    else LastValue(pairs[..|pairs| - 1], k)
  }

  /** The object obtained by assigning `pairs` one after another to an empty object. */
  function FromPairs<V>(pairs: Entries<V>): (r: Entries<V>)
    ensures DistinctKeys(r)
    ensures Keys(r) == Keys(pairs)
    ensures forall p :: 0 <= p < |r| ==> r[p] in pairs
  {
    if pairs == [] then []
    else
      var init := pairs[..|pairs| - 1];
      var last := pairs[|pairs| - 1];
      assert pairs == init + [last];
      assert Keys(pairs) == Keys(init) + {last.0} by {
        assert forall p :: 0 <= p < |init| ==> init[p] == pairs[p];
      }
      Put(FromPairs(init), last.0, last.1)
  }

  /** Assigning one more pair to the object built so far. */
  lemma FromPairsSnoc<V>(pairs: Entries<V>, x: (string, V))
    ensures FromPairs(pairs + [x]) == Put(FromPairs(pairs), x.0, x.1)
  {
    assert (pairs + [x])[..|pairs|] == pairs;
  }

  /** Later entries win: under each key the object holds the value of the last pair with that key. */
  lemma {:induction false} LookupFromPairs<V>(pairs: Entries<V>, k: string)
    ensures Lookup(FromPairs(pairs), k) == LastValue(pairs, k)
  {
    if pairs != [] {
      var init := pairs[..|pairs| - 1];
      LookupFromPairs(init, k);
      LookupPut(FromPairs(init), pairs[|pairs| - 1].0, pairs[|pairs| - 1].1, k);
    }
  }

  /** An object whose keys are already distinct is rebuilt unchanged, in the same order. */
  lemma {:induction false} FromDistinctPairs<V>(pairs: Entries<V>)
    requires DistinctKeys(pairs)
    ensures FromPairs(pairs) == pairs
  {
    if pairs != [] {
      var init := pairs[..|pairs| - 1];
      var last := pairs[|pairs| - 1];
      assert DistinctKeys(init) by {
        forall p, q | 0 <= p < q < |init| ensures init[p].0 != init[q].0 {
          assert init[p] == pairs[p] && init[q] == pairs[q];
        }
      }
      FromDistinctPairs(init);
      assert last.0 !in Keys(init) by {
        forall p | 0 <= p < |init| ensures init[p].0 != last.0 {
          assert init[p] == pairs[p];
        }
      }
      calc {
        FromPairs(pairs);
        Put(FromPairs(init), last.0, last.1);
        Put(init, last.0, last.1);
        init + [(last.0, last.1)];
        pairs;
      }
    }
  }
}
