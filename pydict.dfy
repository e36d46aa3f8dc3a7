/** Python's insertion-ordered `dict` with string keys, as its list of entries.
    `d[k] = v` replaces the value of an existing key in place and appends a new key. */
module PyDict {
  import opened Wrappers

  type Dict<V> = seq<(string, V)>

  function Keys<V>(d: Dict<V>): (r: seq<string>)
    ensures |r| == |d|
    ensures forall i :: 0 <= i < |d| ==> r[i] == d[i].0
  {
    seq(|d|, i requires 0 <= i < |d| => d[i].0)
  }

  predicate DistinctKeys<V>(d: Dict<V>) {
    forall i, j :: 0 <= i < j < |d| ==> d[i].0 != d[j].0
  }

  /** Position of key `k`, or `|d|` when `k` is not a key. */
  function Find<V>(d: Dict<V>, k: string): (r: nat)
    ensures r <= |d|
    ensures r < |d| ==> d[r].0 == k
    ensures forall i :: 0 <= i < r ==> d[i].0 != k
    decreases |d|
  {
    if d == [] then 0 else if d[0].0 == k then 0 else 1 + Find(d[1..], k)
  }

  /** `d.get(k)` */
  function Get<V>(d: Dict<V>, k: string): (r: Option<V>)
    ensures r.Some? <==> k in Keys(d)
  {
    var i := Find(d, k);
    if i < |d| then Some(d[i].1)
    else
      assert forall j :: 0 <= j < |d| ==> Keys(d)[j] != k;
      None
  }

  /** `d[k] = v` */
  function Assign<V>(d: Dict<V>, k: string, v: V): (r: Dict<V>) {
    var i := Find(d, k);
    if i < |d| then d[i := (k, v)] else d + [(k, v)]
  }

  /** A dict built by assigning the pairs of `ps` in order (`d = {}; for k, v in ps: d[k] = v`). */
  function FromPairs<V>(ps: seq<(string, V)>): Dict<V>
    decreases |ps|
  {
    if ps == [] then [] else
      var last := ps[|ps| - 1];
      Assign(FromPairs(ps[..|ps| - 1]), last.0, last.1)
  }

  /** In a dict with distinct keys, a key's position is the one `Find` returns. */
  lemma FindAt<V>(d: Dict<V>, i: nat)
    requires DistinctKeys(d) && i < |d|
    ensures Find(d, d[i].0) == i
  {
  }

  /** Assignment keeps the keys distinct, makes `k` map to `v`, and changes no other key. */
  lemma AssignProperties<V>(d: Dict<V>, k: string, v: V)
    requires DistinctKeys(d)
    ensures DistinctKeys(Assign(d, k, v))
    ensures Get(Assign(d, k, v), k) == Some(v)
    ensures forall k' :: k' != k ==> Get(Assign(d, k, v), k') == Get(d, k')
    ensures forall k' :: k' in Keys(Assign(d, k, v)) <==> k' in Keys(d) || k' == k
    ensures k in Keys(d) ==> Keys(Assign(d, k, v)) == Keys(d)
    ensures k !in Keys(d) ==> Keys(Assign(d, k, v)) == Keys(d) + [k]
  {
    var r := Assign(d, k, v);
    var i := Find(d, k);
    assert Keys(r) == if i < |d| then Keys(d) else Keys(d) + [k];
    if i == |d| {
      assert forall m :: 0 <= m < |d| ==> d[m].0 != k;
    }
    assert DistinctKeys(r);
    FindAt(r, if i < |d| then i else |d|);
    forall k' | k' != k
      ensures Get(r, k') == Get(d, k')
    {
      var j := Find(d, k');
      if j < |d| {
        FindAt(r, j);
      } else {
        assert forall m :: 0 <= m < |r| ==> r[m].0 != k';
      }
    }
  }

  /** The keys of a dict built from pairs are distinct, and they are exactly the keys the pairs name. */
  lemma {:induction false} FromPairsKeys<V>(ps: seq<(string, V)>)
    ensures DistinctKeys(FromPairs(ps))
    ensures forall k :: k in Keys(FromPairs(ps)) <==> exists i :: 0 <= i < |ps| && ps[i].0 == k
    decreases |ps|
  {
    if ps != [] {
      var init, last := ps[..|ps| - 1], ps[|ps| - 1];
      FromPairsKeys(init);
      AssignProperties(FromPairs(init), last.0, last.1);
      forall k | k in Keys(FromPairs(ps))
        ensures exists i :: 0 <= i < |ps| && ps[i].0 == k
      {
        if k != last.0 {
          var i :| 0 <= i < |init| && init[i].0 == k;
          assert ps[i].0 == k;
        }
      }
      forall k | exists i :: 0 <= i < |ps| && ps[i].0 == k
        ensures k in Keys(FromPairs(ps))
      {
        var i :| 0 <= i < |ps| && ps[i].0 == k;
        if i < |init| {
          assert init[i].0 == k;
        }
      }
    }
  }

  /** The last assignment to a key wins: its value is the one the dict holds. */
  lemma {:induction false} FromPairsLastWins<V>(ps: seq<(string, V)>, i: nat)
    requires i < |ps|
    requires forall j :: i < j < |ps| ==> ps[j].0 != ps[i].0
    ensures Get(FromPairs(ps), ps[i].0) == Some(ps[i].1)
    decreases |ps|
  {
    var init, last := ps[..|ps| - 1], ps[|ps| - 1];
    FromPairsKeys(init);
    AssignProperties(FromPairs(init), last.0, last.1);
    if i < |ps| - 1 {
      FromPairsLastWins(init, i);
    }
  }

  /** Pairs with distinct keys give a dict holding exactly those pairs, in order. */
  lemma {:induction false} FromDistinctPairs<V>(ps: seq<(string, V)>)
    requires DistinctKeys(ps)
    ensures FromPairs(ps) == ps
    decreases |ps|
  {
    if ps != [] {
      var init, last := ps[..|ps| - 1], ps[|ps| - 1];
      FromDistinctPairs(init);
      forall m | 0 <= m < |init|
        ensures init[m].0 != last.0
      {
        assert ps[m].0 != ps[|ps| - 1].0;
      }
    }
  }
}
