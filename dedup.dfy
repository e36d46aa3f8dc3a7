/** Order-preserving de-duplication by key, the `seen = set(); unique = []` loop
    that every scraper ends with: an element is kept iff no element kept before it
    has the same key. */
module Dedup {

  /** The keys of `xs`, in order. */
  function KeysOf<T, K>(xs: seq<T>, key: T -> K): (r: seq<K>)
    ensures |r| == |xs|
    ensures forall i :: 0 <= i < |xs| ==> r[i] == key(xs[i])
  {
    seq(|xs|, i requires 0 <= i < |xs| => key(xs[i]))
  }

  /** The kept elements of `xs`, defined the way the loop builds them: one element at a time. */
  function Unique<T, K(==)>(xs: seq<T>, key: T -> K): seq<T>
    decreases |xs|
  {
    if xs == [] then []
    else
      var u := Unique(xs[..|xs| - 1], key);
      var x := xs[|xs| - 1];
      if key(x) in KeysOf(u, key) then u else u + [x]
  }

  /** `xs[i]` is the first element of `xs` with its key. */
  predicate IsFirst<T, K(==)>(xs: seq<T>, key: T -> K, i: nat)
    requires i < |xs|
  {
    forall j :: 0 <= j < i ==> key(xs[j]) != key(xs[i])
  }

  /** Reference definition: the elements among the first `n` that are first of their key, in order. */
  function Firsts<T, K(==)>(xs: seq<T>, key: T -> K, n: nat): seq<T>
    requires n <= |xs|
  {
    if n == 0 then []
    else Firsts(xs, key, n - 1) + (if IsFirst(xs, key, n - 1) then [xs[n - 1]] else [])
  }

  /** The keys that are mutually distinct. */
  predicate DistinctKeys<T, K(==)>(xs: seq<T>, key: T -> K) {
    forall i, j :: 0 <= i < j < |xs| ==> key(xs[i]) != key(xs[j])
  }

  lemma KeysOfAppend<T, K>(u: seq<T>, x: T, key: T -> K)
    ensures KeysOf(u + [x], key) == KeysOf(u, key) + [key(x)]
  {
  }

  /** De-duplication loses no key and invents none. */
  lemma {:induction false} UniqueSameKeys<T, K>(xs: seq<T>, key: T -> K, k: K)
    ensures k in KeysOf(Unique(xs, key), key) <==> k in KeysOf(xs, key)
    decreases |xs|
  {
    if xs != [] {
      var init, x := xs[..|xs| - 1], xs[|xs| - 1];
      assert xs == init + [x];
      UniqueSameKeys(init, key, k);
      KeysOfAppend(Unique(init, key), x, key);
      KeysOfAppend(init, x, key);
      if key(x) in KeysOf(Unique(init, key), key) {
        UniqueSameKeys(init, key, key(x));
      }
    }
  }

  /** The kept elements have pairwise distinct keys. */
  lemma {:induction false} UniqueDistinct<T, K>(xs: seq<T>, key: T -> K)
    ensures DistinctKeys(Unique(xs, key), key)
    decreases |xs|
  {
    if xs != [] {
      var init, x := xs[..|xs| - 1], xs[|xs| - 1];
      UniqueDistinct(init, key);
      var u := Unique(init, key);
      if key(x) !in KeysOf(u, key) {
        forall i, j | 0 <= i < j < |u + [x]|
          ensures key((u + [x])[i]) != key((u + [x])[j])
        {
          if j == |u| {
            assert key(u[i]) == KeysOf(u, key)[i];
          }
        }
      }
    }
  }

  /** De-duplication only drops elements: what it keeps comes from the input. */
  lemma {:induction false} UniqueSubset<T, K>(xs: seq<T>, key: T -> K)
    ensures |Unique(xs, key)| <= |xs|
    ensures forall x :: x in Unique(xs, key) ==> x in xs
    decreases |xs|
  {
    if xs != [] {
      var init := xs[..|xs| - 1];
      UniqueSubset(init, key);
      assert forall x :: x in init ==> x in xs;
    }
  }

  /** Two lists with distinct keys and no key in common join into a list with distinct keys. */
  lemma DistinctAppend<T, K>(a: seq<T>, b: seq<T>, key: T -> K)
    requires DistinctKeys(a, key) && DistinctKeys(b, key)
    requires forall i, j :: 0 <= i < |a| && 0 <= j < |b| ==> key(a[i]) != key(b[j])
    ensures DistinctKeys(a + b, key)
  {
    forall i, j | 0 <= i < j < |a + b|
      ensures key((a + b)[i]) != key((a + b)[j])
    {
      if j < |a| {
      } else if i >= |a| {
        assert key(b[i - |a|]) != key(b[j - |a|]);
      } else {
        assert key(a[i]) != key(b[j - |a|]);
      }
    }
  }

  /** The loop keeps exactly the first element of each key, in input order. */
  lemma {:induction false} UniqueIsFirsts<T, K>(xs: seq<T>, key: T -> K, n: nat)
    requires n <= |xs|
    ensures Unique(xs[..n], key) == Firsts(xs, key, n)
  {
    if n > 0 {
      UniqueIsFirsts(xs, key, n - 1);
      var p := xs[..n];
      assert p[..|p| - 1] == xs[..n - 1];
      var x := xs[n - 1];
      UniqueSameKeys(xs[..n - 1], key, key(x));
      if IsFirst(xs, key, n - 1) {
        var ks := KeysOf(xs[..n - 1], key);
        forall j | 0 <= j < n - 1
          ensures ks[j] != key(x)
        {
          assert key(xs[j]) != key(x);
        }
      } else {
        var j :| 0 <= j < n - 1 && key(xs[j]) == key(x);
        assert KeysOf(xs[..n - 1], key)[j] == key(x);
      }
    }
  }

  /** A list whose keys are already distinct is left as it is. */
  lemma {:induction false} UniqueOfDistinct<T, K>(xs: seq<T>, key: T -> K)
    requires DistinctKeys(xs, key)
    ensures Unique(xs, key) == xs
    decreases |xs|
  {
    if xs != [] {
      var init, x := xs[..|xs| - 1], xs[|xs| - 1];
      UniqueOfDistinct(init, key);
      forall j | 0 <= j < |init|
        ensures KeysOf(init, key)[j] != key(x)
      {
        assert key(xs[j]) != key(xs[|xs| - 1]);
      }
    }
  }

  /** `seen = set(); out = []; for x in xs: if key(x) not in seen: seen.add(key(x)); out.append(x)` */
  method UniqueBy<T, K(==)>(xs: seq<T>, key: T -> K) returns (out: seq<T>)
    ensures out == Unique(xs, key)
    ensures DistinctKeys(out, key)
    ensures forall k :: k in KeysOf(out, key) <==> k in KeysOf(xs, key)
  {
    var seen: set<K> := {};
    out := [];
    for i := 0 to |xs|
      invariant out == Unique(xs[..i], key)
      invariant seen == set k | k in KeysOf(out, key)
    {
      var x := xs[i];
      ghost var p := xs[..i + 1];
      assert p[..|p| - 1] == xs[..i] && p[|p| - 1] == x;
      KeysOfAppend(out, x, key);
      if key(x) !in seen {
        seen := seen + {key(x)};
        out := out + [x];
      }
    }
    assert xs[..|xs|] == xs;
    UniqueDistinct(xs, key);
    forall k {
      UniqueSameKeys(xs, key, k);
    }
  }
}
