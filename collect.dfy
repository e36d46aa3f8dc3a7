/** The loop shape the scrapers share: read each element in order, keep what it
    yields, skip the element when it yields nothing. */
module Collect {
  import opened Wrappers

  /** The values `f` yields over `xs`, in order. */
  function FilterMap<A, B>(xs: seq<A>, f: A -> Option<B>): seq<B>
    decreases |xs|
  {
    if xs == [] then []
    else
      var init := FilterMap(xs[..|xs| - 1], f);
      match f(xs[|xs| - 1])
      case Some(y) => init + [y]
      case None => init
  }

  /** No more values than elements, and each value comes from some element, in order of the elements. */
  lemma {:induction false} FilterMapFrom<A, B>(xs: seq<A>, f: A -> Option<B>)
    ensures |FilterMap(xs, f)| <= |xs|
    ensures forall y :: y in FilterMap(xs, f) ==> exists i :: 0 <= i < |xs| && f(xs[i]) == Some(y)
    decreases |xs|
  {
    if xs != [] {
      var init := xs[..|xs| - 1];
      FilterMapFrom(init, f);
      forall y | y in FilterMap(xs, f)
        ensures exists i :: 0 <= i < |xs| && f(xs[i]) == Some(y)
      {
        if y in FilterMap(init, f) {
          var i :| 0 <= i < |init| && f(init[i]) == Some(y);
          assert f(xs[i]) == Some(y);
        }
      }
    }
  }

  /** Nothing is lost: every value an element yields is kept. */
  lemma {:induction false} FilterMapKeeps<A, B>(xs: seq<A>, f: A -> Option<B>, i: nat)
    requires i < |xs| && f(xs[i]).Some?
    ensures f(xs[i]).value in FilterMap(xs, f)
    decreases |xs|
  {
    if i < |xs| - 1 {
      var init := xs[..|xs| - 1];
      assert init[i] == xs[i];
      FilterMapKeeps(init, f, i);
    }
  }

  /** One more element read: its value, if any, goes at the end. */
  lemma FilterMapSnoc<A, B>(xs: seq<A>, i: nat, f: A -> Option<B>)
    requires i < |xs|
    ensures FilterMap(xs[..i + 1], f) == FilterMap(xs[..i], f) + (if f(xs[i]).Some? then [f(xs[i]).value] else [])
  {
    assert xs[..i + 1][..i] == xs[..i];
  }

  /** The values `f` yields over the positions and elements of `xs`, in order
      (`for i, x in enumerate(xs)`). */
  function FilterMapIndexed<A, B>(xs: seq<A>, f: (nat, A) -> Option<B>): seq<B>
    decreases |xs|
  {
    if xs == [] then []
    else
      var n := |xs| - 1;
      var init := FilterMapIndexed(xs[..n], f);
      match f(n, xs[n])
      case Some(y) => init + [y]
      case None => init
  }

  /** One more position read: its value, if any, goes at the end. */
  lemma FilterMapIndexedSnoc<A, B>(xs: seq<A>, i: nat, f: (nat, A) -> Option<B>)
    requires i < |xs|
    ensures FilterMapIndexed(xs[..i + 1], f) == FilterMapIndexed(xs[..i], f) + (if f(i, xs[i]).Some? then [f(i, xs[i]).value] else [])
  {
    assert xs[..i + 1][..i] == xs[..i];
  }

  /** Nothing is lost: every value a position yields is kept. */
  lemma {:induction false} FilterMapIndexedKeeps<A, B>(xs: seq<A>, f: (nat, A) -> Option<B>, i: nat)
    requires i < |xs| && f(i, xs[i]).Some?
    ensures f(i, xs[i]).value in FilterMapIndexed(xs, f)
    decreases |xs|
  {
    if i < |xs| - 1 {
      var init := xs[..|xs| - 1];
      assert init[i] == xs[i];
      FilterMapIndexedKeeps(init, f, i);
    }
  }

  /** When every value records the position it came from (`pos`), each value is what its
      position yields, and the positions strictly increase. */
  lemma {:induction false} FilterMapIndexedPositions<A, B>(xs: seq<A>, f: (nat, A) -> Option<B>, pos: B -> int)
    requires forall i: nat, x: A :: f(i, x).Some? ==> pos(f(i, x).value) == i
    ensures forall k :: 0 <= k < |FilterMapIndexed(xs, f)| ==>
      0 <= pos(FilterMapIndexed(xs, f)[k]) < |xs| && f(pos(FilterMapIndexed(xs, f)[k]), xs[pos(FilterMapIndexed(xs, f)[k])]) == Some(FilterMapIndexed(xs, f)[k])
    ensures forall j, k :: 0 <= j < k < |FilterMapIndexed(xs, f)| ==> pos(FilterMapIndexed(xs, f)[j]) < pos(FilterMapIndexed(xs, f)[k])
    decreases |xs|
  {
    if xs != [] {
      var n := |xs| - 1;
      var init := xs[..n];
      FilterMapIndexedPositions(init, f, pos);
      var before := FilterMapIndexed(init, f);
      forall k | 0 <= k < |before|
        ensures 0 <= pos(before[k]) < n && f(pos(before[k]), xs[pos(before[k])]) == Some(before[k])
      {
        assert 0 <= pos(before[k]) < n && f(pos(before[k]), init[pos(before[k])]) == Some(before[k]);
        assert xs[pos(before[k])] == init[pos(before[k])];
      }
    }
  }

  /** `out = []; for x in xs: y = f(x); if y: out.append(y)` */
  method CollectAll<A, B>(xs: seq<A>, f: A -> Option<B>) returns (out: seq<B>)
    ensures out == FilterMap(xs, f)
  {
    out := [];
    for i := 0 to |xs|
      invariant out == FilterMap(xs[..i], f)
    {
      assert xs[..i + 1][..i] == xs[..i];
      var y := f(xs[i]);
      if y.Some? {
        out := out + [y.value];
      }
    }
    assert xs[..|xs|] == xs;
  }

  /** The first index of `xs` whose element satisfies `p`. */
  function FirstWhere<A>(xs: seq<A>, p: A -> bool): (r: Option<nat>)
    ensures r.Some? ==> r.value < |xs| && p(xs[r.value]) && forall j :: 0 <= j < r.value ==> !p(xs[j])
    ensures r.None? ==> forall j :: 0 <= j < |xs| ==> !p(xs[j])
    decreases |xs|
  {
    if xs == [] then None
    else if p(xs[0]) then Some(0)
    else match FirstWhere(xs[1..], p)
      case Some(k) => Some(k + 1)
      case None => None
  }

  /** A first match stays first when an element is appended. */
  lemma FirstWhereAppendFound<A>(init: seq<A>, x: A, p: A -> bool, k: nat)
    requires FirstWhere(init, p) == Some(k)
    ensures FirstWhere(init + [x], p) == Some(k)
  {
    var xs := init + [x];
    assert xs[k] == init[k];
    assert forall j :: 0 <= j < k ==> xs[j] == init[j];
  }

  /** Without a match so far, the appended element is the first match if it is one. */
  lemma FirstWhereAppendNone<A>(init: seq<A>, x: A, p: A -> bool)
    requires FirstWhere(init, p).None?
    ensures FirstWhere(init + [x], p) == if p(x) then Some(|init|) else None
  {
    var xs := init + [x];
    assert xs[|init|] == x;
    assert forall j :: 0 <= j < |init| ==> xs[j] == init[j];
  }

  /** What `f` yields for the first element that passes `ok` and yields something. */
  function FirstYield<A, B>(xs: seq<A>, ok: A -> bool, f: A -> Option<B>): (r: Option<B>)
    ensures r.Some? ==>
      exists k :: 0 <= k < |xs| && ok(xs[k]) && f(xs[k]) == r && forall j :: 0 <= j < k ==> !ok(xs[j]) || f(xs[j]).None?
    ensures r.None? ==> forall j :: 0 <= j < |xs| ==> !ok(xs[j]) || f(xs[j]).None?
    decreases |xs|
  {
    if xs == [] then None
    else if ok(xs[0]) && f(xs[0]).Some? then f(xs[0])
    else
      var r := FirstYield(xs[1..], ok, f);
      assert forall j :: 1 <= j < |xs| ==> xs[j] == xs[1..][j - 1];
      r
  }

  /** `for x in xs: if not ok(x): continue; y = f(x); if y: return y` */
  method FindFirst<A, B>(xs: seq<A>, ok: A -> bool, f: A -> Option<B>) returns (r: Option<B>)
    ensures r == FirstYield(xs, ok, f)
  {
    var i := 0;
    while i < |xs|
      invariant 0 <= i <= |xs|
      invariant FirstYield(xs[i..], ok, f) == FirstYield(xs, ok, f)
    {
      assert xs[i..][1..] == xs[i + 1..];
      if !ok(xs[i]) {
        i := i + 1;
        continue;
      }
      var y := f(xs[i]);
      if y.Some? {
        return y;
      }
      i := i + 1;
    }
    return None;
  }

  /** A left fold over `xs` from `init` that stops stepping once `stop` holds of the state:
      the search that breaks out of its loop when it has found enough. */
  function StopFold<S, E>(xs: seq<E>, init: S, step: (S, E) -> S, stop: S -> bool): S
    decreases |xs|
  {
    if xs == [] then init
    else
      var st := StopFold(xs[..|xs| - 1], init, step, stop);
      if stop(st) then st else step(st, xs[|xs| - 1])
  }

  /** One more element: a step, unless the fold has stopped. */
  lemma StopFoldSnoc<S, E>(xs: seq<E>, i: nat, init: S, step: (S, E) -> S, stop: S -> bool)
    requires i < |xs|
    ensures var st := StopFold(xs[..i], init, step, stop);
      StopFold(xs[..i + 1], init, step, stop) == if stop(st) then st else step(st, xs[i])
  {
    var ys := xs[..i + 1];
    assert ys[..|ys| - 1] == xs[..i];
  }

  /** Once stopped, later elements change nothing. */
  lemma {:induction false} StopFoldStopped<S, E>(xs: seq<E>, i: nat, j: nat, init: S, step: (S, E) -> S, stop: S -> bool)
    requires i <= j <= |xs| && stop(StopFold(xs[..i], init, step, stop))
    ensures StopFold(xs[..j], init, step, stop) == StopFold(xs[..i], init, step, stop)
    decreases j
  {
    if j > i {
      StopFoldStopped(xs, i, j - 1, init, step, stop);
      StopFoldSnoc(xs, j - 1, init, step, stop);
    }
  }

  /** A property of the state that every step taken before stopping preserves holds from
      the prefix where it first holds onwards. */
  lemma {:induction false} StopFoldKeeps<S, E>(xs: seq<E>, i: nat, j: nat, init: S, step: (S, E) -> S, stop: S -> bool, inv: S -> bool)
    requires i <= j <= |xs| && inv(StopFold(xs[..i], init, step, stop))
    requires forall s, k :: 0 <= k < |xs| && inv(s) && !stop(s) ==> inv(step(s, xs[k]))
    ensures inv(StopFold(xs[..j], init, step, stop))
    decreases j
  {
    if j > i {
      StopFoldKeeps(xs, i, j - 1, init, step, stop, inv);
      StopFoldSnoc(xs, j - 1, init, step, stop);
    }
  }
}
