/** The purity-tier lookup shared by both copies of the sizing engine: the
    keys of a table row are sorted ascending and folded from the left by
    `reduce`, which replaces its current choice only when a later key is
    strictly closer to the requested purity. */
module Nearest {
  import opened Numbers

  function Dist(a: real, b: real): real
  {
    Abs(a - b)
  }

  predicate StrictlySorted(s: seq<real>)
  {
    forall i, j | 0 <= i < j < |s| :: s[i] < s[j]
  }

  /** k is a key nearest to target, and the lowest of the keys that are that
      near. */
  predicate IsClosest(keys: seq<real>, target: real, k: real)
  {
    && k in keys
    && (forall j | j in keys :: Dist(k, target) <= Dist(j, target))
    && (forall j | j in keys && Dist(j, target) == Dist(k, target) :: k <= j)
  }

  /** The callback given to `reduce`: the nearer of the two, keeping the
      earlier one unless the later one is strictly nearer. */
  function Closer(prev: real, curr: real, target: real): (r: real)
    ensures r == prev || r == curr
    ensures Dist(r, target) <= Dist(prev, target) && Dist(r, target) <= Dist(curr, target)
    ensures Dist(curr, target) == Dist(prev, target) ==> r == prev
  {
    if Dist(curr, target) < Dist(prev, target) then curr else prev
  }

  /** `rest.reduce(Closer, acc)`: a left fold from the accumulator acc. */
  function FoldCloser(acc: real, rest: seq<real>, target: real): (r: real)
    ensures r == acc || r in rest
    ensures Dist(r, target) <= Dist(acc, target)
    ensures forall k | k in rest :: Dist(r, target) <= Dist(k, target)
    decreases |rest|
  {
    if rest == [] then acc
    else FoldCloser(Closer(acc, rest[0], target), rest[1..], target)
  }

  /** `keys.reduce(Closer)` without a seed: the first key is the seed. */
  function ClosestKey(keys: seq<real>, target: real): (r: real)
    requires |keys| > 0
    ensures r in keys
    ensures forall k | k in keys :: Dist(r, target) <= Dist(k, target)
  {
    assert keys == [keys[0]] + keys[1..];
    FoldCloser(keys[0], keys[1..], target)
  }

  /** Over keys in ascending order, the fold keeps the earliest (lowest) of
      the keys at the least distance. */
  lemma {:induction false} FoldPrefersLower(acc: real, rest: seq<real>, target: real)
    requires forall k | k in rest :: acc < k
    requires StrictlySorted(rest)
    decreases |rest|
    ensures forall k | (k == acc || k in rest) && Dist(k, target) == Dist(FoldCloser(acc, rest, target), target)
              :: FoldCloser(acc, rest, target) <= k
  {
    if rest != [] {
      var next := Closer(acc, rest[0], target);
      var tail := rest[1..];
      assert forall k | k in tail :: next < k by {
        forall k | k in tail ensures next < k {
          var i :| 0 <= i < |tail| && tail[i] == k;
          assert rest[0] < rest[i + 1] && rest[i + 1] in rest;
        }
      }
      assert StrictlySorted(tail) by {
        forall i, j | 0 <= i < j < |tail| ensures tail[i] < tail[j] {
          assert rest[i + 1] < rest[j + 1];
        }
      }
      FoldPrefersLower(next, tail, target);
      var r := FoldCloser(acc, rest, target);
      assert r == FoldCloser(next, tail, target);
      forall k | (k == acc || k in rest) && Dist(k, target) == Dist(r, target)
        ensures r <= k
      {
        if k == rest[0] && next != rest[0] {
          assert !(Dist(rest[0], target) < Dist(acc, target));
          assert Dist(acc, target) <= Dist(rest[0], target);
          assert next == acc;
        }
      }
    }
  }

  lemma ClosestKeyIsClosest(keys: seq<real>, target: real)
    requires |keys| > 0 && StrictlySorted(keys)
    ensures IsClosest(keys, target, ClosestKey(keys, target))
  {
    assert forall k | k in keys[1..] :: keys[0] < k by {
      forall k | k in keys[1..] ensures keys[0] < k {
        var i :| 0 <= i < |keys[1..]| && keys[1..][i] == k;
        assert keys[0] < keys[i + 1];
      }
    }
    assert StrictlySorted(keys[1..]) by {
      forall i, j | 0 <= i < j < |keys[1..]| ensures keys[1..][i] < keys[1..][j] {
        assert keys[i + 1] < keys[j + 1];
      }
    }
    FoldPrefersLower(keys[0], keys[1..], target);
    assert keys == [keys[0]] + keys[1..];
  }

  /** No key is listed twice: the keys of a JavaScript object. */
  predicate Distinct(s: seq<real>)
  {
    forall i, j | 0 <= i < j < |s| :: s[i] != s[j]
  }

  lemma TailSorted(s: seq<real>)
    requires StrictlySorted(s) && |s| > 0
    ensures StrictlySorted(s[1..])
    ensures forall y | y in s[1..] :: s[0] < y
  {
    forall i, j | 0 <= i < j < |s[1..]| ensures s[1..][i] < s[1..][j] {
      assert s[i + 1] < s[j + 1];
    }
    forall y | y in s[1..] ensures s[0] < y {
      var i :| 0 <= i < |s[1..]| && s[1..][i] == y;
      assert s[i + 1] == y;
    }
  }

  lemma ConsSorted(a: real, r: seq<real>)
    requires StrictlySorted(r) && forall y | y in r :: a < y
    ensures StrictlySorted([a] + r)
  {
    forall i, j | 0 <= i < j < |[a] + r| ensures ([a] + r)[i] < ([a] + r)[j] {
      if i > 0 {
        assert ([a] + r)[i] == r[i - 1];
      }
      assert ([a] + r)[j] == r[j - 1];
      assert r[j - 1] in r;
    }
  }

  /** x put into its place in the ascending list s. */
  function Insert(x: real, s: seq<real>): (r: seq<real>)
    requires StrictlySorted(s) && x !in s
    ensures StrictlySorted(r)
    ensures |r| == |s| + 1
    ensures forall y :: y in r <==> y == x || y in s
    decreases |s|
  {
    if s == [] || x < s[0] then
      ConsSorted(x, s);
      [x] + s
    else
      assert s == [s[0]] + s[1..];
      TailSorted(s);
      var rest := Insert(x, s[1..]);
      ConsSorted(s[0], rest);
      [s[0]] + rest
  }

  /** `.sort((a, b) => a - b)` on distinct keys: the same keys, as many of
      them (so, the keys being distinct, a permutation), in strictly
      ascending order. */
  function SortAscending(s: seq<real>): (r: seq<real>)
    requires Distinct(s)
    ensures StrictlySorted(r)
    ensures |r| == |s|
    ensures forall y :: y in r <==> y in s
    decreases |s|
  {
    if s == [] then []
    else
      assert s == [s[0]] + s[1..];
      var rest := SortAscending(s[1..]);
      assert forall i | 0 <= i < |s[1..]| :: s[1..][i] != s[0] by {
        forall i | 0 <= i < |s[1..]| ensures s[1..][i] != s[0] {
          assert s[1..][i] == s[i + 1];
        }
      }
      Insert(s[0], rest)
  }

  /** The purity tier chosen for a row: its keys sorted ascending, then
      reduced to the nearest one. */
  function NearestKey(keys: seq<real>, target: real): (k: real)
    requires |keys| > 0 && Distinct(keys)
    ensures IsClosest(keys, target, k)
  {
    var sorted := SortAscending(keys);
    ClosestKeyIsClosest(sorted, target);
    ClosestKey(sorted, target)
  }

  /** At most one key is the nearest and lowest. */
  lemma ClosestIsUnique(keys: seq<real>, target: real, a: real, b: real)
    requires IsClosest(keys, target, a) && IsClosest(keys, target, b)
    ensures a == b
  {
  }

  /** NearestKey picks exactly the key that is nearest to the target and
      lowest among the equally near ones. */
  lemma NearestKeyCharacterized(keys: seq<real>, target: real, k: real)
    requires |keys| > 0 && Distinct(keys)
    ensures k == NearestKey(keys, target) <==> IsClosest(keys, target, k)
  {
    if IsClosest(keys, target, k) {
      ClosestIsUnique(keys, target, k, NearestKey(keys, target));
    }
  }

  /** A requested purity that is itself a key selects that key. */
  lemma NearestOfKeyIsKey(keys: seq<real>, target: real)
    requires Distinct(keys) && target in keys
    ensures NearestKey(keys, target) == target
  {
    var k := NearestKey(keys, target);
    assert Dist(target, target) == 0.0;
    assert Dist(k, target) <= 0.0;
  }

  /** Requesting a higher purity never selects a lower key. */
  lemma NearestKeyMonotone(keys: seq<real>, u: real, v: real)
    requires |keys| > 0 && Distinct(keys) && u <= v
    ensures NearestKey(keys, u) <= NearestKey(keys, v)
  {
  }

  /** The order in which the keys are listed does not matter: any two
      listings of the same distinct keys select the same key. (JavaScript
      lists integer-like property names first, so `Object.keys` need not
      follow the order the row was written in.) */
  lemma KeyOrderIrrelevant(a: seq<real>, b: seq<real>, target: real)
    requires |a| > 0 && |b| > 0 && Distinct(a) && Distinct(b)
    requires forall k :: k in a <==> k in b
    ensures NearestKey(a, target) == NearestKey(b, target)
  {
    var k := NearestKey(a, target);
    assert k in b;
    forall j | j in b ensures Dist(k, target) <= Dist(j, target) {
      assert j in a;
    }
    forall j | j in b && Dist(j, target) == Dist(k, target) ensures k <= j {
      assert j in a;
    }
    ClosestIsUnique(b, target, k, NearestKey(b, target));
  }

  /** Adding keys that lie above k and are no nearer to target than k keeps
      k the nearest key. */
  lemma ClosestAmongMoreKeys(keys: seq<real>, more: seq<real>, target: real, k: real)
    requires IsClosest(keys, target, k)
    requires forall j | j in more :: k < j && Dist(k, target) <= Dist(j, target)
    ensures IsClosest(keys + more, target, k)
  {
  }
}
