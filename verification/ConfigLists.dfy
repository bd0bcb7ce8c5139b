/** The list clean-up loops of the configuration (lib/config/config.go:520-602): swap-removal
    with the last element, and order-preserving removal. */
module ConfigLists {
  import opened Sorting

  /** A scan that removes an element judged bad, given the ones kept before it, by moving the
      last element into its place and judging that one next. */
  function SwapDrop<T>(bad: (T, seq<T>) -> bool, s: seq<T>, i: nat): seq<T>
    requires i <= |s|
    decreases |s| - i
  {
    if i == |s| then s
    else if bad(s[i], s[..i]) then SwapDrop(bad, s[i := s[|s| - 1]][..|s| - 1], i)
    else SwapDrop(bad, s, i + 1)
  }

  ghost predicate Clean<T>(bad: (T, seq<T>) -> bool, s: seq<T>, n: nat)
    requires n <= |s|
  {
    forall k | 0 <= k < n :: !bad(s[k], s[..k])
  }

  /** `x` is in the result, or was bad given what was kept before it. */
  ghost predicate Accounted<T>(bad: (T, seq<T>) -> bool, r: seq<T>, x: T) {
    x in r || exists k | 0 <= k <= |r| :: bad(x, r[..k])
  }

  lemma CleanUpdate<T>(bad: (T, seq<T>) -> bool, s: seq<T>, t: seq<T>, n: nat)
    requires n <= |s| && n <= |t| && s[..n] == t[..n] && Clean(bad, s, n)
    ensures Clean(bad, t, n)
  {
    forall k | 0 <= k < n ensures !bad(t[k], t[..k]) {
      assert t[..k] == t[..n][..k] == s[..n][..k] == s[..k];
      assert t[k] == t[..n][k] == s[..n][k] == s[k];
    }
  }

  /** What remains is clean, comes from the list, and leaves nothing out that was not bad. */
  lemma {:induction false} SwapDropFacts<T>(bad: (T, seq<T>) -> bool, s: seq<T>, i: nat)
    requires i <= |s| && Clean(bad, s, i)
    ensures var r := SwapDrop(bad, s, i);
            && |r| >= i && r[..i] == s[..i]
            && Clean(bad, r, |r|)
            && (forall x | x in r :: x in s)
            && (forall x | x in s :: Accounted(bad, r, x))
    decreases |s| - i
  {
    if i < |s| {
      if bad(s[i], s[..i]) {
        var n := |s| - 1;
        var t := s[i := s[n]][..n];
        assert t[..i] == s[..i];
        CleanUpdate(bad, s, t, i);
        SwapDropFacts(bad, t, i);
        var r := SwapDrop(bad, t, i);
        assert forall j | 0 <= j < n :: t[j] == s[if j == i then n else j];
        forall x | x in s ensures Accounted(bad, r, x) {
          var j :| 0 <= j < |s| && s[j] == x;
          if j == i {
            assert bad(x, r[..i]);
          } else {
            assert t[if j == n then i else j] == x;
          }
        }
      } else {
        SwapDropFacts(bad, s, i + 1);
        var r := SwapDrop(bad, s, i + 1);
        assert r[..i] == r[..i + 1][..i] == s[..i];
      }
    } else {
      assert s[..|s|] == s;
    }
  }

  /** A clean list is left alone. */
  lemma {:induction false} SwapDropFixed<T>(bad: (T, seq<T>) -> bool, s: seq<T>, i: nat)
    requires i <= |s| && Clean(bad, s, |s|)
    ensures SwapDrop(bad, s, i) == s
    decreases |s| - i
  {
    if i < |s| {
      SwapDropFixed(bad, s, i + 1);
    }
  }

  /** Order-preserving removal. */
  function Filter<T>(keep: T -> bool, s: seq<T>): seq<T> {
    if s == [] then [] else (if keep(s[0]) then [s[0]] else []) + Filter(keep, s[1..])
  }

  lemma {:induction false} FilterMember<T>(keep: T -> bool, s: seq<T>, x: T)
    ensures x in Filter(keep, s) <==> x in s && keep(x)
  {
    if s != [] {
      FilterMember(keep, s[1..], x);
      assert s == [s[0]] + s[1..];
    }
  }

  lemma {:induction false} FilterFixed<T>(keep: T -> bool, s: seq<T>)
    requires forall x | x in s :: keep(x)
    ensures Filter(keep, s) == s
  {
    if s != [] {
      FilterFixed(keep, s[1..]);
      assert s == [s[0]] + s[1..];
    }
  }

  lemma {:induction false} FilterConcat<T>(keep: T -> bool, a: seq<T>, b: seq<T>)
    ensures Filter(keep, a + b) == Filter(keep, a) + Filter(keep, b)
  {
    if a == [] {
      assert a + b == b;
    } else {
      var fa, fb := Filter(keep, a[1..]), Filter(keep, b);
      FilterConcat(keep, a[1..], b);
      assert (a + b)[1..] == a[1..] + b && (a + b)[0] == a[0];
      assert ([a[0]] + fa) + fb == [a[0]] + (fa + fb) && ([] + fa) + fb == [] + (fa + fb);
    }
  }

  lemma {:induction false} FilterDistinctBy<T, K>(keep: T -> bool, key: T -> K, s: seq<T>)
    requires DistinctBy(key, s)
    ensures DistinctBy(key, Filter(keep, s))
  {
    if s != [] {
      FilterDistinctBy(keep, key, s[1..]);
      var r := Filter(keep, s[1..]);
      forall j | 0 <= j < |r| ensures key(s[0]) != key(r[j]) {
        FilterMember(keep, s[1..], r[j]);
        var i :| 0 <= i < |s[1..]| && s[1..][i] == r[j];
        assert s[i + 1] == r[j];
      }
    }
  }
}
