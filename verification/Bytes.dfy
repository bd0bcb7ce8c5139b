/** Go strings are byte sequences, and `cmp.Compare`, `strings.Compare` and
    `bytes.Compare` order them lexicographically by byte. */
module Bytes {
  import opened Sorting

  newtype byte = i: int | 0 <= i < 256

  type Str = seq<byte>

  /** `cmp.Compare(a, b) == -1` */
  predicate Less(a: Str, b: Str)
    decreases |a|
  {
    && b != []
    && (a == [] || a[0] < b[0] || (a[0] == b[0] && Less(a[1..], b[1..])))
  }

  lemma {:induction false} LessIrreflexive(a: Str)
    ensures !Less(a, a)
    decreases |a|
  {
    if a != [] {
      LessIrreflexive(a[1..]);
    }
  }

  lemma {:induction false} LessTransitive(a: Str, b: Str, c: Str)
    requires Less(a, b) && Less(b, c)
    ensures Less(a, c)
    decreases |a|
  {
    if a != [] && a[0] == b[0] == c[0] {
      LessTransitive(a[1..], b[1..], c[1..]);
    }
  }

  lemma LessAsymmetric(a: Str, b: Str)
    requires Less(a, b)
    ensures !Less(b, a) && a != b
  {
    LessIrreflexive(a);
    if Less(b, a) {
      LessTransitive(a, b, a);
    }
  }

  /** Any two strings are comparable, so `cmp.Compare` returns 0 exactly on equal strings. */
  lemma {:induction false} LessTotal(a: Str, b: Str)
    ensures Less(a, b) || a == b || Less(b, a)
    decreases |a|
  {
    if a != [] && b != [] && a[0] == b[0] {
      LessTotal(a[1..], b[1..]);
      assert a == [a[0]] + a[1..] && b == [b[0]] + b[1..];
    }
  }

  /** A list of strings in strictly ascending order, hence without duplicates. */
  ghost predicate Ascending(s: seq<Str>) {
    forall i, j | 0 <= i < j < |s| :: Less(s[i], s[j])
  }

  /** A strictly ascending list is determined by the set of its elements. */
  lemma {:induction false} AscendingUnique(s: seq<Str>, t: seq<Str>)
    requires Ascending(s) && Ascending(t)
    requires forall x :: x in s <==> x in t
    ensures s == t
  {
    assert |t| > 0 ==> t[0] in s;
    if s != [] {
      assert s[0] in s && s[0] in t;
      assert t[0] in t && t[0] in s;
      var i :| 0 <= i < |t| && t[i] == s[0];
      var j :| 0 <= j < |s| && s[j] == t[0];
      if i > 0 && j > 0 {
        LessAsymmetric(t[0], t[i]);
      }
      assert s[0] == t[0];
      LessIrreflexive(s[0]);
      forall x ensures x in s[1..] <==> x in t[1..] {
        assert x in s <==> x == s[0] || x in s[1..] by { assert s == [s[0]] + s[1..]; }
        assert x in t <==> x == t[0] || x in t[1..] by { assert t == [t[0]] + t[1..]; }
      }
      AscendingUnique(s[1..], t[1..]);
    }
  }

  /** The order of `slices.Sort` on strings. */
  predicate LessOrEqual(a: Str, b: Str) { Less(a, b) || a == b }

  lemma LessOrEqualTotal()
    ensures Total(LessOrEqual)
  {
    forall x, y ensures LessOrEqual(x, y) || LessOrEqual(y, x) { LessTotal(x, y); }
    forall x, y, z | LessOrEqual(x, y) && LessOrEqual(y, z) ensures LessOrEqual(x, z) {
      if Less(x, y) && Less(y, z) { LessTransitive(x, y, z); }
    }
  }

  /** Sorting and compacting a list of strings yields the ascending list of its elements. */
  function SortedStrings(s: seq<Str>): seq<Str> {
    Compact((a, b) => a == b, Sort(LessOrEqual, s))
  }

  lemma {:induction false} CompactAscending(s: seq<Str>)
    requires Ordered(LessOrEqual, s)
    ensures var c := Compact((a, b) => a == b, s);
            Ascending(c) && (forall x :: x in c <==> x in s) && (s != [] ==> c != [] && c[0] == s[0])
    decreases |s|
  {
    var eq := (a: Str, b: Str) => a == b;
    if |s| >= 2 {
      if s[0] == s[1] {
        var s' := [s[0]] + s[2..];
        assert s == [s[0]] + ([s[1]] + s[2..]);
        CompactAscending(s');
      } else {
        assert s == [s[0]] + s[1..];
        CompactAscending(s[1..]);
        var c := Compact(eq, s[1..]);
        forall j | 0 <= j < |c| ensures Less(s[0], c[j]) {
          assert LessOrEqual(s[0], s[1]);
          if j > 0 { LessTransitive(s[0], c[0], c[j]); }
        }
      }
    }
  }

  lemma SortedStringsAscending(s: seq<Str>)
    ensures Ascending(SortedStrings(s)) && forall x :: x in SortedStrings(s) <==> x in s
  {
    LessOrEqualTotal();
    SortOrdered(LessOrEqual, s);
    SortPermutes(LessOrEqual, s);
    CompactAscending(Sort(LessOrEqual, s));
  }
}
