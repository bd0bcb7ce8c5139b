/** Value semantics of the discovery server's database records
    (cmd/stdiscosrv/database.go): what `merge` and `expire` compute, and the
    join-semilattice laws that make replication order irrelevant. */
module DiscoRecords {
  import opened Bytes

  datatype Entry = Entry(address: Str, expires: int)

  /** The invariant of every address list that enters the database. */
  ghost predicate Sorted(es: seq<Entry>) {
    forall i, j | 0 <= i < j < |es| :: Less(es[i].address, es[j].address)
  }

  function Max(a: int, b: int): int { if a >= b then a else b }

  /** The two-index merge of database.go:399-419, read as a function of the two lists. */
  function MergeLists(a: seq<Entry>, b: seq<Entry>): seq<Entry>
    decreases |a| + |b|
  {
    if b == [] then a
    else if a == [] then b
    else if a[0].address == b[0].address then
      [Entry(a[0].address, Max(a[0].expires, b[0].expires))] + MergeLists(a[1..], b[1..])
    else if Less(a[0].address, b[0].address) then
      [a[0]] + MergeLists(a[1..], b)
    else
      [b[0]] + MergeLists(a, b[1..])
  }

  /** The addresses that `expire` keeps at time `now` (database.go:427-451). */
  function Live(es: seq<Entry>, now: int): seq<Entry> {
    if es == [] then []
    else if es[0].expires < now then Live(es[1..], now)
    else [es[0]] + Live(es[1..], now)
  }

  // ---------------------------------------------------------------- sorted lists

  lemma SortedDistinct(es: seq<Entry>, x: Entry, y: Entry)
    requires Sorted(es) && x in es && y in es && x.address == y.address
    ensures x == y
  {
    var i :| 0 <= i < |es| && es[i] == x;
    var j :| 0 <= j < |es| && es[j] == y;
    LessIrreflexive(x.address);
  }

  lemma SortedHead(es: seq<Entry>, x: Entry)
    requires Sorted(es) && es != []
    ensures x in es <==> x == es[0] || x in es[1..]
    ensures x in es[1..] ==> Less(es[0].address, x.address) && x.address != es[0].address
  {
    assert es == [es[0]] + es[1..];
    if x in es[1..] {
      var i :| 0 <= i < |es[1..]| && es[1..][i] == x;
      assert es[i + 1] == x;
      LessIrreflexive(x.address);
    }
  }

  lemma SortedCons(x: Entry, es: seq<Entry>)
    requires Sorted(es) && forall y | y in es :: Less(x.address, y.address)
    ensures Sorted([x] + es)
  {}

  /** Two sorted lists with the same entries are the same list. */
  lemma {:induction false} SortedUnique(s: seq<Entry>, t: seq<Entry>)
    requires Sorted(s) && Sorted(t)
    requires forall x :: x in s <==> x in t
    ensures s == t
  {
    assert |t| > 0 ==> t[0] in s;
    if s != [] {
      assert s[0] in t && t != [] && t[0] in s;
      SortedHead(s, t[0]);
      SortedHead(t, s[0]);
      if s[0] != t[0] {
        LessAsymmetric(s[0].address, t[0].address);
      }
      forall x ensures x in s[1..] <==> x in t[1..] {
        SortedHead(s, x);
        SortedHead(t, x);
      }
      SortedUnique(s[1..], t[1..]);
    }
  }

  // ---------------------------------------------------------------- merge

  /** What merging promises, without reference to how it is done: `x` survives exactly
      when it is in one of the lists and no entry for its address expires later. */
  ghost predicate Newest(a: seq<Entry>, b: seq<Entry>, x: Entry) {
    && (x in a || x in b)
    && (forall y | y in a && y.address == x.address :: y.expires <= x.expires)
    && (forall y | y in b && y.address == x.address :: y.expires <= x.expires)
  }

  lemma MergeAddresses(a: seq<Entry>, b: seq<Entry>, x: Entry)
    requires x in MergeLists(a, b)
    ensures exists y :: (y in a || y in b) && y.address == x.address
    decreases |a| + |b|
  {
    var m := MergeLists(a, b);
    if a != [] && b != [] {
      var rest := m[1..];
      assert m == [m[0]] + rest;
      if x == m[0] {
        assert a[0] in a && b[0] in b;
      } else if a[0].address == b[0].address {
        MergeAddresses(a[1..], b[1..], x);
      } else if Less(a[0].address, b[0].address) {
        MergeAddresses(a[1..], b, x);
      } else {
        MergeAddresses(a, b[1..], x);
      }
    }
  }

  /** All addresses of `es` come after `k`. */
  ghost predicate Above(k: Str, es: seq<Entry>) {
    forall y | y in es :: Less(k, y.address)
  }

  lemma TailAbove(es: seq<Entry>)
    requires Sorted(es) && es != []
    ensures Above(es[0].address, es[1..]) && Sorted(es[1..])
  {
    forall y | y in es[1..] ensures Less(es[0].address, y.address) {
      SortedHead(es, y);
    }
  }

  lemma ListAbove(k: Str, es: seq<Entry>)
    requires Sorted(es) && es != [] && Less(k, es[0].address)
    ensures Above(k, es)
  {
    forall y | y in es ensures Less(k, y.address) {
      SortedHead(es, y);
      if y != es[0] {
        LessTransitive(k, es[0].address, y.address);
      }
    }
  }

  lemma MergeAbove(k: Str, a: seq<Entry>, b: seq<Entry>)
    requires Above(k, a) && Above(k, b)
    ensures Above(k, MergeLists(a, b))
  {
    forall x | x in MergeLists(a, b) ensures Less(k, x.address) {
      MergeAddresses(a, b, x);
    }
  }

  lemma {:induction false} MergeSorted(a: seq<Entry>, b: seq<Entry>)
    requires Sorted(a) && Sorted(b)
    ensures Sorted(MergeLists(a, b))
    decreases |a| + |b|
  {
    if a != [] && b != [] {
      TailAbove(a);
      TailAbove(b);
      LessTotal(a[0].address, b[0].address);
      if a[0].address == b[0].address {
        MergeSorted(a[1..], b[1..]);
        MergeAbove(a[0].address, a[1..], b[1..]);
        SortedCons(MergeLists(a, b)[0], MergeLists(a[1..], b[1..]));
      } else if Less(a[0].address, b[0].address) {
        MergeSorted(a[1..], b);
        ListAbove(a[0].address, b);
        MergeAbove(a[0].address, a[1..], b);
        SortedCons(a[0], MergeLists(a[1..], b));
      } else {
        MergeSorted(a, b[1..]);
        ListAbove(b[0].address, a);
        MergeAbove(b[0].address, a, b[1..]);
        SortedCons(b[0], MergeLists(a, b[1..]));
      }
    }
  }

  /** Correctness of merge: all addresses of both lists, each with the later of its expiries. */
  lemma {:induction false} MergeNewest(a: seq<Entry>, b: seq<Entry>, x: Entry)
    requires Sorted(a) && Sorted(b)
    ensures x in MergeLists(a, b) <==> Newest(a, b, x)
    decreases |a| + |b|
  {
    if a == [] {
      SortedNewest(b, x);
    } else if b == [] {
      SortedNewest(a, x);
    } else {
      TailAbove(a);
      TailAbove(b);
      LessTotal(a[0].address, b[0].address);
      if a[0].address == b[0].address {
        MergeNewest(a[1..], b[1..], x);
        NewestBoth(a, b, x);
      } else if Less(a[0].address, b[0].address) {
        MergeNewest(a[1..], b, x);
        NewestLeft(a, b, x);
      } else {
        MergeNewest(a, b[1..], x);
        NewestLeft(b, a, x);
      }
    }
  }

  lemma SortedNewest(a: seq<Entry>, x: Entry)
    requires Sorted(a)
    ensures x in a <==> Newest(a, [], x)
    ensures x in a <==> Newest([], a, x)
  {
    forall y | x in a && y in a && y.address == x.address ensures y == x {
      SortedDistinct(a, x, y);
    }
  }

  /** The head of `a` is not in `b`: it survives, and the rest is decided without it. */
  lemma NewestLeft(a: seq<Entry>, b: seq<Entry>, x: Entry)
    requires Sorted(a) && Sorted(b) && a != []
    requires b != [] && Less(a[0].address, b[0].address)
    ensures Newest(a, b, x) <==> x == a[0] || Newest(a[1..], b, x)
  {
    ListAbove(a[0].address, b);
    LessIrreflexive(a[0].address);
    forall y ensures y in a <==> y == a[0] || y in a[1..]
             ensures y in a[1..] ==> y.address != a[0].address
    {
      SortedHead(a, y);
    }
  }

  lemma NewestBoth(a: seq<Entry>, b: seq<Entry>, x: Entry)
    requires Sorted(a) && Sorted(b) && a != [] && b != []
    requires a[0].address == b[0].address
    ensures Newest(a, b, x) <==>
            x == Entry(a[0].address, Max(a[0].expires, b[0].expires)) || Newest(a[1..], b[1..], x)
  {
    forall y ensures y in a <==> y == a[0] || y in a[1..]
             ensures y in a[1..] ==> y.address != a[0].address
             ensures y in b <==> y == b[0] || y in b[1..]
             ensures y in b[1..] ==> y.address != b[0].address
    {
      SortedHead(a, y);
      SortedHead(b, y);
    }
    assert a[0] in a && b[0] in b;
  }

  // ---------------------------------------------------------------- semilattice laws

  lemma MergeCommutative(a: seq<Entry>, b: seq<Entry>)
    requires Sorted(a) && Sorted(b)
    ensures MergeLists(a, b) == MergeLists(b, a)
  {
    MergeSorted(a, b);
    MergeSorted(b, a);
    forall x ensures x in MergeLists(a, b) <==> x in MergeLists(b, a) {
      MergeNewest(a, b, x);
      MergeNewest(b, a, x);
    }
    SortedUnique(MergeLists(a, b), MergeLists(b, a));
  }

  lemma MergeIdempotent(a: seq<Entry>)
    requires Sorted(a)
    ensures MergeLists(a, a) == a
  {
    MergeSorted(a, a);
    forall x ensures x in MergeLists(a, a) <==> x in a {
      MergeNewest(a, a, x);
      SortedNewest(a, x);
    }
    SortedUnique(MergeLists(a, a), a);
  }

  /** Merging what is already there changes nothing: redelivery is harmless. */
  lemma MergeAbsorbs(a: seq<Entry>, b: seq<Entry>)
    requires Sorted(a) && Sorted(b) && forall x | x in a :: x in b
    ensures MergeLists(a, b) == b
  {
    MergeSorted(a, b);
    forall x ensures x in MergeLists(a, b) <==> x in b {
      MergeNewest(a, b, x);
      SortedNewest(b, x);
    }
    SortedUnique(MergeLists(a, b), b);
  }

  /** For every entry, the merged list holds one for the same address that expires no earlier. */
  lemma MergeDominates(a: seq<Entry>, b: seq<Entry>, x: Entry)
    requires Sorted(a) && Sorted(b) && (x in a || x in b)
    ensures exists y :: y in MergeLists(a, b) && y.address == x.address && y.expires >= x.expires
  {
    if y :| y in b && x in a && y.address == x.address && y.expires > x.expires {
      forall z | z in b && z.address == y.address ensures z == y { SortedDistinct(b, y, z); }
      forall z | z in a && z.address == x.address ensures z == x { SortedDistinct(a, x, z); }
      MergeNewest(a, b, y);
    } else if y :| y in a && x in b && y.address == x.address && y.expires > x.expires {
      forall z | z in a && z.address == y.address ensures z == y { SortedDistinct(a, y, z); }
      forall z | z in b && z.address == x.address ensures z == x { SortedDistinct(b, x, z); }
      MergeNewest(a, b, y);
    } else {
      forall z | x in a && z in a && z.address == x.address ensures z == x { SortedDistinct(a, x, z); }
      forall z | x in b && z in b && z.address == x.address ensures z == x { SortedDistinct(b, x, z); }
      MergeNewest(a, b, x);
    }
  }

  lemma MergeOfMerge(a: seq<Entry>, b: seq<Entry>, c: seq<Entry>, x: Entry)
    requires Sorted(a) && Sorted(b) && Sorted(c)
    ensures x in MergeLists(MergeLists(a, b), c) <==>
            && (x in a || x in b || x in c)
            && (forall y | (y in a || y in b || y in c) && y.address == x.address :: y.expires <= x.expires)
  {
    var ab := MergeLists(a, b);
    MergeSorted(a, b);
    MergeNewest(ab, c, x);
    forall y ensures y in ab <==> Newest(a, b, y) { MergeNewest(a, b, y); }
    if Newest(ab, c, x) {
      forall y | (y in a || y in b) && y.address == x.address ensures y.expires <= x.expires {
        MergeDominates(a, b, y);
      }
    }
  }

  lemma MergeAssociative(a: seq<Entry>, b: seq<Entry>, c: seq<Entry>)
    requires Sorted(a) && Sorted(b) && Sorted(c)
    ensures MergeLists(MergeLists(a, b), c) == MergeLists(a, MergeLists(b, c))
  {
    MergeSorted(a, b);
    MergeSorted(b, c);
    MergeCommutative(a, MergeLists(b, c));
    MergeSorted(MergeLists(a, b), c);
    MergeSorted(MergeLists(b, c), a);
    forall x ensures x in MergeLists(MergeLists(a, b), c) <==> x in MergeLists(MergeLists(b, c), a) {
      MergeOfMerge(a, b, c, x);
      MergeOfMerge(b, c, a, x);
    }
    SortedUnique(MergeLists(MergeLists(a, b), c), MergeLists(MergeLists(b, c), a));
  }

  // ---------------------------------------------------------------- expiry

  lemma {:induction false} LiveMember(es: seq<Entry>, now: int, x: Entry)
    ensures x in Live(es, now) <==> x in es && x.expires >= now
  {
    if es != [] {
      assert es == [es[0]] + es[1..];
      LiveMember(es[1..], now, x);
    }
  }

  lemma {:induction false} LiveSorted(es: seq<Entry>, now: int)
    requires Sorted(es)
    ensures Sorted(Live(es, now))
  {
    if es != [] {
      TailAbove(es);
      LiveSorted(es[1..], now);
      forall y | y in Live(es[1..], now) ensures Less(es[0].address, y.address) {
        LiveMember(es[1..], now, y);
      }
      SortedCons(es[0], Live(es[1..], now));
    }
  }

  /** A sweep at an earlier time is invisible at any later time. */
  lemma LiveLater(es: seq<Entry>, t: int, now: int)
    requires Sorted(es) && t <= now
    ensures Live(Live(es, t), now) == Live(es, now)
  {
    LiveSorted(es, t);
    LiveSorted(Live(es, t), now);
    LiveSorted(es, now);
    forall x ensures x in Live(Live(es, t), now) <==> x in Live(es, now) {
      LiveMember(es, t, x);
      LiveMember(Live(es, t), now, x);
      LiveMember(es, now, x);
    }
    SortedUnique(Live(Live(es, t), now), Live(es, now));
  }

  /** Expiry distributes over merging. */
  lemma LiveDistributes(a: seq<Entry>, b: seq<Entry>, now: int)
    requires Sorted(a) && Sorted(b)
    ensures Live(MergeLists(a, b), now) == MergeLists(Live(a, now), Live(b, now))
  {
    LiveSorted(a, now);
    LiveSorted(b, now);
    MergeSorted(a, b);
    LiveSorted(MergeLists(a, b), now);
    MergeSorted(Live(a, now), Live(b, now));
    forall x ensures x in Live(MergeLists(a, b), now) <==> x in MergeLists(Live(a, now), Live(b, now)) {
      LiveMember(MergeLists(a, b), now, x);
      MergeNewest(a, b, x);
      MergeNewest(Live(a, now), Live(b, now), x);
      forall y ensures y in Live(a, now) <==> y in a && y.expires >= now
               ensures y in Live(b, now) <==> y in b && y.expires >= now
      {
        LiveMember(a, now, y);
        LiveMember(b, now, y);
      }
    }
    SortedUnique(Live(MergeLists(a, b), now), MergeLists(Live(a, now), Live(b, now)));
  }
}
