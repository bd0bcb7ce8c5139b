/** The discovery server's merge on Go slices (cmd/stdiscosrv/database.go:394-422): which backing
    arrays are written. A slice is an array, whose length is the capacity, and a length; what lies
    beyond the length is never read. */
module DiscoSlices {
  import opened Bytes
  import opened DiscoRecords
  import opened DiscoStore
  import opened DiscoServer

  datatype Slice = Slice(arr: array<DatabaseAddress>, len: nat) {
    predicate Valid() { len <= arr.Length }

    function View(): seq<DatabaseAddress>
      reads arr
      requires Valid()
    {
      arr[..len]
    }
  }

  /** `append(s[:i], t...)`: in place exactly if the capacity suffices. */
  method Append(s: Slice, i: nat, t: seq<DatabaseAddress>) returns (r: Slice)
    requires s.Valid() && i <= s.len
    modifies s.arr
    ensures r.Valid() && r.View() == old(s.arr[..i]) + t
    ensures if i + |t| <= s.arr.Length then r.arr == s.arr else fresh(r.arr) && s.arr[..] == old(s.arr[..])
  {
    if i + |t| <= s.arr.Length {
      forall j | 0 <= j < |t| { s.arr[i + j] := t[j]; }
      r := Slice(s.arr, i + |t|);
      assert r.View()[i..] == t && r.View()[..i] == old(s.arr[..i]);
    } else {
      var content := s.arr[..i] + t;
      var extra: nat :| |content| + extra >= |content|;
      var arr := new DatabaseAddress[|content| + extra](k requires 0 <= k => if k < |content| then content[k] else content[0]);
      assert arr[..|content|] == content;
      r := Slice(arr, |content|);
    }
  }

  /** The slots of `a` before the merge, while it has no spare capacity, and `cur` now. */
  ghost predicate Untouched(a: Slice, slots: seq<DatabaseAddress>, cur: Slice)
    reads a.arr
    requires a.Valid()
  {
    a.len == a.arr.Length ==> a.arr[..] == slots && (cur.arr == a.arr ==> cur.len == a.len)
  }

  /** `cur` is still in the array of `a` exactly if it has always fitted. */
  ghost predicate Housed(a: Slice, cur: Slice) {
    cur.arr == a.arr <==> cur.len <= a.arr.Length
  }

  /** The insertion of database.go:412-414. */
  method Insert(a: Slice, cur: Slice, i: nat, y: DatabaseAddress, ghost slots: seq<DatabaseAddress>) returns (r: Slice)
    requires a.Valid() && cur.Valid() && i <= cur.len && a.len <= cur.len && Housed(a, cur) && Untouched(a, slots, cur)
    modifies cur.arr
    ensures r.Valid() && r.View() == old(cur.View()[..i] + ([y] + cur.View()[i..]))
    ensures r.arr == cur.arr || fresh(r.arr)
    ensures r.len == cur.len + 1 && Housed(a, r) && Untouched(a, slots, r)
  {
    ghost var before := cur.View();
    r := Append(cur, i, [y] + cur.arr[i..cur.len]);
    assert before[..i] == old(cur.arr[..i]) && before[i..] == old(cur.arr[i..cur.len]);
  }

  /** What merging from `a` and `b` keeps while it stands at `cur`. */
  ghost predicate Going(a: Slice, slots: seq<DatabaseAddress>, cur: Slice, b: Slice, i: nat, j: nat,
                        own: seq<DatabaseAddress>, goal: seq<Entry>)
    reads a.arr, cur.arr, b.arr, if cur.Valid() then cur.View() else [], if b.Valid() then b.View() else []
  {
    && a.Valid() && cur.Valid() && b.Valid() && a.len <= cur.len
    && a.arr != b.arr && cur.arr != b.arr
    && Housed(a, cur) && Untouched(a, slots, cur)
    && Ready(cur.View(), i, own, b.View(), j, goal)
    && forall x | x in own :: x in cur.View()
  }

  /** The three-way switch of database.go:402-415. */
  method Step(a: Slice, cur: Slice, b: Slice, i: nat, j: nat,
              ghost slots: seq<DatabaseAddress>, ghost own: seq<DatabaseAddress>, ghost goal: seq<Entry>)
    returns (r: Slice, i': nat, j': nat)
    requires Going(a, slots, cur, b, i, j, own, goal) && i < cur.len && j < b.len
    modifies cur.arr, own
    ensures Going(a, slots, r, b, i', j', own, goal)
    ensures r.arr == cur.arr || fresh(r.arr)
    ensures b.arr[..] == old(b.arr[..]) && forall x | x in b.View() :: x.expires == old(x.expires)
    ensures r.len - i' + 2 * (b.len - j') < cur.len - i + 2 * (b.len - j)
  {
    var x, y := cur.arr[i], b.arr[j];
    if x.address == y.address {
      RaiseStep(a, cur, b, i, j, slots, own, goal);
      r, i', j' := cur, i + 1, j + 1;
    } else if Less(x.address, y.address) {
      LessStep(a, cur, b, i, j, slots, own, goal);
      r, i', j' := cur, i + 1, j;
    } else {
      r := InsertStep(a, cur, b, i, j, slots, own, goal);
      i', j' := i, j + 1;
    }
  }

  lemma LessStep(a: Slice, cur: Slice, b: Slice, i: nat, j: nat,
                 slots: seq<DatabaseAddress>, own: seq<DatabaseAddress>, goal: seq<Entry>)
    requires Going(a, slots, cur, b, i, j, own, goal) && i < cur.len && j < b.len
    requires Less(cur.arr[i].address, b.arr[j].address)
    ensures Going(a, slots, cur, b, i + 1, j, own, goal)
  {
    HeadingLess(Entries(cur.View()), i, Entries(b.View()), j);
  }

  method RaiseStep(a: Slice, cur: Slice, b: Slice, i: nat, j: nat,
                   ghost slots: seq<DatabaseAddress>, ghost own: seq<DatabaseAddress>, ghost goal: seq<Entry>)
    requires Going(a, slots, cur, b, i, j, own, goal) && i < cur.len && j < b.len
    requires cur.arr[i].address == b.arr[j].address
    modifies own
    ensures Going(a, slots, cur, b, i + 1, j + 1, own, goal)
    ensures b.arr[..] == old(b.arr[..]) && forall x | x in b.View() :: x.expires == old(x.expires)
  {
    RaiseExpiry(cur.View(), i, b.View(), j, own, goal);
  }

  method InsertStep(a: Slice, cur: Slice, b: Slice, i: nat, j: nat,
                    ghost slots: seq<DatabaseAddress>, ghost own: seq<DatabaseAddress>, ghost goal: seq<Entry>)
    returns (r: Slice)
    requires Going(a, slots, cur, b, i, j, own, goal) && i < cur.len && j < b.len
    requires cur.arr[i].address != b.arr[j].address && !Less(cur.arr[i].address, b.arr[j].address)
    modifies cur.arr
    ensures Going(a, slots, r, b, i, j + 1, own, goal)
    ensures r.arr == cur.arr || fresh(r.arr)
    ensures b.arr[..] == old(b.arr[..]) && r.len == cur.len + 1
    ensures forall x | x in b.View() :: x.expires == old(x.expires)
  {
    ghost var s, t := cur.View(), b.View();
    HeadingGreater(Entries(s), i, Entries(t), j);
    InsertObjects(s, i, own, t, j);
    InsertEntries(s, i, t[j]);
    r := Insert(a, cur, i, b.arr[j], slots);
    assert r.View() == s[..i] + ([t[j]] + s[i..]) && b.View() == t;
  }

  /** The loop of database.go:399-416. */
  method Walk(a: Slice, b: Slice, ghost slots: seq<DatabaseAddress>, ghost own: seq<DatabaseAddress>, ghost goal: seq<Entry>)
    returns (cur: Slice, i: nat, j: nat)
    requires Going(a, slots, a, b, 0, 0, own, goal)
    modifies a.arr, own
    ensures Going(a, slots, cur, b, i, j, own, goal) && (i == cur.len || j == b.len)
    ensures cur.arr == a.arr || fresh(cur.arr)
    ensures b.arr[..] == old(b.arr[..]) && forall x | x in b.View() :: x.expires == old(x.expires)
  {
    cur, i, j := a, 0, 0;
    while i < cur.len && j < b.len
      invariant Going(a, slots, cur, b, i, j, own, goal)
      invariant cur.arr == a.arr || fresh(cur.arr)
      invariant b.arr[..] == old(b.arr[..]) && forall x | x in b.View() :: x.expires == old(x.expires)
      decreases cur.len - i + 2 * (b.len - j)
    {
      cur, i, j := Step(a, cur, b, i, j, slots, own, goal);
    }
  }

  /** database.go:417-419 */
  method AppendRest(a: Slice, cur: Slice, b: Slice, i: nat, j: nat,
                    ghost slots: seq<DatabaseAddress>, ghost own: seq<DatabaseAddress>, ghost goal: seq<Entry>)
    returns (r: Slice)
    requires Going(a, slots, cur, b, i, j, own, goal) && (i == cur.len || j == b.len)
    modifies cur.arr
    ensures r.Valid() && Entries(r.View()) == goal && a.len <= r.len && forall x | x in own :: x in r.View()
    ensures r.arr == cur.arr || fresh(r.arr)
    ensures Housed(a, r) && Untouched(a, slots, r) && b.arr[..] == old(b.arr[..])
  {
    ghost var all := cur.View() + b.View()[j..];
    RestFacts(cur.View(), i, own, b.View(), j, goal);
    assert b.View()[j..] == b.arr[j..b.len];
    r := cur;
    if j < b.len {
      r := AppendTail(a, cur, b.arr[j..b.len], slots);
    }
    assert r.View() == all;
  }

  lemma RestFacts(s: seq<DatabaseAddress>, i: nat, own: seq<DatabaseAddress>,
                  b: seq<DatabaseAddress>, j: nat, goal: seq<Entry>)
    requires Ready(s, i, own, b, j, goal) && (i == |s| || j == |b|) && forall x | x in own :: x in s
    ensures Entries(s + b[j..]) == goal && forall x | x in own :: x in s + b[j..]
  {
    FinishMerge(s, i, own, b, j, goal);
    assert j == |b| ==> s + b[j..] == s;
  }

  method AppendTail(a: Slice, cur: Slice, tail: seq<DatabaseAddress>, ghost slots: seq<DatabaseAddress>) returns (r: Slice)
    requires a.Valid() && cur.Valid() && a.len <= cur.len && Housed(a, cur) && Untouched(a, slots, cur) && tail != []
    modifies cur.arr
    ensures r.Valid() && r.View() == old(cur.View()) + tail
    ensures r.arr == cur.arr || fresh(r.arr)
    ensures a.len <= r.len && Housed(a, r) && Untouched(a, slots, r)
  {
    r := Append(cur, cur.len, tail);
    assert old(cur.arr[..cur.len]) == old(cur.View());
  }

  /** database.go:394-422 on slices. Only the array of `a` is written, and only while the result
      fits into it; the array and objects of `b` are not. If `a` has no spare capacity, as a slice
      made to length has none (apisrv.go:315), none of its slots changes: whoever shares it, as the
      record queued for replication does, still sees the addresses announced. */
  method MergeSlices(a: Slice, b: Slice) returns (r: Slice)
    requires a.Valid() && b.Valid() && a.arr != b.arr
    requires Sorted(Entries(a.View())) && Sorted(Entries(b.View()))
    requires forall x | x in a.View() :: x !in b.View()
    modifies a.arr, a.View()
    ensures r.Valid() && Entries(r.View()) == MergeLists(old(Entries(a.View())), old(Entries(b.View())))
    ensures forall x | x in old(a.View()) :: x in r.View()
    ensures b.arr[..] == old(b.arr[..]) && forall x | x in b.View() :: x.expires == old(x.expires)
    ensures if r.len <= a.arr.Length then r.arr == a.arr else fresh(r.arr)
    ensures a.len == a.arr.Length ==> a.arr[..] == old(a.arr[..])
  {
    ghost var own, slots := a.View(), a.arr[..];
    ghost var goal := MergeLists(Entries(a.View()), Entries(b.View()));
    ReadyAtFirst(a.View(), b.View());
    var cur, i, j := Walk(a, b, slots, own, goal);
    r := AppendRest(a, cur, b, i, j, slots, own, goal);
  }

  /** apisrv.go:315-328 for a device that is stored: the slice is made to length, queued for
      replication and merged. What is queued stays the list of the names announced, each with the
      expiry that is stored; the list that was stored is only read. */
  method Announce(names: seq<Str>, expires: int, stored: Slice) returns (queued: Slice, r: Slice)
    requires Ascending(names) && stored.Valid() && Sorted(Entries(stored.View()))
    ensures queued.Valid() && fresh(queued.arr) && r.Valid() && stored.Valid()
    ensures Backed(Entries(queued.View()), names, Entries(r.View()))
    ensures Entries(r.View()) == MergeLists(Announcement(names, expires), old(Entries(stored.View())))
    ensures forall x :: x in Entries(r.View()) <==> AfterAnnouncing(old(Entries(stored.View())), names, expires, x)
    ensures stored.arr[..] == old(stored.arr[..])
  {
    ghost var before := Entries(stored.View());
    AnnouncingMerges(names, expires, before);
    var addrs := Materialize(Announcement(names, expires));
    var arr := new DatabaseAddress[|addrs|](i requires 0 <= i < |addrs| => addrs[i]);
    queued := Slice(arr, |addrs|);
    assert queued.View() == addrs && arr[..] == addrs;
    assert Entries(stored.View()) == before;
    r := MergeSlices(queued, stored);
    assert queued.View() == addrs;
    SharedValues(addrs, r.View(), names);
  }

  /** With spare capacity the slots do change: here the only one, as seen through a shared slice. */
  method SpareCapacityOverwrites(x: DatabaseAddress, y: DatabaseAddress) returns (shared: Slice, r: Slice)
    requires x != y && Less(y.address, x.address)
    modifies x
    ensures shared.Valid() && shared.len == 1 && r.Valid()
    ensures shared.View()[0].address == y.address
  {
    var arr := new DatabaseAddress[2](k => x);
    var other := new DatabaseAddress[1](k => y);
    shared := Slice(arr, 1);
    var b := Slice(other, 1);
    assert shared.View() == [x] && b.View() == [y];
    LessAsymmetric(y.address, x.address);
    ghost var es, fs := Entries(shared.View()), Entries(b.View());
    assert es == [Entry(x.address, x.expires)] && fs == [Entry(y.address, y.expires)];
    assert es[1..] == [] && fs[1..] == [];
    assert MergeLists(es, fs) == [fs[0]] + MergeLists(es, fs[1..]);
    r := MergeSlices(shared, b);
    assert Entries(r.View())[0] == fs[0];
    assert r.View()[0] == shared.View()[0];
  }
}
