/** The discovery server's in-memory store on the heap (cmd/stdiscosrv/database.go,
    apisrv.go, amqp.go). Address objects are shared by pointer between records; every
    method is proved against the value semantics of DiscoRecords and DiscoReplica. */
module DiscoStore {
  import opened Bytes
  import opened Sorting
  import opened DiscoRecords
  import opened DiscoReplica

  class DatabaseAddress {
    const address: Str
    var expires: int

    constructor (address: Str, expires: int)
      ensures this.address == address && this.expires == expires
    {
      this.address := address;
      this.expires := expires;
    }
  }

  class DatabaseRecord {
    var addresses: seq<DatabaseAddress>
    var seen: int

    constructor (addresses: seq<DatabaseAddress>, seen: int)
      ensures this.addresses == addresses && this.seen == seen
    {
      this.addresses := addresses;
      this.seen := seen;
    }
  }

  /** The values of a list of address objects. */
  ghost function Entries(s: seq<DatabaseAddress>): (es: seq<Entry>)
    reads s
    ensures |es| == |s|
    ensures forall i | 0 <= i < |s| :: es[i] == Entry(s[i].address, s[i].expires)
  {
    seq(|s|, i requires 0 <= i < |s| reads s => Entry(s[i].address, s[i].expires))
  }

  ghost function Value(r: DatabaseRecord): Record
    reads r, r.addresses
  {
    Record(Entries(r.addresses), r.seen)
  }

  lemma SortedObjects(s: seq<DatabaseAddress>)
    requires Sorted(Entries(s))
    ensures Distinct(s)
  {
    forall i, j | 0 <= i < j < |s| ensures s[i] != s[j] {
      assert Less(Entries(s)[i].address, Entries(s)[j].address);
      LessIrreflexive(s[i].address);
    }
  }

  // ---------------------------------------------------------------- merge

  /** The result that the two-index loop is heading for from indices `i` and `j`. */
  ghost function Heading(es: seq<Entry>, i: nat, b: seq<Entry>, j: nat): seq<Entry>
    requires i <= |es| && j <= |b|
  {
    es[..i] + MergeLists(es[i..], b[j..])
  }

  lemma HeadingEqual(es: seq<Entry>, i: nat, b: seq<Entry>, j: nat)
    requires i < |es| && j < |b| && es[i].address == b[j].address
    ensures var e := Entry(es[i].address, Max(es[i].expires, b[j].expires));
            Heading(es[i := e], i + 1, b, j + 1) == Heading(es, i, b, j)
  {
    assert es[i..][1..] == es[i + 1..] && b[j..][1..] == b[j + 1..];
  }

  lemma HeadingLess(es: seq<Entry>, i: nat, b: seq<Entry>, j: nat)
    requires i < |es| && j < |b| && Less(es[i].address, b[j].address)
    ensures Heading(es, i + 1, b, j) == Heading(es, i, b, j)
  {
    assert es[i..][1..] == es[i + 1..];
    LessIrreflexive(es[i].address);
  }

  /** After an insertion the cursor stays on the inserted entry; the next round steps over it. */
  lemma HeadingGreater(es: seq<Entry>, i: nat, b: seq<Entry>, j: nat)
    requires i < |es| && j < |b| && Sorted(b)
    requires es[i].address != b[j].address && !Less(es[i].address, b[j].address)
    ensures Heading(es[..i] + ([b[j]] + es[i..]), i, b, j + 1) == Heading(es, i, b, j)
  {
    var es' := es[..i] + ([b[j]] + es[i..]);
    assert b[j..][1..] == b[j + 1..];
    assert es'[..i] == es[..i] && es'[i..] == [b[j]] + es[i..];
    assert ([b[j]] + es[i..])[1..] == es[i..];
    if j + 1 < |b| {
      assert b[j + 1..][0] == b[j + 1];
      LessIrreflexive(b[j].address);
    }
    assert MergeLists([b[j]] + es[i..], b[j + 1..]) == [b[j]] + MergeLists(es[i..], b[j + 1..]);
    assert MergeLists(es[i..], b[j..]) == [b[j]] + MergeLists(es[i..], b[j + 1..]);
  }

  /** Every object of `s` is one of `own` or already copied from `b[..j]`. */
  ghost predicate Origin(s: seq<DatabaseAddress>, own: seq<DatabaseAddress>, b: seq<DatabaseAddress>, j: nat)
    requires j <= |b|
  {
    forall i | 0 <= i < |s| :: s[i] in own || s[i] in b[..j]
  }

  lemma InsertObjects(s: seq<DatabaseAddress>, i: nat, own: seq<DatabaseAddress>, b: seq<DatabaseAddress>, j: nat)
    requires i <= |s| && j < |b|
    requires Distinct(s) && Distinct(b) && Origin(s, own, b, j)
    requires forall x | x in own :: x !in b
    ensures var s' := s[..i] + ([b[j]] + s[i..]); Distinct(s') && Origin(s', own, b, j + 1)
  {
    assert b[j] in b;
    forall m | 0 <= m < |s| ensures s[m] != b[j] {
      if s[m] in b[..j] {
        var n :| 0 <= n < j && b[n] == s[m];
      }
    }
    assert b[..j + 1] == b[..j] + [b[j]];
  }

  lemma InsertEntries(s: seq<DatabaseAddress>, i: nat, y: DatabaseAddress)
    requires i <= |s|
    ensures var s' := s[..i] + ([y] + s[i..]);
            && (forall x | x in s :: x in s')
            && Entries(s') == Entries(s)[..i] + ([Entry(y.address, y.expires)] + Entries(s)[i..])
  {
    var s' := s[..i] + ([y] + s[i..]);
    assert Entries(s') == Entries(s)[..i] + ([Entry(y.address, y.expires)] + Entries(s)[i..]);
    forall m | 0 <= m < |s| ensures s[m] in s' {
      assert s'[if m < i then m else m + 1] == s[m];
    }
  }

  /** Loop invariant of merge: indices in range, no object of `s` twice or aliased to an
      unread slot of `b`, and the final result still ahead. */
  ghost predicate Ready(s: seq<DatabaseAddress>, i: nat, own: seq<DatabaseAddress>,
                        b: seq<DatabaseAddress>, j: nat, goal: seq<Entry>)
    reads s, b
  {
    && i <= |s| && j <= |b|
    && Distinct(s) && Distinct(b) && Origin(s, own, b, j)
    && (forall x | x in own :: x !in b)
    && Sorted(Entries(b))
    && Heading(Entries(s), i, Entries(b), j) == goal
  }

  /** database.go:403-407: equal addresses, the newer expiry time is written into a's object. */
  method RaiseExpiry(s: seq<DatabaseAddress>, i: nat, b: seq<DatabaseAddress>, j: nat,
                     ghost own: seq<DatabaseAddress>, ghost goal: seq<Entry>)
    requires i < |s| && j < |b| && Ready(s, i, own, b, j, goal) && s[i].address == b[j].address
    modifies own
    ensures forall x | x in b :: x.expires == old(x.expires)
    ensures Ready(s, i + 1, own, b, j + 1, goal)
  {
    ghost var es := Entries(s);
    HeadingEqual(es, i, Entries(b), j);
    OwnObject(s[i], own, b, j);
    assert b[..j + 1] == b[..j] + [b[j]];
    s[i].expires := if s[i].expires >= b[j].expires then s[i].expires else b[j].expires;
    assert Entries(s) == es[i := Entry(s[i].address, s[i].expires)];
  }

  /** The three-way switch of database.go:402-415. */
  method Step(a: DatabaseRecord, aIdx: nat, b: DatabaseRecord, bIdx: nat,
              ghost own: seq<DatabaseAddress>, ghost goal: seq<Entry>)
    returns (aIdx': nat, bIdx': nat)
    requires a != b && Ready(a.addresses, aIdx, own, b.addresses, bIdx, goal)
    requires aIdx < |a.addresses| && bIdx < |b.addresses|
    modifies a`addresses, own
    ensures b.addresses == old(b.addresses) && forall x | x in b.addresses :: x.expires == old(x.expires)
    ensures Ready(a.addresses, aIdx', own, b.addresses, bIdx', goal)
    ensures forall x | x in old(a.addresses) :: x in a.addresses
    ensures |a.addresses| - aIdx' - 2 * bIdx' < old(|a.addresses|) - aIdx - 2 * bIdx
  {
    var x, y := a.addresses[aIdx], b.addresses[bIdx];
    if x.address == y.address {
      RaiseExpiry(a.addresses, aIdx, b.addresses, bIdx, own, goal);
      aIdx', bIdx' := aIdx + 1, bIdx + 1;
    } else if Less(x.address, y.address) {
      HeadingLess(Entries(a.addresses), aIdx, Entries(b.addresses), bIdx);
      aIdx', bIdx' := aIdx + 1, bIdx;
    } else {
      HeadingGreater(Entries(a.addresses), aIdx, Entries(b.addresses), bIdx);
      InsertObjects(a.addresses, aIdx, own, b.addresses, bIdx);
      InsertEntries(a.addresses, aIdx, y);
      a.addresses := a.addresses[..aIdx] + ([y] + a.addresses[aIdx..]);
      aIdx', bIdx' := aIdx, bIdx + 1;
    }
  }

  /** An object with the address at `b[j]` cannot be one copied from before `j`. */
  lemma OwnObject(x: DatabaseAddress, own: seq<DatabaseAddress>, b: seq<DatabaseAddress>, j: nat)
    requires j < |b| && Sorted(Entries(b)) && b[j].address == x.address
    requires x in own || x in b[..j]
    ensures x in own
  {
    if x in b[..j] {
      var n :| 0 <= n < j && b[n] == x;
      assert Less(Entries(b)[n].address, Entries(b)[j].address);
      LessIrreflexive(x.address);
    }
  }

  /** The loop of database.go:399-416. */
  method Walk(a: DatabaseRecord, b: DatabaseRecord, ghost own: seq<DatabaseAddress>, ghost goal: seq<Entry>)
    returns (aIdx: nat, bIdx: nat)
    requires a != b && Ready(a.addresses, 0, own, b.addresses, 0, goal)
    modifies a`addresses, own
    ensures b.addresses == old(b.addresses) && forall x | x in b.addresses :: x.expires == old(x.expires)
    ensures Ready(a.addresses, aIdx, own, b.addresses, bIdx, goal)
    ensures aIdx == |a.addresses| || bIdx == |b.addresses|
    ensures forall x | x in old(a.addresses) :: x in a.addresses
  {
    aIdx, bIdx := 0, 0;
    while aIdx < |a.addresses| && bIdx < |b.addresses|
      invariant b.addresses == old(b.addresses) && forall x | x in b.addresses :: x.expires == old(x.expires)
      invariant forall x | x in old(a.addresses) :: x in a.addresses
      invariant Ready(a.addresses, aIdx, own, b.addresses, bIdx, goal)
      decreases |a.addresses| - aIdx + 2 * (|b.addresses| - bIdx)
    {
      aIdx, bIdx := Step(a, aIdx, b, bIdx, own, goal);
    }
  }

  /** database.go:399-419: the address list of `a` becomes the merged list. */
  method MergeAddresses(a: DatabaseRecord, b: DatabaseRecord)
    requires a != b
    requires Sorted(Entries(a.addresses)) && Sorted(Entries(b.addresses))
    requires forall x | x in a.addresses :: x !in b.addresses
    modifies a`addresses, a.addresses
    ensures Entries(a.addresses) == MergeLists(old(Entries(a.addresses)), old(Entries(b.addresses)))
    ensures forall x | x in a.addresses :: x in old(a.addresses) || x in b.addresses
    ensures forall x | x in old(a.addresses) :: x in a.addresses
    ensures b.addresses == old(b.addresses) && forall x | x in b.addresses :: x.expires == old(x.expires)
  {
    ghost var own := a.addresses;
    ghost var goal := MergeLists(Entries(a.addresses), Entries(b.addresses));
    ReadyAtFirst(own, b.addresses);
    var aIdx, bIdx := Walk(a, b, own, goal);
    AppendRest(a, aIdx, b, bIdx, own, goal);
  }

  lemma ReadyAtFirst(s: seq<DatabaseAddress>, b: seq<DatabaseAddress>)
    requires Sorted(Entries(s)) && Sorted(Entries(b)) && forall x | x in s :: x !in b
    ensures Ready(s, 0, s, b, 0, MergeLists(Entries(s), Entries(b)))
  {
    SortedObjects(s);
    SortedObjects(b);
  }

  /** database.go:417-419 */
  method AppendRest(a: DatabaseRecord, aIdx: nat, b: DatabaseRecord, bIdx: nat,
                    ghost own: seq<DatabaseAddress>, ghost goal: seq<Entry>)
    requires a != b && Ready(a.addresses, aIdx, own, b.addresses, bIdx, goal)
    requires aIdx == |a.addresses| || bIdx == |b.addresses|
    modifies a`addresses
    ensures Entries(a.addresses) == goal
    ensures forall x | x in a.addresses :: x in own || x in b.addresses
    ensures forall x | x in old(a.addresses) :: x in a.addresses
    ensures b.addresses == old(b.addresses)
  {
    FinishMerge(a.addresses, aIdx, own, b.addresses, bIdx, goal);
    if bIdx < |b.addresses| {
      a.addresses := a.addresses + b.addresses[bIdx..];
    }
  }

  /** database.go:394-422. The list of `a` is overwritten and reused for the result; `b` is
      only read, and its objects end up shared in `a`. */
  method MergeRecords(a: DatabaseRecord, b: DatabaseRecord) returns (r: DatabaseRecord)
    requires a != b
    requires Sorted(Entries(a.addresses)) && Sorted(Entries(b.addresses))
    requires forall x | x in a.addresses :: x !in b.addresses
    modifies a, a.addresses
    ensures r == a
    ensures a.seen == Max(old(a.seen), old(b.seen))
    ensures Entries(a.addresses) == MergeLists(old(Entries(a.addresses)), old(Entries(b.addresses)))
    ensures Sorted(Entries(a.addresses))
    ensures forall x | x in a.addresses :: x in old(a.addresses) || x in b.addresses
    ensures forall x | x in old(a.addresses) :: x in a.addresses
    ensures unchanged(b) && forall x | x in b.addresses :: x.expires == old(x.expires)
  {
    MergeSorted(Entries(a.addresses), Entries(b.addresses));
    a.seen := if a.seen >= b.seen then a.seen else b.seen;
    MergeAddresses(a, b);
    return a;
  }

  lemma FinishMerge(s: seq<DatabaseAddress>, i: nat, own: seq<DatabaseAddress>,
                    b: seq<DatabaseAddress>, j: nat, goal: seq<Entry>)
    requires Ready(s, i, own, b, j, goal) && (i == |s| || j == |b|)
    ensures var r := if j < |b| then s + b[j..] else s;
            Entries(r) == goal && forall x | x in r :: x in own || x in b
  {
    var es, bs := Entries(s), Entries(b);
    if j < |b| {
      assert Entries(s + b[j..]) == es + bs[j..];
      assert es[i..] == [] && es[..i] == es;
    } else {
      assert bs[j..] == [] && es == es[..i] + es[i..];
    }
  }

  // ---------------------------------------------------------------- expire

  lemma {:induction false} LiveAppend(es: seq<Entry>, x: Entry, now: int)
    ensures Live(es + [x], now) == Live(es, now) + if x.expires < now then [] else [x]
  {
    if es == [] {
      assert [x][1..] == [];
    } else {
      assert (es + [x])[1..] == es[1..] + [x];
      LiveAppend(es[1..], x, now);
    }
  }

  lemma EntriesPrefix(s: seq<DatabaseAddress>, i: nat)
    requires i < |s|
    ensures Entries(s[..i + 1]) == Entries(s[..i]) + [Entry(s[i].address, s[i].expires)]
  {}

  /** database.go:427-451: a counting pass, then a copying pass only if something expired. */
  method Expire(addrs: seq<DatabaseAddress>, now: int) returns (result: seq<DatabaseAddress>, changed: bool)
    ensures Entries(result) == Live(Entries(addrs), now)
    ensures changed <==> exists x :: x in addrs && x.expires < now
    ensures !changed ==> result == addrs
    ensures forall x | x in result :: x in addrs
  {
    var remains;
    remains, changed := CountLive(addrs, now);
    if !changed {
      return addrs, false;
    }
    if remains == 0 {
      return [], true;
    }
    result := CopyLive(addrs, now);
  }

  /** database.go:429-436 */
  method CountLive(addrs: seq<DatabaseAddress>, now: int) returns (remains: nat, changed: bool)
    ensures remains == |Live(Entries(addrs), now)|
    ensures changed <==> exists x :: x in addrs && x.expires < now
    ensures !changed ==> Live(Entries(addrs), now) == Entries(addrs)
  {
    remains, changed := 0, false;
    for i := 0 to |addrs|
      invariant remains == |Live(Entries(addrs[..i]), now)|
      invariant changed <==> exists j :: 0 <= j < i && addrs[j].expires < now
      invariant !changed ==> Live(Entries(addrs[..i]), now) == Entries(addrs[..i])
    {
      EntriesPrefix(addrs, i);
      LiveAppend(Entries(addrs[..i]), Entry(addrs[i].address, addrs[i].expires), now);
      if addrs[i].expires < now {
        changed := true;
      } else {
        remains := remains + 1;
      }
    }
    assert addrs[..|addrs|] == addrs;
  }

  /** database.go:444-450 */
  method CopyLive(addrs: seq<DatabaseAddress>, now: int) returns (result: seq<DatabaseAddress>)
    ensures Entries(result) == Live(Entries(addrs), now)
    ensures forall x | x in result :: x in addrs
  {
    result := [];
    for i := 0 to |addrs|
      invariant Entries(result) == Live(Entries(addrs[..i]), now)
      invariant forall x | x in result :: x in addrs
    {
      EntriesPrefix(addrs, i);
      LiveAppend(Entries(addrs[..i]), Entry(addrs[i].address, addrs[i].expires), now);
      if addrs[i].expires >= now {
        result := result + [addrs[i]];
      }
    }
    assert addrs[..|addrs|] == addrs;
  }

  // ---------------------------------------------------------------- the store

  /** The record has the given value, and its address objects are among `addresses`. */
  ghost predicate Holds(r: DatabaseRecord, value: Record, addresses: set<DatabaseAddress>)
    reads r, addresses
  {
    && (forall x | x in r.addresses :: x in addresses)
    && Value(r) == value && Sorted(value.addresses)
  }

  class InMemoryStore {
    var m: map<DeviceID, DatabaseRecord>
    /** The contents, as values. */
    ghost var Contents: Store
    /** Every record and every address object that is or has been stored. */
    ghost var Records: set<DatabaseRecord>
    ghost var Addresses: set<DatabaseAddress>

    ghost predicate Valid()
      reads this, Records, Addresses
    {
      && m.Keys == Contents.Keys
      && forall k | k in m :: m[k] in Records && Holds(m[k], Contents[k], Addresses)
    }

    constructor ()
      ensures Valid() && Contents == map[] && Records == {} && Addresses == {}
    {
      m, Contents, Records, Addresses := map[], map[], {}, {};
    }

    /** database.go:99-105, also the `Store` calls on the concurrent map. */
    method Put(key: DeviceID, rec: DatabaseRecord)
      requires Valid() && Sorted(Entries(rec.addresses))
      modifies this
      ensures Valid() && Contents == old(Contents)[key := old(Value(rec))]
      ensures m == old(m)[key := rec]
      ensures Records == old(Records) + {rec}
      ensures Addresses == old(Addresses) + set x | x in rec.addresses
    {
      m, Contents := m[key := rec], Contents[key := Value(rec)];
      Records, Addresses := Records + {rec}, Addresses + set x | x in rec.addresses;
    }

    method Delete(key: DeviceID)
      requires Valid()
      modifies this
      ensures Valid() && Contents == old(Contents) - {key}
      ensures m == old(m) - {key} && Records == old(Records) && Addresses == old(Addresses)
    {
      m, Contents := m - {key}, Contents - {key};
    }

    /** database.go:107-124. Nothing ever stored is written to: a record handed out by Get keeps
        its contents whatever is merged later. */
    method Merge(key: DeviceID, addrs: seq<DatabaseAddress>, seen: int)
      requires Valid() && Sorted(Entries(addrs))
      requires forall x | x in addrs :: x !in Addresses
      modifies this, addrs
      ensures Valid()
      ensures Contents == Merged(old(Contents), key, Record(old(Entries(addrs)), seen))
      ensures old(Records) <= Records && old(Addresses) <= Addresses
      ensures key in m && forall x | x in addrs :: x in m[key].addresses
    {
      var newRec := new DatabaseRecord(addrs, seen);
      if key in m {
        newRec := MergeRecords(newRec, m[key]);
      }
      Put(key, newRec);
    }

    /** database.go:126-147 */
    method Get(key: DeviceID, now: int) returns (rec: DatabaseRecord)
      requires Valid()
      ensures Value(rec) == DiscoReplica.Get(Contents, key, now)
    {
      if key !in m {
        rec := new DatabaseRecord([], 0);
        return;
      }
      rec := m[key];
      var naddresses, changed := Expire(rec.addresses, now);
      if changed {
        rec := new DatabaseRecord(naddresses, rec.seen);
      }
    }

    /** The effect of database.go:180-240 on the map; the keys are visited in any order. */
    method ExpireAndCalculateStatistics(now: int)
      requires Valid()
      modifies this
      ensures Valid()
      ensures Contents == Swept(old(Contents), now)
      ensures old(Records) <= Records && old(Addresses) <= Addresses
    {
      var todo := m.Keys;
      while todo != {}
        invariant Valid() && old(Records) <= Records && old(Addresses) <= Addresses && todo <= m.Keys
        invariant Contents == PartlySwept(old(Contents), todo, now)
        decreases |todo|
      {
        var key :| key in todo;
        SweepKey(key, now);
        PartlySweptStep(old(Contents), todo, key, now);
        todo := todo - {key};
      }
      PartlySweptDone(old(Contents), now);
    }

    /** One visit of the sweep, database.go:193-238. */
    method SweepKey(key: DeviceID, now: int)
      requires Valid() && key in m
      modifies this
      ensures Valid() && old(Records) <= Records && old(Addresses) <= Addresses && old(m).Keys - {key} <= m.Keys
      ensures Contents == if Survives(old(Contents)[key], now)
                          then old(Contents)[key := Expired(old(Contents)[key], now)]
                          else old(Contents) - {key}
    {
      ghost var value, swept := Contents[key], Expired(Contents[key], now);
      var rec := m[key];
      LiveSorted(value.addresses, now);
      var addresses, changed := Expire(rec.addresses, now);
      if changed {
        rec := new DatabaseRecord(addresses, rec.seen);
        Put(key, rec);
      }
      assert Contents == old(Contents)[key := swept];
      assert |rec.addresses| == |swept.addresses| && rec.seen == swept.seen;
      UpdateThenDelete(old(Contents), key, swept);
      if |rec.addresses| == 0 && rec.seen <= now - WEEK {
        Delete(key);
      }
    }
  }

  lemma UpdateThenDelete(s: Store, key: DeviceID, rec: Record)
    ensures s[key := rec] - {key} == s - {key}
  {}

  /** A sweep that still has the devices in `todo` to visit. */
  ghost function PartlySwept(s: Store, todo: set<DeviceID>, now: int): Store {
    map k | k in s && (k in todo || Survives(s[k], now)) :: if k in todo then s[k] else Expired(s[k], now)
  }

  lemma PartlySweptStep(s: Store, todo: set<DeviceID>, key: DeviceID, now: int)
    requires key in todo && key in s
    ensures var p := PartlySwept(s, todo, now);
            && p[key] == s[key]
            && PartlySwept(s, todo - {key}, now) ==
               if Survives(s[key], now) then p[key := Expired(s[key], now)] else p - {key}
  {}

  lemma PartlySweptDone(s: Store, now: int)
    ensures PartlySwept(s, {}, now) == Swept(s, now)
  {}
}
