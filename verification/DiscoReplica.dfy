/** A discovery replica as the history of what it has merged and when it has swept
    (cmd/stdiscosrv/database.go), and the convergence of any two replicas. */
module DiscoReplica {
  import opened Bytes
  import opened DiscoRecords

  type DeviceID = id: seq<byte> | |id| == 32 witness seq(32, i => 0)

  datatype Record = Record(addresses: seq<Entry>, seen: int)

  type Store = map<DeviceID, Record>

  /** Nanoseconds in a week, after which an addressless record is dropped. */
  const WEEK: int := 7 * 24 * 3600 * 1_000_000_000

  ghost predicate WellFormed(s: Store) {
    forall k | k in s :: Sorted(s[k].addresses)
  }

  /** `inMemoryStore.merge`: the stored record is merged into the new one. */
  function Merged(s: Store, key: DeviceID, rec: Record): Store {
    s[key := if key in s
             then Record(MergeLists(rec.addresses, s[key].addresses), Max(rec.seen, s[key].seen))
             else rec]
  }

  function Expired(rec: Record, now: int): Record {
    Record(Live(rec.addresses, now), rec.seen)
  }

  /** A record survives the sweep if it has an address left or was seen within a week. */
  predicate Survives(rec: Record, now: int) {
    Live(rec.addresses, now) != [] || rec.seen > now - WEEK
  }

  /** `expireAndCalculateStatistics` */
  function Swept(s: Store, now: int): Store {
    map k | k in s && Survives(s[k], now) :: Expired(s[k], now)
  }

  /** `inMemoryStore.get`: an unknown device yields the empty record. */
  function Get(s: Store, key: DeviceID, now: int): Record {
    if key in s then Expired(s[key], now) else Record([], 0)
  }

  // ---------------------------------------------------------------- runs

  datatype Op = Merge(key: DeviceID, rec: Record) | Sweep(now: int)

  function Apply(s: Store, op: Op): Store {
    match op
    case Merge(key, rec) => Merged(s, key, rec)
    case Sweep(now) => Swept(s, now)
  }

  /** The store after a run from the empty store. */
  function Run(ops: seq<Op>): Store {
    if ops == [] then map[] else Apply(Run(ops[..|ops| - 1]), ops[|ops| - 1])
  }

  /** Announcements carry strictly sorted address lists (apisrv.go:310-313). */
  ghost predicate Legal(ops: seq<Op>) {
    forall i | 0 <= i < |ops| && ops[i].Merge? :: Sorted(ops[i].rec.addresses)
  }

  ghost predicate SweptBy(ops: seq<Op>, now: int) {
    forall i | 0 <= i < |ops| && ops[i].Sweep? :: ops[i].now <= now
  }

  /** The records a run has merged for a device, as a set: order and repetition are lost. */
  ghost function Announced(ops: seq<Op>, key: DeviceID): set<Record> {
    set i | 0 <= i < |ops| && ops[i].Merge? && ops[i].key == key :: ops[i].rec
  }

  /** The reference answer: `x` was announced and no announcement of its address expires later. */
  ghost predicate Best(rs: set<Record>, x: Entry) {
    && (exists r :: r in rs && x in r.addresses)
    && (forall r, y | r in rs && y in r.addresses && y.address == x.address :: y.expires <= x.expires)
  }

  lemma AnnouncedStep(ops: seq<Op>, key: DeviceID)
    requires ops != []
    ensures var (init, last) := (ops[..|ops| - 1], ops[|ops| - 1]);
            Announced(ops, key) == Announced(init, key) + (if last.Merge? && last.key == key then {last.rec} else {})
  {
    var init, last := ops[..|ops| - 1], ops[|ops| - 1];
    forall r | r in Announced(ops, key)
      ensures r in Announced(init, key) || (last.Merge? && last.key == key && r == last.rec)
    {
      var i :| 0 <= i < |ops| && ops[i].Merge? && ops[i].key == key && ops[i].rec == r;
      if i < |init| { assert init[i].rec == r; }
    }
    forall r | r in Announced(init, key) ensures r in Announced(ops, key) {
      var i :| 0 <= i < |init| && init[i].Merge? && init[i].key == key && init[i].rec == r;
      assert ops[i].rec == r;
    }
    assert last.Merge? && last.key == key ==> ops[|ops| - 1].rec in Announced(ops, key);
  }

  lemma {:induction false} RunWellFormed(ops: seq<Op>)
    requires Legal(ops)
    ensures WellFormed(Run(ops))
  {
    if ops != [] {
      var init, last := ops[..|ops| - 1], ops[|ops| - 1];
      RunWellFormed(init);
      var s := Run(init);
      match last {
        case Merge(key, rec) =>
          if key in s { MergeSorted(rec.addresses, s[key].addresses); }
        case Sweep(now) =>
          forall k | k in s ensures Sorted(Live(s[k].addresses, now)) { LiveSorted(s[k].addresses, now); }
      }
    }
  }

  /** `get` answers exactly the reference answer, whatever the order of the merges and
      however sweeps at earlier times were interleaved with them. */
  lemma {:induction false} GetIsBest(ops: seq<Op>, key: DeviceID, now: int, x: Entry)
    requires Legal(ops) && SweptBy(ops, now)
    ensures x in Get(Run(ops), key, now).addresses <==> x.expires >= now && Best(Announced(ops, key), x)
    decreases |ops|, 0
  {
    if ops != [] {
      var init, last := ops[..|ops| - 1], ops[|ops| - 1];
      var s := Run(init);
      RunWellFormed(init);
      AnnouncedStep(ops, key);
      match last {
        case Merge(k, rec) =>
          if k == key {
            MergeStep(init, rec, key, now, x);
          } else {
            GetIsBest(init, key, now, x);
          }
        case Sweep(t) =>
          GetIsBest(init, key, now, x);
          if key in s {
            LiveLater(s[key].addresses, t, now);
          }
      }
    }
  }

  lemma {:induction false} MergeStep(ops: seq<Op>, rec: Record, key: DeviceID, now: int, x: Entry)
    requires Legal(ops) && SweptBy(ops, now) && Sorted(rec.addresses)
    ensures x in Get(Merged(Run(ops), key, rec), key, now).addresses <==>
            x.expires >= now && Best(Announced(ops, key) + {rec}, x)
    decreases |ops|, 1
  {
    var s := Run(ops);
    var old' := Get(s, key, now).addresses;
    RunWellFormed(ops);
    forall y ensures y in old' <==> y.expires >= now && Best(Announced(ops, key), y) {
      GetIsBest(ops, key, now, y);
    }
    forall y ensures y in Live(rec.addresses, now) <==> y in rec.addresses && y.expires >= now {
      LiveMember(rec.addresses, now, y);
    }
    LiveSorted(rec.addresses, now);
    if key in s {
      LiveDistributes(rec.addresses, s[key].addresses, now);
      LiveSorted(s[key].addresses, now);
    }
    assert Get(Merged(s, key, rec), key, now).addresses == MergeLists(Live(rec.addresses, now), old');
    MergeNewest(Live(rec.addresses, now), old', x);
    AnnouncedSorted(ops, key);
    BestOfUnion(Announced(ops, key), rec, Live(rec.addresses, now), old', now, x);
  }

  /** Among the announcements of an address there is one that expires last. */
  lemma {:induction false} BestExists(rs: set<Record>, y: Entry) returns (z: Entry)
    requires forall r | r in rs :: Sorted(r.addresses)
    requires exists r :: r in rs && y in r.addresses
    ensures Best(rs, z) && z.address == y.address && z.expires >= y.expires
    decreases |rs|
  {
    var r :| r in rs && y in r.addresses;
    var rest := rs - {r};
    z := y;
    if r', y' :| r' in rest && y' in r'.addresses && y'.address == y.address {
      var z' := BestExists(rest, y');
      if z'.expires > z.expires {
        z := z';
      }
      assert rs == rest + {r};
    }
    forall y' | y' in r.addresses && y'.address == y.address ensures y' == y {
      SortedDistinct(r.addresses, y, y');
    }
    assert exists r' :: r' in rs && z in r'.addresses;
  }

  /** Merging the live part of a new record with the best of the earlier ones gives the best of all. */
  lemma BestOfUnion(rs: set<Record>, rec: Record, new': seq<Entry>, old': seq<Entry>, now: int, x: Entry)
    requires forall r | r in rs + {rec} :: Sorted(r.addresses)
    requires forall y :: y in new' <==> y in rec.addresses && y.expires >= now
    requires forall y :: y in old' <==> y.expires >= now && Best(rs, y)
    ensures Newest(new', old', x) <==> x.expires >= now && Best(rs + {rec}, x)
  {
    if Newest(new', old', x) {
      forall r, y | r in rs + {rec} && y in r.addresses && y.address == x.address
        ensures y.expires <= x.expires
      {
        if r in rs {
          var z := BestExists(rs, y);
          assert z.expires >= now ==> z in old';
        } else {
          assert y.expires >= now ==> y in new';
        }
      }
      assert exists r :: r in rs + {rec} && x in r.addresses by {
        if x in new' {
          assert rec in rs + {rec};
        } else {
          var r :| r in rs && x in r.addresses;
          assert r in rs + {rec};
        }
      }
    }
    if x.expires >= now && Best(rs + {rec}, x) {
      BestShrinks(rs, rec, x);
      forall y | y in old' && y.address == x.address ensures y.expires <= x.expires {
        var r :| r in rs && y in r.addresses;
        assert r in rs + {rec};
      }
      forall y | y in new' && y.address == x.address ensures y.expires <= x.expires {
        assert rec in rs + {rec};
      }
    }
  }

  lemma BestShrinks(rs: set<Record>, rec: Record, x: Entry)
    requires Best(rs + {rec}, x)
    ensures x in rec.addresses || Best(rs, x)
  {
    var r :| r in rs + {rec} && x in r.addresses;
    if r != rec {
      assert forall r' | r' in rs :: r' in rs + {rec};
    }
  }

  lemma AnnouncedSorted(ops: seq<Op>, key: DeviceID)
    requires Legal(ops)
    ensures forall r | r in Announced(ops, key) :: Sorted(r.addresses)
  {}

  /** Replicas that have been told the same best entries for a device return the same address list,
      however they were told: the records themselves may differ. */
  lemma SameBestConverges(ops1: seq<Op>, ops2: seq<Op>, key: DeviceID, now: int)
    requires Legal(ops1) && Legal(ops2)
    requires SweptBy(ops1, now) && SweptBy(ops2, now)
    requires forall x: Entry | x.expires >= now :: Best(Announced(ops1, key), x) <==> Best(Announced(ops2, key), x)
    ensures Get(Run(ops1), key, now).addresses == Get(Run(ops2), key, now).addresses
  {
    var a1, a2 := Get(Run(ops1), key, now).addresses, Get(Run(ops2), key, now).addresses;
    RunWellFormed(ops1);
    RunWellFormed(ops2);
    if key in Run(ops1) { LiveSorted(Run(ops1)[key].addresses, now); }
    if key in Run(ops2) { LiveSorted(Run(ops2)[key].addresses, now); }
    forall x ensures x in a1 <==> x in a2 {
      GetIsBest(ops1, key, now, x);
      GetIsBest(ops2, key, now, x);
    }
    SortedUnique(a1, a2);
  }

  /** Convergence: replicas that merged the same set of records for a device, in any order,
      any number of times, and swept at any times up to `now`, return the same address list. */
  lemma Convergence(ops1: seq<Op>, ops2: seq<Op>, key: DeviceID, now: int)
    requires Legal(ops1) && Legal(ops2)
    requires SweptBy(ops1, now) && SweptBy(ops2, now)
    requires Announced(ops1, key) == Announced(ops2, key)
    ensures Get(Run(ops1), key, now).addresses == Get(Run(ops2), key, now).addresses
  {
    SameBestConverges(ops1, ops2, key, now);
  }

  // ---------------------------------------------------------------- starting from a loaded store

  function RunFrom(s: Store, ops: seq<Op>): Store {
    if ops == [] then s else Apply(RunFrom(s, ops[..|ops| - 1]), ops[|ops| - 1])
  }

  /** The records a replica knows of a device: the one it has loaded and those merged since. */
  ghost function Known(s: Store, ops: seq<Op>, key: DeviceID): set<Record> {
    (if key in s then {s[key]} else {}) + Announced(ops, key)
  }

  lemma {:induction false} RunFromRun(ops0: seq<Op>, ops: seq<Op>)
    ensures Run(ops0 + ops) == RunFrom(Run(ops0), ops)
  {
    if ops == [] {
      assert ops0 + ops == ops0;
    } else {
      assert (ops0 + ops)[..|ops0 + ops| - 1] == ops0 + ops[..|ops| - 1];
      RunFromRun(ops0, ops[..|ops| - 1]);
    }
  }

  lemma {:induction false} AnnouncedConcat(ops0: seq<Op>, ops: seq<Op>, key: DeviceID)
    ensures Announced(ops0 + ops, key) == Announced(ops0, key) + Announced(ops, key)
  {
    if ops == [] {
      assert ops0 + ops == ops0;
    } else {
      assert (ops0 + ops)[..|ops0 + ops| - 1] == ops0 + ops[..|ops| - 1];
      AnnouncedConcat(ops0, ops[..|ops| - 1], key);
      AnnouncedStep(ops0 + ops, key);
      AnnouncedStep(ops, key);
    }
  }

  ghost function SomeKey(s: Store): (k: DeviceID)
    requires s != map[]
    ensures k in s
  {
    var k :| k in s; k
  }

  /** Merging the records of a store, one by one. */
  ghost function MergesOf(s: Store): seq<Op>
    decreases |s.Keys|
  {
    if s == map[] then [] else
      var k := SomeKey(s);
      assert (s - {k}).Keys == s.Keys - {k};
      MergesOf(s - {k}) + [Merge(k, s[k])]
  }

  /** A store is what merging its own records into an empty one leaves. */
  lemma {:induction false} StoreIsRun(s: Store)
    ensures Run(MergesOf(s)) == s
    decreases |s.Keys|
  {
    if s != map[] {
      var k := SomeKey(s);
      assert (s - {k}).Keys == s.Keys - {k};
      StoreIsRun(s - {k});
      RunSnoc(MergesOf(s - {k}), Merge(k, s[k]));
      MergedBack(s, k);
    }
  }

  lemma MergedBack(s: Store, k: DeviceID)
    requires k in s
    ensures Merged(s - {k}, k, s[k]) == s
  {}

  lemma RunSnoc(ops: seq<Op>, op: Op)
    ensures Run(ops + [op]) == Apply(Run(ops), op)
  {
    assert (ops + [op])[..|ops|] == ops;
  }

  lemma {:induction false} MergesOnly(s: Store)
    requires WellFormed(s)
    ensures Legal(MergesOf(s)) && forall i | 0 <= i < |MergesOf(s)| :: MergesOf(s)[i].Merge?
    decreases |s.Keys|
  {
    if s != map[] {
      var k := SomeKey(s);
      assert (s - {k}).Keys == s.Keys - {k};
      MergesOnly(s - {k});
    }
  }

  lemma {:induction false} MergesAnnounced(s: Store, key: DeviceID)
    ensures Announced(MergesOf(s), key) == Known(s, [], key)
    decreases |s.Keys|
  {
    if s != map[] {
      var k := SomeKey(s);
      var rest, init := s - {k}, MergesOf(s - {k});
      assert rest.Keys == s.Keys - {k};
      MergesAnnounced(rest, key);
      AnnouncedSnoc(init, Merge(k, s[k]), key);
    }
  }

  lemma AnnouncedSnoc(ops: seq<Op>, op: Op, key: DeviceID)
    ensures Announced(ops + [op], key) == Announced(ops, key) + if op.Merge? && op.key == key then {op.rec} else {}
  {
    AnnouncedStep(ops + [op], key);
    assert (ops + [op])[..|ops + [op]| - 1] == ops;
  }

  /** Convergence of replicas that start from loaded stores. */
  lemma ConvergenceFrom(s1: Store, ops1: seq<Op>, s2: Store, ops2: seq<Op>, key: DeviceID, now: int)
    requires WellFormed(s1) && WellFormed(s2) && Legal(ops1) && Legal(ops2)
    requires SweptBy(ops1, now) && SweptBy(ops2, now)
    requires Known(s1, ops1, key) == Known(s2, ops2, key)
    ensures Get(RunFrom(s1, ops1), key, now).addresses == Get(RunFrom(s2, ops2), key, now).addresses
  {
    var r1, r2 := MergesOf(s1), MergesOf(s2);
    StoreIsRun(s1);
    StoreIsRun(s2);
    MergesOnly(s1);
    MergesOnly(s2);
    MergesAnnounced(s1, key);
    MergesAnnounced(s2, key);
    RunFromRun(r1, ops1);
    RunFromRun(r2, ops2);
    AnnouncedConcat(r1, ops1, key);
    AnnouncedConcat(r2, ops2, key);
    Convergence(r1 + ops1, r2 + ops2, key, now);
  }

  // ---------------------------------------------------------------- last seen

  ghost predicate LastSeen(rs: set<Record>, seen: int) {
    (exists r :: r in rs && r.seen == seen) && (forall r | r in rs :: r.seen <= seen)
  }

  lemma {:induction false} SeenBounded(ops: seq<Op>, key: DeviceID)
    ensures key in Run(ops) ==> exists r :: r in Announced(ops, key) && r.seen == Run(ops)[key].seen
  {
    if ops != [] {
      AnnouncedStep(ops, key);
      SeenBounded(ops[..|ops| - 1], key);
    }
  }

  ghost predicate Chronological(ops: seq<Op>) {
    forall i, j | 0 <= i < j < |ops| && ops[i].Sweep? && ops[j].Sweep? :: ops[i].now <= ops[j].now
  }

  /** Sweep `i` comes a week or more after `seen` and finds no announced address still live. */
  ghost predicate SweepForgets(ops: seq<Op>, i: nat, key: DeviceID, seen: int)
    requires i < |ops|
  {
    && ops[i].Sweep?
    && seen <= ops[i].now - 7 * 86_400_000_000_000
    && (forall x | Best(Announced(ops[..i], key), x) :: x.expires < ops[i].now)
  }

  ghost predicate SeenAgain(ops: seq<Op>, i: nat, key: DeviceID, seen: int) {
    exists j | i < j < |ops| :: ops[j].Merge? && ops[j].key == key && ops[j].rec.seen == seen
  }

  ghost predicate Forgotten(ops: seq<Op>, key: DeviceID, seen: int) {
    exists i: nat | i < |ops| :: SweepForgets(ops, i, key, seen) && !SeenAgain(ops, i, key, seen)
  }

  lemma ForgottenStep(ops: seq<Op>, key: DeviceID, seen: int)
    requires ops != []
    ensures var (init, last) := (ops[..|ops| - 1], ops[|ops| - 1]);
            Forgotten(ops, key, seen) <==>
              || SweepForgets(ops, |ops| - 1, key, seen)
              || (Forgotten(init, key, seen) && !(last.Merge? && last.key == key && last.rec.seen == seen))
  {
    var init, last := ops[..|ops| - 1], ops[|ops| - 1];
    forall i: nat | i < |init|
      ensures SweepForgets(ops, i, key, seen) <==> SweepForgets(init, i, key, seen)
      ensures SeenAgain(ops, i, key, seen) <==>
              SeenAgain(init, i, key, seen) || (last.Merge? && last.key == key && last.rec.seen == seen)
    {
      assert ops[..i] == init[..i];
      if SeenAgain(init, i, key, seen) {
        var j :| i < j < |init| && init[j].Merge? && init[j].key == key && init[j].rec.seen == seen;
        assert ops[j] == init[j];
      }
      if SeenAgain(ops, i, key, seen) {
        var j :| i < j < |ops| && ops[j].Merge? && ops[j].key == key && ops[j].rec.seen == seen;
        assert j < |init| ==> init[j] == ops[j];
      }
      assert last == ops[|ops| - 1];
    }
  }

  /** The latest `Seen` is what the replica stores, unless a sweep has forgotten it for good. */
  lemma {:induction false} SeenExact(ops: seq<Op>, key: DeviceID, seen: int)
    requires Legal(ops) && Chronological(ops)
    requires LastSeen(Announced(ops, key), seen)
    ensures key in Run(ops) && Run(ops)[key].seen == seen <==> !Forgotten(ops, key, seen)
  {
    if ops != [] {
      var init, last := ops[..|ops| - 1], ops[|ops| - 1];
      AnnouncedStep(ops, key);
      ForgottenStep(ops, key, seen);
      SeenBounded(init, key);
      if LastSeen(Announced(init, key), seen) {
        SeenExact(init, key, seen);
      }
      if last.Sweep? {
        forall x ensures x in Get(Run(init), key, last.now).addresses <==>
                         x.expires >= last.now && Best(Announced(init, key), x)
        {
          GetIsBest(init, key, last.now, x);
        }
        assert ops[..|ops| - 1] == init;
        if key in Run(init) && Live(Run(init)[key].addresses, last.now) != [] {
          assert Live(Run(init)[key].addresses, last.now)[0] in Get(Run(init), key, last.now).addresses;
        }
      }
    }
  }

  /** So `Seen` alone does not converge: of two replicas that were told the same announcement, the
      one swept a week later has forgotten the device. */
  lemma SeenDiverges(key: DeviceID, address: Str)
    ensures var m, sweep := Merge(key, Record([Entry(address, 12)], 5)), Sweep(WEEK + 5);
            && Legal([m, sweep])
            && Get(Run([m]), key, WEEK + 5).seen == 5 && Get(Run([m, sweep]), key, WEEK + 5).seen == 0
  {
    var es := [Entry(address, 12)];
    var m, sweep := Merge(key, Record(es, 5)), Sweep(WEEK + 5);
    assert [m, sweep][..1] == [m] && [m][..0] == [];
    assert Run([m]) == map[key := Record(es, 5)];
    assert es[1..] == [] && Live(es, WEEK + 5) == [];
    assert Run([m, sweep]) == Swept(Run([m]), WEEK + 5);
  }
}
