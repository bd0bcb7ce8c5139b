/** Announcements and their replication (cmd/stdiscosrv/apisrv.go, amqp.go): how records get
    into the store, and what is queued for the other replicas. */
module DiscoServer {
  import opened Bytes
  import opened DiscoRecords
  import opened DiscoReplica
  import opened DiscoStore

  /** A ReplicationRecord waiting in the sender's outbox. It shares its address objects with
      the record that is merged into the local store right after. */
  datatype Queued = Queued(key: DeviceID, addresses: seq<DatabaseAddress>, seen: int)

  /** A decoded message from the exchange. */
  datatype Message = Undecodable | BadDeviceID | Replicated(key: DeviceID, addresses: seq<Entry>, seen: int)

  datatype Received = Ignored | Failed | Stored

  /** The announced addresses, all with the same expiry. */
  function Announcement(addresses: seq<Str>, expires: int): seq<Entry> {
    seq(|addresses|, i requires 0 <= i < |addresses| => Entry(addresses[i], expires))
  }

  /** A sorted list of entries for exactly the given addresses, each of them stored. */
  ghost predicate Backed(es: seq<Entry>, names: seq<Str>, stored: seq<Entry>) {
    && |es| == |names| && Sorted(es)
    && forall i | 0 <= i < |es| :: es[i].address == names[i] && es[i] in stored
  }

  /** What an announcement makes of a device's stored list, without reference to how it is merged:
      every announced address is there with the expiry announced, or with a later one it had; the
      others are as they were. */
  ghost predicate AfterAnnouncing(stored: seq<Entry>, names: seq<Str>, expires: int, x: Entry) {
    if x.address in names then
      && (x.expires == expires || (x in stored && x.expires > expires))
      && forall y | y in stored && y.address == x.address :: y.expires <= x.expires
    else x in stored
  }

  /** Merging an announcement does just that. */
  lemma AnnouncingMerges(names: seq<Str>, expires: int, stored: seq<Entry>)
    requires Ascending(names) && Sorted(stored)
    ensures forall x :: x in MergeLists(Announcement(names, expires), stored) <==> AfterAnnouncing(stored, names, expires, x)
  {
    var es := Announcement(names, expires);
    forall x ensures x in es <==> x.address in names && x.expires == expires {
      if x.address in names {
        var i :| 0 <= i < |names| && names[i] == x.address;
        assert es[i].address == x.address;
      }
    }
    forall x ensures x in MergeLists(es, stored) <==> AfterAnnouncing(stored, names, expires, x) {
      MergeNewest(es, stored, x);
      SortedNewest(stored, x);
      assert x.address in names ==> Entry(x.address, expires) in es;
    }
  }

  ghost predicate HasAddress(es: seq<Entry>, a: Str) { exists x | x in es :: x.address == a }

  /** So an announced address is answered exactly until its expiry, or for as long as it would have
      been anyway. */
  lemma AnnouncedLives(names: seq<Str>, expires: int, stored: seq<Entry>, a: Str, t: int)
    requires Ascending(names) && Sorted(stored) && a in names
    ensures HasAddress(Live(MergeLists(Announcement(names, expires), stored), t), a) <==>
            t <= expires || HasAddress(Live(stored, t), a)
  {
    var merged := MergeLists(Announcement(names, expires), stored);
    AnnouncingMerges(names, expires, stored);
    forall x ensures x in Live(merged, t) <==> x in merged && x.expires >= t
             ensures x in Live(stored, t) <==> x in stored && x.expires >= t
    {
      LiveMember(merged, t, x);
      LiveMember(stored, t, x);
    }
    if y :| y in stored && y.address == a && y.expires > expires {
      forall z | z in stored && z.address == a ensures z == y { SortedDistinct(stored, y, z); }
      assert AfterAnnouncing(stored, names, expires, y);
    } else {
      assert AfterAnnouncing(stored, names, expires, Entry(a, expires));
    }
  }

  /** The addresses stored for a device. */
  ghost function StoredFor(s: Store, key: DeviceID): seq<Entry> { if key in s then s[key].addresses else [] }

  /** The announcement is stored, and nothing changes for other devices. */
  ghost predicate AnnouncedIn(s: Store, s': Store, key: DeviceID, addresses: seq<Str>, expires: int, now: int) {
    && key in s' && s' == s[key := s'[key]]
    && (forall x :: x in s'[key].addresses <==> AfterAnnouncing(StoredFor(s, key), addresses, expires, x))
    && s'[key].seen >= now && (key !in s ==> s'[key].seen == now)
  }

  lemma AnnouncementStored(s: Store, key: DeviceID, addresses: seq<Str>, expires: int, now: int)
    requires WellFormed(s)
    ensures var s' := Merged(s, key, Record(Announcement(SortedStrings(addresses), expires), now));
            AnnouncedIn(s, s', key, addresses, expires, now)
  {
    SortedStringsAscending(addresses);
    var names := SortedStrings(addresses);
    AnnouncingMerges(names, expires, StoredFor(s, key));
    var s' := Merged(s, key, Record(Announcement(names, expires), now));
    assert s'[key].addresses == MergeLists(Announcement(names, expires), StoredFor(s, key));
    forall x ensures AfterAnnouncing(StoredFor(s, key), names, expires, x) <==> AfterAnnouncing(StoredFor(s, key), addresses, expires, x) {}
  }

  class ApiServer {
    var db: InMemoryStore
    var outbox: seq<Queued>
    const outboxSize: nat
    const replicating: bool

    constructor (db: InMemoryStore, replicating: bool, outboxSize: nat)
      ensures this.db == db && this.replicating == replicating && this.outboxSize == outboxSize && outbox == []
    {
      this.db, this.replicating, this.outboxSize, outbox := db, replicating, outboxSize, [];
    }

    /** amqp.go:119-133: never blocks; the record is dropped when the outbox is full. */
    method Send(item: Queued)
      modifies this`outbox
      ensures outbox == if |old(outbox)| < outboxSize then old(outbox) + [item] else old(outbox)
    {
      if |outbox| < outboxSize {
        outbox := outbox + [item];
      }
    }

    /** apisrv.go:306-328. Merging raises expiries in objects the queued record shares, so what
        is replicated may be newer than announced, but it is always part of what is stored. */
    method HandleAnnounce(deviceID: DeviceID, addresses: seq<Str>, now: int, expire: int)
      requires db.Valid()
      modifies this`outbox, db
      ensures db == old(db) && db.Valid()
      ensures db.Contents ==
              Merged(old(db.Contents), deviceID, Record(Announcement(SortedStrings(addresses), expire), now))
      ensures AnnouncedIn(old(db.Contents), db.Contents, deviceID, addresses, expire, now)
      ensures if !replicating || |old(outbox)| >= outboxSize then outbox == old(outbox) else
              exists addrs ::
                && outbox == old(outbox) + [Queued(deviceID, addrs, now)]
                && Backed(Entries(addrs), SortedStrings(addresses), db.Contents[deviceID].addresses)
    {
      var sorted := SortedStrings(addresses);
      SortedStringsAscending(addresses);
      ghost var before := db.Contents;
      var dbAddrs := Materialize(Announcement(sorted, expire));
      if replicating {
        Send(Queued(deviceID, dbAddrs, now));
      }
      db.Merge(deviceID, dbAddrs, now);
      SharedEntries(db, deviceID, dbAddrs, sorted);
      assert AnnouncedIn(before, db.Contents, deviceID, addresses, expire, now) by {
        AnnouncementStored(before, deviceID, addresses, expire, now);
      }
    }

    /** amqp.go:154-190, one message: own messages and bad device IDs are skipped. */
    method Receive(own: bool, msg: Message) returns (r: Received)
      requires db.Valid()
      requires msg.Replicated? ==> Sorted(msg.addresses)
      modifies db
      ensures db == old(db) && db.Valid()
      ensures r.Stored? <==> !own && msg.Replicated?
      ensures db.Contents == if r.Stored?
                             then Merged(old(db.Contents), msg.key, Record(msg.addresses, msg.seen))
                             else old(db.Contents)
    {
      if own || msg.BadDeviceID? {
        return Ignored;
      }
      if msg.Undecodable? {
        return Failed;
      }
      var addrs := Materialize(msg.addresses);
      db.Merge(msg.key, addrs, msg.seen);
      return Stored;
    }
  }

  lemma EntriesSnoc(s: seq<DatabaseAddress>, x: DatabaseAddress)
    ensures Entries(s + [x]) == Entries(s) + [Entry(x.address, x.expires)]
  {}

  /** Fresh objects for a list of address values (apisrv.go:315-321). */
  method Materialize(es: seq<Entry>) returns (addrs: seq<DatabaseAddress>)
    ensures Entries(addrs) == es
    ensures fresh(addrs)
  {
    addrs := [];
    for i := 0 to |es|
      invariant fresh(addrs) && Entries(addrs) == es[..i]
    {
      var a := new DatabaseAddress(es[i].address, es[i].expires);
      EntriesSnoc(addrs, a);
      assert es[..i + 1] == es[..i] + [es[i]];
      addrs := addrs + [a];
    }
    assert es[..|es|] == es;
  }

  lemma SharedEntries(db: InMemoryStore, key: DeviceID, addrs: seq<DatabaseAddress>, names: seq<Str>)
    requires db.Valid() && key in db.m
    requires forall x | x in addrs :: x in db.m[key].addresses
    requires |addrs| == |names| && Ascending(names)
    requires forall i | 0 <= i < |addrs| :: addrs[i].address == names[i]
    ensures Backed(Entries(addrs), names, db.Contents[key].addresses)
  {
    SharedValues(addrs, db.m[key].addresses, names);
  }

  /** Objects shared with a list stand for entries of it. */
  lemma SharedValues(addrs: seq<DatabaseAddress>, all: seq<DatabaseAddress>, names: seq<Str>)
    requires forall x | x in addrs :: x in all
    requires |addrs| == |names| && Ascending(names) && forall i | 0 <= i < |addrs| :: addrs[i].address == names[i]
    ensures Backed(Entries(addrs), names, Entries(all))
  {
    forall i | 0 <= i < |addrs| ensures Entries(addrs)[i] in Entries(all) {
      assert addrs[i] in addrs;
      var j :| 0 <= j < |all| && all[j] == addrs[i];
      assert Entries(all)[j] == Entries(addrs)[i];
    }
  }
}
