/** Several discovery servers replicating to each other (cmd/stdiscosrv/apisrv.go:306-328,
    amqp.go:119-190): announcements are merged where they are made and sent to all others, if they
    are not dropped; messages arrive in any order, any number of times or not at all; and servers
    restart from the file they have written (database.go:251-388). */
module DiscoNetwork {
  import opened Bytes
  import opened Wrappers
  import opened DiscoRecords
  import opened DiscoReplica
  import opened DiscoFile
  import DiscoServer

  type ServerID = nat

  /** An announcement, and what was sent of it. The message shares its address objects with the
      record that is merged, so it may carry later expiries than were announced. */
  datatype Announcement = Announcement(origin: ServerID, key: DeviceID, rec: Record, sent: Option<Record>)

  datatype Network = Network(histories: map<ServerID, seq<Op>>, announced: seq<Announcement>)

  datatype Event =
    | Announce(a: Announcement)
    | Deliver(i: nat, to: ServerID)
    | SweepAt(at: ServerID, now: int)
    | Restart(r: ServerID, loaded: Store)

  /** What a server has done since it was started, including loading its file. */
  function History(n: Network, r: ServerID): seq<Op> { if r in n.histories then n.histories[r] else [] }

  /** Each address is sent with the expiry announced or the one stored after the merge. */
  ghost predicate Sends(rec: Record, stored: seq<Entry>, sent: Record) {
    && |sent.addresses| == |rec.addresses|
    && forall i | 0 <= i < |rec.addresses| ::
         && sent.addresses[i].address == rec.addresses[i].address
         && (sent.addresses[i] == rec.addresses[i] || sent.addresses[i] in stored)
  }

  ghost predicate Enabled(n: Network, e: Event) {
    match e
    case Announce(a) =>
      && Sorted(a.rec.addresses)
      && (a.sent.Some? ==> Sends(a.rec, Merged(Run(History(n, a.origin)), a.key, a.rec)[a.key].addresses, a.sent.value))
    case Deliver(i, to) => i < |n.announced| && n.announced[i].sent.Some? && n.announced[i].origin != to
    case SweepAt(_, _) => true
    case Restart(r, loaded) => WellFormed(loaded) && FromTold(History(n, r), loaded)
  }

  /** All entries of the store have been told to the server. */
  ghost predicate FromTold(ops: seq<Op>, loaded: Store) {
    forall key, x | key in loaded && x in loaded[key].addresses :: Has(Announced(ops, key), x)
  }

  function Does(n: Network, r: ServerID, op: Op): Network { n.(histories := n.histories[r := History(n, r) + [op]]) }

  ghost function Next(n: Network, e: Event): Network {
    match e
    case Announce(a) => Does(n, a.origin, Merge(a.key, a.rec)).(announced := n.announced + [a])
    case Deliver(i, to) =>
      if i < |n.announced| && n.announced[i].sent.Some?
      then Does(n, to, Merge(n.announced[i].key, n.announced[i].sent.value)) else n
    case SweepAt(at, now) => Does(n, at, Sweep(now))
    case Restart(r, loaded) => n.(histories := n.histories[r := MergesOf(loaded)])
  }

  /** An event that is not enabled does not happen. */
  ghost function Exec(events: seq<Event>): Network {
    if events == [] then Network(map[], []) else
      var n, e := Exec(events[..|events| - 1]), events[|events| - 1];
      if Enabled(n, e) then Next(n, e) else n
  }

  // ---------------------------------------------------------------- what is told of a device

  /** The announcements of a device, wherever they were made. */
  ghost function Originals(n: Network, key: DeviceID): set<Record> {
    set i | 0 <= i < |n.announced| && n.announced[i].key == key :: n.announced[i].rec
  }

  ghost predicate Has(rs: set<Record>, x: Entry) { exists r | r in rs :: x in r.addresses }

  /** Some entry for the same address expires no earlier. */
  ghost predicate Covered(es: seq<Entry>, x: Entry) {
    exists y | y in es :: y.address == x.address && y.expires >= x.expires
  }

  /** What HandleAnnounce queues may be sent, whether it is read before its entries are raised by the
      merge or after, or in between. */
  lemma QueuedMayBeSent(n: Network, r: ServerID, key: DeviceID, names: seq<Str>, expires: int, now: int, es: seq<Entry>)
    requires Ascending(names)
    requires var stored := Merged(Run(History(n, r)), key, Record(DiscoServer.Announcement(names, expires), now))[key].addresses;
             |es| == |names| &&
             forall i | 0 <= i < |es| :: es[i] == Entry(names[i], expires) || (es[i].address == names[i] && es[i] in stored)
    ensures Enabled(n, Announce(Announcement(r, key, Record(DiscoServer.Announcement(names, expires), now), Some(Record(es, now)))))
  {}

  /** What a server was told are announced entries, and a message covers its announcement. */
  ghost predicate NetInv(n: Network) {
    && (forall r :: Legal(History(n, r)))
    && (forall r, key, x | Has(Announced(History(n, r), key), x) :: Has(Originals(n, key), x))
    && (forall i | 0 <= i < |n.announced| :: AnnouncedInv(n, n.announced[i]))
  }

  ghost predicate AnnouncedInv(n: Network, a: Announcement) {
    && (forall x | x in a.rec.addresses :: Has(Originals(n, a.key), x))
    && (a.sent.Some? ==>
          && Sorted(a.sent.value.addresses)
          && (forall x | x in a.sent.value.addresses :: Has(Originals(n, a.key), x))
          && (forall x | x in a.rec.addresses :: Covered(a.sent.value.addresses, x)))
  }

  /** Stored entries have been told. */
  lemma {:induction false} StoredTold(ops: seq<Op>, key: DeviceID, x: Entry)
    requires Legal(ops) && key in Run(ops) && x in Run(ops)[key].addresses
    ensures Has(Announced(ops, key), x)
  {
    var init, last := ops[..|ops| - 1], ops[|ops| - 1];
    var s := Run(init);
    AnnouncedStep(ops, key);
    RunWellFormed(init);
    match last {
      case Merge(k, rec) =>
        if k == key && key in s {
          MergeNewest(rec.addresses, s[key].addresses, x);
          assert x in rec.addresses || x in s[key].addresses;
        }
        if key in s && x in s[key].addresses {
          StoredTold(init, key, x);
        }
      case Sweep(now) =>
        LiveMember(s[key].addresses, now, x);
        StoredTold(init, key, x);
    }
  }

  lemma HistoryDoes(n: Network, r: ServerID, op: Op, q: ServerID)
    ensures History(Does(n, r, op), q) == if q == r then History(n, r) + [op] else History(n, q)
  {}

  /** Doing `op` tells a server at most the record merged. */
  lemma ToldDoes(n: Network, r: ServerID, op: Op, q: ServerID, key: DeviceID)
    ensures var told, told' := Announced(History(n, q), key), Announced(History(Does(n, r, op), q), key);
            told' == told + if q == r && op.Merge? && op.key == key then {op.rec} else {}
  {
    HistoryDoes(n, r, op, q);
    if q == r {
      var ops := History(n, r) + [op];
      AnnouncedStep(ops, key);
      assert ops[..|ops| - 1] == History(n, r);
    }
  }

  /** A server may do what tells it only announced entries. */
  lemma DoesKeepsInv(n: Network, r: ServerID, op: Op)
    requires NetInv(n)
    requires op.Merge? ==> Sorted(op.rec.addresses) && forall x | x in op.rec.addresses :: Has(Originals(n, op.key), x)
    ensures NetInv(Does(n, r, op))
  {
    var n' := Does(n, r, op);
    forall q ensures Legal(History(n', q)) { HistoryDoes(n, r, op, q); }
    forall q, key, x | Has(Announced(History(n', q), key), x) ensures Has(Originals(n', key), x) {
      ToldDoes(n, r, op, q, key);
      assert Originals(n', key) == Originals(n, key);
      assert Has(Announced(History(n, q), key), x) ==> Has(Originals(n, key), x);
    }
    forall i | 0 <= i < |n'.announced| ensures AnnouncedInv(n', n'.announced[i]) {
      var a := n.announced[i];
      ToldDoes(n, r, op, a.origin, a.key);
      assert AnnouncedInv(n, a) && Originals(n', a.key) == Originals(n, a.key);
    }
  }

  lemma OriginalsGrow(n: Network, n': Network, a: Announcement, key: DeviceID)
    requires n'.announced == n.announced + [a]
    ensures Originals(n', key) == Originals(n, key) + if a.key == key then {a.rec} else {}
  {
    forall r | r in Originals(n, key) ensures r in Originals(n', key) {
      var i :| 0 <= i < |n.announced| && n.announced[i].key == key && n.announced[i].rec == r;
      assert n'.announced[i] == n.announced[i];
    }
    forall r | r in Originals(n', key) ensures r in Originals(n, key) || (a.key == key && r == a.rec) {
      var i :| 0 <= i < |n'.announced| && n'.announced[i].key == key && n'.announced[i].rec == r;
      assert i < |n.announced| ==> n.announced[i] == n'.announced[i];
    }
    assert n'.announced[|n.announced|] == a;
  }

  /** What is sent covers what was announced, with announced entries only. */
  lemma SentFacts(n: Network, a: Announcement)
    requires NetInv(n) && Enabled(n, Announce(a)) && a.sent.Some?
    ensures Sorted(a.sent.value.addresses)
    ensures forall x | x in a.rec.addresses :: Covered(a.sent.value.addresses, x)
    ensures forall x | x in a.sent.value.addresses :: x in a.rec.addresses || Has(Originals(n, a.key), x)
  {
    var rec, sent := a.rec.addresses, a.sent.value.addresses;
    forall x | x in rec ensures Covered(sent, x) {
      var i :| 0 <= i < |rec| && rec[i] == x;
      SentAt(n, a, i);
      assert sent[i] in sent;
    }
    forall x | x in sent ensures x in rec || Has(Originals(n, a.key), x) {
      var i :| 0 <= i < |sent| && sent[i] == x;
      SentAt(n, a, i);
    }
  }

  lemma SentAt(n: Network, a: Announcement, i: nat)
    requires NetInv(n) && Enabled(n, Announce(a)) && a.sent.Some? && i < |a.rec.addresses|
    ensures var rec, sent := a.rec.addresses, a.sent.value.addresses;
            && sent[i].address == rec[i].address && sent[i].expires >= rec[i].expires
            && (sent[i] in rec || Has(Originals(n, a.key), sent[i]))
  {
    var rec, sent := a.rec.addresses, a.sent.value.addresses;
    var ops := History(n, a.origin);
    var s := Run(ops);
    RunWellFormed(ops);
    assert rec[i] in rec;
    if sent[i] in rec {
      SortedDistinct(rec, sent[i], rec[i]);
    } else {
      MergeNewest(rec, s[a.key].addresses, sent[i]);
      StoredTold(ops, a.key, sent[i]);
    }
  }

  lemma AnnounceKeepsInv(n: Network, a: Announcement)
    requires NetInv(n) && Enabled(n, Announce(a))
    ensures NetInv(Next(n, Announce(a)))
  {
    var n1 := n.(announced := n.announced + [a]);
    var n' := Next(n, Announce(a));
    var op := Merge(a.key, a.rec);
    assert n' == Does(n1, a.origin, op);
    if a.sent.Some? {
      SentFacts(n, a);
    }
    forall q ensures Legal(History(n', q)) { HistoryDoes(n, a.origin, op, q); }
    forall q, key, x | Has(Announced(History(n', q), key), x) ensures Has(Originals(n', key), x) {
      ToldDoes(n1, a.origin, op, q, key);
      OriginalsGrow(n, n', a, key);
      assert Has(Announced(History(n, q), key), x) ==> Has(Originals(n, key), x);
    }
    forall i | 0 <= i < |n'.announced| ensures AnnouncedInv(n', n'.announced[i]) {
      var b := n'.announced[i];
      ToldDoes(n1, a.origin, op, b.origin, b.key);
      OriginalsGrow(n, n', a, b.key);
      assert i < |n.announced| ==> b == n.announced[i] && AnnouncedInv(n, b);
      assert i == |n.announced| ==> b == a;
    }
  }

  lemma RestartKeepsInv(n: Network, r: ServerID, loaded: Store)
    requires NetInv(n) && Enabled(n, Restart(r, loaded))
    ensures NetInv(Next(n, Restart(r, loaded)))
  {
    var n' := Next(n, Restart(r, loaded));
    MergesOnly(loaded);
    forall q ensures Legal(History(n', q)) {
      assert q != r ==> History(n', q) == History(n, q);
    }
    forall q, key, x | Has(Announced(History(n', q), key), x) ensures Has(Originals(n', key), x) {
      assert Originals(n', key) == Originals(n, key);
      if q == r {
        MergesAnnounced(loaded, key);
        assert key in loaded && x in loaded[key].addresses;
        assert Has(Announced(History(n, r), key), x);
      } else {
        assert History(n', q) == History(n, q);
      }
    }
    forall i | 0 <= i < |n'.announced| ensures AnnouncedInv(n', n'.announced[i]) {
      assert AnnouncedInv(n, n.announced[i]) && Originals(n', n.announced[i].key) == Originals(n, n.announced[i].key);
    }
  }

  lemma {:induction false} ExecKeepsInv(events: seq<Event>)
    ensures NetInv(Exec(events))
  {
    if events != [] {
      var n, e := Exec(events[..|events| - 1]), events[|events| - 1];
      ExecKeepsInv(events[..|events| - 1]);
      if Enabled(n, e) {
        match e {
          case Announce(a) => AnnounceKeepsInv(n, a);
          case Deliver(i, to) =>
            assert AnnouncedInv(n, n.announced[i]);
            DoesKeepsInv(n, to, Merge(n.announced[i].key, n.announced[i].sent.value));
          case SweepAt(at, now) => DoesKeepsInv(n, at, Sweep(now));
          case Restart(r, loaded) => RestartKeepsInv(n, r, loaded);
        }
      }
    }
  }

  // ---------------------------------------------------------------- convergence

  /** Of each announced entry still live at `now`, the server has been told one that lives as long. */
  ghost predicate Knows(n: Network, r: ServerID, key: DeviceID, now: int) {
    forall x | Has(Originals(n, key), x) && x.expires >= now :: CoveredBy(Announced(History(n, r), key), x)
  }

  ghost predicate CoveredBy(rs: set<Record>, x: Entry) { exists m | m in rs :: Covered(m.addresses, x) }

  /** The server has made each announcement of the device itself, or has received its message, since
      it was started. */
  ghost predicate Heard(n: Network, r: ServerID, key: DeviceID) {
    var told := Announced(History(n, r), key);
    forall i | 0 <= i < |n.announced| && n.announced[i].key == key ::
      n.announced[i].rec in told || (n.announced[i].sent.Some? && n.announced[i].sent.value in told)
  }

  lemma HeardKnows(n: Network, r: ServerID, key: DeviceID, now: int)
    requires NetInv(n) && Heard(n, r, key)
    ensures Knows(n, r, key, now)
  {
    var told := Announced(History(n, r), key);
    forall x | Has(Originals(n, key), x) && x.expires >= now ensures CoveredBy(told, x) {
      var rec :| rec in Originals(n, key) && x in rec.addresses;
      var i :| 0 <= i < |n.announced| && n.announced[i].key == key && n.announced[i].rec == rec;
      var a := n.announced[i];
      assert AnnouncedInv(n, a);
      if rec in told {
        assert Covered(rec.addresses, x);
      } else {
        assert Covered(a.sent.value.addresses, x);
      }
    }
  }

  /** A server that has heard of all announcements, raised expiries or not, knows the best of those
      still live. */
  lemma KnowsBest(n: Network, r: ServerID, key: DeviceID, now: int, x: Entry)
    requires NetInv(n) && Knows(n, r, key, now) && x.expires >= now
    ensures Best(Announced(History(n, r), key), x) <==> Best(Originals(n, key), x)
  {
    var told, all := Announced(History(n, r), key), Originals(n, key);
    assert forall y | Has(told, y) :: Has(all, y);
    BestOfTold(told, all, now, x);
    BestOfAll(told, all, now, x);
  }

  lemma BestOfTold(told: set<Record>, all: set<Record>, now: int, x: Entry)
    requires forall y | Has(told, y) :: Has(all, y)
    requires forall y | Has(all, y) && y.expires >= now :: CoveredBy(told, y)
    ensures x.expires >= now && Best(told, x) ==> Best(all, x)
  {
    if x.expires >= now && Best(told, x) {
      assert Has(told, x);
      forall rec, y | rec in all && y in rec.addresses && y.address == x.address ensures y.expires <= x.expires {
        assert Has(all, y);
        if y.expires >= now {
          var m :| m in told && Covered(m.addresses, y);
        }
      }
    }
  }

  lemma BestOfAll(told: set<Record>, all: set<Record>, now: int, x: Entry)
    requires forall y | Has(told, y) :: Has(all, y)
    requires forall y | Has(all, y) && y.expires >= now :: CoveredBy(told, y)
    ensures x.expires >= now && Best(all, x) ==> Best(told, x)
  {
    if x.expires >= now && Best(all, x) {
      assert Has(all, x);
      var m :| m in told && Covered(m.addresses, x);
      var y :| y in m.addresses && y.address == x.address && y.expires >= x.expires;
      assert Has(told, y);
      assert y == x;
      forall rec, z | rec in told && z in rec.addresses && z.address == x.address ensures z.expires <= x.expires {
        assert Has(told, z);
      }
    }
  }

  /** In every run of the network, restarts included, servers that know all announcements of a device
      still live, each in its own way, return the same addresses at every time after their sweeps:
      the best of all. */
  lemma NetworkConverges(events: seq<Event>, r1: ServerID, r2: ServerID, key: DeviceID, now: int)
    requires Knows(Exec(events), r1, key, now) && Knows(Exec(events), r2, key, now)
    requires SweptBy(History(Exec(events), r1), now) && SweptBy(History(Exec(events), r2), now)
    ensures var n := Exec(events);
            && Get(Run(History(n, r1)), key, now).addresses == Get(Run(History(n, r2)), key, now).addresses
            && forall x :: x in Get(Run(History(n, r1)), key, now).addresses <==> x.expires >= now && Best(Originals(n, key), x)
  {
    var n := Exec(events);
    ExecKeepsInv(events);
    forall x: Entry | x.expires >= now
      ensures Best(Announced(History(n, r1), key), x) <==> Best(Originals(n, key), x)
      ensures Best(Announced(History(n, r2), key), x) <==> Best(Originals(n, key), x)
    {
      KnowsBest(n, r1, key, now, x);
      KnowsBest(n, r2, key, now, x);
    }
    forall x ensures x in Get(Run(History(n, r1)), key, now).addresses <==> x.expires >= now && Best(Originals(n, key), x) {
      GetIsBest(History(n, r1), key, now, x);
    }
    SameBestConverges(History(n, r1), History(n, r2), key, now);
  }

  /** So do servers that have heard of all announcements. */
  lemma HeardConverges(events: seq<Event>, r1: ServerID, r2: ServerID, key: DeviceID, now: int)
    requires Heard(Exec(events), r1, key) && Heard(Exec(events), r2, key)
    requires SweptBy(History(Exec(events), r1), now) && SweptBy(History(Exec(events), r2), now)
    ensures var n := Exec(events);
            Get(Run(History(n, r1)), key, now).addresses == Get(Run(History(n, r2)), key, now).addresses
  {
    ExecKeepsInv(events);
    HeardKnows(Exec(events), r1, key, now);
    HeardKnows(Exec(events), r2, key, now);
    NetworkConverges(events, r1, r2, key, now);
  }

  /** The message of announcement `i` is delivered to the server in event `p`. */
  ghost predicate DeliveredIn(events: seq<Event>, p: int, i: nat, r: ServerID) {
    && 0 <= p < |events| && events[p] == Deliver(i, r)
    && i < |Exec(events[..p]).announced| && Exec(events[..p]).announced[i].sent.Some?
  }

  /** The server has made the announcement, or its message has been delivered. */
  ghost predicate Reached(events: seq<Event>, i: nat, r: ServerID)
    requires i < |Exec(events).announced|
  {
    Exec(events).announced[i].origin == r || exists p :: DeliveredIn(events, p, i, r)
  }

  lemma ExecInit(events: seq<Event>)
    requires events != []
    ensures var n, n' := Exec(events[..|events| - 1]), Exec(events);
            n.announced <= n'.announced && |n'.announced| <= |n.announced| + 1
  {}

  lemma {:induction false} AnnouncedLater(events: seq<Event>, p: nat)
    requires p <= |events|
    ensures Exec(events[..p]).announced <= Exec(events).announced
  {
    if p == |events| {
      assert events[..p] == events;
    } else {
      var init := events[..|events| - 1];
      AnnouncedLater(init, p);
      assert init[..p] == events[..p];
      ExecInit(events);
    }
  }

  lemma DeliveredLater(events: seq<Event>, p: int, i: nat, r: ServerID)
    requires DeliveredIn(events, p, i, r)
    ensures i < |Exec(events[..|events| - 1]).announced|
  {
    AnnouncedLater(events[..|events| - 1], p);
    assert events[..|events| - 1][..p] == events[..p];
  }

  /** A new announcement has reached only the server that made it. */
  lemma ReachedNew(events: seq<Event>, i: nat, r: ServerID)
    requires events != [] && i == |Exec(events[..|events| - 1]).announced| < |Exec(events).announced|
    requires Reached(events, i, r)
    ensures Exec(events).announced[i].origin == r
  {
    if p :| DeliveredIn(events, p, i, r) {
      DeliveredLater(events, p, i, r);
    }
  }

  lemma ReachedInit(events: seq<Event>, i: nat, r: ServerID)
    requires events != [] && i < |Exec(events[..|events| - 1]).announced| && i < |Exec(events).announced|
    ensures Reached(events, i, r) ==> Reached(events[..|events| - 1], i, r) || DeliveredIn(events, |events| - 1, i, r)
  {
    var init := events[..|events| - 1];
    ExecInit(events);
    if p :| DeliveredIn(events, p, i, r) {
      assert p < |init| ==> init[..p] == events[..p] && DeliveredIn(init, p, i, r);
    }
  }

  /** The server has been told the announcement, or what was sent of it. */
  ghost predicate ToldOf(n: Network, i: nat, r: ServerID)
    requires i < |n.announced|
  {
    var a := n.announced[i];
    var told := Announced(History(n, r), a.key);
    a.rec in told || (a.sent.Some? && a.sent.value in told)
  }

  /** What reached a server that has not restarted, it has been told. */
  lemma {:induction false} ReachedTold(events: seq<Event>, i: nat, r: ServerID)
    requires forall p | 0 <= p < |events| && events[p].Restart? :: events[p].r != r
    requires i < |Exec(events).announced| && Reached(events, i, r)
    ensures ToldOf(Exec(events), i, r)
  {
    var init, e := events[..|events| - 1], events[|events| - 1];
    var n, n' := Exec(init), Exec(events);
    ExecInit(events);
    var key := n'.announced[i].key;
    if i < |n.announced| {
      ReachedInit(events, i, r);
      assert n.announced[i] == n'.announced[i];
      if Reached(init, i, r) {
        ReachedTold(init, i, r);
      }
    } else {
      ReachedNew(events, i, r);
    }
    match e {
      case Announce(a) =>
        if Enabled(n, e) {
          ToldDoes(n.(announced := n.announced + [a]), a.origin, Merge(a.key, a.rec), r, key);
        }
      case Deliver(j, to) =>
        if Enabled(n, e) {
          ToldDoes(n, to, Merge(n.announced[j].key, n.announced[j].sent.value), r, key);
        }
      case SweepAt(at, now) => ToldDoes(n, at, Sweep(now), r, key);
      case Restart(q, loaded) => assert Enabled(n, e) ==> History(n', r) == History(n, r);
    }
  }

  /** If each announcement of a device has been made at the server or delivered to it, and it has not
      restarted, then it has heard of all; so any two such servers converge. */
  lemma DeliveredConverges(events: seq<Event>, r1: ServerID, r2: ServerID, key: DeviceID, now: int)
    requires forall p | 0 <= p < |events| && events[p].Restart? :: events[p].r != r1 && events[p].r != r2
    requires var n := Exec(events);
             forall i: nat | i < |n.announced| && n.announced[i].key == key :: Reached(events, i, r1) && Reached(events, i, r2)
    requires SweptBy(History(Exec(events), r1), now) && SweptBy(History(Exec(events), r2), now)
    ensures var n := Exec(events);
            Get(Run(History(n, r1)), key, now).addresses == Get(Run(History(n, r2)), key, now).addresses
  {
    var n := Exec(events);
    forall i: nat | i < |n.announced| && n.announced[i].key == key
      ensures ToldOf(n, i, r1) && ToldOf(n, i, r2)
    {
      ReachedTold(events, i, r1);
      ReachedTold(events, i, r2);
    }
    HeardConverges(events, r1, r2, key, now);
  }

  // ---------------------------------------------------------------- restarting from the file

  /** A server can restart from the file it wrote, whatever the codec and the order of writing; and it
      then knows as much of a device that it had seen within the week. */
  lemma RestartFromFile(n: Network, r: ServerID, order: seq<DeviceID>, written: int, now: int,
                        marshal: Marshal, unmarshal: Unmarshal, parse: ParseID, key: DeviceID)
    requires NetInv(n) && SweptBy(History(n, r), now)
    requires forall k :: k in order <==> k in Run(History(n, r))
    requires forall rec :: unmarshal(marshal(rec)) == Some(rec)
    requires forall k | k in Run(History(n, r)) :: |marshal(Stored(k, Run(History(n, r))[k]))| < TWO32
    ensures var s := Run(History(n, r));
            var loaded := ReadFrom(FileOf(s, order, written, marshal), map[], 0, now, unmarshal, parse).store;
            && Enabled(n, Restart(r, loaded))
            && (Knows(n, r, key, now) && (key in s ==> Recent(s[key], written)) ==>
                  Knows(Next(n, Restart(r, loaded)), r, key, now))
  {
    var ops := History(n, r);
    var s := Run(ops);
    RunWellFormed(ops);
    FileRoundTrip(s, order, written, now, marshal, unmarshal, parse);
    var loaded := ReadFrom(FileOf(s, order, written, marshal), map[], 0, now, unmarshal, parse).store;
    ReadWellFormed(FileOf(s, order, written, marshal), map[], 0, now, unmarshal, parse);
    forall k, x | k in loaded && x in loaded[k].addresses ensures Has(Announced(ops, k), x) {
      LiveMember(s[k].addresses, now, x);
      StoredTold(ops, k, x);
    }
    if Knows(n, r, key, now) && (key in s ==> Recent(s[key], written)) {
      LoadedKnows(n, r, loaded, key, now);
    }
  }

  lemma LoadedKnows(n: Network, r: ServerID, loaded: Store, key: DeviceID, now: int)
    requires NetInv(n) && SweptBy(History(n, r), now) && Knows(n, r, key, now)
    requires key in Run(History(n, r)) ==> key in loaded && loaded[key] == Expired(Run(History(n, r))[key], now)
    ensures Knows(n.(histories := n.histories[r := MergesOf(loaded)]), r, key, now)
  {
    var n' := n.(histories := n.histories[r := MergesOf(loaded)]);
    var ops := History(n, r);
    MergesAnnounced(loaded, key);
    assert Originals(n', key) == Originals(n, key);
    forall x | Has(Originals(n', key), x) && x.expires >= now ensures CoveredBy(Announced(MergesOf(loaded), key), x) {
      var z := BestCover(ops, key, x);
      GetIsBest(ops, key, now, z);
      assert Covered(loaded[key].addresses, x);
    }
  }

  /** Among what was told there is a best entry for each covered one. */
  lemma BestCover(ops: seq<Op>, key: DeviceID, x: Entry) returns (z: Entry)
    requires Legal(ops) && CoveredBy(Announced(ops, key), x)
    ensures Best(Announced(ops, key), z) && z.address == x.address && z.expires >= x.expires
  {
    var m :| m in Announced(ops, key) && Covered(m.addresses, x);
    var y :| y in m.addresses && y.address == x.address && y.expires >= x.expires;
    AnnouncedSorted(ops, key);
    z := BestExists(Announced(ops, key), y);
  }
}
