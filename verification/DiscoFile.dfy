/** The discovery database file (cmd/stdiscosrv/database.go:251-388): length-prefixed frames
    over an opaque record codec. */
module DiscoFile {
  import opened Bytes
  import opened Wrappers
  import opened Sorting
  import opened DiscoRecords
  import opened DiscoReplica

  datatype ReplicationRecord = ReplicationRecord(key: Str, addresses: seq<Entry>, seen: int)

  type Marshal = ReplicationRecord -> Str
  type Unmarshal = Str -> Option<ReplicationRecord>

  /** `protocol.DeviceIDFromString`, the fallback for keys that are not 32 bytes long. */
  type ParseID = Str -> Option<DeviceID>

  const TWO32: int := 0x1_0000_0000

  // ---------------------------------------------------------------- frames

  /** `binary.BigEndian.PutUint32(buf, uint32(n))` */
  function PutUint32(n: int): (s: Str)
    ensures |s| == 4
  {
    var m := n % TWO32;
    var m1 := m / 256;
    var m2 := m1 / 256;
    [(m2 / 256) as byte, (m2 % 256) as byte, (m1 % 256) as byte, (m % 256) as byte]
  }

  function Uint32(s: Str): (n: int)
    requires |s| == 4
    ensures 0 <= n < TWO32
  {
    s[0] as int * 0x100_0000 + s[1] as int * 0x1_0000 + s[2] as int * 256 + s[3] as int
  }

  lemma Uint32RoundTrip(n: int)
    requires 0 <= n < TWO32
    ensures Uint32(PutUint32(n)) == n
  {
    Parts(n);
  }

  lemma Parts(n: int)
    requires 0 <= n
    ensures var n1, n2 := n / 256, n / 256 / 256;
            n2 / 256 * 0x100_0000 + n2 % 256 * 0x1_0000 + n1 % 256 * 256 + n % 256 == n
  {
    var n1, n2 := n / 256, n / 256 / 256;
    assert n == 256 * n1 + n % 256;
    assert n1 == 256 * n2 + n1 % 256;
    assert n2 == 256 * (n2 / 256) + n2 % 256;
  }

  function Frame(body: Str): Str { PutUint32(|body|) + body }

  /** What `write` stores for a device. */
  function Stored(key: DeviceID, rec: Record): ReplicationRecord {
    ReplicationRecord(key, rec.addresses, rec.seen)
  }

  /** `write` skips records not seen for a week. */
  predicate Recent(rec: Record, now: int) { rec.seen >= now - WEEK }

  /** What one device contributes to the file. */
  function Part(s: Store, k: DeviceID, now: int, marshal: Marshal): Str
    requires k in s
  {
    if Recent(s[k], now) then Frame(marshal(Stored(k, s[k]))) else []
  }

  /** The file for a store whose devices are visited in the given order. */
  function FileOf(s: Store, order: seq<DeviceID>, now: int, marshal: Marshal): Str
    requires forall k | k in order :: k in s
  {
    if order == [] then [] else Part(s, order[0], now, marshal) + FileOf(s, order[1..], now, marshal)
  }

  // ---------------------------------------------------------------- write

  lemma {:induction false} FileOfAppend(s: Store, order: seq<DeviceID>, k: DeviceID, now: int, marshal: Marshal)
    requires k in s && forall k' | k' in order :: k' in s
    ensures FileOf(s, order + [k], now, marshal) == FileOf(s, order, now, marshal) + Part(s, k, now, marshal)
  {
    if order == [] {
      assert order + [k] == [k] && [k][1..] == [];
    } else {
      assert (order + [k])[1..] == order[1..] + [k];
      FileOfAppend(s, order[1..], k, now, marshal);
      Associative(Part(s, order[0], now, marshal), FileOf(s, order[1..], now, marshal), Part(s, k, now, marshal));
    }
  }

  lemma Associative(a: Str, b: Str, c: Str)
    ensures a + (b + c) == a + b + c
  {}

  /** The Range callback of database.go:272-302. The buffer is reused and only ever grows; each
      frame is cut from it, and no byte of an earlier record leaks into a frame. */
  method Write(s: Store, order: seq<DeviceID>, now: int, marshal: Marshal) returns (file: Str)
    requires forall k | k in order :: k in s
    ensures file == FileOf(s, order, now, marshal)
  {
    file := [];
    var buf := new byte[0];
    for i := 0 to |order|
      invariant file == FileOf(s, order[..i], now, marshal)
      invariant fresh(buf)
    {
      var k := order[i];
      FileOfAppend(s, order[..i], k, now, marshal);
      assert order[..i + 1] == order[..i] + [k];
      if Recent(s[k], now) {
        var body := marshal(Stored(k, s[k]));
        if |body| + 4 > buf.Length {
          buf := new byte[|body| + 4];
        }
        Fill(buf, body);
        file := file + buf[..|body| + 4];
      }
    }
    assert order[..|order|] == order;
  }

  /** The length goes before the body, database.go:286-297. */
  method Fill(buf: array<byte>, body: Str)
    requires |body| + 4 <= buf.Length
    modifies buf
    ensures buf[..|body| + 4] == Frame(body)
  {
    var head := PutUint32(|body|);
    forall j | 0 <= j < |body| + 4 { buf[j] := if j < 4 then head[j] else body[j - 4]; }
  }

  // ---------------------------------------------------------------- read

  /** `Cmp`: by address, then by expiry. */
  predicate EntryLeq(d: Entry, other: Entry) {
    Less(d.address, other.address) || (d.address == other.address && d.expires <= other.expires)
  }

  /** `Equal` */
  predicate SameAddress(d: Entry, other: Entry) { d.address == other.address }

  /** database.go:379-384 */
  function Loaded(rec: ReplicationRecord, now: int): Record {
    Record(Live(Compact(SameAddress, Sort(EntryLeq, rec.addresses)), now), rec.seen)
  }

  function KeyOf(rec: ReplicationRecord, parse: ParseID): Option<DeviceID> {
    if |rec.key| == 32 then Some(rec.key) else parse(rec.key)
  }

  datatype ReadResult = ReadResult(store: Store, nr: nat, ok: bool)

  /** What one round of the loop does: end with a result, or go on at a later position. */
  datatype Round = Done(result: ReadResult) | Continue(pos: nat, store: Store, nr: nat)

  function RoundAt(file: Str, pos: nat, s: Store, nr: nat, now: int, unmarshal: Unmarshal, parse: ParseID): (r: Round)
    requires pos <= |file|
    ensures r.Continue? ==> pos < r.pos <= |file|
  {
    if pos == |file| then Done(ReadResult(s, nr, true))
    else if |file| - pos < 4 then Done(ReadResult(s, nr, false))
    else
      var n := Uint32(file[pos..pos + 4]);
      if |file| - pos - 4 < n then Done(ReadResult(s, nr, false))
      else
        match unmarshal(file[pos + 4..pos + 4 + n])
        case None => Done(ReadResult(s, nr, false))
        case Some(rec) =>
          match KeyOf(rec, parse)
          case None => Continue(pos + 4 + n, s, nr)
          case Some(key) => Continue(pos + 4 + n, s[key := Loaded(rec, now)], nr + 1)
  }

  /** The loop of database.go:352-387, from the position where `file` starts. A file that ends
      inside a frame, or a frame that does not decode, is an error; a bad device ID is skipped. */
  function ReadFrom(file: Str, s: Store, nr: nat, now: int, unmarshal: Unmarshal, parse: ParseID): ReadResult
    decreases |file|
  {
    match RoundAt(file, 0, s, nr, now, unmarshal, parse)
    case Done(r) => r
    case Continue(n, s', nr') => ReadFrom(file[n..], s', nr', now, unmarshal, parse)
  }

  /** database.go:353-386, from the position in the whole file. */
  method ReadRound(file: Str, pos: nat, s: Store, nr: nat, now: int, unmarshal: Unmarshal, parse: ParseID) returns (r: Round)
    requires pos <= |file|
    ensures r == RoundAt(file, pos, s, nr, now, unmarshal, parse)
  {
    if pos == |file| {
      return Done(ReadResult(s, nr, true));
    }
    if |file| - pos < 4 {
      return Done(ReadResult(s, nr, false));
    }
    var n := Uint32(file[pos..pos + 4]);
    if |file| - pos - 4 < n {
      return Done(ReadResult(s, nr, false));
    }
    var record := unmarshal(file[pos + 4..pos + 4 + n]);
    if record.None? {
      return Done(ReadResult(s, nr, false));
    }
    var key := KeyOf(record.value, parse);
    if key.None? {
      return Continue(pos + 4 + n, s, nr);
    }
    return Continue(pos + 4 + n, s[key.value := Loaded(record.value, now)], nr + 1);
  }

  method Read(file: Str, now: int, unmarshal: Unmarshal, parse: ParseID) returns (r: ReadResult)
    ensures r == ReadFrom(file, map[], 0, now, unmarshal, parse)
  {
    var pos: nat, s: Store, nr: nat := 0, map[], 0;
    assert file[0..] == file;
    while true
      invariant pos <= |file|
      invariant ReadFrom(file[pos..], s, nr, now, unmarshal, parse) == ReadFrom(file, map[], 0, now, unmarshal, parse)
      decreases |file| - pos
    {
      RoundReads(file, pos, s, nr, now, unmarshal, parse);
      var round := ReadRound(file, pos, s, nr, now, unmarshal, parse);
      if round.Done? {
        return round.result;
      }
      pos, s, nr := round.pos, round.store, round.nr;
    }
  }

  lemma RoundReads(file: Str, pos: nat, s: Store, nr: nat, now: int, unmarshal: Unmarshal, parse: ParseID)
    requires pos <= |file|
    ensures match RoundAt(file, pos, s, nr, now, unmarshal, parse)
            case Done(r) => ReadFrom(file[pos..], s, nr, now, unmarshal, parse) == r
            case Continue(pos', s', nr') =>
              ReadFrom(file[pos..], s, nr, now, unmarshal, parse) == ReadFrom(file[pos'..], s', nr', now, unmarshal, parse)
  {
    var round := RoundAt(file, pos, s, nr, now, unmarshal, parse);
    RoundShift(file, pos, s, nr, now, unmarshal, parse);
    assert round.Continue? ==> file[pos..][round.pos - pos..] == file[round.pos..];
  }

  /** A round reads the same from the rest of the file. */
  lemma RoundShift(file: Str, pos: nat, s: Store, nr: nat, now: int, unmarshal: Unmarshal, parse: ParseID)
    requires pos <= |file|
    ensures var r := RoundAt(file, pos, s, nr, now, unmarshal, parse);
            RoundAt(file[pos..], 0, s, nr, now, unmarshal, parse) == if r.Done? then r else r.(pos := r.pos - pos)
  {
    if |file| - pos >= 4 {
      SlicesAt(file, pos, 0);
      var n := Uint32(file[pos..pos + 4]);
      if |file| - pos - 4 >= n {
        SlicesAt(file, pos, n);
      }
    }
  }

  lemma SlicesAt(file: Str, pos: nat, n: nat)
    requires pos + 4 + n <= |file|
    ensures file[pos..][0..4] == file[pos..pos + 4]
    ensures file[pos..][4..4 + n] == file[pos + 4..pos + 4 + n]
  {}

  // ---------------------------------------------------------------- what is loaded

  lemma EntryLeqTotal()
    ensures Total(EntryLeq)
  {
    forall x, y ensures EntryLeq(x, y) || EntryLeq(y, x) { LessTotal(x.address, y.address); }
    forall x, y, z | EntryLeq(x, y) && EntryLeq(y, z) ensures EntryLeq(x, z) {
      if Less(x.address, y.address) && Less(y.address, z.address) {
        LessTransitive(x.address, y.address, z.address);
      }
    }
  }

  /** `x` is the entry of its address that expires first. */
  ghost predicate Earliest(es: seq<Entry>, x: Entry) {
    x in es && forall y | y in es && y.address == x.address :: x.expires <= y.expires
  }

  /** Compacting an ordered list leaves it strictly sorted, with the first entry of each address. */
  lemma {:induction false} CompactEntries(es: seq<Entry>)
    requires Ordered(EntryLeq, es)
    ensures var c := Compact(SameAddress, es);
            && Sorted(c) && (es != [] ==> c != [] && c[0] == es[0])
            && forall x :: x in c <==> Earliest(es, x)
    decreases |es|
  {
    if |es| < 2 {
      if |es| == 1 {
        assert es == [es[0]] && es[0] in es;
      }
    } else if SameAddress(es[0], es[1]) {
      var t := [es[0]] + es[2..];
      assert es == [es[0]] + ([es[1]] + es[2..]);
      CompactEntries(t);
      forall x ensures Earliest(t, x) <==> Earliest(es, x) { DropSecond(es, x); }
    } else {
      var t := es[1..];
      assert es == [es[0]] + t;
      CompactEntries(t);
      var c := Compact(SameAddress, t);
      assert EntryLeq(es[0], es[1]);
      forall j | 0 <= j < |c| ensures Less(es[0].address, c[j].address) {
        if j > 0 {
          LessTransitive(es[0].address, c[0].address, c[j].address);
        }
      }
      forall y | y in t ensures y.address != es[0].address { LaterAddress(es, y); }
      forall x ensures x in [es[0]] + c <==> Earliest(es, x) { AddFirst(es, x); }
    }
  }

  lemma DropSecond(es: seq<Entry>, x: Entry)
    requires |es| >= 2 && Ordered(EntryLeq, es) && SameAddress(es[0], es[1])
    ensures Earliest([es[0]] + es[2..], x) <==> Earliest(es, x)
  {
    var t := [es[0]] + es[2..];
    assert EntryLeq(es[0], es[1]);
    LessIrreflexive(es[0].address);
    assert es == [es[0]] + ([es[1]] + es[2..]);
    assert es[0] in t && es[0] in es && es[1] in es;
    forall y ensures y in es <==> y in t || y == es[1] {}
    if Earliest(es, x) {
      assert x == es[1] ==> x == es[0];
    }
  }

  lemma LaterAddress(es: seq<Entry>, y: Entry)
    requires |es| >= 2 && Ordered(EntryLeq, es) && !SameAddress(es[0], es[1]) && y in es[1..]
    ensures Less(es[0].address, y.address) && y.address != es[0].address
  {
    var i :| 0 <= i < |es[1..]| && es[1..][i] == y;
    assert EntryLeq(es[0], es[1]);
    if i > 0 {
      assert EntryLeq(es[1], es[i + 1]);
      if Less(es[1].address, y.address) {
        LessTransitive(es[0].address, es[1].address, y.address);
      }
    }
    LessIrreflexive(es[0].address);
  }

  lemma AddFirst(es: seq<Entry>, x: Entry)
    requires es != [] && forall y | y in es[1..] :: y.address != es[0].address
    ensures Earliest(es, x) <==> x == es[0] || Earliest(es[1..], x)
  {
    assert es == [es[0]] + es[1..];
    assert es[0] in es;
  }

  /** Whatever a record holds, the addresses loaded from it are strictly sorted: of each address
      the entry that expires first, unless it has expired. */
  lemma LoadedFacts(rec: ReplicationRecord, now: int)
    ensures Sorted(Loaded(rec, now).addresses)
    ensures forall x :: x in Loaded(rec, now).addresses <==> Earliest(rec.addresses, x) && x.expires >= now
  {
    var es := Sort(EntryLeq, rec.addresses);
    var c := Compact(SameAddress, es);
    EntryLeqTotal();
    SortOrdered(EntryLeq, rec.addresses);
    SortPermutes(EntryLeq, rec.addresses);
    CompactEntries(es);
    LiveSorted(c, now);
    forall x ensures x in Live(c, now) <==> Earliest(rec.addresses, x) && x.expires >= now {
      LiveMember(c, now, x);
      assert Earliest(es, x) <==> Earliest(rec.addresses, x);
    }
  }

  /** Merging keeps the entry that expires last, loading the one that expires first: they agree on
      all records exactly if no address is there twice with different expiries. */
  lemma LoadingKeepsNewestIff(es: seq<Entry>)
    ensures (forall x :: Earliest(es, x) <==> Newest(es, [], x)) <==>
            forall x, y | x in es && y in es && x.address == y.address :: x.expires == y.expires
  {
    if forall x :: Earliest(es, x) <==> Newest(es, [], x) {
      forall x, y | x in es && y in es && x.address == y.address ensures x.expires <= y.expires {
        var first := FirstOf(es, y);
        assert Newest(es, [], first);
      }
    }
  }

  lemma {:induction false} FirstOf(es: seq<Entry>, y: Entry) returns (x: Entry)
    requires y in es
    ensures Earliest(es, x) && x.address == y.address
  {
    var init, last := es[..|es| - 1], es[|es| - 1];
    assert es == init + [last];
    x := y;
    if exists z | z in init :: z.address == y.address {
      var z :| z in init && z.address == y.address;
      x := FirstOf(init, z);
    }
    if last.address == y.address && last.expires < x.expires {
      x := last;
    }
  }

  /** Every file, well written or not, leaves a well-formed store. */
  lemma {:induction false} ReadWellFormed(file: Str, s: Store, nr: nat, now: int, unmarshal: Unmarshal, parse: ParseID)
    requires WellFormed(s)
    ensures WellFormed(ReadFrom(file, s, nr, now, unmarshal, parse).store)
    decreases |file|
  {
    var round := RoundAt(file, 0, s, nr, now, unmarshal, parse);
    RoundWellFormed(file, s, nr, now, unmarshal, parse);
    if round.Continue? {
      ReadWellFormed(file[round.pos..], round.store, round.nr, now, unmarshal, parse);
    }
  }

  lemma RoundWellFormed(file: Str, s: Store, nr: nat, now: int, unmarshal: Unmarshal, parse: ParseID)
    requires WellFormed(s)
    ensures match RoundAt(file, 0, s, nr, now, unmarshal, parse)
            case Done(r) => WellFormed(r.store)
            case Continue(_, s', _) => WellFormed(s')
  {
    if |file| >= 4 && |file| - 4 >= Uint32(file[..4]) {
      var n := Uint32(file[..4]);
      assert file[0..4] == file[..4];
      var record := unmarshal(file[4..4 + n]);
      if record.Some? {
        LoadedFacts(record.value, now);
      }
    }
  }

  // ---------------------------------------------------------------- round trip

  /** A list from the store is already sorted and compact. */
  lemma LoadedSorted(key: DeviceID, rec: Record, now: int)
    requires Sorted(rec.addresses)
    ensures Loaded(Stored(key, rec), now) == Expired(rec, now)
  {
    SortFixed(EntryLeq, rec.addresses);
    forall i | 0 <= i < |rec.addresses| - 1
      ensures !SameAddress(rec.addresses[i], rec.addresses[i + 1])
    {
      LessIrreflexive(rec.addresses[i].address);
    }
    CompactFixed(SameAddress, rec.addresses);
  }

  /** The records that `read` restores: those `write` kept, with expiry as of the read. */
  function Restored(s: Store, keys: seq<DeviceID>, written: int, now: int): Store {
    map k | k in keys && k in s && Recent(s[k], written) :: Expired(s[k], now)
  }

  lemma RestoredCons(s: Store, order: seq<DeviceID>, written: int, now: int, s0: Store)
    requires forall k | k in order :: k in s
    ensures s0 + Restored(s, order, written, now) ==
            if order == [] then s0
            else (if Recent(s[order[0]], written) then s0[order[0] := Expired(s[order[0]], now)] else s0) +
                 Restored(s, order[1..], written, now)
  {
    if order != [] {
      assert forall k :: k in order <==> k == order[0] || k in order[1..];
    }
  }

  lemma ReadFrame(body: Str, tail: Str, key: DeviceID, rec: ReplicationRecord, s: Store, nr: nat, now: int,
                  unmarshal: Unmarshal, parse: ParseID)
    requires |body| < TWO32 && unmarshal(body) == Some(rec) && KeyOf(rec, parse) == Some(key)
    ensures ReadFrom(Frame(body) + tail, s, nr, now, unmarshal, parse) ==
            ReadFrom(tail, s[key := Loaded(rec, now)], nr + 1, now, unmarshal, parse)
  {
    var file := Frame(body) + tail;
    Uint32RoundTrip(|body|);
    assert file[..4] == PutUint32(|body|);
    assert file[4..4 + |body|] == body && file[4 + |body|..] == tail;
  }

  lemma {:induction false} ReadBack(s: Store, order: seq<DeviceID>, written: int, now: int,
                                    marshal: Marshal, unmarshal: Unmarshal, parse: ParseID, s0: Store, nr: nat)
    requires WellFormed(s) && forall k | k in order :: k in s
    requires forall r :: unmarshal(marshal(r)) == Some(r)
    requires forall k | k in order :: |marshal(Stored(k, s[k]))| < TWO32
    ensures var r := ReadFrom(FileOf(s, order, written, marshal), s0, nr, now, unmarshal, parse);
            r.ok && r.store == s0 + Restored(s, order, written, now)
    decreases |order|
  {
    if order != [] {
      var k, rest := order[0], order[1..];
      var tail := FileOf(s, rest, written, marshal);
      if Recent(s[k], written) {
        var rec := Stored(k, s[k]);
        ReadFrame(marshal(rec), tail, k, rec, s0, nr, now, unmarshal, parse);
        LoadedSorted(k, s[k], now);
        var s1 := s0[k := Expired(s[k], now)];
        ReadBack(s, rest, written, now, marshal, unmarshal, parse, s1, nr + 1);
      } else {
        assert [] + tail == tail;
        ReadBack(s, rest, written, now, marshal, unmarshal, parse, s0, nr);
      }
    }
    RestoredCons(s, order, written, now, s0);
  }

  /** Round trip: whatever order the map was visited in, reading the file restores exactly the
      records seen within the week before writing, with the addresses still live at reading. */
  lemma FileRoundTrip(s: Store, order: seq<DeviceID>, written: int, now: int,
                      marshal: Marshal, unmarshal: Unmarshal, parse: ParseID)
    requires WellFormed(s)
    requires forall k :: k in order <==> k in s
    requires forall r :: unmarshal(marshal(r)) == Some(r)
    requires forall k | k in s :: |marshal(Stored(k, s[k]))| < TWO32
    ensures var r := ReadFrom(FileOf(s, order, written, marshal), map[], 0, now, unmarshal, parse);
            && r.ok
            && r.store == (map k | k in s && s[k].seen >= written - 7 * 86_400_000_000_000 :: Expired(s[k], now))
            && forall k, t | k in s && s[k].seen >= written - 7 * 86_400_000_000_000 && t >= now ::
                 Get(r.store, k, t).addresses == Get(s, k, t).addresses
  {
    ReadBack(s, order, written, now, marshal, unmarshal, parse, map[], 0);
    forall k, t | k in s && s[k].seen >= written - 7 * 86_400_000_000_000 && t >= now
      ensures Live(Live(s[k].addresses, now), t) == Live(s[k].addresses, t)
    {
      LiveLater(s[k].addresses, now, t);
    }
  }

  // ---------------------------------------------------------------- files that are cut off or damaged

  /** How many of the devices are written. */
  function Written(s: Store, order: seq<DeviceID>, written: int): nat
    requires forall k | k in order :: k in s
  {
    if order == [] then 0 else (if Recent(s[order[0]], written) then 1 else 0) + Written(s, order[1..], written)
  }

  /** A file that ends inside its first frame. */
  lemma CutFrame(body: Str, tail: Str, cut: nat, s: Store, nr: nat, now: int, unmarshal: Unmarshal, parse: ParseID)
    requires |body| < TWO32 && cut < |Frame(body)|
    ensures ReadFrom((Frame(body) + tail)[..cut], s, nr, now, unmarshal, parse) == ReadResult(s, nr, cut == 0)
  {
    var file := (Frame(body) + tail)[..cut];
    if cut >= 4 {
      Uint32RoundTrip(|body|);
      assert file[0..4] == PutUint32(|body|);
    }
  }

  /** Reading what one device contributes, and then the rest. */
  lemma PartRead(s: Store, k: DeviceID, written: int, now: int, marshal: Marshal, unmarshal: Unmarshal, parse: ParseID,
                 tail: Str, s0: Store, nr: nat)
    requires WellFormed(s) && k in s && |marshal(Stored(k, s[k]))| < TWO32
    requires forall r :: unmarshal(marshal(r)) == Some(r)
    ensures ReadFrom(Part(s, k, written, marshal) + tail, s0, nr, now, unmarshal, parse) ==
            if Recent(s[k], written) then ReadFrom(tail, s0[k := Expired(s[k], now)], nr + 1, now, unmarshal, parse)
            else ReadFrom(tail, s0, nr, now, unmarshal, parse)
  {
    if Recent(s[k], written) {
      ReadFrame(marshal(Stored(k, s[k])), tail, k, Stored(k, s[k]), s0, nr, now, unmarshal, parse);
      LoadedSorted(k, s[k], now);
    } else {
      assert [] + tail == tail;
    }
  }

  /** A cut behind the first device is one of the rest. */
  lemma CutLater(s: Store, order: seq<DeviceID>, written: int, now: int,
                 marshal: Marshal, unmarshal: Unmarshal, parse: ParseID, s0: Store, nr: nat, cut: nat)
    requires WellFormed(s) && order != [] && forall k | k in order :: k in s
    requires forall r :: unmarshal(marshal(r)) == Some(r)
    requires |marshal(Stored(order[0], s[order[0]]))| < TWO32
    requires |Part(s, order[0], written, marshal)| <= cut <= |FileOf(s, order, written, marshal)|
    ensures var k, p, tail := order[0], Part(s, order[0], written, marshal), FileOf(s, order[1..], written, marshal);
            ReadFrom(FileOf(s, order, written, marshal)[..cut], s0, nr, now, unmarshal, parse) ==
            if Recent(s[k], written) then ReadFrom(tail[..cut - |p|], s0[k := Expired(s[k], now)], nr + 1, now, unmarshal, parse)
            else ReadFrom(tail[..cut - |p|], s0, nr, now, unmarshal, parse)
  {
    var p, tail := Part(s, order[0], written, marshal), FileOf(s, order[1..], written, marshal);
    assert (p + tail)[..cut] == p + tail[..cut - |p|];
    PartRead(s, order[0], written, now, marshal, unmarshal, parse, tail[..cut - |p|], s0, nr);
  }

  /** The first device and `m` of the others. */
  lemma OneMore(s: Store, order: seq<DeviceID>, m: nat, written: int, now: int, marshal: Marshal, s0: Store)
    requires order != [] && m < |order| && forall k | k in order :: k in s
    ensures var k, rest, n := order[0], order[1..], m + 1;
            && (forall k | k in order[..n] :: k in s) && (forall k | k in rest[..m] :: k in s)
            && FileOf(s, order[..n], written, marshal) == Part(s, k, written, marshal) + FileOf(s, rest[..m], written, marshal)
            && Written(s, order[..n], written) == (if Recent(s[k], written) then 1 else 0) + Written(s, rest[..m], written)
            && s0 + Restored(s, order[..n], written, now) ==
               (if Recent(s[k], written) then s0[k := Expired(s[k], now)] else s0) + Restored(s, rest[..m], written, now)
  {
    assert order[..m + 1][0] == order[0] && order[..m + 1][1..] == order[1..][..m];
    RestoredCons(s, order[..m + 1], written, now, s0);
  }

  /** What reading a written file cut off at `cut` gives, when the devices of `done` are complete. */
  ghost predicate CutAfter(s: Store, done: seq<DeviceID>, written: int, now: int, marshal: Marshal,
                           s0: Store, nr: nat, cut: nat, r: ReadResult)
    requires forall k | k in done :: k in s
  {
    && r.store == s0 + Restored(s, done, written, now) && r.nr == nr + Written(s, done, written)
    && |FileOf(s, done, written, marshal)| <= cut && (r.ok <==> cut == |FileOf(s, done, written, marshal)|)
  }

  lemma CutFirst(s: Store, order: seq<DeviceID>, written: int, now: int,
                 marshal: Marshal, unmarshal: Unmarshal, parse: ParseID, s0: Store, nr: nat, cut: nat)
    requires order != [] && forall k | k in order :: k in s
    requires |marshal(Stored(order[0], s[order[0]]))| < TWO32 && cut < |Part(s, order[0], written, marshal)|
    ensures cut <= |FileOf(s, order, written, marshal)|
    ensures CutAfter(s, [], written, now, marshal, s0, nr, cut,
                     ReadFrom(FileOf(s, order, written, marshal)[..cut], s0, nr, now, unmarshal, parse))
  {
    var k := order[0];
    CutFrame(marshal(Stored(k, s[k])), FileOf(s, order[1..], written, marshal), cut, s0, nr, now, unmarshal, parse);
    RestoredCons(s, [], written, now, s0);
  }

  lemma CutStep(s: Store, order: seq<DeviceID>, m: nat, written: int, now: int, marshal: Marshal,
                s0: Store, nr: nat, cut: nat, r: ReadResult)
    requires order != [] && m < |order| && forall k | k in order :: k in s
    requires |Part(s, order[0], written, marshal)| <= cut
    requires forall k | k in order[1..][..m] :: k in s
    requires var k := order[0];
             if Recent(s[k], written)
             then CutAfter(s, order[1..][..m], written, now, marshal, s0[k := Expired(s[k], now)], nr + 1,
                           cut - |Part(s, k, written, marshal)|, r)
             else CutAfter(s, order[1..][..m], written, now, marshal, s0, nr, cut - |Part(s, k, written, marshal)|, r)
    ensures forall k | k in order[..m + 1] :: k in s
    ensures CutAfter(s, order[..m + 1], written, now, marshal, s0, nr, cut, r)
  {
    OneMore(s, order, m, written, now, marshal, s0);
  }

  /** Wherever a written file is cut off, reading restores the records whose frames are complete, counts
      them, and reports an error exactly if the cut is inside a frame. */
  lemma {:induction false} ReadCut(s: Store, order: seq<DeviceID>, written: int, now: int,
                                   marshal: Marshal, unmarshal: Unmarshal, parse: ParseID, s0: Store, nr: nat, cut: nat)
    returns (n: nat)
    requires WellFormed(s) && forall k | k in order :: k in s
    requires forall r :: unmarshal(marshal(r)) == Some(r)
    requires forall k | k in order :: |marshal(Stored(k, s[k]))| < TWO32
    requires cut <= |FileOf(s, order, written, marshal)|
    ensures n <= |order| && forall k | k in order[..n] :: k in s
    ensures n < |order| ==> cut < |FileOf(s, order[..n], written, marshal)| + |Part(s, order[n], written, marshal)|
    ensures CutAfter(s, order[..n], written, now, marshal, s0, nr, cut,
                     ReadFrom(FileOf(s, order, written, marshal)[..cut], s0, nr, now, unmarshal, parse))
    decreases |order|
  {
    n := 0;
    if order == [] {
      RestoredCons(s, [], written, now, s0);
    } else {
      var k, rest := order[0], order[1..];
      var p := Part(s, k, written, marshal);
      if cut < |p| {
        CutFirst(s, order, written, now, marshal, unmarshal, parse, s0, nr, cut);
        assert order[..0] == [];
      } else {
        var m: nat;
        if Recent(s[k], written) {
          m := ReadCut(s, rest, written, now, marshal, unmarshal, parse, s0[k := Expired(s[k], now)], nr + 1, cut - |p|);
        } else {
          m := ReadCut(s, rest, written, now, marshal, unmarshal, parse, s0, nr, cut - |p|);
        }
        n := m + 1;
        CutLater(s, order, written, now, marshal, unmarshal, parse, s0, nr, cut);
        CutStep(s, order, m, written, now, marshal, s0, nr, cut,
                ReadFrom(FileOf(s, order, written, marshal)[..cut], s0, nr, now, unmarshal, parse));
        OneMore(s, order, m, written, now, marshal, s0);
      }
    }
  }

  /** A frame that does not decode ends reading with an error; one with a bad device ID is skipped. */
  lemma ReadBadFrame(body: Str, tail: Str, s: Store, nr: nat, now: int, unmarshal: Unmarshal, parse: ParseID)
    requires |body| < TWO32
    ensures unmarshal(body) == None ==>
              ReadFrom(Frame(body) + tail, s, nr, now, unmarshal, parse) == ReadResult(s, nr, false)
    ensures unmarshal(body).Some? && |unmarshal(body).value.key| != 32 && parse(unmarshal(body).value.key) == None ==>
              ReadFrom(Frame(body) + tail, s, nr, now, unmarshal, parse) == ReadFrom(tail, s, nr, now, unmarshal, parse)
  {
    var file := Frame(body) + tail;
    Uint32RoundTrip(|body|);
    assert file[..4] == PutUint32(|body|) && file[0..4] == file[..4];
    assert file[4..4 + |body|] == body && file[4 + |body|..] == tail;
  }
}
