/** The rate limiter's reaction to configuration changes (lib/connections/limiter.go:25-224).
    It works from the difference between the old and the new configuration and skips what it
    believes unchanged. */
module Limiter {
  import opened Sorting
  import opened Config

  datatype Rate = Inf | BytesPerSecond(n: int)

  /** limiter.go:69-76, 143-157: non-positive means unlimited, the unit is KiB/s. */
  function RateOf(kbps: int): Rate { if kbps <= 0 then Inf else BytesPerSecond(1024 * kbps) }

  datatype Direction = Send | Recv

  function DeviceRate(d: Device, dir: Direction): Rate {
    match dir case Send => RateOf(d.maxSendKbps) case Recv => RateOf(d.maxRecvKbps)
  }

  function OptionRate(o: Options, dir: Direction): Rate {
    match dir case Send => RateOf(o.maxSendKbps) case Recv => RateOf(o.maxRecvKbps)
  }

  type Rates = map<DeviceID, Rate>

  /** The limits in force. */
  datatype Limits = Limits(read: Rate, write: Rate, limitsLAN: bool, deviceRead: Rates, deviceWrite: Rates)

  // ---------------------------------------------------------------- commit, as a function

  /** The first loop of limiter.go:93-112: every remote device gets its configured rate. */
  function Assigned(rates: Rates, ds: seq<Device>, dir: Direction, myID: DeviceID): Rates {
    if ds == [] then rates else
      var d, init := ds[|ds| - 1], Assigned(rates, ds[..|ds| - 1], dir, myID);
      if d.id == myID then init else init[d.id := DeviceRate(d, dir)]
  }

  /** The remote devices of a configuration. */
  function Seen(ds: seq<Device>, myID: DeviceID): set<DeviceID> {
    set d | d in ds && d.id != myID :: d.id
  }

  /** The devices of `ds` that were not seen. */
  function Unseen(ds: seq<Device>, seen: set<DeviceID>): set<DeviceID> { (set d | d in ds :: d.id) - seen }

  /** The devices whose limiters the second loop deletes, limiter.go:115-120. */
  function Gone(from: seq<Device>, to: seq<Device>, myID: DeviceID): set<DeviceID> { Unseen(from, Seen(to, myID)) }

  function CommitDevices(rates: Rates, from: seq<Device>, to: seq<Device>, dir: Direction, myID: DeviceID): Rates {
    Assigned(rates, to, dir, myID) - Gone(from, to, myID)
  }

  /** CommitConfiguration, limiter.go:123-172, with its early return. */
  function Commit(l: Limits, from: Configuration, to: Configuration, myID: DeviceID): Limits {
    var l' := l.(deviceRead := CommitDevices(l.deviceRead, from.devices, to.devices, Recv, myID),
                 deviceWrite := CommitDevices(l.deviceWrite, from.devices, to.devices, Send, myID));
    if from.options == to.options then l'
    else l'.(read := OptionRate(to.options, Recv), write := OptionRate(to.options, Send),
             limitsLAN := to.options.limitBandwidthInLan)
  }

  /** A connection to `id` makes sure there are limiters for it, limiter.go:179-224. */
  function Connected(l: Limits, id: DeviceID): Limits {
    l.(deviceRead := if id in l.deviceRead then l.deviceRead else l.deviceRead[id := Inf],
       deviceWrite := if id in l.deviceWrite then l.deviceWrite else l.deviceWrite[id := Inf])
  }

  // ---------------------------------------------------------------- what the limits should be

  /** Every remote device has its configured rate; nobody else is limited. */
  ghost predicate RatesReflect(rates: Rates, ds: seq<Device>, dir: Direction, myID: DeviceID) {
    && (forall d | d in ds && d.id != myID :: d.id in rates && rates[d.id] == DeviceRate(d, dir))
    && (forall id | id in rates && id !in Seen(ds, myID) :: rates[id] == Inf)
  }

  ghost predicate Reflects(l: Limits, c: Configuration, myID: DeviceID) {
    && GlobalReflects(l, c.options)
    && RatesReflect(l.deviceRead, c.devices, Recv, myID)
    && RatesReflect(l.deviceWrite, c.devices, Send, myID)
  }

  lemma {:induction false} AssignedTo(rates: Rates, ds: seq<Device>, dir: Direction, myID: DeviceID, i: nat)
    requires DistinctBy(DeviceKey, ds) && i < |ds| && ds[i].id != myID
    ensures var r := Assigned(rates, ds, dir, myID); ds[i].id in r && r[ds[i].id] == DeviceRate(ds[i], dir)
  {
    var init, last := ds[..|ds| - 1], ds[|ds| - 1];
    if i < |init| {
      AssignedTo(rates, init, dir, myID, i);
      assert init[i] == ds[i] && DeviceKey(ds[i]) != DeviceKey(last);
    }
  }

  lemma {:induction false} AssignedElse(rates: Rates, ds: seq<Device>, dir: Direction, myID: DeviceID, id: DeviceID)
    requires id !in Seen(ds, myID)
    ensures var r := Assigned(rates, ds, dir, myID); (id in r <==> id in rates) && (id in r ==> r[id] == rates[id])
  {
    if ds != [] {
      var init, last := ds[..|ds| - 1], ds[|ds| - 1];
      assert last in ds && forall d | d in init :: d in ds;
      AssignedElse(rates, init, dir, myID, id);
    }
  }

  /** The limit in force for a device: without a limiter there is none. */
  function RateIn(rates: Rates, id: DeviceID): Rate { if id in rates then rates[id] else Inf }

  /** Limiters the commit does not touch are unlimited. */
  ghost predicate RestUnlimited(rates: Rates, from: seq<Device>, to: seq<Device>, myID: DeviceID) {
    forall id | id !in Seen(to, myID) && id !in Gone(from, to, myID) :: RateIn(rates, id) == Inf
  }

  lemma CommitDevicesAt(rates: Rates, from: seq<Device>, to: seq<Device>, dir: Direction, myID: DeviceID, id: DeviceID)
    requires id !in Seen(to, myID)
    ensures RateIn(CommitDevices(rates, from, to, dir, myID), id) ==
            if id in Gone(from, to, myID) then Inf else RateIn(rates, id)
  {
    AssignedElse(rates, to, dir, myID, id);
  }

  lemma CommitDevicesTo(rates: Rates, from: seq<Device>, to: seq<Device>, dir: Direction, myID: DeviceID, d: Device)
    requires DistinctBy(DeviceKey, to) && d in to && d.id != myID
    ensures var r := CommitDevices(rates, from, to, dir, myID); d.id in r && r[d.id] == DeviceRate(d, dir)
  {
    var i :| 0 <= i < |to| && to[i] == d;
    AssignedTo(rates, to, dir, myID, i);
  }

  /** The device limits follow exactly if the limiters left alone are unlimited. */
  lemma CommitDevicesIff(rates: Rates, from: seq<Device>, to: seq<Device>, dir: Direction, myID: DeviceID)
    requires DistinctBy(DeviceKey, to)
    ensures RatesReflect(CommitDevices(rates, from, to, dir, myID), to, dir, myID) <==> RestUnlimited(rates, from, to, myID)
  {
    var r := CommitDevices(rates, from, to, dir, myID);
    forall d | d in to && d.id != myID ensures d.id in r && r[d.id] == DeviceRate(d, dir) {
      CommitDevicesTo(rates, from, to, dir, myID, d);
    }
    forall id | id !in Seen(to, myID)
      ensures RateIn(r, id) == if id in Gone(from, to, myID) then Inf else RateIn(rates, id)
    {
      CommitDevicesAt(rates, from, to, dir, myID, id);
    }
    if RatesReflect(r, to, dir, myID) {
      forall id | id !in Seen(to, myID) && id !in Gone(from, to, myID) ensures RateIn(rates, id) == Inf {
        assert RateIn(r, id) == RateIn(rates, id);
      }
    }
    if RestUnlimited(rates, from, to, myID) {
      forall id | id in r && id !in Seen(to, myID) ensures r[id] == Inf {
        assert RateIn(r, id) == r[id];
      }
    }
  }

  /** The overall limits are those of the options. */
  predicate GlobalReflects(l: Limits, o: Options) {
    && l.read == OptionRate(o, Recv) && l.write == OptionRate(o, Send)
    && l.limitsLAN == o.limitBandwidthInLan
  }

  /** When a commit leaves the right limits: exactly if the options are not taken for unchanged, or
      the overall limits are right already; and no limiter outside both configurations limits. */
  lemma CommitReflectsIff(l: Limits, from: Configuration, to: Configuration, myID: DeviceID)
    requires DistinctBy(DeviceKey, to.devices)
    ensures Reflects(Commit(l, from, to, myID), to, myID) <==>
            && (from.options != to.options || GlobalReflects(l, to.options))
            && RestUnlimited(l.deviceRead, from.devices, to.devices, myID)
            && RestUnlimited(l.deviceWrite, from.devices, to.devices, myID)
  {
    CommitDevicesIff(l.deviceRead, from.devices, to.devices, Recv, myID);
    CommitDevicesIff(l.deviceWrite, from.devices, to.devices, Send, myID);
  }

  lemma ReflectingRest(rates: Rates, from: seq<Device>, to: seq<Device>, dir: Direction, myID: DeviceID)
    requires RatesReflect(rates, from, dir, myID)
    ensures RestUnlimited(rates, from, to, myID)
  {}

  /** If the limits reflect the old configuration they reflect the new one after the commit,
      early return included. */
  lemma CommitReflects(l: Limits, from: Configuration, to: Configuration, myID: DeviceID)
    requires Reflects(l, from, myID) && DistinctBy(DeviceKey, to.devices)
    ensures Reflects(Commit(l, from, to, myID), to, myID)
  {
    CommitReflectsIff(l, from, to, myID);
    ReflectingRest(l.deviceRead, from.devices, to.devices, Recv, myID);
    ReflectingRest(l.deviceWrite, from.devices, to.devices, Send, myID);
  }

  // ---------------------------------------------------------------- in the configured numbers

  /** The rate is what `kbps` KiB/s stand for. */
  predicate Means(rate: Rate, kbps: int) {
    && (rate == Inf <==> kbps <= 0)
    && (kbps > 0 ==> rate == BytesPerSecond(kbps * 1024))
  }

  /** What is sent to a device is limited by its send rate and what is received from it by its receive
      rate, and so is all traffic by those of the options. */
  ghost predicate InForce(l: Limits, d: Device) {
    && d.id in l.deviceWrite && Means(l.deviceWrite[d.id], d.maxSendKbps)
    && d.id in l.deviceRead && Means(l.deviceRead[d.id], d.maxRecvKbps)
  }

  ghost predicate OverallInForce(l: Limits, o: Options) {
    && Means(l.write, o.maxSendKbps) && Means(l.read, o.maxRecvKbps) && l.limitsLAN == o.limitBandwidthInLan
  }

  /** Nobody but the remote devices of the configuration is limited. */
  ghost predicate OthersUnlimited(l: Limits, ds: seq<Device>, myID: DeviceID) {
    && (forall id | id in l.deviceRead && (forall d | d in ds :: d.id == id ==> id == myID) :: l.deviceRead[id] == Inf)
    && (forall id | id in l.deviceWrite && (forall d | d in ds :: d.id == id ==> id == myID) :: l.deviceWrite[id] == Inf)
  }

  /** The limits are those of the configuration exactly if they are in each direction. */
  lemma ReflectsMeans(l: Limits, c: Configuration, myID: DeviceID)
    ensures Reflects(l, c, myID) <==>
            && OverallInForce(l, c.options) && OthersUnlimited(l, c.devices, myID)
            && forall d | d in c.devices && d.id != myID :: InForce(l, d)
  {
    forall id ensures id in Seen(c.devices, myID) <==> !forall d | d in c.devices :: d.id == id ==> id == myID {}
    if Reflects(l, c, myID) {
      forall d | d in c.devices && d.id != myID ensures InForce(l, d) {}
    } else if forall d | d in c.devices && d.id != myID :: InForce(l, d) {
      forall d | d in c.devices && d.id != myID
        ensures l.deviceRead[d.id] == DeviceRate(d, Recv) && l.deviceWrite[d.id] == DeviceRate(d, Send)
      {
        assert InForce(l, d);
      }
    }
  }

  /** After every commit, whatever the limiter had and was told before, each remote device has its
      limits; and so has all traffic, if the options were to change. */
  lemma CommitMeans(l: Limits, from: Configuration, to: Configuration, myID: DeviceID)
    requires DistinctBy(DeviceKey, to.devices)
    ensures forall d | d in to.devices && d.id != myID :: InForce(Commit(l, from, to, myID), d)
    ensures from.options != to.options ==> OverallInForce(Commit(l, from, to, myID), to.options)
  {
    forall d | d in to.devices && d.id != myID ensures InForce(Commit(l, from, to, myID), d) {
      CommitDevicesTo(l.deviceRead, from.devices, to.devices, Recv, myID, d);
      CommitDevicesTo(l.deviceWrite, from.devices, to.devices, Send, myID, d);
    }
  }

  lemma CommitMeansAny(l: Limits, from: Configuration, to: Configuration, myID: DeviceID)
    ensures DistinctBy(DeviceKey, to.devices) ==>
              forall d | d in to.devices && d.id != myID :: InForce(Commit(l, from, to, myID), d)
    ensures from.options != to.options ==> OverallInForce(Commit(l, from, to, myID), to.options)
  {
    if DistinctBy(DeviceKey, to.devices) {
      CommitMeans(l, from, to, myID);
    }
  }

  /** The made-up configuration newLimiter commits from, limiter.go:55. */
  const NO_CONFIGURATION := Configuration([], [], [], Options(-1, -1, false))

  const NO_LIMITS := Limits(Inf, Inf, false, map[], map[])

  lemma NewLimiterReflects(to: Configuration, myID: DeviceID)
    requires DistinctBy(DeviceKey, to.devices)
    ensures Reflects(Commit(NO_LIMITS, NO_CONFIGURATION, to, myID), to, myID)
  {
    CommitReflects(NO_LIMITS, NO_CONFIGURATION, to, myID);
  }

  /** Told a wrong old configuration, the early return leaves the wrong limit in force. */
  lemma StaleFromBreaks(c: Configuration, myID: DeviceID)
    requires c.devices == [] && c.options == Options(0, 0, false)
    ensures var stale := c.(options := Options(100, 0, false));
            !Reflects(Commit(NO_LIMITS, stale, stale, myID), stale, myID)
  {
    assert OptionRate(Options(100, 0, false), Send) == BytesPerSecond(102400);
  }

  // ---------------------------------------------------------------- the limiter objects

  class RateLimiter {
    var limit: Rate

    constructor ()
      ensures limit == Inf
    {
      limit := Inf;
    }
  }

  /** The second map has all the objects of the first under the same devices. */
  ghost predicate Extends(a: map<DeviceID, RateLimiter>, b: map<DeviceID, RateLimiter>) {
    forall id | id in a :: id in b && b[id] == a[id]
  }

  /** One of the two maps from devices to their limiter objects. */
  class LimiterMap {
    var m: map<DeviceID, RateLimiter>
    ghost var Contents: Rates
    ghost var Repr: set<RateLimiter>

    ghost predicate Valid()
      reads this, Repr
    {
      && m.Keys == Contents.Keys
      && (forall id | id in m :: m[id] in Repr && m[id].limit == Contents[id])
      && (forall a, b | a in m && b in m && a != b :: m[a] != m[b])
    }

    constructor ()
      ensures Valid() && Contents == map[] && Repr == {}
    {
      m, Contents, Repr := map[], map[], {};
    }

    /** The limiters of `gone` are missing from what there was. */
    ghost predicate Lacks(m0: map<DeviceID, RateLimiter>, rates: Rates, gone: set<DeviceID>)
      reads this
    {
      m == m0 - gone && Contents == rates - gone
    }

    /** getRateLimiter, limiter.go:217-224 */
    method Get(id: DeviceID) returns (l: RateLimiter)
      requires Valid()
      modifies this
      ensures Valid() && id in m && l == m[id]
      ensures Contents == if id in old(Contents) then old(Contents) else old(Contents)[id := Inf]
      ensures Extends(old(m), m)
      ensures Repr >= old(Repr) && fresh(Repr - old(Repr))
    {
      if id !in m {
        l := new RateLimiter();
        m, Contents, Repr := m[id := l], Contents[id := Inf], Repr + {l};
      }
      l := m[id];
    }

    /** Changes the limit of the device's own limiter object, which open connections hold. */
    method SetLimit(id: DeviceID, rate: Rate)
      requires Valid() && id in m
      modifies this, m[id]
      ensures Valid() && Contents == old(Contents)[id := rate] && m == old(m) && Repr == old(Repr)
    {
      m[id].limit := rate;
      Contents := Contents[id := rate];
    }

    method Delete(id: DeviceID)
      requires Valid()
      modifies this
      ensures Valid() && Contents == old(Contents) - {id} && m == old(m) - {id} && Repr == old(Repr)
    {
      m, Contents := m - {id}, Contents - {id};
    }
  }

  lemma UnseenStep(ds: seq<Device>, i: nat, seen: set<DeviceID>)
    requires i < |ds|
    ensures Unseen(ds[..i + 1], seen) == Unseen(ds[..i], seen) + ({ds[i].id} - seen)
  {
    assert ds[..i + 1] == ds[..i] + [ds[i]];
  }

  lemma MinusMinus<K, V>(m: map<K, V>, a: set<K>, b: set<K>)
    ensures (m - a) - b == m - (a + b)
  {}

  class ConnectionLimiter {
    const myID: DeviceID
    const write: RateLimiter
    const read: RateLimiter
    const deviceReadLimiters: LimiterMap
    const deviceWriteLimiters: LimiterMap
    var limitsLAN: bool

    ghost predicate Valid()
      reads this, write, read, deviceReadLimiters, deviceWriteLimiters, deviceReadLimiters.Repr, deviceWriteLimiters.Repr
    {
      && deviceReadLimiters != deviceWriteLimiters && read != write
      && deviceReadLimiters.Valid() && deviceWriteLimiters.Valid()
      && deviceReadLimiters.Repr !! deviceWriteLimiters.Repr !! {read, write}
    }

    ghost function View(): Limits
      reads this, write, read, deviceReadLimiters, deviceWriteLimiters
    {
      Limits(read.limit, write.limit, limitsLAN, deviceReadLimiters.Contents, deviceWriteLimiters.Contents)
    }

    constructor (myID: DeviceID)
      ensures Valid() && View() == NO_LIMITS && this.myID == myID
    {
      this.myID := myID;
      write := new RateLimiter();
      read := new RateLimiter();
      deviceReadLimiters := new LimiterMap();
      deviceWriteLimiters := new LimiterMap();
      limitsLAN := false;
    }

    /** limiter.go:63-64, also getLimiters at 179-185: both limiters of a device, made if missing. */
    method GetLimiters(id: DeviceID) returns (r: RateLimiter, w: RateLimiter)
      requires Valid()
      modifies deviceReadLimiters, deviceWriteLimiters
      ensures Valid() && View() == Connected(old(View()), id)
      ensures id in deviceReadLimiters.m && r == deviceReadLimiters.m[id]
      ensures id in deviceWriteLimiters.m && w == deviceWriteLimiters.m[id]
      ensures Extends(old(deviceReadLimiters.m), deviceReadLimiters.m)
      ensures Extends(old(deviceWriteLimiters.m), deviceWriteLimiters.m)
      ensures fresh(deviceReadLimiters.Repr - old(deviceReadLimiters.Repr))
      ensures fresh(deviceWriteLimiters.Repr - old(deviceWriteLimiters.Repr))
    {
      r := deviceReadLimiters.Get(id);
      w := deviceWriteLimiters.Get(id);
    }

    /** limiter.go:82-83: the objects stay the same, so open connections see the new rates. */
    method SetBoth(id: DeviceID, readLimit: Rate, writeLimit: Rate)
      requires Valid() && id in deviceReadLimiters.m && id in deviceWriteLimiters.m
      modifies deviceReadLimiters, deviceWriteLimiters, deviceReadLimiters.m[id], deviceWriteLimiters.m[id]
      ensures Valid()
      ensures View() == old(View()).(deviceRead := old(View()).deviceRead[id := readLimit],
                                     deviceWrite := old(View()).deviceWrite[id := writeLimit])
      ensures deviceReadLimiters.m == old(deviceReadLimiters.m) && deviceWriteLimiters.m == old(deviceWriteLimiters.m)
      ensures deviceReadLimiters.Repr == old(deviceReadLimiters.Repr)
      ensures deviceWriteLimiters.Repr == old(deviceWriteLimiters.Repr)
    {
      deviceReadLimiters.SetLimit(id, readLimit);
      deviceWriteLimiters.SetLimit(id, writeLimit);
    }

    /** limiter.go:62-86: nothing is written if both rates are as they should be. */
    method SetLimits(d: Device)
      requires Valid()
      modifies deviceReadLimiters, deviceWriteLimiters, deviceReadLimiters.Repr, deviceWriteLimiters.Repr
      ensures Valid()
      ensures View() == old(View()).(deviceRead := old(View()).deviceRead[d.id := DeviceRate(d, Recv)],
                                     deviceWrite := old(View()).deviceWrite[d.id := DeviceRate(d, Send)])
      ensures InForce(View(), d)
      ensures Extends(old(deviceReadLimiters.m), deviceReadLimiters.m)
      ensures Extends(old(deviceWriteLimiters.m), deviceWriteLimiters.m)
      ensures fresh(deviceReadLimiters.Repr - old(deviceReadLimiters.Repr))
      ensures fresh(deviceWriteLimiters.Repr - old(deviceWriteLimiters.Repr))
    {
      var readLimiter, writeLimiter := GetLimiters(d.id);
      GetThenSet(old(View()).deviceRead, d.id, DeviceRate(d, Recv));
      GetThenSet(old(View()).deviceWrite, d.id, DeviceRate(d, Send));
      if readLimiter.limit == DeviceRate(d, Recv) && writeLimiter.limit == DeviceRate(d, Send) {
        return;
      }
      SetBoth(d.id, DeviceRate(d, Recv), DeviceRate(d, Send));
    }

    /** The first loop of limiter.go:93-112. */
    method AssignAll(ds: seq<Device>) returns (seen: set<DeviceID>)
      requires Valid()
      modifies deviceReadLimiters, deviceWriteLimiters, deviceReadLimiters.Repr, deviceWriteLimiters.Repr
      ensures Valid() && seen == Seen(ds, myID)
      ensures View() == old(View()).(deviceRead := Assigned(old(View()).deviceRead, ds, Recv, myID),
                                     deviceWrite := Assigned(old(View()).deviceWrite, ds, Send, myID))
      ensures Extends(old(deviceReadLimiters.m), deviceReadLimiters.m)
      ensures Extends(old(deviceWriteLimiters.m), deviceWriteLimiters.m)
    {
      seen := {};
      for i := 0 to |ds|
        invariant Valid() && seen == Seen(ds[..i], myID)
        invariant View() == old(View()).(deviceRead := Assigned(old(View()).deviceRead, ds[..i], Recv, myID),
                                         deviceWrite := Assigned(old(View()).deviceWrite, ds[..i], Send, myID))
        invariant Extends(old(deviceReadLimiters.m), deviceReadLimiters.m)
        invariant Extends(old(deviceWriteLimiters.m), deviceWriteLimiters.m)
        invariant fresh(deviceReadLimiters.Repr - old(deviceReadLimiters.Repr))
        invariant fresh(deviceWriteLimiters.Repr - old(deviceWriteLimiters.Repr))
      {
        AssignedSnoc(ds, i, myID);
        if ds[i].id != myID {
          seen := seen + {ds[i].id};
          SetLimits(ds[i]);
        }
      }
      assert ds[..|ds|] == ds;
    }

    /** One round, limiter.go:116-119. */
    method DeleteUnseen(id: DeviceID, seen: set<DeviceID>)
      requires Valid()
      modifies deviceReadLimiters, deviceWriteLimiters
      ensures Valid()
      ensures deviceReadLimiters.Lacks(old(deviceReadLimiters.m), old(deviceReadLimiters.Contents), {id} - seen)
      ensures deviceWriteLimiters.Lacks(old(deviceWriteLimiters.m), old(deviceWriteLimiters.Contents), {id} - seen)
    {
      if id !in seen {
        assert {id} - seen == {id};
        deviceWriteLimiters.Delete(id);
        deviceReadLimiters.Delete(id);
      } else {
        assert {id} - seen == {};
      }
    }

    /** The second loop, limiter.go:115-120. */
    method DeleteGone(ds: seq<Device>, seen: set<DeviceID>)
      requires Valid()
      modifies deviceReadLimiters, deviceWriteLimiters
      ensures Valid()
      ensures View() == old(View()).(deviceRead := old(View()).deviceRead - Unseen(ds, seen),
                                     deviceWrite := old(View()).deviceWrite - Unseen(ds, seen))
      ensures deviceReadLimiters.m == old(deviceReadLimiters.m) - Unseen(ds, seen)
      ensures deviceWriteLimiters.m == old(deviceWriteLimiters.m) - Unseen(ds, seen)
    {
      ghost var gone: set<DeviceID> := {};
      ghost var readers, rates0 := deviceReadLimiters.m, deviceReadLimiters.Contents;
      ghost var writers, rates1 := deviceWriteLimiters.m, deviceWriteLimiters.Contents;
      for i := 0 to |ds|
        invariant Valid() && gone == Unseen(ds[..i], seen)
        invariant deviceReadLimiters.Lacks(readers, rates0, gone) && deviceWriteLimiters.Lacks(writers, rates1, gone)
      {
        UnseenStep(ds, i, seen);
        DeleteUnseen(ds[i].id, seen);
        MinusMinus(readers, gone, {ds[i].id} - seen);
        MinusMinus(rates0, gone, {ds[i].id} - seen);
        MinusMinus(writers, gone, {ds[i].id} - seen);
        MinusMinus(rates1, gone, {ds[i].id} - seen);
        gone := gone + ({ds[i].id} - seen);
      }
      assert ds[..|ds|] == ds;
    }

    /** limiter.go:123-172. Limiters of devices that stay configured remain the same objects. */
    method CommitConfiguration(from: Configuration, to: Configuration)
      requires Valid()
      modifies this, read, write, deviceReadLimiters, deviceWriteLimiters, deviceReadLimiters.Repr, deviceWriteLimiters.Repr
      ensures Valid() && View() == Commit(old(View()), from, to, myID)
      ensures DistinctBy(DeviceKey, to.devices) ==> forall d | d in to.devices && d.id != myID :: InForce(View(), d)
      ensures from.options != to.options ==> OverallInForce(View(), to.options)
      ensures forall id | id in Seen(to.devices, myID) && id in old(deviceReadLimiters.m) ::
                id in deviceReadLimiters.m && deviceReadLimiters.m[id] == old(deviceReadLimiters.m)[id]
      ensures forall id | id in Seen(to.devices, myID) && id in old(deviceWriteLimiters.m) ::
                id in deviceWriteLimiters.m && deviceWriteLimiters.m[id] == old(deviceWriteLimiters.m)[id]
    {
      CommitMeansAny(View(), from, to, myID);
      var seen := AssignAll(to.devices);
      DeleteGone(from.devices, seen);
      if from.options == to.options {
        return;
      }
      read.limit := OptionRate(to.options, Recv);
      write.limit := OptionRate(to.options, Send);
      limitsLAN := to.options.limitBandwidthInLan;
    }
  }

  lemma AssignedSnoc(ds: seq<Device>, i: nat, myID: DeviceID)
    requires i < |ds|
    ensures ds[..i + 1][..i] == ds[..i] && ds[..i + 1][i] == ds[i]
    ensures Seen(ds[..i + 1], myID) == Seen(ds[..i], myID) + if ds[i].id == myID then {} else {ds[i].id}
  {
    assert ds[..i + 1] == ds[..i] + [ds[i]];
  }

  lemma GetThenSet(rates: Rates, id: DeviceID, rate: Rate)
    ensures var got := if id in rates then rates else rates[id := Inf];
            got[id := rate] == rates[id := rate] && (got[id] == rate ==> got == rates[id := rate])
  {}
}
