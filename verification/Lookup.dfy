/** The discovery manager's lookups (lib/discover/manager.go:113-166, cache.go): every finder's
    answers are cached per device. A run of one finder for one device is the list of visits that
    lookups paid to it; the cache is compared with this history. Times are nanoseconds since the
    zero time. */
module Lookup {
  import opened Bytes
  import opened Sorting
  import opened Wrappers

  type DeviceID = Str
  type Identity = Str

  datatype Timing = Timing(cacheTime: int, negCacheTime: int)

  /** What a finder says when asked; an error may know how long it is to be cached. */
  datatype Answer = Found(addresses: seq<Str>) | Failed | FailedFor(cacheFor: int)

  /** The clock readings of one round of the loop, in the order of the code, and what the finder
      answers if it is asked in this round. */
  datatype Visit = Visit(sincePositive: nat, now: nat, sinceNegative: nat, answered: nat, errorAt: nat, answer: Answer)

  datatype CacheEntry = CacheEntry(addresses: seq<Str>, when: nat, validUntil: int, found: bool)

  // ---------------------------------------------------------------- one round of the loop

  /** manager.go:140-154 */
  function EntryOf(v: Visit): CacheEntry {
    match v.answer
    case Found(addrs) => CacheEntry(addrs, v.answered, 0, |addrs| > 0)
    case Failed => CacheEntry([], v.answered, 0, false)
    case FailedFor(d) => CacheEntry([], v.answered, v.errorAt + d, false)
  }

  /** manager.go:116-133: neither a positive nor a negative valid entry is in the way. */
  predicate Asks(t: Timing, e: Option<CacheEntry>, v: Visit) {
    e.Some? ==>
      && !(e.value.found && v.sincePositive - e.value.when < t.cacheTime)
      && !(!e.value.found && (v.now < e.value.validUntil || v.sinceNegative - e.value.when < t.negCacheTime))
  }

  /** The addresses that a round appends. */
  function Contribution(t: Timing, e: Option<CacheEntry>, v: Visit): seq<Str> {
    if Asks(t, e, v) then (if v.answer.Found? then v.answer.addresses else [])
    else if e.value.found then e.value.addresses
    else []
  }

  function Visited(t: Timing, e: Option<CacheEntry>, v: Visit): Option<CacheEntry> {
    if Asks(t, e, v) then Some(EntryOf(v)) else e
  }

  // ---------------------------------------------------------------- histories

  /** The cache entry after these visits. */
  function Replay(t: Timing, visits: seq<Visit>): Option<CacheEntry> {
    if visits == [] then None else Visited(t, Replay(t, visits[..|visits| - 1]), visits[|visits| - 1])
  }

  /** The finder is asked in visit `i`. */
  predicate AskedAt(t: Timing, visits: seq<Visit>, i: nat)
    requires i < |visits|
  {
    Asks(t, Replay(t, visits[..i]), visits[i])
  }

  /** Visit `k` is the last one in which the finder was asked. */
  ghost predicate LastAsk(t: Timing, visits: seq<Visit>, k: int) {
    0 <= k < |visits| && AskedAt(t, visits, k) && forall i | k < i < |visits| :: !AskedAt(t, visits, i)
  }

  ghost predicate NeverAsked(t: Timing, visits: seq<Visit>) {
    forall i | 0 <= i < |visits| :: !AskedAt(t, visits, i)
  }

  predicate Offers(a: Answer, x: Str) { a.Found? && x in a.addresses }

  predicate Negative(a: Answer) { a.Found? ==> a.addresses == [] }

  /** The clock does not go back, within and between visits. */
  ghost predicate Chronological(visits: seq<Visit>) {
    && (forall i | 0 <= i < |visits| ::
          visits[i].sincePositive <= visits[i].now <= visits[i].sinceNegative <= visits[i].answered <= visits[i].errorAt)
    && (forall i, j | 0 <= i < j < |visits| :: visits[i].errorAt <= visits[j].sincePositive)
  }

  lemma PrefixAsks(t: Timing, visits: seq<Visit>, n: nat)
    requires n <= |visits|
    ensures forall i | 0 <= i < n :: AskedAt(t, visits[..n], i) <==> AskedAt(t, visits, i)
  {
    forall i | 0 <= i < n
      ensures AskedAt(t, visits[..n], i) <==> AskedAt(t, visits, i)
    {
      assert visits[..n][..i] == visits[..i];
    }
  }

  lemma LastAskExtends(t: Timing, visits: seq<Visit>, k: int)
    requires visits != [] && !AskedAt(t, visits, |visits| - 1)
    ensures LastAsk(t, visits[..|visits| - 1], k) ==> LastAsk(t, visits, k)
    ensures NeverAsked(t, visits[..|visits| - 1]) ==> NeverAsked(t, visits)
  {
    PrefixAsks(t, visits, |visits| - 1);
  }

  /** The cache holds the last answer and nothing else. */
  lemma {:induction false} ReplayIsLastAsk(t: Timing, visits: seq<Visit>) returns (k: int)
    ensures k >= 0 ==> LastAsk(t, visits, k) && Replay(t, visits) == Some(EntryOf(visits[k]))
    ensures k < 0 ==> NeverAsked(t, visits) && Replay(t, visits) == None
  {
    if visits == [] {
      k := -1;
    } else {
      var n := |visits| - 1;
      if AskedAt(t, visits, n) {
        k := n;
      } else {
        k := ReplayIsLastAsk(t, visits[..n]);
        LastAskExtends(t, visits, k);
      }
    }
  }

  /** An error that knows how long it is valid still is. */
  predicate StillValid(v: Visit, now: nat) { v.answer.FailedFor? && now < v.errorAt + v.answer.cacheFor }

  /** When the finder is asked: never before, or the last answer is out of date. */
  lemma AsksIff(t: Timing, visits: seq<Visit>, v: Visit, k: int)
    ensures NeverAsked(t, visits) ==> Asks(t, Replay(t, visits), v)
    ensures LastAsk(t, visits, k) ==>
              (Asks(t, Replay(t, visits), v) <==>
               if Negative(visits[k].answer)
               then !StillValid(visits[k], v.now) && v.sinceNegative >= visits[k].answered + t.negCacheTime
               else v.sincePositive >= visits[k].answered + t.cacheTime)
  {
    var j := ReplayIsLastAsk(t, visits);
    if LastAsk(t, visits, k) {
      LastAskUnique(t, visits, k);
    }
  }

  /** Where addresses come from: the finder's answer in this very visit, or its last answer, less
      than the cache time ago. */
  lemma ContributionExact(t: Timing, visits: seq<Visit>, v: Visit, x: Str)
    ensures x in Contribution(t, Replay(t, visits), v) <==>
            if Asks(t, Replay(t, visits), v) then Offers(v.answer, x)
            else exists k :: LastAsk(t, visits, k) && Offers(visits[k].answer, x) &&
                             v.sincePositive - visits[k].answered < t.cacheTime
  {
    var k := ReplayIsLastAsk(t, visits);
    if !Asks(t, Replay(t, visits), v) {
      LastAskUnique(t, visits, k);
    }
  }

  lemma LastAskUnique(t: Timing, visits: seq<Visit>, k: int)
    requires LastAsk(t, visits, k)
    ensures forall j | LastAsk(t, visits, j) :: j == k
  {}

  /** After a negative answer the finder is not asked again before both its negative cache time
      and the error's own validity have passed; after a positive one, not before its cache time. */
  lemma {:induction false} NotAskedEarly(t: Timing, visits: seq<Visit>, i: nat, j: nat)
    requires i < j < |visits| && Chronological(visits)
    requires AskedAt(t, visits, i) && AskedAt(t, visits, j)
    ensures Negative(visits[i].answer) ==>
              && visits[j].sinceNegative >= visits[i].answered + t.negCacheTime
              && !StillValid(visits[i], visits[j].now)
    ensures !Negative(visits[i].answer) ==> visits[j].sincePositive >= visits[i].answered + t.cacheTime
    decreases j
  {
    var before := visits[..j];
    var k := ReplayIsLastAsk(t, before);
    PrefixAsks(t, visits, j);
    assert AskedAt(t, before, i);
    AsksIff(t, before, visits[j], k);
    if k != i {
      assert i < k;
      NotAskedEarly(t, visits, i, k);
    }
  }

  /** A visit at a single instant. */
  function At(time: nat): Visit { Visit(time, time, time, time, time, Failed) }

  /** An error's own cache time is documented to override the negative cache time; it does so
      exactly if it is not shorter (or the negative cache time is not positive). */
  lemma CacheForOverridesIff(t: Timing, w: nat, d: int)
    ensures (forall time: nat | time >= w ::
               Asks(t, Some(EntryOf(At(w).(answer := FailedFor(d)))), At(time)) <==> time >= w + d)
            <==> d >= t.negCacheTime || t.negCacheTime <= 0
  {
    if d < t.negCacheTime && t.negCacheTime > 0 {
      var time: nat := if d < 0 then w else w + d;
      assert !Asks(t, Some(EntryOf(At(w).(answer := FailedFor(d)))), At(time));
    }
  }

  // ---------------------------------------------------------------- unique trimmed strings

  const SPACE: byte := 32

  function TrimLeft(s: Str): Str { if s != [] && s[0] == SPACE then TrimLeft(s[1..]) else s }

  function TrimRight(s: Str): Str {
    if s != [] && s[|s| - 1] == SPACE then TrimRight(s[..|s| - 1]) else s
  }

  /** `strings.Trim(s, " ")` */
  function Trim(s: Str): Str { TrimRight(TrimLeft(s)) }

  ghost predicate AllSpaces(s: Str) { forall i | 0 <= i < |s| :: s[i] == 32 }

  ghost predicate NoSpaceAtEnds(s: Str) { s != [] ==> s[0] != 32 && s[|s| - 1] != 32 }

  lemma {:induction false} TrimLeftMeans(s: Str) returns (i: nat)
    ensures i <= |s| && TrimLeft(s) == s[i..] && AllSpaces(s[..i]) && (i < |s| ==> s[i] != 32)
  {
    i := 0;
    if s != [] && s[0] == SPACE {
      i := TrimLeftMeans(s[1..]);
      assert s[..i + 1] == [s[0]] + s[1..][..i];
      i := i + 1;
    }
  }

  lemma {:induction false} TrimRightMeans(s: Str) returns (j: nat)
    ensures j <= |s| && TrimRight(s) == s[..j] && AllSpaces(s[j..]) && (j > 0 ==> s[j - 1] != 32)
  {
    j := |s|;
    if s != [] && s[|s| - 1] == SPACE {
      j := TrimRightMeans(s[..|s| - 1]);
      assert s[j..] == s[..|s| - 1][j..] + [s[|s| - 1]];
    }
  }

  /** Trimming cuts off spaces at both ends, and no less. */
  lemma TrimMeans(s: Str) returns (before: Str, after: Str)
    ensures s == before + Trim(s) + after && AllSpaces(before) && AllSpaces(after) && NoSpaceAtEnds(Trim(s))
  {
    var i := TrimLeftMeans(s);
    var j := TrimRightMeans(s[i..]);
    before, after := s[..i], s[i..][j..];
    assert s == s[..i] + s[i..];
  }

  /** lib/stringutil/stringutil.go:17-30 */
  method UniqueTrimmedStrings(ss: seq<Str>) returns (us: seq<Str>)
    ensures Distinct(us)
    ensures forall x :: x in us <==> exists i | 0 <= i < |ss| :: x == Trim(ss[i])
  {
    us := [];
    var m: set<Str> := {};
    for k := 0 to |ss|
      invariant Distinct(us) && forall x :: x in m <==> x in us
      invariant forall x :: x in us <==> exists i | 0 <= i < k :: x == Trim(ss[i])
    {
      var v := Trim(ss[k]);
      if v !in m {
        m := m + {v};
        us := us + [v];
      }
    }
  }

  lemma DistinctSorted(s: seq<Str>)
    requires Distinct(s)
    ensures Ascending(Sort(LessOrEqual, s)) && forall x :: x in Sort(LessOrEqual, s) <==> x in s
  {
    var id := (x: Str) => x;
    LessOrEqualTotal();
    SortOrdered(LessOrEqual, s);
    SortPermutes(LessOrEqual, s);
    assert DistinctBy(id, s);
    SortDistinctBy(LessOrEqual, id, s);
    var r := Sort(LessOrEqual, s);
    forall i, j | 0 <= i < j < |r| ensures Less(r[i], r[j]) {
      assert LessOrEqual(r[i], r[j]) && id(r[i]) != id(r[j]);
    }
  }

  // ---------------------------------------------------------------- the manager

  datatype CachedFinder = CachedFinder(timing: Timing, entries: map<DeviceID, CacheEntry>)

  function Get(f: CachedFinder, device: DeviceID): Option<CacheEntry> {
    if device in f.entries then Some(f.entries[device]) else None
  }

  /** The visits paid to one finder since it was added, by device. */
  type Log = map<DeviceID, seq<Visit>>

  function History(log: Log, device: DeviceID): seq<Visit> { if device in log then log[device] else [] }

  function Extended(log: Log, device: DeviceID, v: Visit): Log { log[device := History(log, device) + [v]] }

  ghost predicate Replays(f: CachedFinder, log: Log) {
    forall d :: Get(f, d) == Replay(f.timing, History(log, d))
  }

  lemma ReplaysStep(f: CachedFinder, log: Log, device: DeviceID, v: Visit, f': CachedFinder)
    requires Replays(f, log) && f'.timing == f.timing
    requires Get(f', device) == Visited(f.timing, Get(f, device), v)
    requires forall d | d != device :: Get(f', d) == Get(f, d)
    ensures Replays(f', Extended(log, device, v))
  {
    var h := History(log, device);
    assert (h + [v])[..|h|] == h;
    forall d ensures Get(f', d) == Replay(f'.timing, History(Extended(log, device, v), d)) {
      assert Get(f, d) == Replay(f.timing, History(log, d));
    }
  }

  /** One round of the loop, manager.go:115-156. */
  method VisitFinder(f: CachedFinder, device: DeviceID, v: Visit) returns (f': CachedFinder, addrs: seq<Str>)
    ensures addrs == Contribution(f.timing, Get(f, device), v)
    ensures f'.timing == f.timing && Get(f', device) == Visited(f.timing, Get(f, device), v)
    ensures forall d | d != device :: Get(f', d) == Get(f, d)
  {
    if device in f.entries {
      var e := f.entries[device];
      if e.found && v.sincePositive - e.when < f.timing.cacheTime {
        return f, e.addresses;
      }
      var valid := v.now < e.validUntil || v.sinceNegative - e.when < f.timing.negCacheTime;
      if !e.found && valid {
        return f, [];
      }
    }
    match v.answer
    case Found(found) =>
      addrs := found;
      f' := f.(entries := f.entries[device := CacheEntry(found, v.answered, 0, |found| > 0)]);
    case Failed =>
      addrs := [];
      f' := f.(entries := f.entries[device := CacheEntry([], v.answered, 0, false)]);
    case FailedFor(d) =>
      addrs := [];
      f' := f.(entries := f.entries[device := CacheEntry([], v.answered, v.errorAt + d, false)]);
  }

  /** What finder `id` contributes, by its history. */
  function Share(t: Timing, log: Log, device: DeviceID, v: Visit): seq<Str> {
    Contribution(t, Replay(t, History(log, device)), v)
  }

  /** These are the addresses that the finders `ids` contribute. */
  ghost predicate Gathered(finders: map<Identity, CachedFinder>, logs: map<Identity, Log>, device: DeviceID,
                           world: map<Identity, Visit>, ids: set<Identity>, addresses: seq<Str>)
  {
    && finders.Keys == logs.Keys == world.Keys && ids <= finders.Keys
    && forall a :: a in addresses <==> exists id | id in ids :: a in Share(finders[id].timing, logs[id], device, world[id])
  }

  lemma GatheredStep(finders: map<Identity, CachedFinder>, logs: map<Identity, Log>, device: DeviceID,
                     world: map<Identity, Visit>, ids: set<Identity>, addresses: seq<Str>, id: Identity, addrs: seq<Str>)
    requires id in finders
    requires Gathered(finders, logs, device, world, ids, addresses)
    requires addrs == Share(finders[id].timing, logs[id], device, world[id])
    ensures Gathered(finders, logs, device, world, ids + {id}, addresses + addrs)
  {}

  /** The finders `done` have been visited and the others have not. */
  ghost predicate Progress(finders: map<Identity, CachedFinder>, logs: map<Identity, Log>, device: DeviceID,
                           world: map<Identity, Visit>, done: set<Identity>, finders': map<Identity, CachedFinder>)
  {
    && finders.Keys == logs.Keys == world.Keys && done <= finders.Keys
    && finders'.Keys == finders.Keys
    && (forall id | id in finders && id !in done :: finders'[id] == finders[id])
    && (forall id | id in done :: finders'[id].timing == finders[id].timing)
    && (forall id | id in done :: Replays(finders'[id], Extended(logs[id], device, world[id])))
  }

  lemma ProgressEnd(finders: map<Identity, CachedFinder>, logs: map<Identity, Log>, device: DeviceID,
                    world: map<Identity, Visit>, finders': map<Identity, CachedFinder>)
    requires Progress(finders, logs, device, world, finders.Keys, finders')
    ensures AllReplay(finders', ExtendedAll(logs, device, world)) && Timings(finders') == Timings(finders)
  {}

  /** Visiting one more finder. */
  method VisitNext(finders: map<Identity, CachedFinder>, ghost logs: map<Identity, Log>, device: DeviceID,
                   world: map<Identity, Visit>, ghost done: set<Identity>, before: map<Identity, CachedFinder>,
                   addresses: seq<Str>, id: Identity)
    returns (after: map<Identity, CachedFinder>, addresses': seq<Str>)
    requires AllReplay(finders, logs) && id in finders && id !in done
    requires Progress(finders, logs, device, world, done, before)
    requires Gathered(finders, logs, device, world, done, addresses)
    ensures Progress(finders, logs, device, world, done + {id}, after)
    ensures Gathered(finders, logs, device, world, done + {id}, addresses')
  {
    var f, addrs := VisitFinder(before[id], device, world[id]);
    assert Get(finders[id], device) == Replay(finders[id].timing, History(logs[id], device));
    ReplaysStep(finders[id], logs[id], device, world[id], f);
    GatheredStep(finders, logs, device, world, done, addresses, id, addrs);
    after, addresses' := before[id := f], addresses + addrs;
  }

  /** The finders are visited in any order, manager.go:115-156. */
  method VisitAll(finders: map<Identity, CachedFinder>, ghost logs: map<Identity, Log>, device: DeviceID,
                  world: map<Identity, Visit>)
    returns (finders': map<Identity, CachedFinder>, addresses: seq<Str>)
    requires AllReplay(finders, logs) && world.Keys == finders.Keys
    ensures AllReplay(finders', ExtendedAll(logs, device, world))
    ensures Timings(finders') == Timings(finders)
    ensures Gathered(finders, logs, device, world, finders.Keys, addresses)
  {
    finders', addresses := finders, [];
    var todo := finders.Keys;
    ghost var done: set<Identity> := {};
    while todo != {}
      invariant forall id :: id in finders <==> id in todo || id in done
      invariant todo !! done
      invariant Progress(finders, logs, device, world, done, finders')
      invariant Gathered(finders, logs, device, world, done, addresses)
      decreases |todo|
    {
      var id :| id in todo;
      finders', addresses := VisitNext(finders, logs, device, world, done, finders', addresses, id);
      todo, done := todo - {id}, done + {id};
    }
    assert done == finders.Keys;
    ProgressEnd(finders, logs, device, world, finders');
  }

  ghost predicate AllReplay(finders: map<Identity, CachedFinder>, logs: map<Identity, Log>) {
    logs.Keys == finders.Keys && forall id | id in finders :: Replays(finders[id], logs[id])
  }

  ghost function ExtendedAll(logs: map<Identity, Log>, device: DeviceID, world: map<Identity, Visit>): map<Identity, Log>
    requires logs.Keys == world.Keys
  {
    map id | id in logs :: Extended(logs[id], device, world[id])
  }

  /** An address that some finder contributes, trimmed. */
  ghost predicate Offered(finders: map<Identity, CachedFinder>, logs: map<Identity, Log>, device: DeviceID,
                          world: map<Identity, Visit>, x: Str)
  {
    finders.Keys == logs.Keys == world.Keys &&
    exists id, a | id in finders && a in Share(finders[id].timing, logs[id], device, world[id]) :: x == Trim(a)
  }

  function Timings(finders: map<Identity, CachedFinder>): map<Identity, Timing> {
    map id | id in finders :: finders[id].timing
  }

  class Manager {
    var finders: map<Identity, CachedFinder>
    ghost var logs: map<Identity, Log>

    /** Each cache is what replaying the finder's history leaves. */
    ghost predicate Valid() reads this {
      AllReplay(finders, logs)
    }

    constructor ()
      ensures Valid() && finders == map[]
    {
      finders, logs := map[], map[];
    }

    /** manager.go:80-94: a finder added anew starts with an empty cache. */
    method Add(identity: Identity, timing: Timing)
      requires Valid()
      modifies this
      ensures Valid() && finders == old(finders)[identity := CachedFinder(timing, map[])]
      ensures logs == old(logs)[identity := map[]]
    {
      finders := finders[identity := CachedFinder(timing, map[])];
      logs := logs[identity := map[]];
    }

    /** manager.go:96-109 */
    method Remove(identity: Identity)
      requires Valid()
      modifies this
      ensures Valid() && finders == old(finders) - {identity} && logs == old(logs) - {identity}
    {
      if identity !in finders {
        return;
      }
      finders := finders - {identity};
      logs := logs - {identity};
    }

    /** manager.go:113-166. `world` gives each finder's clock readings and answer; finders are
        visited in any order. The result is the ascending list of what the finders contribute. */
    method Lookup(device: DeviceID, world: map<Identity, Visit>) returns (addresses: seq<Str>)
      requires Valid() && world.Keys == finders.Keys
      modifies this
      ensures Valid() && Timings(finders) == old(Timings(finders))
      ensures logs == ExtendedAll(old(logs), device, world)
      ensures Ascending(addresses)
      ensures forall x :: x in addresses <==> Offered(old(finders), old(logs), device, world, x)
    {
      ghost var logs0, finders0 := logs, finders;
      finders, addresses := VisitAll(finders, logs, device, world);
      logs := ExtendedAll(logs, device, world);
      addresses := Collated(addresses, finders0, logs0, device, world);
    }
  }

  /** manager.go:160-161 */
  method Collated(gathered: seq<Str>, ghost finders: map<Identity, CachedFinder>, ghost logs: map<Identity, Log>,
                  ghost device: DeviceID, ghost world: map<Identity, Visit>)
    returns (addresses: seq<Str>)
    requires Gathered(finders, logs, device, world, finders.Keys, gathered)
    ensures Ascending(addresses)
    ensures forall x :: x in addresses <==> Offered(finders, logs, device, world, x)
  {
    var us := UniqueTrimmedStrings(gathered);
    DistinctSorted(us);
    addresses := Sort(LessOrEqual, us);
    forall x ensures x in addresses <==> Offered(finders, logs, device, world, x) {
      assert x in addresses <==> x in us;
      if x in us {
        var i :| 0 <= i < |gathered| && x == Trim(gathered[i]);
        assert gathered[i] in gathered;
      }
      if Offered(finders, logs, device, world, x) {
        var id, a :| id in finders && a in Share(finders[id].timing, logs[id], device, world[id]) && x == Trim(a);
        assert a in gathered;
      }
    }
  }
}
