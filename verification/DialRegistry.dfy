/** The next-dial registry (lib/connections/service.go:1196-1282): forced redials are limited by
    a cool-down per device. Times are in nanoseconds. */
module DialRegistry {
  import opened Bytes
  import opened Wrappers

  type DeviceID = Str

  const SECOND: int := 1_000_000_000
  const COOL_DOWN_INTERVAL: int := 120 * SECOND
  const COOL_DOWN_DELAY: int := 300 * SECOND
  const MAX_ATTEMPTS: nat := 3
  const LOOP_SLEEP: int := 60 * SECOND

  datatype NextDialDevice = NextDialDevice(nextDial: map<Str, int>, coolDownIntervalStart: int, attempts: nat)

  type Registry = map<DeviceID, NextDialDevice>

  // ---------------------------------------------------------------- the operations

  /** service.go:1219-1246 */
  function Redialed(r: Registry, device: DeviceID, now: int): Registry {
    if device !in r then r[device := NextDialDevice(map[], now, 1)]
    else
      var dev := r[device];
      if dev.attempts == 0 || now < dev.coolDownIntervalStart + COOL_DOWN_INTERVAL then
        if dev.attempts >= MAX_ATTEMPTS then r
        else r[device := NextDialDevice(map[], if dev.attempts == 0 then now else dev.coolDownIntervalStart, dev.attempts + 1)]
      else if dev.attempts >= MAX_ATTEMPTS && now < dev.coolDownIntervalStart + COOL_DOWN_DELAY then r
      else r - {device}
  }

  /** service.go:1248-1253 */
  function WithNext(r: Registry, device: DeviceID, addr: Str, next: int): Registry {
    var dev := if device in r then r[device] else NextDialDevice(map[], 0, 0);
    r[device := dev.(nextDial := dev.nextDial[addr := next])]
  }

  /** service.go:1204-1206: the time of the next dial, if there is one. */
  function NextOf(r: Registry, device: DeviceID, addr: Str): Option<int> {
    if device in r && addr in r[device].nextDial then Some(r[device].nextDial[addr]) else None
  }

  /** Setting a time sets this one only, and neither counts as an attempt nor forgets one. */
  lemma NextSet(r: Registry, device: DeviceID, addr: Str, next: int, d: DeviceID, a: Str)
    ensures var r' := WithNext(r, device, addr, next);
            && NextOf(r', d, a) == (if d == device && a == addr then Some(next) else NextOf(r, d, a))
            && (d in r ==> d in r' && r'[d] == r[d].(nextDial := r'[d].nextDial))
            && (d !in r && d in r' ==> d == device && r'[d].attempts == 0)
  {}

  /** What remains of a device's next-dial times: the map is shared, so this is stored. */
  function Pending(dev: NextDialDevice, now: int): map<Str, int> {
    map a | a in dev.nextDial && dev.nextDial[a] >= now :: dev.nextDial[a]
  }

  /** The attempts as the cleanup sees them. The struct is a copy of the map value, so resetting
      them to zero decides about deletion but is not stored (service.go:1257, 1274). */
  predicate Forgettable(dev: NextDialDevice, now: int) {
    || dev.attempts == 0
    || now > dev.coolDownIntervalStart + (if dev.attempts >= MAX_ATTEMPTS then COOL_DOWN_DELAY else COOL_DOWN_INTERVAL)
  }

  /** service.go:1255-1282 */
  function Cleaned(r: Registry, now: int): Registry {
    map d | d in r && !(Pending(r[d], now) == map[] && Forgettable(r[d], now)) :: r[d].(nextDial := Pending(r[d], now))
  }

  /** A dial of the device is due. */
  ghost predicate HasDue(r: Registry, device: DeviceID, now: int) {
    exists a: Str :: NextOf(r, device, a).Some? && NextOf(r, device, a).value >= now
  }

  /** Attempts count for two minutes from the first, or for five if there were three. */
  predicate StillCounts(dev: NextDialDevice, now: int) {
    dev.attempts > 0 && now <= dev.coolDownIntervalStart + if dev.attempts < 3 then 120_000_000_000 else 300_000_000_000
  }

  /** The cleanup drops the dials that have passed, keeps attempts as they are, and forgets a device
      exactly if no dial of it is due and no attempt counts any more. */
  lemma CleanedMeans(r: Registry, now: int, d: DeviceID, a: Str)
    ensures var r' := Cleaned(r, now);
            && (d in r' <==> d in r && (HasDue(r, d, now) || StillCounts(r[d], now)))
            && (d in r' ==> r'[d].attempts == r[d].attempts && r'[d].coolDownIntervalStart == r[d].coolDownIntervalStart)
            && (NextOf(r', d, a) == if NextOf(r, d, a).Some? && NextOf(r, d, a).value >= now then NextOf(r, d, a) else None)
  {
    if d in r {
      assert forall a: Str :: a in Pending(r[d], now) <==> NextOf(r, d, a).Some? && NextOf(r, d, a).value >= now;
      if Pending(r[d], now) != map[] {
        var due :| due in Pending(r[d], now);
        assert HasDue(r, d, now);
      }
    }
  }

  /** No next-dial time is left, so the device is dialled at once. */
  predicate DialsAtOnce(r: Registry, device: DeviceID) { device !in r || r[device].nextDial == map[] }

  predicate CoolingDown(r: Registry, device: DeviceID, now: int) {
    && device in r && r[device].attempts >= MAX_ATTEMPTS
    && now < r[device].coolDownIntervalStart + COOL_DOWN_DELAY
  }

  /** A redial is refused exactly while the device cools down; otherwise it is forced. */
  lemma RefusedIff(r: Registry, device: DeviceID, now: int)
    ensures Redialed(r, device, now) == r <==> CoolingDown(r, device, now)
    ensures !CoolingDown(r, device, now) ==> DialsAtOnce(Redialed(r, device, now), device)
  {
    if device in r && !CoolingDown(r, device, now) {
      var r' := Redialed(r, device, now);
      assert device !in r' || r'[device].attempts == r[device].attempts + 1;
    }
  }

  // ---------------------------------------------------------------- runs

  datatype Op = Redial(device: DeviceID, now: int) | SetNext(d: DeviceID, addr: Str, next: int) | Clean(now: int)

  function Apply(r: Registry, op: Op): Registry {
    match op
    case Redial(device, now) => Redialed(r, device, now)
    case SetNext(d, addr, next) => WithNext(r, d, addr, next)
    case Clean(now) => Cleaned(r, now)
  }

  function RunFrom(r: Registry, ops: seq<Op>): Registry {
    if ops == [] then r else Apply(RunFrom(r, ops[..|ops| - 1]), ops[|ops| - 1])
  }

  ghost predicate Bounded(r: Registry) {
    forall d | d in r :: r[d].attempts <= MAX_ATTEMPTS
  }

  /** Over every run the attempts counted for a device never exceed the maximum. */
  lemma {:induction false} AttemptsBounded(r: Registry, ops: seq<Op>)
    requires Bounded(r)
    ensures Bounded(RunFrom(r, ops))
  {
    if ops != [] {
      AttemptsBounded(r, ops[..|ops| - 1]);
    }
  }

  /** The device is in its cool-down since `start`. */
  ghost predicate Held(r: Registry, device: DeviceID, start: int) {
    device in r && r[device].attempts == MAX_ATTEMPTS && r[device].coolDownIntervalStart == start
  }

  /** All calls come before the delay has passed: redials strictly, cleanups at the latest then. */
  ghost predicate Before(ops: seq<Op>, end: int) {
    forall i | 0 <= i < |ops| :: (ops[i].Redial? ==> ops[i].now < end) && (ops[i].Clean? ==> ops[i].now <= end)
  }

  lemma HeldStep(r: Registry, device: DeviceID, start: int, op: Op)
    requires Held(r, device, start)
    requires op.Redial? ==> op.now < start + COOL_DOWN_DELAY
    requires op.Clean? ==> op.now <= start + COOL_DOWN_DELAY
    ensures Held(Apply(r, op), device, start)
    ensures op.Redial? && op.device == device ==> Apply(r, op) == r
  {
    if op.Redial? {
      RefusedIff(r, op.device, op.now);
    }
  }

  /** Once the maximum is reached, nothing forces a redial of the device or forgets it until the
      cool-down delay after the interval start has passed. */
  lemma {:induction false} CoolDownHolds(r: Registry, ops: seq<Op>, device: DeviceID, start: int)
    requires Held(r, device, start) && Before(ops, start + COOL_DOWN_DELAY)
    ensures Held(RunFrom(r, ops), device, start)
    ensures forall i | 0 <= i < |ops| && ops[i].Redial? && ops[i].device == device ::
              RunFrom(r, ops[..i + 1]) == RunFrom(r, ops[..i])
  {
    if ops != [] {
      var init, last := ops[..|ops| - 1], ops[|ops| - 1];
      assert Before(init, start + COOL_DOWN_DELAY);
      CoolDownHolds(r, init, device, start);
      HeldStep(RunFrom(r, init), device, start, last);
      forall i | 0 <= i < |ops| && ops[i].Redial? && ops[i].device == device
        ensures RunFrom(r, ops[..i + 1]) == RunFrom(r, ops[..i])
      {
        if i < |init| {
          assert init[i] == ops[i] && init[..i + 1] == ops[..i + 1] && init[..i] == ops[..i];
        } else {
          assert ops[..i + 1] == ops && ops[..i] == init;
        }
      }
    }
  }

  // ---------------------------------------------------------------- how many redials are forced

  /** The call forces a redial of the device. */
  predicate Forces(r: Registry, device: DeviceID, op: Op) {
    op.Redial? && op.device == device && !CoolingDown(r, device, op.now)
  }

  /** How many redials of the device are forced in a run. */
  function ForcedFrom(r: Registry, ops: seq<Op>, device: DeviceID): nat {
    if ops == [] then 0 else
      var init, last := ops[..|ops| - 1], ops[|ops| - 1];
      ForcedFrom(r, init, device) + if Forces(RunFrom(r, init), device, last) then 1 else 0
  }

  function Forced(ops: seq<Op>, device: DeviceID): nat { ForcedFrom(map[], ops, device) }

  function TimeOf(op: Op, t: int): int { if op.SetNext? then t else op.now }

  /** The time of the last timed call, or `t0`. */
  function Clock(ops: seq<Op>, t0: int): int {
    if ops == [] then t0 else TimeOf(ops[|ops| - 1], Clock(ops[..|ops| - 1], t0))
  }

  ghost predicate Chronological(ops: seq<Op>, t0: int) {
    ops == [] ||
    (Chronological(ops[..|ops| - 1], t0) && Clock(ops[..|ops| - 1], t0) <= Clock(ops, t0))
  }

  /** `epochs` intervals have passed, each with three forced redials at most. A device that has used
      up its attempts waits for more than two intervals, which pays for the redial that ends them. */
  ghost predicate Budget(r: Registry, device: DeviceID, forced: nat, epochs: nat, t0: int, now: int) {
    t0 <= now &&
    if device in r && r[device].attempts > 0 then
      && epochs >= 1 && forced <= 3 * (epochs - 1) + r[device].attempts && r[device].attempts <= MAX_ATTEMPTS
      && t0 + (epochs - 1) * COOL_DOWN_INTERVAL <= r[device].coolDownIntervalStart <= now
    else
      forced <= 3 * epochs && t0 + epochs * COOL_DOWN_INTERVAL <= now
  }

  lemma BudgetStep(r: Registry, device: DeviceID, forced: nat, epochs: nat, t0: int, now: int, op: Op)
    returns (epochs': nat)
    requires Budget(r, device, forced, epochs, t0, now) && now <= TimeOf(op, now)
    ensures var n := if Forces(r, device, op) then 1 else 0;
            Budget(Apply(r, op), device, forced + n, epochs', t0, TimeOf(op, now))
  {
    epochs' := epochs;
    if op.Redial? && op.device == device {
      var counting := device in r && r[device].attempts > 0;
      if !counting {
        epochs' := epochs + 1;
      } else if device !in Apply(r, op) && r[device].attempts == MAX_ATTEMPTS {
        epochs' := epochs + 1;
      }
    }
  }

  lemma {:induction false} BudgetHolds(ops: seq<Op>, device: DeviceID, t0: int) returns (epochs: nat)
    requires Chronological(ops, t0)
    ensures Budget(RunFrom(map[], ops), device, Forced(ops, device), epochs, t0, Clock(ops, t0))
  {
    if ops == [] {
      epochs := 0;
    } else {
      var init, last := ops[..|ops| - 1], ops[|ops| - 1];
      var e := BudgetHolds(init, device, t0);
      epochs := BudgetStep(RunFrom(map[], init), device, Forced(init, device), e, t0, Clock(init, t0), last);
    }
  }

  /** Over every run in nondecreasing time, a device is forcibly redialled at most three times per
      cool-down interval begun. */
  lemma ForcedBounded(ops: seq<Op>, device: DeviceID, t0: int)
    requires Chronological(ops, t0)
    ensures Forced(ops, device) * COOL_DOWN_INTERVAL <= 3 * (COOL_DOWN_INTERVAL + Clock(ops, t0) - t0)
  {
    var e := BudgetHolds(ops, device, t0);
    BudgetBounds(RunFrom(map[], ops), device, Forced(ops, device), e, t0, Clock(ops, t0));
  }

  lemma BudgetBounds(r: Registry, device: DeviceID, forced: nat, epochs: nat, t0: int, now: int)
    requires Budget(r, device, forced, epochs, t0, now)
    ensures forced * COOL_DOWN_INTERVAL <= 3 * (COOL_DOWN_INTERVAL + now - t0)
  {
    assert forced <= 3 * epochs;
    assert epochs >= 1 ==> (epochs - 1) * COOL_DOWN_INTERVAL <= now - t0;
  }

  /** When an address is to be dialled next: as it was set last, unless that has passed and been cleaned
      up, or a redial has been forced since. */
  function DialTime(ops: seq<Op>, device: DeviceID, addr: Str): Option<int> {
    if ops == [] then None else
      var init, last := ops[..|ops| - 1], ops[|ops| - 1];
      var before := DialTime(init, device, addr);
      match last
      case SetNext(d, a, next) => if d == device && a == addr then Some(next) else before
      case Redial(_, _) => if Forces(RunFrom(map[], init), device, last) then None else before
      case Clean(now) => if before.Some? && before.value < now then None else before
  }

  /** Over every run the registry has just these times. */
  lemma {:induction false} DialTimesExact(ops: seq<Op>, device: DeviceID, addr: Str)
    ensures NextOf(RunFrom(map[], ops), device, addr) == DialTime(ops, device, addr)
  {
    if ops != [] {
      var init, last := ops[..|ops| - 1], ops[|ops| - 1];
      var r := RunFrom(map[], init);
      DialTimesExact(init, device, addr);
      match last {
        case SetNext(d, a, next) => NextSet(r, d, a, next, device, addr);
        case Redial(d, now) => RefusedIff(r, d, now);
        case Clean(now) => CleanedMeans(r, now, device, addr);
      }
    }
  }

  /** The redial that ends an interval is forced but not counted, and happens exactly when a
      counted interval is over and no cool-down holds. */
  lemma UncountedIff(r: Registry, device: DeviceID, now: int)
    ensures device !in Redialed(r, device, now) <==>
            && device in r && r[device].attempts > 0 && !CoolingDown(r, device, now)
            && now >= r[device].coolDownIntervalStart + COOL_DOWN_INTERVAL
  {}

  // ---------------------------------------------------------------- the bound is reached

  lemma {:induction false} RunFromConcat(r: Registry, a: seq<Op>, b: seq<Op>, device: DeviceID)
    ensures RunFrom(r, a + b) == RunFrom(RunFrom(r, a), b)
    ensures ForcedFrom(r, a + b, device) == ForcedFrom(r, a, device) + ForcedFrom(RunFrom(r, a), b, device)
  {
    if b == [] {
      assert a + b == a;
    } else {
      assert (a + b)[..|a + b| - 1] == a + b[..|b| - 1];
      RunFromConcat(r, a, b[..|b| - 1], device);
    }
  }

  /** `n` redials at one instant. */
  function Redials(device: DeviceID, t: int, n: nat): seq<Op> { seq(n, i => Redial(device, t)) }

  /** The registry they leave, and how many of them are forced. */
  function Burst(r: Registry, device: DeviceID, t: int, n: nat): (Registry, nat) {
    if n == 0 then (r, 0) else
      var (r', forced) := Burst(r, device, t, n - 1);
      (Redialed(r', device, t), forced + if CoolingDown(r', device, t) then 0 else 1)
  }

  lemma {:induction false} RedialsBurst(r: Registry, device: DeviceID, t: int, n: nat)
    ensures (RunFrom(r, Redials(device, t, n)), ForcedFrom(r, Redials(device, t, n), device)) == Burst(r, device, t, n)
  {
    if n > 0 {
      RedialsBurst(r, device, t, n - 1);
      assert Redials(device, t, n)[..n - 1] == Redials(device, t, n - 1);
    }
  }

  predicate Counting(r: Registry, device: DeviceID) { device in r && r[device].attempts > 0 }

  /** Attempts up to the maximum are all forced and counted, while the interval lasts. */
  lemma {:induction false} CountedBurst(r: Registry, device: DeviceID, t: int, n: nat)
    requires Counting(r, device) && r[device].attempts + n <= MAX_ATTEMPTS && t < r[device].coolDownIntervalStart + COOL_DOWN_INTERVAL
    ensures Burst(r, device, t, n).1 == n
    ensures n > 0 ==>
              Burst(r, device, t, n).0 == r[device := NextDialDevice(map[], r[device].coolDownIntervalStart, r[device].attempts + n)]
  {
    if n > 0 {
      CountedBurst(r, device, t, n - 1);
    }
  }

  /** A device that is not counting gets three. */
  lemma {:induction false} FreshBurst(r: Registry, device: DeviceID, t: int, n: nat)
    requires !Counting(r, device) && 1 <= n <= MAX_ATTEMPTS
    ensures Burst(r, device, t, n).0 == r[device := NextDialDevice(map[], t, n)] && Burst(r, device, t, n).1 == n
  {
    if n > 1 {
      FreshBurst(r, device, t, n - 1);
      assert Burst(r, device, t, n).0 == Redialed(r[device := NextDialDevice(map[], t, n - 1)], device, t);
    } else {
      assert Burst(r, device, t, 0) == (r, 0);
    }
  }

  /** One that ends its interval gets one more, which is not counted. */
  lemma {:induction false} EndingBurst(r: Registry, device: DeviceID, t: int, n: nat)
    requires Counting(r, device) && !CoolingDown(r, device, t) && t >= r[device].coolDownIntervalStart + COOL_DOWN_INTERVAL
    requires n <= MAX_ATTEMPTS
    ensures Burst(r, device, t, n + 1).0 == (if n == 0 then r - {device} else r[device := NextDialDevice(map[], t, n)])
    ensures Burst(r, device, t, n + 1).1 == n + 1
  {
    if n > 0 {
      EndingBurst(r, device, t, n - 1);
      var r' := if n == 1 then r - {device} else r[device := NextDialDevice(map[], t, n - 1)];
      assert Burst(r, device, t, n + 1).0 == Redialed(r', device, t) == r[device := NextDialDevice(map[], t, n)];
    } else {
      assert Burst(r, device, t, 0) == (r, 0);
    }
  }

  /** Two counted attempts at the start of every interval, and one that ends it. */
  function Saturating(device: DeviceID, n: nat): seq<Op> {
    if n == 0 then Redials(device, 0, 2) else Saturating(device, n - 1) + Redials(device, n * COOL_DOWN_INTERVAL, 3)
  }

  lemma {:induction false} RedialsClock(ops: seq<Op>, device: DeviceID, t: int, n: nat, t0: int)
    requires Chronological(ops, t0) && Clock(ops, t0) <= t
    ensures Chronological(ops + Redials(device, t, n), t0)
    ensures n > 0 ==> Clock(ops + Redials(device, t, n), t0) == t
    decreases n
  {
    var all := ops + Redials(device, t, n);
    if n == 0 {
      assert all == ops;
    } else {
      assert all[..|all| - 1] == ops + Redials(device, t, n - 1);
      RedialsClock(ops, device, t, n - 1, t0);
      assert n == 1 ==> ops + Redials(device, t, 0) == ops;
    }
  }

  lemma {:induction false} SaturatingRun(device: DeviceID, n: nat)
    ensures var ops := Saturating(device, n);
            && Chronological(ops, 0) && Clock(ops, 0) == n * COOL_DOWN_INTERVAL && Forced(ops, device) == 3 * n + 2
            && RunFrom(map[], ops) == map[device := NextDialDevice(map[], n * COOL_DOWN_INTERVAL, 2)]
  {
    if n == 0 {
      FreshBurst(map[], device, 0, 2);
      RedialsBurst(map[], device, 0, 2);
      RedialsClock([], device, 0, 2, 0);
      assert [] + Redials(device, 0, 2) == Redials(device, 0, 2);
    } else {
      SaturatingRun(device, n - 1);
      SaturatingStep(Saturating(device, n - 1), device, (n - 1) * COOL_DOWN_INTERVAL, n * COOL_DOWN_INTERVAL);
    }
  }

  lemma SaturatingStep(init: seq<Op>, device: DeviceID, start: int, t: int)
    requires Chronological(init, 0) && Clock(init, 0) == start && t == start + COOL_DOWN_INTERVAL
    requires RunFrom(map[], init) == map[device := NextDialDevice(map[], start, 2)]
    ensures var ops := init + Redials(device, t, 3);
            && Chronological(ops, 0) && Clock(ops, 0) == t && Forced(ops, device) == Forced(init, device) + 3
            && RunFrom(map[], ops) == map[device := NextDialDevice(map[], t, 2)]
  {
    var r := map[device := NextDialDevice(map[], start, 2)];
    RedialsClock(init, device, t, 3, 0);
    EndingBurst(r, device, t, 2);
    RedialsBurst(r, device, t, 3);
    RunFromConcat(map[], init, Redials(device, t, 3), device);
  }

  /** The bound is reached, over any number of intervals. */
  lemma BoundReached(device: DeviceID, n: nat)
    ensures var ops := Saturating(device, n) + Redials(device, n * COOL_DOWN_INTERVAL, 1);
            && Chronological(ops, 0)
            && Forced(ops, device) * COOL_DOWN_INTERVAL == 3 * (COOL_DOWN_INTERVAL + Clock(ops, 0) - 0)
  {
    var init, t := Saturating(device, n), n * COOL_DOWN_INTERVAL;
    SaturatingRun(device, n);
    RedialsClock(init, device, t, 1, 0);
    CountedBurst(RunFrom(map[], init), device, t, 1);
    RedialsBurst(RunFrom(map[], init), device, t, 1);
    RunFromConcat(map[], init, Redials(device, t, 1), device);
    assert Forced(init + Redials(device, t, 1), device) == 3 * n + 3;
    ThreePerInterval(n, COOL_DOWN_INTERVAL);
  }

  lemma ThreePerInterval(n: int, c: int)
    ensures (3 * n + 3) * c == 3 * (c + n * c)
  {}

  // ---------------------------------------------------------------- within less than an interval

  /** The most redials that can be forced from `now` until before `end`, less than an interval: three
      for a device that is not counting; what is left of them while its interval lasts; and one
      more that ends the interval or the cool-down, if that is over before `end`. A device with
      one attempt can have its second before that. */
  function MostForced(r: Registry, device: DeviceID, now: int, end: int): nat {
    if !Counting(r, device) then MAX_ATTEMPTS
    else
      var NextDialDevice(_, start, attempts) := r[device];
      if attempts >= MAX_ATTEMPTS then (if start + COOL_DOWN_DELAY < end then MAX_ATTEMPTS + 1 else 0)
      else if start + COOL_DOWN_INTERVAL >= end then MAX_ATTEMPTS - attempts
      else if attempts == 1 && now < start + COOL_DOWN_INTERVAL then MAX_ATTEMPTS + 2
      else MAX_ATTEMPTS + 1
  }

  /** All calls come in order, from `now` on and before `end`. */
  ghost predicate Within(ops: seq<Op>, now: int, end: int) {
    Chronological(ops, now) && Clock(ops, now) < end
  }

  lemma {:induction false} ClockAdvances(ops: seq<Op>, now: int)
    requires Chronological(ops, now)
    ensures now <= Clock(ops, now)
  {
    if ops != [] {
      ClockAdvances(ops[..|ops| - 1], now);
    }
  }

  lemma MostForcedStep(r: Registry, device: DeviceID, now: int, end: int, op: Op)
    requires now <= TimeOf(op, now) < end <= now + COOL_DOWN_INTERVAL
    ensures MostForced(Apply(r, op), device, TimeOf(op, now), end) + (if Forces(r, device, op) then 1 else 0) <=
            MostForced(r, device, now, end)
  {}

  lemma {:induction false} WindowHolds(r: Registry, ops: seq<Op>, device: DeviceID, now: int, end: int)
    requires end <= now + COOL_DOWN_INTERVAL && Within(ops, now, end)
    ensures ForcedFrom(r, ops, device) + MostForced(RunFrom(r, ops), device, Clock(ops, now), end) <= MostForced(r, device, now, end)
  {
    if ops != [] {
      var init, last := ops[..|ops| - 1], ops[|ops| - 1];
      ClockAdvances(init, now);
      WindowHolds(r, init, device, now, end);
      MostForcedStep(RunFrom(r, init), device, Clock(init, now), end, last);
    }
  }

  /** From any registry, no calls within less than an interval force more. */
  lemma WindowBounded(r: Registry, ops: seq<Op>, device: DeviceID, now: int, end: int)
    requires end <= now + COOL_DOWN_INTERVAL && Within(ops, now, end)
    ensures ForcedFrom(r, ops, device) <= MostForced(r, device, now, end) <= MAX_ATTEMPTS + 2
  {
    WindowHolds(r, ops, device, now, end);
  }

  /** And some force as many. */
  lemma WindowReached(r: Registry, device: DeviceID, now: int, end: int) returns (ops: seq<Op>)
    requires Bounded(r) && now < end <= now + COOL_DOWN_INTERVAL
    ensures Within(ops, now, end) && ForcedFrom(r, ops, device) == MostForced(r, device, now, end)
  {
    if !Counting(r, device) {
      ops := AtInstant(r, device, now, now, MAX_ATTEMPTS);
      FreshBurst(r, device, now, MAX_ATTEMPTS);
    } else {
      var NextDialDevice(_, start, attempts) := r[device];
      if attempts == MAX_ATTEMPTS {
        if start + COOL_DOWN_DELAY < end {
          var t := if now < start + COOL_DOWN_DELAY then start + COOL_DOWN_DELAY else now;
          ops := AtInstant(r, device, now, t, MAX_ATTEMPTS + 1);
          EndingBurst(r, device, t, MAX_ATTEMPTS);
        } else {
          ops := [];
        }
      } else if start + COOL_DOWN_INTERVAL >= end {
        ops := AtInstant(r, device, now, now, MAX_ATTEMPTS - attempts);
        CountedBurst(r, device, now, MAX_ATTEMPTS - attempts);
      } else if now >= start + COOL_DOWN_INTERVAL {
        ops := AtInstant(r, device, now, now, MAX_ATTEMPTS + 1);
        EndingBurst(r, device, now, MAX_ATTEMPTS);
      } else {
        ops := BeforeAndAfter(r, device, now);
      }
    }
  }

  lemma AtInstant(r: Registry, device: DeviceID, now: int, t: int, n: nat) returns (ops: seq<Op>)
    requires now <= t
    ensures Chronological(ops, now) && now <= Clock(ops, now) <= t
    ensures (RunFrom(r, ops), ForcedFrom(r, ops, device)) == Burst(r, device, t, n)
  {
    ops := Redials(device, t, n);
    RedialsBurst(r, device, t, n);
    RedialsClock([], device, t, n, now);
    assert [] + ops == ops;
  }

  /** A second attempt before the interval ends, if it is not made already, and four when it does. */
  lemma BeforeAndAfter(r: Registry, device: DeviceID, now: int) returns (ops: seq<Op>)
    requires Counting(r, device) && r[device].attempts <= 2 && now < r[device].coolDownIntervalStart + COOL_DOWN_INTERVAL
    ensures Chronological(ops, now) && Clock(ops, now) == r[device].coolDownIntervalStart + COOL_DOWN_INTERVAL
    ensures ForcedFrom(r, ops, device) == 2 - r[device].attempts + MAX_ATTEMPTS + 1
  {
    var t, n := r[device].coolDownIntervalStart + COOL_DOWN_INTERVAL, 2 - r[device].attempts;
    var before := AtInstant(r, device, now, now, n);
    CountedBurst(r, device, now, n);
    var r' := RunFrom(r, before);
    EndingBurst(r', device, t, MAX_ATTEMPTS);
    RedialsBurst(r', device, t, MAX_ATTEMPTS + 1);
    RedialsClock(before, device, t, MAX_ATTEMPTS + 1, now);
    RunFromConcat(r, before, Redials(device, t, MAX_ATTEMPTS + 1), device);
    ops := before + Redials(device, t, MAX_ATTEMPTS + 1);
  }

  /** So five can be forced within a second, although three are meant to be the limit: the second
      attempt at the end of an interval, the one that ends it, and three more. */
  lemma FiveWithinASecond(device: DeviceID) returns (ops: seq<Op>)
    ensures var r := RunFrom(map[], [Redial(device, 0)]);
            var now := COOL_DOWN_INTERVAL - SECOND;
            Within(ops, now, now + 2 * SECOND) && ForcedFrom(r, ops, device) == MAX_ATTEMPTS + 2
  {
    assert [Redial(device, 0)][..0] == [];
    var r := map[device := NextDialDevice(map[], 0, 1)];
    assert RunFrom(map[], [Redial(device, 0)]) == r;
    ops := WindowReached(r, device, COOL_DOWN_INTERVAL - SECOND, COOL_DOWN_INTERVAL + SECOND);
  }

  /** At one instant at most four are forced, and four exactly when the first ends an interval. */
  lemma FourAtOnceIff(r: Registry, device: DeviceID, now: int)
    requires Bounded(r)
    ensures MostForced(r, device, now, now + 1) <= MAX_ATTEMPTS + 1
    ensures MostForced(r, device, now, now + 1) == MAX_ATTEMPTS + 1 <==> device !in Redialed(r, device, now)
  {
    UncountedIff(r, device, now);
  }

  // ---------------------------------------------------------------- the registry as it is updated

  class NextDialRegistry {
    var r: Registry

    constructor ()
      ensures r == map[]
    {
      r := map[];
    }

    /** service.go:1219-1246 */
    method RedialDevice(device: DeviceID, now: int)
      modifies this
      ensures r == Redialed(old(r), device, now)
    {
      if device !in r {
        r := r[device := NextDialDevice(map[], now, 1)];
        return;
      }
      var dev := r[device];
      if dev.attempts == 0 || now < dev.coolDownIntervalStart + COOL_DOWN_INTERVAL {
        if dev.attempts >= MAX_ATTEMPTS {
          return;
        }
        if dev.attempts == 0 {
          dev := dev.(coolDownIntervalStart := now);
        }
        dev := dev.(attempts := dev.attempts + 1);
        dev := dev.(nextDial := map[]);
        r := r[device := dev];
        return;
      }
      if dev.attempts >= MAX_ATTEMPTS && now < dev.coolDownIntervalStart + COOL_DOWN_DELAY {
        return;
      }
      r := r - {device};
    }

    /** service.go:1248-1253 */
    method Set(device: DeviceID, addr: Str, next: int)
      modifies this
      ensures r == WithNext(old(r), device, addr, next)
      ensures forall d, a :: NextOf(r, d, a) == if d == device && a == addr then Some(next) else NextOf(old(r), d, a)
    {
      if device !in r {
        r := r[device := NextDialDevice(map[], 0, 0)];
      }
      r := r[device := r[device].(nextDial := r[device].nextDial[addr := next])];
    }

    /** service.go:1255-1282; devices and addresses are visited in any order. The result is the
        time until the next dial that is due, at most a minute. */
    method SleepDurationAndCleanup(now: int) returns (sleep: int)
      modifies this
      ensures r == Cleaned(old(r), now)
      ensures SoonestDue(r, {}, now, sleep)
    {
      sleep := LOOP_SLEEP;
      var todo := r.Keys;
      while todo != {}
        invariant todo <= old(r).Keys
        invariant r == PartlyCleaned(old(r), todo, now)
        invariant SoonestDue(r, todo, now, sleep)
        decreases |todo|
      {
        var id :| id in todo;
        PartlyCleanedStep(old(r), todo, id, now);
        ghost var r0 := r;
        r, sleep := Visit(r, todo, id, now, sleep);
        assert r == CleanedOf(r0, id, now);
        todo := todo - {id};
      }
    }
  }

  /** `sleep` is the time until the next dial due of the devices not in `todo`, at most a minute. */
  ghost predicate SoonestDue(r: Registry, todo: set<DeviceID>, now: int, sleep: int) {
    && sleep <= 60_000_000_000
    && (forall d | d in r && d !in todo :: NoneSooner(r[d].nextDial, now, sleep))
    && (sleep == 60_000_000_000 || exists d | d in r && d !in todo :: DueAfter(r[d].nextDial, now, sleep))
  }

  ghost predicate NoneSooner(nextDial: map<Str, int>, now: int, sleep: int) {
    forall a | a in nextDial :: sleep <= nextDial[a] - now
  }

  ghost predicate DueAfter(nextDial: map<Str, int>, now: int, sleep: int) {
    exists a | a in nextDial :: sleep == nextDial[a] - now
  }

  /** Visiting a device keeps it so, also when the device had nothing due and is dropped. */
  lemma SoonestDueStep(r: Registry, todo: set<DeviceID>, id: DeviceID, now: int, sleep: int,
                       r': Registry, left: map<Str, int>, sleep': int)
    requires SoonestDue(r, todo, now, sleep) && id in todo && id in r
    requires r' == r[id := r[id].(nextDial := left)] || (left == map[] && r' == r - {id})
    requires sleep' <= sleep && NoneSooner(left, now, sleep')
    requires sleep' == sleep || DueAfter(left, now, sleep')
    ensures SoonestDue(r', todo - {id}, now, sleep')
  {
    forall d | d in r' && d !in todo - {id}
      ensures NoneSooner(r'[d].nextDial, now, sleep')
    {
      assert d != id ==> NoneSooner(r[d].nextDial, now, sleep);
    }
    if sleep' != sleep {
      assert id in r' && DueAfter(r'[id].nextDial, now, sleep');
    } else if sleep != LOOP_SLEEP {
      var d :| d in r && d !in todo && DueAfter(r[d].nextDial, now, sleep);
      assert d in r' && r'[d] == r[d];
    }
  }

  /** A cleanup that still has the devices in `todo` to visit. */
  ghost function PartlyCleaned(r: Registry, todo: set<DeviceID>, now: int): Registry {
    map d | d in r && (d in todo || !(Pending(r[d], now) == map[] && Forgettable(r[d], now))) ::
      if d in todo then r[d] else r[d].(nextDial := Pending(r[d], now))
  }

  /** The cleanup of one device. */
  function CleanedOf(r: Registry, id: DeviceID, now: int): Registry
    requires id in r
  {
    if Pending(r[id], now) == map[] && Forgettable(r[id], now) then r - {id}
    else r[id := r[id].(nextDial := Pending(r[id], now))]
  }

  lemma PartlyCleanedStep(r: Registry, todo: set<DeviceID>, id: DeviceID, now: int)
    requires id in todo && id in r
    ensures var p := PartlyCleaned(r, todo, now);
            && p[id] == r[id]
            && PartlyCleaned(r, todo - {id}, now) == CleanedOf(p, id, now)
  {}

  /** One round of the outer loop, service.go:1257-1280. */
  method Visit(r: Registry, ghost todo: set<DeviceID>, id: DeviceID, now: int, sleep0: int) returns (r': Registry, sleep: int)
    requires id in todo && id in r && SoonestDue(r, todo, now, sleep0)
    ensures r' == CleanedOf(r, id, now)
    ensures SoonestDue(r', todo - {id}, now, sleep)
  {
    var dev := r[id];
    var nextDial;
    nextDial, sleep := Prune(dev.nextDial, now, sleep0);
    // the map is shared with the stored value
    r' := r[id := r[id].(nextDial := nextDial)];
    // dev is a copy: only the deletion below outlives this round
    if dev.attempts > 0 {
      var interval := if dev.attempts >= MAX_ATTEMPTS then COOL_DOWN_DELAY else COOL_DOWN_INTERVAL;
      if now > dev.coolDownIntervalStart + interval {
        dev := dev.(attempts := 0);
      }
    }
    if |nextDial| == 0 && dev.attempts == 0 {
      r' := r' - {id};
    }
    SoonestDueStep(r, todo, id, now, sleep0, r', nextDial, sleep);
  }

  /** The inner loop, service.go:1258-1267. */
  method Prune(nextDial: map<Str, int>, now: int, sleep0: int) returns (left: map<Str, int>, sleep: int)
    ensures left == map a | a in nextDial && nextDial[a] >= now :: nextDial[a]
    ensures sleep <= sleep0 && NoneSooner(left, now, sleep)
    ensures sleep == sleep0 || DueAfter(left, now, sleep)
  {
    left, sleep := nextDial, sleep0;
    var todo := nextDial.Keys;
    while todo != {}
      invariant todo <= nextDial.Keys
      invariant left == map a | a in nextDial && (a in todo || nextDial[a] >= now) :: nextDial[a]
      invariant sleep <= sleep0 && forall a | a in left && a !in todo :: sleep <= left[a] - now
      invariant sleep == sleep0 || exists a :: a in left && a !in todo && sleep == left[a] - now
      decreases |todo|
    {
      var a :| a in todo;
      todo := todo - {a};
      var next := nextDial[a];
      if next < now {
        left := left - {a};
      } else {
        var cur := next - now;
        if cur < sleep {
          sleep := cur;
        }
      }
    }
  }
}
