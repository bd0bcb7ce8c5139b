/** The limiter as a subscriber (lib/connections/limiter.go:45-172, lib/config/wrapper.go:186-346).
    newLimiter subscribes, copies the configuration and commits it in three steps, and the changes
    it is notified of can come in between. Its limits are what committing its changes leaves. */
module LimiterCommit {
  import opened Sorting
  import opened Config
  import opened Limiter
  import opened ConfigCommit

  /** The limiter's subscription. */
  const LIMITER: SubId := 0

  /** `copied` changes had been made when the configuration was copied, and `overtaking` changes had
      been committed when the copy was. */
  datatype Stage =
    | Unborn
    | Subscribed
    | Copied(copied: nat, cfg: Configuration)
    | Running(copied: nat, cfg: Configuration, overtaking: nat)

  /** `delivered` of the limiter's changes have been committed. */
  datatype System = System(wrapper: State, limits: Limits, delivered: nat, stage: Stage)

  datatype Action =
    | Wrapped(op: Op)
    | SubscribeLimiter
    | CopyConfig
    | FirstCommit
    | Deliver
    | Connect(id: DeviceID)

  function Changes(s: System): seq<Change> {
    if LIMITER in s.wrapper.seen then s.wrapper.seen[LIMITER] else []
  }

  /** The next change is only served when the last one has been delivered (wrapper.go:280-291). */
  ghost predicate Enabled(s: System, a: Action, myID: DeviceID) {
    match a
    case Wrapped(op) =>
      && Legal(s.wrapper.cfg, op, myID)
      && (op.Modify? ==> s.delivered == |Changes(s)|)
      && (!op.Modify? ==> op.id != LIMITER)
    case SubscribeLimiter => s.stage.Unborn?
    case CopyConfig => s.stage.Subscribed?
    case FirstCommit => s.stage.Copied?
    case Deliver => s.delivered < |Changes(s)|
    case Connect(_) => s.stage.Running?
  }

  function Next(s: System, a: Action, myID: DeviceID): System {
    match a
    case Wrapped(op) => s.(wrapper := Step(s.wrapper, op))
    case SubscribeLimiter => s.(wrapper := Step(s.wrapper, Subscribe(LIMITER)), stage := Subscribed)
    case CopyConfig => s.(stage := Copied(|Changes(s)|, s.wrapper.cfg))
    case FirstCommit =>
      if !s.stage.Copied? then s
      else s.(limits := Commit(s.limits, NO_CONFIGURATION, s.stage.cfg, myID),
              stage := Running(s.stage.copied, s.stage.cfg, s.delivered))
    case Deliver =>
      if s.delivered >= |Changes(s)| then s
      else var c := Changes(s)[s.delivered];
           s.(limits := Commit(s.limits, c.from, c.to, myID), delivered := s.delivered + 1)
    case Connect(id) => s.(limits := Connected(s.limits, id))
  }

  /** An action that is not enabled does not happen. */
  ghost function Exec(cfg: Configuration, actions: seq<Action>, myID: DeviceID): System {
    if actions == [] then System(State(cfg, [], map[], map[]), NO_LIMITS, 0, Unborn)
    else
      var s, a := Exec(cfg, actions[..|actions| - 1], myID), actions[|actions| - 1];
      if Enabled(s, a, myID) then Next(s, a, myID) else s
  }

  // ---------------------------------------------------------------- the configurations it has seen

  /** The limiter's changes, and where they start. */
  datatype Trail = Trail(start: Configuration, changes: seq<Change>)
  {
    function At(j: int): Configuration
      requires 0 <= j <= |changes|
    {
      if j == 0 then start else changes[j - 1].to
    }
  }

  ghost predicate Connects(t: Trail) {
    forall j | 0 <= j < |t.changes| :: t.changes[j].from == t.At(j)
  }

  /** Every configuration has each device once. */
  ghost predicate AllDistinct(t: Trail) {
    forall j | 0 <= j <= |t.changes| :: DistinctBy(DeviceKey, t.At(j).devices)
  }

  lemma {:induction false} ChainConnects(start: Configuration, changes: seq<Change>)
    requires Chain(start, changes)
    ensures Connects(Trail(start, changes))
  {
    if changes != [] {
      var init := changes[..|changes| - 1];
      ChainConnects(start, init);
      forall j | 0 <= j < |changes| ensures changes[j].from == Trail(start, changes).At(j) {
        assert j < |init| ==> init[j] == changes[j] && Trail(start, init).At(j) == Trail(start, changes).At(j);
      }
    }
  }

  // ---------------------------------------------------------------- limits, device by device

  /** The limit a configuration gives a device; devices it does not have are unlimited. */
  function Configured(ds: seq<Device>, dir: Direction, myID: DeviceID, id: DeviceID): Rate {
    RateIn(Assigned(map[], ds, dir, myID), id)
  }

  lemma {:induction false} AssignedAt(rates: Rates, ds: seq<Device>, dir: Direction, myID: DeviceID, id: DeviceID)
    ensures RateIn(Assigned(rates, ds, dir, myID), id) ==
            if id in Seen(ds, myID) then Configured(ds, dir, myID, id) else RateIn(rates, id)
    ensures id in Assigned(rates, ds, dir, myID) <==> id in rates || id in Seen(ds, myID)
  {
    if ds != [] {
      var init, last := ds[..|ds| - 1], ds[|ds| - 1];
      AssignedAt(rates, init, dir, myID, id);
      AssignedAt(map[], init, dir, myID, id);
      AssignedSnoc(ds, |ds| - 1, myID);
      assert ds[..|ds|] == ds;
    }
  }

  lemma ConfiguredElse(ds: seq<Device>, dir: Direction, myID: DeviceID, id: DeviceID)
    requires id !in Seen(ds, myID)
    ensures Configured(ds, dir, myID, id) == Inf
  {
    AssignedAt(map[], ds, dir, myID, id);
  }

  /** The limits in force are those of the configuration, device by device. */
  ghost predicate Follows(rates: Rates, ds: seq<Device>, dir: Direction, myID: DeviceID) {
    && (forall id | id in Seen(ds, myID) :: id in rates)
    && (forall id :: RateIn(rates, id) == Configured(ds, dir, myID, id))
  }

  lemma FollowsIff(rates: Rates, ds: seq<Device>, dir: Direction, myID: DeviceID)
    requires DistinctBy(DeviceKey, ds)
    ensures Follows(rates, ds, dir, myID) <==> RatesReflect(rates, ds, dir, myID)
  {
    forall d | d in ds && d.id != myID ensures d.id in Seen(ds, myID) && Configured(ds, dir, myID, d.id) == DeviceRate(d, dir) {
      var i :| 0 <= i < |ds| && ds[i] == d;
      AssignedTo(map[], ds, dir, myID, i);
    }
    forall id | id !in Seen(ds, myID) ensures Configured(ds, dir, myID, id) == Inf { ConfiguredElse(ds, dir, myID, id); }
    if Follows(rates, ds, dir, myID) {
      forall d | d in ds && d.id != myID ensures d.id in rates && rates[d.id] == DeviceRate(d, dir) {
        assert RateIn(rates, d.id) == Configured(ds, dir, myID, d.id);
      }
      forall id | id in rates && id !in Seen(ds, myID) ensures rates[id] == Inf {
        assert RateIn(rates, id) == Configured(ds, dir, myID, id);
      }
    }
    if RatesReflect(rates, ds, dir, myID) {
      forall id | id in Seen(ds, myID) ensures id in rates && RateIn(rates, id) == Configured(ds, dir, myID, id) {
        var d :| d in ds && d.id == id && d.id != myID;
      }
    }
  }

  /** A commit, device by device. */
  lemma CommitAt(rates: Rates, from: seq<Device>, to: seq<Device>, dir: Direction, myID: DeviceID, id: DeviceID)
    ensures var r := CommitDevices(rates, from, to, dir, myID);
            && RateIn(r, id) == (if id in Seen(to, myID) then Configured(to, dir, myID, id)
                                 else if id in Gone(from, to, myID) then Inf
                                 else RateIn(rates, id))
            && (id in Seen(to, myID) ==> id in r)
  {
    AssignedAt(rates, to, dir, myID, id);
  }

  function RatesOf(l: Limits, dir: Direction): Rates { match dir case Recv => l.deviceRead case Send => l.deviceWrite }

  lemma ReflectsIff(l: Limits, c: Configuration, myID: DeviceID)
    requires DistinctBy(DeviceKey, c.devices)
    ensures Reflects(l, c, myID) <==>
            GlobalReflects(l, c.options) && forall dir :: Follows(RatesOf(l, dir), c.devices, dir, myID)
  {
    FollowsIff(l.deviceRead, c.devices, Recv, myID);
    FollowsIff(l.deviceWrite, c.devices, Send, myID);
    assert RatesOf(l, Recv) == l.deviceRead && RatesOf(l, Send) == l.deviceWrite;
  }

  lemma CommitRates(l: Limits, from: Configuration, to: Configuration, myID: DeviceID, dir: Direction)
    ensures RatesOf(Commit(l, from, to, myID), dir) == CommitDevices(RatesOf(l, dir), from.devices, to.devices, dir, myID)
  {}

  // ---------------------------------------------------------------- before the first commit

  /** The options changed between configurations `k` and `n`. */
  predicate Changed(t: Trail, k: nat, n: nat)
    requires n <= |t.changes|
  {
    n > k && (Changed(t, k, n - 1) || t.At(n - 1).options != t.At(n).options)
  }

  lemma {:induction false} UnchangedOptions(t: Trail, k: nat, j: nat, n: nat)
    requires k <= j <= n <= |t.changes| && !Changed(t, k, n)
    ensures t.At(j).options == t.At(n).options
  {
    if j < n {
      UnchangedOptions(t, k, j, n - 1);
    }
  }

  /** After `n` changes and without a first commit, the limits are those of the last change; the
      overall limits may still be untouched if the options never changed. */
  ghost predicate Before(t: Trail, n: nat, l: Limits, myID: DeviceID)
    requires n <= |t.changes|
  {
    && (GlobalReflects(l, t.At(n).options) || (GlobalReflects(l, NO_CONFIGURATION.options) && !Changed(t, 0, n)))
    && forall dir ::
         if n == 0 then RatesOf(l, dir) == map[] else Follows(RatesOf(l, dir), t.At(n).devices, dir, myID)
  }

  lemma FollowsCommit(rates: Rates, from: seq<Device>, to: seq<Device>, dir: Direction, myID: DeviceID)
    requires rates == map[] || Follows(rates, from, dir, myID)
    ensures Follows(CommitDevices(rates, from, to, dir, myID), to, dir, myID)
  {
    var r := CommitDevices(rates, from, to, dir, myID);
    forall id ensures RateIn(r, id) == Configured(to, dir, myID, id) && (id in Seen(to, myID) ==> id in r) {
      CommitAt(rates, from, to, dir, myID, id);
      if id !in Seen(to, myID) {
        ConfiguredElse(to, dir, myID, id);
        if id !in Gone(from, to, myID) {
          ConfiguredElse(from, dir, myID, id);
        }
      }
    }
  }

  lemma BeforeDeliver(t: Trail, n: nat, l: Limits, myID: DeviceID)
    requires Connects(t) && n < |t.changes| && Before(t, n, l, myID)
    ensures Before(t, n + 1, Commit(l, t.changes[n].from, t.changes[n].to, myID), myID)
  {
    var from, to := t.At(n), t.At(n + 1);
    var l' := Commit(l, from, to, myID);
    forall dir ensures Follows(RatesOf(l', dir), to.devices, dir, myID) {
      CommitRates(l, from, to, myID, dir);
      FollowsCommit(RatesOf(l, dir), from.devices, to.devices, dir, myID);
    }
  }

  // ---------------------------------------------------------------- overtaken

  /** Device `id` was in the copy and in no configuration since `k`. */
  ghost predicate Leftover(t: Trail, c: Configuration, k: nat, n: nat, id: DeviceID, myID: DeviceID)
    requires n <= |t.changes|
  {
    id in Seen(c.devices, myID) && forall j | k <= j <= n :: id !in Seen(t.At(j).devices, myID)
  }

  /** The limit of a device after `n` changes, when the copy `c` was committed after change `k`. */
  ghost function Expected(t: Trail, c: Configuration, k: nat, n: nat, dir: Direction, myID: DeviceID, id: DeviceID): Rate
    requires n <= |t.changes|
  {
    if n == k && id in Seen(c.devices, myID) then Configured(c.devices, dir, myID, id)
    else if id in Seen(t.At(n).devices, myID) then Configured(t.At(n).devices, dir, myID, id)
    else if Leftover(t, c, k, n, id, myID) then Configured(c.devices, dir, myID, id)
    else Inf
  }

  /** The options whose overall limits are in force then. */
  ghost function ExpectedOptions(t: Trail, c: Configuration, k: nat, n: nat): Options
    requires n <= |t.changes|
  {
    if c.options == NO_CONFIGURATION.options || Changed(t, k, n) then t.At(n).options else c.options
  }

  ghost predicate Overtaken(t: Trail, c: Configuration, k: nat, n: nat, l: Limits, myID: DeviceID)
    requires n <= |t.changes|
  {
    && GlobalReflects(l, ExpectedOptions(t, c, k, n))
    && forall dir :: ExpectedRates(t, c, k, n, dir, RatesOf(l, dir), myID)
  }

  ghost predicate ExpectedRates(t: Trail, c: Configuration, k: nat, n: nat, dir: Direction, rates: Rates, myID: DeviceID)
    requires n <= |t.changes|
  {
    && (forall id :: RateIn(rates, id) == Expected(t, c, k, n, dir, myID, id))
    && (forall id | id in Seen(t.At(n).devices, myID) :: id in rates)
  }

  lemma FirstCommitOvertaken(t: Trail, m: nat, k: nat, l: Limits, myID: DeviceID)
    requires m < k <= |t.changes| && Before(t, k, l, myID)
    ensures Overtaken(t, t.At(m), k, k, Commit(l, NO_CONFIGURATION, t.At(m), myID), myID)
  {
    var c := t.At(m);
    var l' := Commit(l, NO_CONFIGURATION, c, myID);
    if c.options == NO_CONFIGURATION.options && !Changed(t, 0, k) {
      UnchangedOptions(t, 0, m, k);
    }
    forall dir ensures ExpectedRates(t, c, k, k, dir, RatesOf(l', dir), myID) {
      CommitRates(l, NO_CONFIGURATION, c, myID, dir);
      var rates := RatesOf(l, dir);
      assert Follows(rates, t.At(k).devices, dir, myID);
      var r := CommitDevices(rates, NO_CONFIGURATION.devices, c.devices, dir, myID);
      forall id ensures RateIn(r, id) == Expected(t, c, k, k, dir, myID, id) &&
                        (id in Seen(t.At(k).devices, myID) ==> id in r)
      {
        CommitAt(rates, NO_CONFIGURATION.devices, c.devices, dir, myID, id);
        AssignedAt(rates, c.devices, dir, myID, id);
        if id !in Seen(t.At(k).devices, myID) {
          ConfiguredElse(t.At(k).devices, dir, myID, id);
        }
      }
    }
  }

  lemma OvertakenDeliver(t: Trail, c: Configuration, k: nat, n: nat, l: Limits, myID: DeviceID)
    requires Connects(t) && k <= n < |t.changes| && Overtaken(t, c, k, n, l, myID)
    ensures Overtaken(t, c, k, n + 1, Commit(l, t.changes[n].from, t.changes[n].to, myID), myID)
  {
    var from, to := t.At(n), t.At(n + 1);
    var l' := Commit(l, from, to, myID);
    forall dir ensures ExpectedRates(t, c, k, n + 1, dir, RatesOf(l', dir), myID) {
      CommitRates(l, from, to, myID, dir);
      var rates := RatesOf(l, dir);
      var r := CommitDevices(rates, from.devices, to.devices, dir, myID);
      forall id ensures RateIn(r, id) == Expected(t, c, k, n + 1, dir, myID, id) && (id in Seen(to.devices, myID) ==> id in r) {
        CommitAt(rates, from.devices, to.devices, dir, myID, id);
        ExpectedStep(t, c, k, n, dir, myID, id);
      }
    }
  }

  lemma ExpectedStep(t: Trail, c: Configuration, k: nat, n: nat, dir: Direction, myID: DeviceID, id: DeviceID)
    requires k <= n < |t.changes|
    ensures var from, to := t.At(n).devices, t.At(n + 1).devices;
            Expected(t, c, k, n + 1, dir, myID, id) ==
            if id in Seen(to, myID) then Configured(to, dir, myID, id)
            else if id in Gone(from, to, myID) then Inf
            else Expected(t, c, k, n, dir, myID, id)
  {
    var from, to := t.At(n).devices, t.At(n + 1).devices;
    if id !in Seen(to, myID) {
      assert Leftover(t, c, k, n + 1, id, myID) <==> Leftover(t, c, k, n, id, myID);
      if id in Gone(from, to, myID) && id == myID {
        assert id !in Seen(c.devices, myID);
      }
    }
  }

  /** The overall limits of both options are the same. */
  predicate SameOverall(o: Options, p: Options) {
    OptionRate(o, Recv) == OptionRate(p, Recv) && OptionRate(o, Send) == OptionRate(p, Send) &&
    o.limitBandwidthInLan == p.limitBandwidthInLan
  }

  /** The stale copy `c`, committed after change `k`, does no harm after change `n`: its overall
      limits are the right ones, were not set, or have been replaced; as long as no change followed
      it gives the devices it shares with the active configuration their right limits; and it
      limits no device that has not been configured since. */
  ghost predicate Harmless(t: Trail, c: Configuration, k: nat, n: nat, myID: DeviceID)
    requires n <= |t.changes|
  {
    && (c.options == NO_CONFIGURATION.options || Changed(t, k, n) || SameOverall(c.options, t.At(n).options))
    && forall dir, id | id in Seen(c.devices, myID) ::
         && (n == k && id in Seen(t.At(n).devices, myID) ==>
               Configured(c.devices, dir, myID, id) == Configured(t.At(n).devices, dir, myID, id))
         && (Leftover(t, c, k, n, id, myID) ==> Configured(c.devices, dir, myID, id) == Inf)
  }

  lemma OvertakenReflects(t: Trail, c: Configuration, k: nat, n: nat, l: Limits, myID: DeviceID)
    requires k <= n <= |t.changes| && Overtaken(t, c, k, n, l, myID) && DistinctBy(DeviceKey, t.At(n).devices)
    ensures Reflects(l, t.At(n), myID) <==> Harmless(t, c, k, n, myID)
  {
    ReflectsIff(l, t.At(n), myID);
    var ds := t.At(n).devices;
    forall dir, id ensures RateIn(RatesOf(l, dir), id) == Expected(t, c, k, n, dir, myID, id) &&
                           (id !in Seen(ds, myID) ==> Configured(ds, dir, myID, id) == Inf)
    {
      assert ExpectedRates(t, c, k, n, dir, RatesOf(l, dir), myID);
      if id !in Seen(ds, myID) {
        ConfiguredElse(ds, dir, myID, id);
      }
    }
    if Reflects(l, t.At(n), myID) {
      forall dir, id | id in Seen(c.devices, myID)
        ensures n == k && id in Seen(ds, myID) ==> Configured(c.devices, dir, myID, id) == Configured(ds, dir, myID, id)
        ensures Leftover(t, c, k, n, id, myID) ==> Configured(c.devices, dir, myID, id) == Inf
      {
        assert Follows(RatesOf(l, dir), ds, dir, myID);
        assert RateIn(RatesOf(l, dir), id) == Configured(ds, dir, myID, id);
      }
    }
    if Harmless(t, c, k, n, myID) {
      forall dir ensures Follows(RatesOf(l, dir), ds, dir, myID) {
        assert ExpectedRates(t, c, k, n, dir, RatesOf(l, dir), myID);
        forall id ensures RateIn(RatesOf(l, dir), id) == Configured(ds, dir, myID, id) {
          HarmlessAt(t, c, k, n, dir, myID, id);
        }
      }
    }
  }

  lemma HarmlessAt(t: Trail, c: Configuration, k: nat, n: nat, dir: Direction, myID: DeviceID, id: DeviceID)
    requires k <= n <= |t.changes| && Harmless(t, c, k, n, myID)
    ensures Expected(t, c, k, n, dir, myID, id) == Configured(t.At(n).devices, dir, myID, id)
  {
    if id !in Seen(t.At(n).devices, myID) {
      ConfiguredElse(t.At(n).devices, dir, myID, id);
      if n == k && id in Seen(c.devices, myID) {
        assert Leftover(t, c, k, n, id, myID);
      }
    }
  }

  // ---------------------------------------------------------------- not overtaken

  /** The copy has the change that is yet to be delivered; once it is, the limits will be right. */
  ghost predicate Pending(t: Trail, n: nat, c: Configuration, l: Limits, myID: DeviceID)
    requires n <= |t.changes|
  {
    && (t.At(n).options != c.options || GlobalReflects(l, c.options))
    && RestUnlimited(l.deviceRead, t.At(n).devices, c.devices, myID)
    && RestUnlimited(l.deviceWrite, t.At(n).devices, c.devices, myID)
  }

  /** What Before says of the limiters outside a configuration `c` and the last change. */
  lemma BeforeRest(t: Trail, k: nat, l: Limits, dir: Direction, c: seq<Device>, myID: DeviceID)
    requires k <= |t.changes| && Before(t, k, l, myID)
    ensures RestUnlimited(RatesOf(l, dir), t.At(k).devices, c, myID)
  {
    var rates := RatesOf(l, dir);
    if k > 0 {
      assert Follows(rates, t.At(k).devices, dir, myID);
    }
    forall id | id !in Seen(c, myID) && id !in Gone(t.At(k).devices, c, myID) ensures RateIn(rates, id) == Inf {
      ConfiguredElse(t.At(k).devices, dir, myID, id);
    }
  }

  lemma FirstCommitAtOnce(t: Trail, k: nat, l: Limits, myID: DeviceID)
    requires k <= |t.changes| && Before(t, k, l, myID) && DistinctBy(DeviceKey, t.At(k).devices)
    ensures Reflects(Commit(l, NO_CONFIGURATION, t.At(k), myID), t.At(k), myID)
  {
    var c := t.At(k);
    BeforeRest(t, k, l, Recv, c.devices, myID);
    BeforeRest(t, k, l, Send, c.devices, myID);
    assert Gone(c.devices, c.devices, myID) <= {myID};
    AlwaysUnlimited(t, k, l, Recv, myID);
    AlwaysUnlimited(t, k, l, Send, myID);
    CommitReflectsIff(l, NO_CONFIGURATION, c, myID);
  }

  /** We are never limited towards ourselves. */
  lemma AlwaysUnlimited(t: Trail, k: nat, l: Limits, dir: Direction, myID: DeviceID)
    requires k <= |t.changes| && Before(t, k, l, myID)
    ensures RateIn(RatesOf(l, dir), myID) == Inf
  {
    if k > 0 {
      assert Follows(RatesOf(l, dir), t.At(k).devices, dir, myID);
      ConfiguredElse(t.At(k).devices, dir, myID, myID);
    }
  }

  lemma FirstCommitAhead(t: Trail, k: nat, l: Limits, myID: DeviceID)
    requires k < |t.changes| && Before(t, k, l, myID)
    ensures Pending(t, k, t.At(k + 1), Commit(l, NO_CONFIGURATION, t.At(k + 1), myID), myID)
  {
    var c := t.At(k + 1);
    var l' := Commit(l, NO_CONFIGURATION, c, myID);
    forall dir ensures RestUnlimited(RatesOf(l', dir), t.At(k).devices, c.devices, myID) {
      CommitRates(l, NO_CONFIGURATION, c, myID, dir);
      BeforeRest(t, k, l, dir, c.devices, myID);
      forall id | id !in Seen(c.devices, myID) && id !in Gone(t.At(k).devices, c.devices, myID)
        ensures RateIn(RatesOf(l', dir), id) == Inf
      {
        CommitAt(RatesOf(l, dir), NO_CONFIGURATION.devices, c.devices, dir, myID, id);
      }
    }
    assert RatesOf(l', Recv) == l'.deviceRead && RatesOf(l', Send) == l'.deviceWrite;
  }

  // ---------------------------------------------------------------- the system

  ghost predicate AfterFirst(t: Trail, m: nat, c: Configuration, k: nat, n: nat, l: Limits, myID: DeviceID)
    requires n <= |t.changes|
  {
    if k > m then k <= n && Overtaken(t, c, k, n, l, myID)
    else if n < m then n + 1 == m && Pending(t, n, c, l, myID)
    else Reflects(l, t.At(n), myID)
  }

  lemma FirstCommitStep(t: Trail, m: nat, k: nat, l: Limits, myID: DeviceID)
    requires AllDistinct(t) && m <= |t.changes| <= k + 1 && k <= |t.changes| && Before(t, k, l, myID)
    ensures AfterFirst(t, m, t.At(m), k, k, Commit(l, NO_CONFIGURATION, t.At(m), myID), myID)
  {
    if k > m {
      FirstCommitOvertaken(t, m, k, l, myID);
    } else if k < m {
      FirstCommitAhead(t, k, l, myID);
    } else {
      FirstCommitAtOnce(t, k, l, myID);
    }
  }

  lemma DeliverStep(t: Trail, m: nat, k: nat, n: nat, l: Limits, myID: DeviceID)
    requires Connects(t) && AllDistinct(t) && m <= |t.changes| && n < |t.changes|
    requires AfterFirst(t, m, t.At(m), k, n, l, myID)
    ensures AfterFirst(t, m, t.At(m), k, n + 1, Commit(l, t.changes[n].from, t.changes[n].to, myID), myID)
  {
    if k > m {
      OvertakenDeliver(t, t.At(m), k, n, l, myID);
    } else if n < m {
      CommitReflectsIff(l, t.At(n), t.At(m), myID);
    } else {
      CommitReflects(l, t.At(n), t.At(n + 1), myID);
    }
  }

  lemma ConnectStep(t: Trail, m: nat, c: Configuration, k: nat, n: nat, l: Limits, id: DeviceID, myID: DeviceID)
    requires n <= |t.changes| && AfterFirst(t, m, c, k, n, l, myID)
    ensures AfterFirst(t, m, c, k, n, Connected(l, id), myID)
  {
    var l' := Connected(l, id);
    forall dir, x ensures RateIn(RatesOf(l', dir), x) == RateIn(RatesOf(l, dir), x) && (x in RatesOf(l, dir) ==> x in RatesOf(l', dir)) {}
    assert RatesOf(l', Recv) == l'.deviceRead && RatesOf(l', Send) == l'.deviceWrite;
    assert RatesOf(l, Recv) == l.deviceRead && RatesOf(l, Send) == l.deviceWrite;
    if k > m {
      forall dir ensures ExpectedRates(t, c, k, n, dir, RatesOf(l', dir), myID) {
        assert ExpectedRates(t, c, k, n, dir, RatesOf(l, dir), myID);
      }
    }
  }

  /** The trail has grown by a change. */
  ghost predicate Grown(t: Trail, t': Trail) { t'.start == t.start && t.changes <= t'.changes }

  lemma {:induction false} ChangedGrown(t: Trail, t': Trail, k: nat, n: nat)
    requires Grown(t, t') && n <= |t.changes|
    ensures Changed(t', k, n) == Changed(t, k, n)
  {
    if n > k {
      ChangedGrown(t, t', k, n - 1);
    }
  }

  lemma AtGrown(t: Trail, t': Trail)
    requires Grown(t, t')
    ensures forall j | 0 <= j <= |t.changes| :: t'.At(j) == t.At(j)
  {}

  lemma BeforeGrown(t: Trail, t': Trail, n: nat, l: Limits, myID: DeviceID)
    requires Grown(t, t') && n <= |t.changes| && Before(t, n, l, myID)
    ensures Before(t', n, l, myID)
  {
    ChangedGrown(t, t', 0, n);
    AtGrown(t, t');
  }

  lemma AfterFirstGrown(t: Trail, t': Trail, m: nat, c: Configuration, k: nat, n: nat, l: Limits, myID: DeviceID)
    requires Grown(t, t') && n <= |t.changes| && AfterFirst(t, m, c, k, n, l, myID)
    ensures AfterFirst(t', m, c, k, n, l, myID)
  {
    ChangedGrown(t, t', k, n);
    AtGrown(t, t');
    if k > m {
      forall dir ensures ExpectedRates(t', c, k, n, dir, RatesOf(l, dir), myID) {
        assert ExpectedRates(t, c, k, n, dir, RatesOf(l, dir), myID);
        forall id ensures Expected(t', c, k, n, dir, myID, id) == Expected(t, c, k, n, dir, myID, id) {
          assert Leftover(t', c, k, n, id, myID) <==> Leftover(t, c, k, n, id, myID);
        }
      }
    }
  }

  ghost predicate Started(s: System) {
    LIMITER in s.wrapper.initial && LIMITER in s.wrapper.seen && LIMITER in s.wrapper.subs
  }

  function TrailOf(s: System): Trail
    requires LIMITER in s.wrapper.initial
  {
    Trail(s.wrapper.initial[LIMITER], Changes(s))
  }

  ghost predicate StageInv(t: Trail, n: nat, l: Limits, stage: Stage, myID: DeviceID)
    requires n <= |t.changes|
  {
    match stage
    case Unborn => false
    case Subscribed => Before(t, n, l, myID)
    case Copied(m, c) => m <= |t.changes| && c == t.At(m) && Before(t, n, l, myID)
    case Running(m, c, k) => m <= |t.changes| && c == t.At(m) && AfterFirst(t, m, c, k, n, l, myID)
  }

  ghost predicate LimiterInv(s: System, myID: DeviceID) {
    && Started(s) && s.delivered <= |Changes(s)| <= s.delivered + 1
    && AllDistinct(TrailOf(s)) && StageInv(TrailOf(s), s.delivered, s.limits, s.stage, myID)
  }

  ghost predicate SystemInv(s: System, myID: DeviceID) {
    && Inv(s.wrapper) && DistinctBy(DeviceKey, s.wrapper.cfg.devices)
    && if s.stage.Unborn? then LIMITER !in s.wrapper.seen && s.limits == NO_LIMITS && s.delivered == 0
       else LimiterInv(s, myID)
  }

  /** The limiter's trail connects and leads to the active configuration. */
  lemma TrailFacts(s: System)
    requires Inv(s.wrapper) && Started(s)
    ensures Connects(TrailOf(s)) && TrailOf(s).At(|Changes(s)|) == s.wrapper.cfg
  {
    ChainConnects(s.wrapper.initial[LIMITER], s.wrapper.seen[LIMITER]);
  }

  lemma PreparedDistinct(c: Configuration, myID: DeviceID)
    requires Prepared(c, myID)
    ensures DistinctBy(DeviceKey, c.devices)
  {
    AscendingSorted(DeviceKey, c.devices);
  }

  lemma StageGrown(t: Trail, t': Trail, n: nat, l: Limits, stage: Stage, myID: DeviceID)
    requires Grown(t, t') && n <= |t.changes| && StageInv(t, n, l, stage, myID)
    ensures StageInv(t', n, l, stage, myID)
  {
    AtGrown(t, t');
    match stage {
      case Subscribed => BeforeGrown(t, t', n, l, myID);
      case Copied(_, _) => BeforeGrown(t, t', n, l, myID);
      case Running(m, c, k) => AfterFirstGrown(t, t', m, c, k, n, l, myID);
    }
  }

  lemma WrappedKeepsInv(s: System, op: Op, myID: DeviceID)
    requires SystemInv(s, myID) && Enabled(s, Wrapped(op), myID)
    ensures SystemInv(Next(s, Wrapped(op), myID), myID)
  {
    if op.Modify? {
      if !Rejected(s.wrapper.cfg, op.to, op.prepared, op.vetoed) {
        ModifiedKeepsInv(s, op, myID);
      }
    } else {
      OthersKeepInv(s, op, myID);
    }
  }

  lemma OthersKeepInv(s: System, op: Op, myID: DeviceID)
    requires SystemInv(s, myID) && Enabled(s, Wrapped(op), myID) && !op.Modify?
    ensures SystemInv(Next(s, Wrapped(op), myID), myID)
  {
    var s' := Next(s, Wrapped(op), myID);
    StepKeepsInv(s.wrapper, op);
    if op.Unsubscribe? {
      WithoutFacts(s.wrapper.subs, op.id);
    }
    assert !s.stage.Unborn? ==> Started(s') && TrailOf(s') == TrailOf(s);
  }

  lemma ModifiedKeepsInv(s: System, op: Op, myID: DeviceID)
    requires SystemInv(s, myID) && Enabled(s, Wrapped(op), myID)
    requires op.Modify? && !Rejected(s.wrapper.cfg, op.to, op.prepared, op.vetoed)
    ensures SystemInv(Next(s, Wrapped(op), myID), myID)
  {
    var s' := Next(s, Wrapped(op), myID);
    StepKeepsInv(s.wrapper, op);
    PrepareDelivers(op.to, myID, op.prepared);
    PreparedDistinct(op.prepared.value, myID);
    if !s.stage.Unborn? {
      GrownKeepsInv(s, s', Change(s.wrapper.cfg, s'.wrapper.cfg), myID);
    }
  }

  /** The limiter's trail grows by a change that is yet to be delivered. */
  lemma GrownKeepsInv(s: System, s': System, change: Change, myID: DeviceID)
    requires LimiterInv(s, myID) && s.delivered == |Changes(s)| && DistinctBy(DeviceKey, change.to.devices)
    requires Started(s') && TrailOf(s') == Trail(TrailOf(s).start, Changes(s) + [change])
    requires s' == s.(wrapper := s'.wrapper)
    ensures LimiterInv(s', myID)
  {
    var t, t' := TrailOf(s), TrailOf(s');
    AtGrown(t, t');
    StageGrown(t, t', s.delivered, s.limits, s.stage, myID);
  }

  lemma SubscribeKeepsInv(s: System, myID: DeviceID)
    requires SystemInv(s, myID) && Enabled(s, SubscribeLimiter, myID)
    ensures SystemInv(Next(s, SubscribeLimiter, myID), myID)
  {
    var s' := Next(s, SubscribeLimiter, myID);
    StepKeepsInv(s.wrapper, Subscribe(LIMITER));
    var t := TrailOf(s');
    assert t == Trail(s.wrapper.cfg, []);
    forall dir ensures RatesOf(NO_LIMITS, dir) == map[] {}
  }

  lemma StageDeliver(t: Trail, n: nat, l: Limits, stage: Stage, myID: DeviceID)
    requires Connects(t) && AllDistinct(t) && n < |t.changes| && StageInv(t, n, l, stage, myID)
    ensures StageInv(t, n + 1, Commit(l, t.changes[n].from, t.changes[n].to, myID), stage, myID)
  {
    match stage {
      case Subscribed => BeforeDeliver(t, n, l, myID);
      case Copied(_, _) => BeforeDeliver(t, n, l, myID);
      case Running(m, c, k) => DeliverStep(t, m, k, n, l, myID);
    }
  }

  lemma DeliverKeepsInv(s: System, myID: DeviceID)
    requires SystemInv(s, myID) && Enabled(s, Deliver, myID)
    ensures SystemInv(Next(s, Deliver, myID), myID)
  {
    TrailFacts(s);
    StageDeliver(TrailOf(s), s.delivered, s.limits, s.stage, myID);
    var s' := Next(s, Deliver, myID);
    assert s' == s.(limits := s'.limits, delivered := s.delivered + 1) && TrailOf(s') == TrailOf(s);
  }

  lemma NextKeepsInv(s: System, a: Action, myID: DeviceID)
    requires SystemInv(s, myID) && Enabled(s, a, myID)
    ensures SystemInv(Next(s, a, myID), myID)
  {
    match a {
      case Wrapped(op) => WrappedKeepsInv(s, op, myID);
      case SubscribeLimiter => SubscribeKeepsInv(s, myID);
      case CopyConfig => TrailFacts(s);
      case FirstCommit =>
        TrailFacts(s);
        FirstCommitStep(TrailOf(s), s.stage.copied, s.delivered, s.limits, myID);
      case Deliver => DeliverKeepsInv(s, myID);
      case Connect(id) =>
        var Running(m, c, k) := s.stage;
        ConnectStep(TrailOf(s), m, c, k, s.delivered, s.limits, id, myID);
    }
  }

  lemma {:induction false} ExecKeepsInv(cfg: Configuration, actions: seq<Action>, myID: DeviceID)
    requires DistinctBy(DeviceKey, cfg.devices)
    ensures SystemInv(Exec(cfg, actions, myID), myID)
  {
    if actions != [] {
      var s, a := Exec(cfg, actions[..|actions| - 1], myID), actions[|actions| - 1];
      ExecKeepsInv(cfg, actions[..|actions| - 1], myID);
      if Enabled(s, a, myID) {
        NextKeepsInv(s, a, myID);
      }
    }
  }

  /** The limiter has started and committed all its changes. */
  ghost predicate Settled(s: System) { s.stage.Running? && s.delivered == |Changes(s)| }

  /** No change was committed between copying the configuration and committing the copy; or the
      stale copy does no harm. */
  ghost predicate InTime(s: System, myID: DeviceID)
    requires s.stage.Running? && LIMITER in s.wrapper.initial
  {
    s.stage.overtaking <= s.stage.copied ||
    Harmless(TrailOf(s), s.stage.cfg, s.stage.overtaking, |Changes(s)|, myID)
  }

  /** In every interleaving, whenever the limiter has committed all changes its limits are those of
      the active configuration exactly if the copy it started from was not overtaken, or was
      harmless. That it is told the right old configuration each time is its chain of changes. */
  lemma LimitsFollowIff(cfg: Configuration, actions: seq<Action>, myID: DeviceID)
    requires DistinctBy(DeviceKey, cfg.devices)
    ensures var s := Exec(cfg, actions, myID);
            Settled(s) ==>
              LIMITER in s.wrapper.initial && (Reflects(s.limits, s.wrapper.cfg, myID) <==> InTime(s, myID))
  {
    ExecKeepsInv(cfg, actions, myID);
    var s := Exec(cfg, actions, myID);
    if Settled(s) {
      TrailFacts(s);
      var t, n := TrailOf(s), |Changes(s)|;
      var Running(m, c, k) := s.stage;
      if k > m {
        OvertakenReflects(t, c, k, n, s.limits, myID);
      }
    }
  }

  /** A device that connects has limiters then, with the limits it had, or none if it had none. */
  lemma ConnectLimits(s: System, id: DeviceID, myID: DeviceID, dir: Direction, x: DeviceID)
    requires Enabled(s, Connect(id), myID)
    ensures var rates := RatesOf(Next(s, Connect(id), myID).limits, dir);
            id in rates && RateIn(rates, x) == RateIn(RatesOf(s.limits, dir), x)
  {}

  // ---------------------------------------------------------------- the failing interleaving

  /** The copy is taken, a change is made and committed, and then the copy is committed. */
  lemma OvertakenRun(c0: Configuration, c1: Configuration, myID: DeviceID)
    requires c1 != c0 && Prepares(c1, myID, Ok(c1))
    ensures var actions := [SubscribeLimiter, CopyConfig, Wrapped(Modify(c1, Ok(c1), false)), Deliver, FirstCommit];
            var s := Exec(c0, actions, myID);
            && Settled(s) && s.wrapper.cfg == c1
            && s.limits == Commit(Commit(NO_LIMITS, c0, c1, myID), NO_CONFIGURATION, c0, myID)
  {
    var a3 := [SubscribeLimiter, CopyConfig, Wrapped(Modify(c1, Ok(c1), false))];
    var w, l := AfterChange(c0, c1), Commit(NO_LIMITS, c0, c1, myID);
    CopiedThenChanged(c0, c1, myID);
    ExecStep(c0, a3, Deliver, System(w, NO_LIMITS, 0, Copied(0, c0)), myID);
    ExecStep(c0, a3 + [Deliver], FirstCommit, System(w, l, 1, Copied(0, c0)), myID);
    assert a3 + [Deliver] + [FirstCommit] ==
           [SubscribeLimiter, CopyConfig, Wrapped(Modify(c1, Ok(c1), false)), Deliver, FirstCommit];
  }

  /** The wrapper with the limiter as its only subscriber, after one change. */
  function AfterChange(c0: Configuration, c1: Configuration): State {
    State(c1, [LIMITER], map[LIMITER := c0], map[LIMITER := [Change(c0, c1)]])
  }

  lemma CopiedThenChanged(c0: Configuration, c1: Configuration, myID: DeviceID)
    requires c1 != c0 && Prepares(c1, myID, Ok(c1))
    ensures Exec(c0, [SubscribeLimiter, CopyConfig, Wrapped(Modify(c1, Ok(c1), false))], myID) ==
            System(AfterChange(c0, c1), NO_LIMITS, 0, Copied(0, c0))
  {
    var w, change := Alone(c0), Modify(c1, Ok(c1), false);
    JustCopied(c0, myID);
    assert Step(w, change) == AfterChange(c0, c1) by {
      assert [] + [Change(c0, c1)] == [Change(c0, c1)];
      assert Notified(w, Change(c0, c1)) == AfterChange(c0, c1).seen;
    }
    ExecStep(c0, [SubscribeLimiter, CopyConfig], Wrapped(change), System(w, NO_LIMITS, 0, Copied(0, c0)), myID);
    assert [SubscribeLimiter, CopyConfig] + [Wrapped(change)] == [SubscribeLimiter, CopyConfig, Wrapped(change)];
  }

  /** The limiter has just subscribed. */
  function Alone(c0: Configuration): State { State(c0, [LIMITER], map[LIMITER := c0], map[LIMITER := []]) }

  lemma JustCopied(c0: Configuration, myID: DeviceID)
    ensures Exec(c0, [SubscribeLimiter, CopyConfig], myID) == System(Alone(c0), NO_LIMITS, 0, Copied(0, c0))
  {
    ExecStep(c0, [], SubscribeLimiter, System(State(c0, [], map[], map[]), NO_LIMITS, 0, Unborn), myID);
    assert [] + [SubscribeLimiter] == [SubscribeLimiter];
    ExecStep(c0, [SubscribeLimiter], CopyConfig, System(Alone(c0), NO_LIMITS, 0, Subscribed), myID);
    assert [SubscribeLimiter] + [CopyConfig] == [SubscribeLimiter, CopyConfig];
  }

  lemma ExecStep(cfg: Configuration, actions: seq<Action>, a: Action, s: System, myID: DeviceID)
    requires Exec(cfg, actions, myID) == s && Enabled(s, a, myID)
    ensures Exec(cfg, actions + [a], myID) == Next(s, a, myID)
  {
    assert (actions + [a])[..|actions|] == actions;
  }

  /** With different limits before and after the change, the old one stays in force. */
  lemma OvertakenBreaks()
    ensures var c0, c1 := Configuration([], [], [], Options(100, 0, false)), Configuration([], [], [], Options(200, 0, false));
            var actions := [SubscribeLimiter, CopyConfig, Wrapped(Modify(c1, Ok(c1), false)), Deliver, FirstCommit];
            var s := Exec(c0, actions, EMPTY_ID);
            Settled(s) && s.wrapper.cfg == c1 && s.limits.write == BytesPerSecond(102400) && !Reflects(s.limits, c1, EMPTY_ID)
  {
    var c0, c1 := Configuration([], [], [], Options(100, 0, false)), Configuration([], [], [], Options(200, 0, false));
    assert Prepared(c1, EMPTY_ID);
    PreparedFixedIff(c1, EMPTY_ID);
    OvertakenRun(c0, c1, EMPTY_ID);
    assert OptionRate(c1.options, Send) == BytesPerSecond(204800);
  }
}
