/** The event logger (lib/events/events.go:242-422): parallel arrays of subscriptions and their
    next IDs, lossy delivery, swap-removal. */
module Events {
  import opened Bytes
  import opened Sorting

  /** Every event type is a single bit, named by its position; a mask is a set of bits. */
  type EventType = nat
  type Mask = set<EventType>
  /** The identity of a subscription object. */
  type SubId = nat

  datatype Event = Event(subscriptionID: int, globalID: int, typ: EventType, data: Str)

  /** `mask & typ != 0` */
  predicate Matches(mask: Mask, typ: EventType) { typ in mask }

  // ---------------------------------------------------------------- what the logger stands for

  /** `next` has the live subscriptions; `received` has, for every subscription ever made, all
      that was put on its channel. */
  datatype State = State(next: map<SubId, int>, masks: map<SubId, Mask>, received: map<SubId, seq<Event>>, global: int)

  ghost predicate WellFormed(s: State) {
    s.next.Keys <= s.masks.Keys == s.received.Keys
  }

  datatype Op =
    | Subscribe(id: SubId, mask: Mask)
    | Log(typ: EventType, data: Str, ready: set<SubId>) // ready: who takes the event before the timeout
    | Unsubscribe(id: SubId)

  const Init := State(map[], map[], map[], 0)

  predicate Gets(s: State, id: SubId, typ: EventType) { id in s.next && id in s.masks && Matches(s.masks[id], typ) }

  function NextAfter(s: State, id: SubId, typ: EventType): int
    requires id in s.next
  {
    if Gets(s, id, typ) then s.next[id] + 1 else s.next[id]
  }

  function ChannelAfter(s: State, id: SubId, typ: EventType, data: Str, ready: set<SubId>): seq<Event>
    requires id in s.received
  {
    if Gets(s, id, typ) && id in ready
    then s.received[id] + [Event(s.next[id], s.global + 1, typ, data)] else s.received[id]
  }

  function Logged(s: State, typ: EventType, data: Str, ready: set<SubId>): State {
    State(map id | id in s.next :: NextAfter(s, id, typ), s.masks,
          map id | id in s.received :: ChannelAfter(s, id, typ, data, ready), s.global + 1)
  }

  predicate Enabled(s: State, op: Op) {
    match op
    case Subscribe(id, _) => id !in s.masks
    case Log(_, _, _) => true
    case Unsubscribe(id) => id in s.next
  }

  function Apply(s: State, op: Op): State
    requires Enabled(s, op)
  {
    match op
    case Subscribe(id, mask) =>
      State(s.next[id := 1], s.masks[id := mask], s.received[id := []], s.global)
    case Log(typ, data, ready) => Logged(s, typ, data, ready)
    case Unsubscribe(id) => s.(next := s.next - {id})
  }

  /** A step that is not enabled does not happen. */
  function Advance(s: State, op: Op): State {
    if Enabled(s, op) then Apply(s, op) else s
  }

  /** Runs of subscribe, log and unsubscribe. */
  function Run(ops: seq<Op>): State {
    if ops == [] then Init else Advance(Run(ops[..|ops| - 1]), ops[|ops| - 1])
  }

  // ---------------------------------------------------------------- the reference

  /** A matching event offered to a subscription. */
  datatype Offer = Offer(typ: EventType, data: Str, globalID: int, taken: bool)

  /** How many events have been logged. */
  function LogCount(ops: seq<Op>): nat {
    if ops == [] then 0 else LogCount(ops[..|ops| - 1]) + if ops[|ops| - 1].Log? then 1 else 0
  }

  /** The subscription's mask, while it is live. */
  datatype Life = Never | Live(mask: Mask) | Ended(mask: Mask)

  function LifeOf(ops: seq<Op>, id: SubId): Life {
    if ops == [] then Never else
      var life := LifeOf(ops[..|ops| - 1], id);
      match ops[|ops| - 1]
      case Subscribe(id', mask) => if id' == id && life == Never then Live(mask) else life
      case Unsubscribe(id') => if id' == id && life.Live? then Ended(life.mask) else life
      case Log(_, _, _) => life
  }

  /** The matching events logged while the subscription was live, in order. */
  function Offers(ops: seq<Op>, id: SubId): seq<Offer> {
    if ops == [] then [] else
      var init, op := ops[..|ops| - 1], ops[|ops| - 1];
      var life := LifeOf(init, id);
      if op.Log? && life.Live? && op.typ in life.mask
      then Offers(init, id) + [Offer(op.typ, op.data, LogCount(init) + 1, id in op.ready)]
      else Offers(init, id)
  }

  /** The taken offers, each numbered by its place among all offers. */
  function Delivered(offers: seq<Offer>): seq<Event> {
    if offers == [] then [] else
      var o := offers[|offers| - 1];
      Delivered(offers[..|offers| - 1]) + if o.taken then [Event(|offers|, o.globalID, o.typ, o.data)] else []
  }

  /** The logger's state of a subscription agrees with its life and the offers made to it. */
  ghost predicate Agrees(s: State, id: SubId, life: Life, offers: seq<Offer>) {
    match life
    case Never => id !in s.next && id !in s.masks && id !in s.received && offers == []
    case Live(mask) =>
      && id in s.next && s.next[id] == 1 + |offers|
      && id in s.masks && s.masks[id] == mask
      && id in s.received && s.received[id] == Delivered(offers)
    case Ended(mask) =>
      && id !in s.next && id in s.masks
      && id in s.received && s.received[id] == Delivered(offers)
  }

  lemma DeliveredSnoc(offers: seq<Offer>, o: Offer)
    ensures Delivered(offers + [o]) ==
            Delivered(offers) + if o.taken then [Event(|offers| + 1, o.globalID, o.typ, o.data)] else []
  {
    var all := offers + [o];
    assert all[..|all| - 1] == offers && all[|all| - 1] == o;
  }

  lemma LogAgrees(s: State, op: Op, id: SubId, life: Life, offers: seq<Offer>)
    requires op.Log? && Agrees(s, id, life, offers)
    ensures var o := Offer(op.typ, op.data, s.global + 1, id in op.ready);
            Agrees(Apply(s, op), id, life, if life.Live? && Matches(life.mask, op.typ) then offers + [o] else offers)
  {
    DeliveredSnoc(offers, Offer(op.typ, op.data, s.global + 1, id in op.ready));
  }

  /** Over every run, each live subscription's next ID is one plus the number of matching events
      since it subscribed, and what it received is exactly the events it took, so a gap in the
      IDs is exactly a dropped event. */
  lemma {:induction false} RunAgrees(ops: seq<Op>, id: SubId)
    ensures Run(ops).global == LogCount(ops)
    ensures Agrees(Run(ops), id, LifeOf(ops, id), Offers(ops, id))
  {
    if ops != [] {
      var init, op := ops[..|ops| - 1], ops[|ops| - 1];
      RunAgrees(init, id);
      if op.Log? {
        LogAgrees(Run(init), op, id, LifeOf(init, id), Offers(init, id));
      } else {
        assert Offers(ops, id) == Offers(init, id);
      }
    }
  }

  /** IDs are strictly increasing, positive and at most `n`. */
  ghost predicate Numbered(d: seq<Event>, n: nat) {
    && (forall i, j | 0 <= i < j < |d| :: d[i].subscriptionID < d[j].subscriptionID)
    && (forall i | 0 <= i < |d| :: 1 <= d[i].subscriptionID && d[i].subscriptionID <= n)
  }

  lemma {:induction false} DeliveredIDs(offers: seq<Offer>)
    ensures Numbered(Delivered(offers), |offers|)
  {
    if offers != [] {
      var init, o := offers[..|offers| - 1], offers[|offers| - 1];
      DeliveredIDs(init);
      var d0 := Delivered(init);
      assert Numbered(d0 + [Event(|offers|, o.globalID, o.typ, o.data)], |offers|);
    }
  }

  /** Number `n + 1` is received exactly if offer `n` was taken: the gaps are the dropped events. */
  lemma {:induction false} GapsAreDrops(offers: seq<Offer>, n: nat)
    requires n < |offers|
    ensures offers[n].taken <==> exists e :: e in Delivered(offers) && e.subscriptionID == n + 1
  {
    var init, o := offers[..|offers| - 1], offers[|offers| - 1];
    var d0, d, last := Delivered(init), Delivered(offers), Event(|offers|, o.globalID, o.typ, o.data);
    assert d == d0 + if o.taken then [last] else [];
    assert forall e :: e in d <==> e in d0 || (o.taken && e == last);
    DeliveredIDs(init);
    if n < |init| {
      GapsAreDrops(init, n);
    } else {
      assert forall e | e in d0 :: e.subscriptionID <= |init|;
    }
  }

  // ---------------------------------------------------------------- the arrays

  /** What two parallel arrays mean: the i-th number belongs to the i-th subscription, and there
      is nothing else. */
  ghost predicate Paired(subs: seq<SubId>, ids: seq<int>, next: map<SubId, int>) {
    && |subs| == |ids| && Distinct(subs)
    && (forall i | 0 <= i < |subs| :: subs[i] in next && next[subs[i]] == ids[i])
    && (forall id | id in next :: id in subs)
  }

  /** The counters of the first `i` subscriptions are up to date. */
  ghost predicate PartIDs(s: State, subs: seq<SubId>, i: nat, ids: seq<int>, typ: EventType) {
    && i <= |subs| == |ids|
    && (forall j | 0 <= j < |subs| :: subs[j] in s.next)
    && (forall j | 0 <= j < i :: ids[j] == NextAfter(s, subs[j], typ))
    && (forall j | i <= j < |subs| :: ids[j] == s.next[subs[j]])
  }

  /** The channels of the first `i` subscriptions are up to date. */
  ghost predicate PartChannels(s: State, subs: seq<SubId>, i: nat, channels: map<SubId, seq<Event>>,
                               typ: EventType, data: Str, ready: set<SubId>)
  {
    && i <= |subs| && s.received.Keys == channels.Keys
    && (forall j | 0 <= j < |subs| :: subs[j] in channels)
    && (forall j | 0 <= j < i :: channels[subs[j]] == ChannelAfter(s, subs[j], typ, data, ready))
    && (forall j | i <= j < |subs| :: channels[subs[j]] == s.received[subs[j]])
    && (forall id | id in channels && id !in subs :: channels[id] == s.received[id])
  }

  /** The event has been offered to the first `i` subscriptions. */
  ghost predicate Partway(s: State, subs: seq<SubId>, i: nat, ids: seq<int>, channels: map<SubId, seq<Event>>,
                          typ: EventType, data: Str, ready: set<SubId>)
  {
    && Distinct(subs)
    && s.masks.Keys == s.received.Keys
    && (forall id | id in s.next :: id in subs)
    && PartIDs(s, subs, i, ids, typ)
    && PartChannels(s, subs, i, channels, typ, data, ready)
  }

  /** The counters after offering to subscription `i`. */
  function SentIDs(m: bool, i: nat, ids: seq<int>): seq<int>
    requires i < |ids|
  {
    if m then ids[i := ids[i] + 1] else ids
  }

  /** The channels after offering event `e` to `sub`. */
  function SentChannels(sub: SubId, taken: bool, e: Event, channels: map<SubId, seq<Event>>): map<SubId, seq<Event>>
    requires sub in channels
  {
    if taken then channels[sub := channels[sub] + [e]] else channels
  }

  lemma PartIDsStep(s: State, subs: seq<SubId>, i: nat, ids: seq<int>, typ: EventType)
    requires PartIDs(s, subs, i, ids, typ) && i < |subs| && subs[i] in s.masks
    ensures PartIDs(s, subs, i + 1, SentIDs(Matches(s.masks[subs[i]], typ), i, ids), typ)
  {}

  lemma PartChannelsStep(s: State, subs: seq<SubId>, i: nat, channels: map<SubId, seq<Event>>,
                         typ: EventType, data: Str, ready: set<SubId>)
    requires PartChannels(s, subs, i, channels, typ, data, ready) && i < |subs| && Distinct(subs)
    requires subs[i] in s.masks && subs[i] in s.next
    ensures var e := Event(s.next[subs[i]], s.global + 1, typ, data);
            PartChannels(s, subs, i + 1,
                         SentChannels(subs[i], Matches(s.masks[subs[i]], typ) && subs[i] in ready, e, channels),
                         typ, data, ready)
  {}

  lemma PartwayDone(s: State, subs: seq<SubId>, ids: seq<int>, channels: map<SubId, seq<Event>>,
                    typ: EventType, data: Str, ready: set<SubId>)
    requires Partway(s, subs, |subs|, ids, channels, typ, data, ready)
    ensures Paired(subs, ids, Logged(s, typ, data, ready).next)
    ensures channels == Logged(s, typ, data, ready).received
  {
    forall id | id in channels ensures channels[id] == ChannelAfter(s, id, typ, data, ready) {
      if id in subs {
        var j :| 0 <= j < |subs| && subs[j] == id;
      }
    }
  }

  class Logger {
    var subs: seq<SubId>
    var nextSubscriptionIDs: seq<int>
    var nextGlobalID: int
    /** The subscription objects: their masks and what was put on their channels. */
    var masks: map<SubId, Mask>
    var channels: map<SubId, seq<Event>>
    /** The subscriptions whose channel is closed. */
    var closed: set<SubId>
    ghost var Contents: State

    ghost predicate Valid()
      reads this
    {
      && Paired(subs, nextSubscriptionIDs, Contents.next)
      && Contents == State(Contents.next, masks, channels, nextGlobalID)
      && masks.Keys == channels.Keys
      && (forall i | 0 <= i < |subs| :: subs[i] in masks)
      && (forall id :: id in closed <==> id in masks && id !in Contents.next)
    }

    constructor ()
      ensures Valid() && Contents == Init
    {
      subs, nextSubscriptionIDs, nextGlobalID, masks, channels, closed := [], [], 0, map[], map[], {};
      Contents := Init;
    }

    /** events.go:344-366: an ID is used up whether or not the event gets through. */
    method SendTo(i: nat, typ: EventType, data: Str, ready: bool)
      requires i < |subs| == |nextSubscriptionIDs| && subs[i] in masks && subs[i] in channels
      modifies this`nextSubscriptionIDs, this`channels
      ensures nextSubscriptionIDs == SentIDs(Matches(masks[subs[i]], typ), i, old(nextSubscriptionIDs))
      ensures channels == SentChannels(subs[i], Matches(masks[subs[i]], typ) && ready,
                                       Event(old(nextSubscriptionIDs)[i], nextGlobalID, typ, data), old(channels))
    {
      var sub := subs[i];
      if Matches(masks[sub], typ) {
        var e := Event(nextSubscriptionIDs[i], nextGlobalID, typ, data);
        nextSubscriptionIDs := nextSubscriptionIDs[i := nextSubscriptionIDs[i] + 1];
        if ready {
          channels := channels[sub := channels[sub] + [e]];
        }
      }
    }

    /** events.go:337-368. `ready` has the subscriptions whose channel takes the event in time. */
    method SendEvent(typ: EventType, data: Str, ready: set<SubId>)
      requires Valid()
      modifies this
      ensures Valid() && Contents == Apply(old(Contents), Log(typ, data, ready))
    {
      ghost var s := Contents;
      nextGlobalID := nextGlobalID + 1;
      for i := 0 to |subs|
        invariant Contents == s && subs == old(subs) && masks == old(masks) && closed == old(closed) && nextGlobalID == s.global + 1
        invariant Partway(s, subs, i, nextSubscriptionIDs, channels, typ, data, ready)
      {
        PartIDsStep(s, subs, i, nextSubscriptionIDs, typ);
        PartChannelsStep(s, subs, i, channels, typ, data, ready);
        SendTo(i, typ, data, subs[i] in ready);
      }
      PartwayDone(s, subs, nextSubscriptionIDs, channels, typ, data, ready);
      Contents := Apply(s, Log(typ, data, ready));
    }

    /** events.go:370-402, the function run by Serve. */
    method Subscribe(id: SubId, mask: Mask)
      requires Valid() && id !in masks
      modifies this
      ensures Valid() && Contents == Apply(old(Contents), Op.Subscribe(id, mask))
    {
      subs := subs + [id];
      nextSubscriptionIDs := nextSubscriptionIDs + [1];
      masks, channels := masks[id := mask], channels[id := []];
      Contents := Apply(Contents, Op.Subscribe(id, mask));
    }

    /** events.go:404-422. Closing the channel of a subscription that was removed before panics. */
    method Unsubscribe(id: SubId) returns (panics: bool)
      requires Valid() && id in masks
      modifies this
      ensures Valid() && Contents == Advance(old(Contents), Op.Unsubscribe(id))
      ensures panics <==> id !in old(subs)
    {
      assert id in subs <==> id in Contents.next;
      subs, nextSubscriptionIDs := SwapOut(subs, nextSubscriptionIDs, id, Contents.next);
      panics := id in closed;
      closed := closed + {id};
      Contents := Advance(Contents, Op.Unsubscribe(id));
    }
  }

  /** The loop of events.go:406-420: the last pair takes the place of the removed one. */
  method SwapOut(subs: seq<SubId>, ids: seq<int>, id: SubId, ghost next: map<SubId, int>)
    returns (subs': seq<SubId>, ids': seq<int>)
    requires Paired(subs, ids, next)
    ensures Paired(subs', ids', next - {id}) && forall x | x in subs' :: x in subs
  {
    for i := 0 to |subs|
      invariant id !in subs[..i]
    {
      if subs[i] == id {
        var last := |subs| - 1;
        SwapRemovePaired(subs, ids, next, i);
        return subs[i := subs[last]][..last], ids[i := ids[last]][..last];
      }
    }
    assert next - {id} == next;
    return subs, ids;
  }

  /** Removing the same position from both arrays by swapping in the last element keeps every
      other subscription with its own number. */
  lemma SwapRemovePaired(subs: seq<SubId>, ids: seq<int>, next: map<SubId, int>, i: nat)
    requires Paired(subs, ids, next) && i < |subs|
    ensures var n := |subs| - 1;
            var subs' := subs[i := subs[n]][..n];
            Paired(subs', ids[i := ids[n]][..n], next - {subs[i]}) && forall id | id in subs' :: id in subs
  {
    var n := |subs| - 1;
    var subs', ids' := subs[i := subs[n]][..n], ids[i := ids[n]][..n];
    assert forall j | 0 <= j < n :: subs'[j] == subs[if j == i then n else j] && ids'[j] == ids[if j == i then n else j];
    forall id | id in next && id != subs[i] ensures id in subs' {
      var j :| 0 <= j < |subs| && subs[j] == id;
      assert subs'[if j == n then i else j] == id;
    }
  }
}
