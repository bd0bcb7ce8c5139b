/** The buffered subscription (lib/events/events.go:475-539): a ring buffer that must agree with
    "the last len(buf) events received". */
module EventBuffer {
  import opened Events

  /** Slots that were never filled hold the zero event, whose ID is 0. */
  const ZERO_EVENT: Event := Event(0, 0, 0, [])

  /** Events come in with strictly increasing positive IDs; see Events.DeliveredIDs. */
  ghost predicate Increasing(received: seq<Event>) {
    && (forall i | 0 <= i < |received| :: received[i].subscriptionID >= 1)
    && (forall i, j | 0 <= i < j < |received| :: received[i].subscriptionID < received[j].subscriptionID)
  }

  /** The last `n` events received, or all of them if there are fewer. */
  function LastN(received: seq<Event>, n: nat): seq<Event> {
    if |received| <= n then received else received[|received| - n..]
  }

  /** The ring read from the oldest slot: unfilled slots first, then the last events. */
  function Window(received: seq<Event>, n: nat): (w: seq<Event>)
    ensures |w| == n
  {
    seq(n - |LastN(received, n)|, i => ZERO_EVENT) + LastN(received, n)
  }

  function Newer(es: seq<Event>, id: int): seq<Event> {
    if es == [] then []
    else if es[0].subscriptionID > id then [es[0]] + Newer(es[1..], id) else Newer(es[1..], id)
  }

  function Current(received: seq<Event>): int {
    if received == [] then 0 else received[|received| - 1].subscriptionID
  }

  lemma {:induction false} NewerConcat(a: seq<Event>, b: seq<Event>, id: int)
    ensures Newer(a + b, id) == Newer(a, id) + Newer(b, id)
  {
    if a == [] {
      assert a + b == b;
    } else {
      assert (a + b)[1..] == a[1..] + b;
      NewerConcat(a[1..], b, id);
    }
  }

  lemma NewerSnoc(es: seq<Event>, e: Event, id: int)
    ensures Newer(es + [e], id) == Newer(es, id) + if e.subscriptionID > id then [e] else []
  {
    NewerConcat(es, [e], id);
    assert [e][1..] == [];
  }

  /** What ends a wait: a broadcast, after at least one event, or the timeout. Others may have come
      in by the time the lock is held again. */
  datatype Wake = Broadcast(arrived: seq<Event>) | TimedOut(arrived: seq<Event>)

  datatype Waited = Waited(received: seq<Event>, timedOut: bool)

  /** How waiting for an event newer than `id` ends. */
  function Wait(received: seq<Event>, wakes: seq<Wake>, id: int): Waited
    decreases |wakes|
  {
    if id < Current(received) then Waited(received, false)
    else if wakes == [] then Waited(received, true)
    else if wakes[0].TimedOut? then Waited(received + wakes[0].arrived, true)
    else Wait(received + wakes[0].arrived, wakes[1..], id)
  }

  /** What has been received after `k` wakes. */
  function After(received: seq<Event>, wakes: seq<Wake>, k: nat): seq<Event>
    requires k <= |wakes|
  {
    received + Arrived(wakes[..k])
  }

  lemma AfterFew(received: seq<Event>, wakes: seq<Wake>)
    ensures After(received, wakes, 0) == received
    ensures wakes != [] ==> After(received, wakes, 1) == received + wakes[0].arrived
  {
    if wakes != [] {
      assert wakes[..1][1..] == [];
    }
  }

  lemma AfterNext(received: seq<Event>, wakes: seq<Wake>, j: nat)
    requires j < |wakes|
    ensures After(received, wakes, j + 1) == After(received + wakes[0].arrived, wakes[1..], j)
  {
    assert wakes[..j + 1][1..] == wakes[1..][..j];
  }

  /** The wait ends after the first broadcast at which there is a newer event, or at once if there is
      one already; and times out if there is none after all broadcasts before the timeout. */
  lemma {:induction false} WaitEnds(received: seq<Event>, wakes: seq<Wake>, id: int) returns (k: nat)
    ensures k <= |wakes| && forall j | 0 <= j < k :: wakes[j].Broadcast? && id >= Current(After(received, wakes, j))
    ensures var w := Wait(received, wakes, id);
            if w.timedOut then
              && id >= Current(After(received, wakes, k)) && (k == |wakes| || wakes[k].TimedOut?)
              && w.received == After(received, wakes, if k == |wakes| then k else k + 1)
            else w.received == After(received, wakes, k) && id < Current(w.received)
    decreases |wakes|
  {
    k := 0;
    AfterFew(received, wakes);
    if id >= Current(received) && wakes != [] && wakes[0].Broadcast? {
      var next, rest := received + wakes[0].arrived, wakes[1..];
      var i := WaitEnds(next, rest, id);
      k := i + 1;
      forall j | 0 <= j <= |rest| ensures After(received, wakes, j + 1) == After(next, rest, j) {
        AfterNext(received, wakes, j);
      }
      forall j | 0 <= j < k ensures wakes[j].Broadcast? && id >= Current(After(received, wakes, j)) {
        if j > 0 {
          assert rest[j - 1] == wakes[j] && After(received, wakes, j) == After(next, rest, j - 1);
        }
      }
    }
  }

  /** All events that arrive with these wakes. */
  function Arrived(wakes: seq<Wake>): seq<Event> {
    if wakes == [] then [] else wakes[0].arrived + Arrived(wakes[1..])
  }

  class BufferedSubscription {
    const buf: array<Event>
    var next: nat
    var cur: int
    /** Everything received so far. */
    ghost var Received: seq<Event>

    ghost predicate Valid()
      reads this, buf
    {
      && next < buf.Length
      && buf[next..] + buf[..next] == Window(Received, buf.Length)
      && cur == Current(Received)
    }

    constructor (size: nat)
      requires size > 0
      ensures Valid() && Received == [] && buf.Length == size && fresh(buf)
    {
      buf := new Event[size](i => ZERO_EVENT);
      next, cur, Received := 0, 0, [];
    }

    /** One round of pollingLoop, events.go:500-507. */
    method Receive(ev: Event)
      requires Valid()
      modifies this, buf
      ensures Valid() && Received == old(Received) + [ev]
    {
      WindowSlides(Received, ev, buf.Length);
      ghost var b, i := buf[..], next;
      RingSlides(b, i, ev);
      assert b[i..] + b[..i] == buf[next..] + buf[..next];
      buf[next] := ev;
      assert buf[..] == b[i := ev];
      next := (next + 1) % buf.Length;
      assert buf[next..] + buf[..next] == b[i := ev][next..] + b[i := ev][..next];
      cur := ev.subscriptionID;
      Received := Received + [ev];
    }

    /** The events that come in while Since waits, without its lock. */
    method ReceiveAll(evs: seq<Event>)
      requires Valid()
      modifies this, buf
      ensures Valid() && Received == old(Received) + evs
    {
      for i := 0 to |evs|
        invariant Valid() && Received == old(Received) + evs[..i]
      {
        Receive(evs[i]);
        assert evs[..i + 1] == evs[..i] + [evs[i]];
      }
      assert evs[..|evs|] == evs;
    }

    /** events.go:510-539. `wakes` is what happens while waiting, ending with the timeout at the
        latest. If the wait times out `into` is returned as it is; else the newer events of the
        ring are appended, oldest first. */
    method Since(id: int, into: seq<Event>, wakes: seq<Wake>) returns (r: seq<Event>, timedOut: bool)
      requires Valid()
      modifies this, buf
      ensures Valid() && Waited(Received, timedOut) == Wait(old(Received), wakes, id)
      ensures r == into + if timedOut then [] else Newer(Window(Received, buf.Length), id)
    {
      timedOut := false;
      var i := 0;
      while id >= cur
        invariant Valid() && i <= |wakes| && !timedOut
        invariant Wait(Received, wakes[i..], id) == Wait(old(Received), wakes, id)
        decreases |wakes| - i
      {
        if i == |wakes| {
          return into, true;
        }
        ghost var rest := wakes[i..];
        assert rest[0] == wakes[i] && rest[1..] == wakes[i + 1..];
        ReceiveAll(wakes[i].arrived);
        if wakes[i].TimedOut? {
          return into, true;
        }
        i := i + 1;
      }
      r := Collect(id, into);
    }

    /** events.go:526-537 */
    method Collect(id: int, into: seq<Event>) returns (r: seq<Event>)
      requires Valid()
      ensures r == into + Newer(Window(Received, buf.Length), id)
    {
      r := CollectRange(next, buf.Length, id, into);
      r := CollectRange(0, next, id, r);
      assert buf[next..buf.Length] == buf[next..] && buf[0..next] == buf[..next];
      NewerConcat(buf[next..], buf[..next], id);
    }

    method CollectRange(from: nat, to: nat, id: int, into: seq<Event>) returns (r: seq<Event>)
      requires from <= to <= buf.Length
      ensures r == into + Newer(buf[from..to], id)
    {
      r := into;
      for i := from to to
        invariant r == into + Newer(buf[from..i], id)
      {
        NewerSnoc(buf[from..i], buf[i], id);
        assert buf[from..i + 1] == buf[from..i] + [buf[i]];
        if buf[i].subscriptionID > id {
          r := r + [buf[i]];
        }
      }
    }
  }

  lemma NextSlot(i: nat, n: nat)
    requires i < n
    ensures (i + 1) % n == if i + 1 == n then 0 else i + 1
  {}

  /** Overwriting the oldest slot and moving on drops the oldest event and appends the new one. */
  lemma RingSlides(b: seq<Event>, i: nat, ev: Event)
    requires i < |b|
    ensures var (b', i') := (b[i := ev], (i + 1) % |b|);
            b'[i'..] + b'[..i'] == (b[i..] + b[..i])[1..] + [ev]
  {
    var b' := b[i := ev];
    NextSlot(i, |b|);
    if i + 1 == |b| {
      assert b'[0..] + b'[..0] == b[..i] + [ev];
    } else {
      assert b'[i + 1..] == b[i + 1..] && b'[..i + 1] == b[..i] + [ev];
    }
  }

  lemma WindowSlides(received: seq<Event>, ev: Event, n: nat)
    requires n > 0
    ensures Window(received + [ev], n) == Window(received, n)[1..] + [ev]
  {
    var r' := received + [ev];
    if |received| < n {
      assert LastN(r', n) == r';
    } else {
      assert LastN(r', n) == LastN(received, n)[1..] + [ev];
    }
  }

  // ---------------------------------------------------------------- what Since answers

  lemma {:induction false} NewerZeros(n: nat, id: int)
    ensures Newer(seq(n, i => ZERO_EVENT), id) == if id >= 0 then [] else seq(n, i => ZERO_EVENT)
  {
    if n > 0 {
      var zs, rest := seq(n, i => ZERO_EVENT), seq(n - 1, i => ZERO_EVENT);
      assert zs[1..] == rest && zs == [ZERO_EVENT] + rest;
      NewerZeros(n - 1, id);
    }
  }

  /** Since answers with exactly the newer ones among the last `n` events, oldest first, if and
      only if the ID asked for is not negative or the buffer has filled up: unfilled slots have ID 0. */
  lemma SinceExact(received: seq<Event>, n: nat, id: int)
    ensures Newer(Window(received, n), id) == Newer(LastN(received, n), id) <==> id >= 0 || |received| >= n
  {
    var zeros := n - |LastN(received, n)|;
    var zs := seq(zeros, i => ZERO_EVENT);
    NewerConcat(zs, LastN(received, n), id);
    NewerZeros(zeros, id);
    assert |Newer(Window(received, n), id)| == |Newer(zs, id)| + |Newer(LastN(received, n), id)|;
  }

  /** A fresh buffer asked with a negative ID returns at once, with events that never happened. */
  lemma NegativeSince()
    ensures -1 < Current([]) && Newer(Window([], 1), -1) == [ZERO_EVENT]
  {
    assert Window([], 1) == [ZERO_EVENT];
    assert [ZERO_EVENT][1..] == [];
  }

  // ---------------------------------------------------------------- a polling client

  datatype Op = Arrive(e: Event) | Poll

  /** A client that keeps asking for what is newer than the last event it got. */
  datatype Client = Client(received: seq<Event>, last: int, got: seq<Event>)

  function Answer(c: Client, n: nat): seq<Event> {
    if c.last >= Current(c.received) then [] else Newer(Window(c.received, n), c.last)
  }

  function Step(c: Client, op: Op, n: nat): Client {
    match op
    case Arrive(e) => c.(received := c.received + [e])
    case Poll =>
      var a := Answer(c, n);
      Client(c.received, if a == [] then c.last else a[|a| - 1].subscriptionID, c.got + a)
  }

  function Run(ops: seq<Op>, id: int, n: nat): Client {
    if ops == [] then Client([], id, []) else Step(Run(ops[..|ops| - 1], id, n), ops[|ops| - 1], n)
  }

  /** All events that arrive in a run, in order. */
  function Arrivals(ops: seq<Op>): seq<Event> {
    if ops == [] then [] else
      Arrivals(ops[..|ops| - 1]) + match ops[|ops| - 1] { case Arrive(e) => [e] case Poll => [] }
  }

  /** At most `n` events arrive between polls that were not there at the one before. */
  predicate NeverOverrun(ops: seq<Op>, id: int, n: nat) {
    ops == [] ||
    (NeverOverrun(ops[..|ops| - 1], id, n) &&
     (ops[|ops| - 1].Poll? ==>
        var c := Run(ops[..|ops| - 1], id, n); |Newer(c.received, c.last)| <= n))
  }

  /** Among increasing events the newer ones are a suffix. */
  lemma {:induction false} NewerSuffix(es: seq<Event>, id: int) returns (p: nat)
    requires Increasing(es)
    ensures p <= |es| && Newer(es, id) == es[p..]
    ensures forall i | 0 <= i < p :: es[i].subscriptionID <= id
    ensures forall i | p <= i < |es| :: es[i].subscriptionID > id
  {
    if es == [] || es[0].subscriptionID > id {
      p := 0;
      AllNewer(es, id);
    } else {
      var q := NewerSuffix(es[1..], id);
      p := q + 1;
      forall i | 0 <= i < |es| - 1 ensures es[i + 1] == es[1..][i] {}
      assert forall i | 1 <= i < |es| :: es[i] == es[1..][i - 1];
    }
  }

  lemma {:induction false} AllNewer(es: seq<Event>, id: int)
    requires forall i | 0 <= i < |es| :: es[i].subscriptionID > id
    ensures Newer(es, id) == es
  {
    if es != [] {
      AllNewer(es[1..], id);
    }
  }

  lemma {:induction false} NoneNewer(es: seq<Event>, id: int)
    requires forall i | 0 <= i < |es| :: es[i].subscriptionID <= id
    ensures Newer(es, id) == []
  {
    if es != [] {
      NoneNewer(es[1..], id);
    }
  }

  lemma NewerSplit(a: seq<Event>, b: seq<Event>, id: int)
    requires forall i | 0 <= i < |a| :: a[i].subscriptionID <= id
    requires forall i | 0 <= i < |b| :: b[i].subscriptionID > id
    ensures Newer(a + b, id) == b
  {
    NewerConcat(a, b, id);
    NoneNewer(a, id);
    AllNewer(b, id);
  }

  lemma NewerFrom(r: seq<Event>, d: nat, p: nat, id: int)
    requires d <= |r| && p <= |r|
    requires forall i | 0 <= i < p :: r[i].subscriptionID <= id
    requires forall i | p <= i < |r| :: r[i].subscriptionID > id
    ensures Newer(r[d..], id) == if p < d then r[d..] else r[p..]
  {
    if p < d {
      AllNewer(r[d..], id);
    } else {
      NewerSplit(r[d..p], r[p..], id);
      assert r[d..] == r[d..p] + r[p..];
    }
  }

  /** With `p` the first newer one, those among the last `n` are a suffix of all. */
  lemma NewerLastN(r: seq<Event>, n: nat, p: nat, id: int) returns (q: nat)
    requires p <= |r|
    requires forall i | 0 <= i < p :: r[i].subscriptionID <= id
    requires forall i | p <= i < |r| :: r[i].subscriptionID > id
    ensures p <= q <= |r| && Newer(LastN(r, n), id) == r[q..]
    ensures |r| - p <= n ==> q == p
  {
    q := p;
    if |r| > n {
      var d := |r| - n;
      NewerFrom(r, d, p, id);
      if p < d { q := d; }
    } else {
      NewerFrom(r, 0, p, id);
      assert r[0..] == r;
    }
  }

  /** A poll answers with a suffix of what was received: everything newer than the last ID,
      except what has fallen out of the buffer. */
  lemma AnswerSuffix(c: Client, n: nat) returns (q: nat)
    requires c.last >= 0 && Increasing(c.received)
    ensures q <= |c.received| && Answer(c, n) == c.received[q..]
    ensures forall i | q <= i < |c.received| :: c.received[i].subscriptionID > c.last
    ensures |Newer(c.received, c.last)| <= n ==> Answer(c, n) == Newer(c.received, c.last)
  {
    SinceExact(c.received, n, c.last);
    var p := NewerSuffix(c.received, c.last);
    q := NewerLastN(c.received, n, p, c.last);
  }

  /** A poll's answer is increasing, received, newer than the last ID and ends with the newest. */
  lemma AnswerFacts(c: Client, n: nat)
    requires c.last >= 0 && Increasing(c.received)
    ensures var a := Answer(c, n);
            && Increasing(a)
            && (forall i | 0 <= i < |a| :: a[i] in c.received && c.last < a[i].subscriptionID <= Current(c.received))
            && (a != [] ==> a[|a| - 1].subscriptionID == Current(c.received))
  {
    var q := AnswerSuffix(c, n);
    SuffixFacts(c.received, q, c.last);
  }

  lemma SuffixFacts(r: seq<Event>, q: nat, id: int)
    requires Increasing(r) && q <= |r| && forall i | q <= i < |r| :: r[i].subscriptionID > id
    ensures Increasing(r[q..])
    ensures forall i | 0 <= i < |r[q..]| :: r[q..][i] in r && id < r[q..][i].subscriptionID <= Current(r)
    ensures r[q..] != [] ==> r[q..][|r[q..]| - 1].subscriptionID == Current(r)
  {
    var a := r[q..];
    forall i | 0 <= i < |a| ensures a[i] in r && id < a[i].subscriptionID <= Current(r) {
      assert a[i] == r[q + i];
    }
  }

  /** What the client has got: increasing, received, and up to its last ID. */
  ghost predicate Collected(c: Client, id: int) {
    && (c.last == id || id < c.last <= Current(c.received))
    && Increasing(c.got)
    && forall i | 0 <= i < |c.got| :: c.got[i] in c.received && id < c.got[i].subscriptionID <= c.last
  }

  lemma IncreasingConcat(a: seq<Event>, b: seq<Event>, id: int)
    requires Increasing(a) && Increasing(b)
    requires forall i | 0 <= i < |a| :: a[i].subscriptionID <= id
    requires forall i | 0 <= i < |b| :: b[i].subscriptionID > id
    ensures Increasing(a + b)
  {}

  lemma PollCollects(c: Client, id: int, n: nat)
    requires c.last >= 0 && n > 0 && Increasing(c.received) && Collected(c, id)
    ensures Collected(Step(c, Poll, n), id)
    ensures c.last <= Step(c, Poll, n).last
  {
    var a := Answer(c, n);
    AnswerFacts(c, n);
    if a == [] {
      assert c.got + a == c.got;
    } else {
      assert c.last < a[0].subscriptionID <= Current(c.received);
      IncreasingConcat(c.got, a, c.last);
      CollectedConcat(c.got, a, c.received, id, c.last, Current(c.received));
    }
  }

  lemma CollectedConcat(got: seq<Event>, a: seq<Event>, received: seq<Event>, id: int, mid: int, last: int)
    requires id <= mid <= last
    requires forall i | 0 <= i < |got| :: got[i] in received && id < got[i].subscriptionID <= mid
    requires forall i | 0 <= i < |a| :: a[i] in received && mid < a[i].subscriptionID <= last
    ensures forall i | 0 <= i < |got + a| ::
              (got + a)[i] in received && id < (got + a)[i].subscriptionID <= last
  {}

  lemma ArrivalsPrefix(ops: seq<Op>)
    requires ops != []
    ensures Arrivals(ops[..|ops| - 1]) <= Arrivals(ops)
  {}

  /** Over every run, a client that starts from a non-negative ID gets a strictly increasing
      sequence of events that were received, none twice. */
  lemma {:induction false} PollingIncreases(ops: seq<Op>, id: int, n: nat)
    requires id >= 0 && n > 0 && Increasing(Arrivals(ops))
    ensures Run(ops, id, n).received == Arrivals(ops)
    ensures Collected(Run(ops, id, n), id)
  {
    if ops != [] {
      ArrivalsPrefix(ops);
      PollingIncreases(ops[..|ops| - 1], id, n);
      if ops[|ops| - 1].Poll? {
        PollCollects(Run(ops[..|ops| - 1], id, n), id, n);
      }
    }
  }

  /** If the client keeps up, nothing is lost: what it got and what it has yet to ask for make
      up everything newer than where it started. */
  lemma {:induction false} PollingComplete(ops: seq<Op>, id: int, n: nat)
    requires id >= 0 && n > 0 && Increasing(Arrivals(ops)) && NeverOverrun(ops, id, n)
    ensures var c := Run(ops, id, n); c.got + Newer(c.received, c.last) == Newer(Arrivals(ops), id)
    ensures ops != [] && ops[|ops| - 1].Poll? ==> Run(ops, id, n).got == Newer(Arrivals(ops), id)
  {
    if ops != [] {
      var init := ops[..|ops| - 1];
      var c := Run(init, id, n);
      ArrivalsPrefix(ops);
      PollingComplete(init, id, n);
      PollingIncreases(init, id, n);
      match ops[|ops| - 1] {
        case Arrive(e) => ArriveBalances(c, e, id);
        case Poll => CaughtUp(c, n); assert Arrivals(ops) == Arrivals(init);
      }
    }
  }

  lemma ArriveBalances(c: Client, e: Event, id: int)
    requires Increasing(c.received + [e]) && (c.last == id || id < c.last <= Current(c.received))
    requires c.got + Newer(c.received, c.last) == Newer(c.received, id)
    ensures c.got + Newer(c.received + [e], c.last) == Newer(c.received + [e], id)
  {
    NewerSnoc(c.received, e, c.last);
    NewerSnoc(c.received, e, id);
    if c.received != [] {
      assert (c.received + [e])[|c.received| - 1] == c.received[|c.received| - 1];
      assert (c.received + [e])[|c.received|] == e;
    }
    var n := if e.subscriptionID > id then [e] else [];
    assert c.got + (Newer(c.received, c.last) + n) == (c.got + Newer(c.received, c.last)) + n;
  }

  lemma CaughtUp(c: Client, n: nat)
    requires c.last >= 0 && Increasing(c.received) && |Newer(c.received, c.last)| <= n
    ensures var c' := Step(c, Poll, n);
            c'.got == c.got + Newer(c.received, c.last) && c'.got + Newer(c.received, c'.last) == c'.got
  {
    var q := AnswerSuffix(c, n);
    var p := NewerSuffix(c.received, c.last);
    var c' := Step(c, Poll, n);
    var p' := NewerSuffix(c.received, c'.last);
    if p < |c.received| {
      assert c.received[p..][|c.received| - p - 1] == c.received[|c.received| - 1];
    }
  }

  // ---------------------------------------------------------------- from the logger to the client

  /** What a subscription has been sent comes in with increasing IDs, so the buffer's assumption
      about its events holds of every run of the logger. */
  lemma ReceivedIncreasing(log: seq<Events.Op>, id: SubId)
    ensures id in Events.Run(log).received ==> Increasing(Events.Run(log).received[id])
  {
    RunAgrees(log, id);
    DeliveredIDs(Offers(log, id));
  }

  lemma IncreasingPrefix(a: seq<Event>, b: seq<Event>)
    requires a <= b && Increasing(b)
    ensures Increasing(a)
  {
    assert forall i | 0 <= i < |a| :: a[i] == b[i];
  }

  /** Over every run of the logger and of a client polling the buffer of one of its subscriptions,
      the client gets events that were logged and taken, with strictly increasing IDs, none twice;
      and all of them newer than where it started, if it was never overrun. */
  lemma LoggerToClient(log: seq<Events.Op>, sub: SubId, ops: seq<Op>, id: int, n: nat)
    requires id >= 0 && n > 0 && sub in Events.Run(log).received && Arrivals(ops) <= Events.Run(log).received[sub]
    ensures var c := Run(ops, id, n);
            && Increasing(c.got)
            && (forall e | e in c.got :: e in Delivered(Offers(log, sub)) && e.subscriptionID > id)
            && (NeverOverrun(ops, id, n) ==> c.got + Newer(c.received, c.last) == Newer(Arrivals(ops), id))
  {
    var received := Events.Run(log).received[sub];
    ReceivedIncreasing(log, sub);
    IncreasingPrefix(Arrivals(ops), received);
    PollingIncreases(ops, id, n);
    RunAgrees(log, sub);
    var c := Run(ops, id, n);
    forall e | e in c.got ensures e in Delivered(Offers(log, sub)) && e.subscriptionID > id {
      var i :| 0 <= i < |c.got| && c.got[i] == e;
      var j :| 0 <= j < |c.received| && c.received[j] == e;
      assert received[j] == e;
    }
    if NeverOverrun(ops, id, n) {
      PollingComplete(ops, id, n);
    }
  }
}
