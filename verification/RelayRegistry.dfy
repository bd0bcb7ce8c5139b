/** The relay's global `pendingSessions` map and `activeSessions` slice, changed in place
    under sessionMut (cmd/strelaysrv/session.go:22-79, 192-204). */
module RelayRegistry {
  import opened Sorting
  import opened Relay

  datatype Lookup = NoSession | Found(sid: Sid)

  class Registry {
    var pending: map<Key, Sid>
    var active: seq<Sid>

    /** The tables are those of a state of the protocol. */
    ghost predicate Implements(s: State) reads this { pending == s.pending && active == s.active }

    constructor ()
      ensures Implements(Init)
    {
      pending, active := map[], [];
    }

    /** session.go:62-65 */
    method Register(sid: Sid, serverKey: Key, clientKey: Key, ghost s: State)
      requires Implements(s)
      modifies this
      ensures Implements(AfterNewSession(s, sid, serverKey, clientKey))
      ensures pending == old(pending)[serverKey := sid][clientKey := sid] && active == old(active)
    {
      pending := pending[serverKey := sid];
      pending := pending[clientKey := sid];
    }

    /** session.go:70-79: looking a key up uses it up. */
    method FindSession(key: Key, ghost s: State, ghost h: Handler) returns (r: Lookup)
      requires Implements(s) && Enabled(s, Find(h)) && s.handlers[h].key == key
      modifies this
      ensures Implements(AfterFind(s, h))
      ensures AfterFind(s, h).handlers[h] == if r.NoSession? then Refused else Holding(r.sid, key)
      ensures r == if key in old(pending) then Found(old(pending)[key]) else NoSession
      ensures pending == old(pending) - {key} && active == old(active)
    {
      if key !in pending {
        return NoSession;
      }
      r := Found(pending[key]);
      pending := pending - {key};
    }

    /** session.go:168-170, when a session has its two connections. */
    method Activate(sid: Sid, ghost s: State)
      requires Implements(s) && Enabled(s, Step.Activate(sid))
      modifies this`active
      ensures Implements(Next(s, Step.Activate(sid)))
    {
      active := active + [sid];
    }

    /** session.go:192-204. The range loop runs over the slice as it was, reading the shared
        backing array, while the swap-remove shrinks it; there is no break. */
    method CleanUp(sid: Sid, serverKey: Key, clientKey: Key, ghost s: State)
      requires Distinct(active)
      requires Implements(s) && sid in s.sessions
      requires s.sessions[sid].serverKey == serverKey && s.sessions[sid].clientKey == clientKey
      modifies this
      ensures Implements(AfterCleanup(s, sid))
      ensures pending == old(pending) - {serverKey, clientKey}
      ensures active == SwapRemove(old(active), sid)
      ensures Distinct(active) && forall x :: x in active <==> x in old(active) && x != sid
    {
      pending := pending - {serverKey};
      pending := pending - {clientKey};
      SwapRemoveKeepsOthers(active, sid);
      active := SwapOut(active, sid);
    }
  }

  /** The loop of session.go:195-203. */
  method SwapOut(active: seq<Sid>, sid: Sid) returns (r: seq<Sid>)
    requires Distinct(active)
    ensures r == SwapRemove(active, sid)
  {
    var n := |active|;
    var backing := new Lookup[n](i requires 0 <= i < n => Found(active[i]));
    var len := n;
    ghost var at := Index(active, sid);
    for i := 0 to n
      invariant len == if at < i then n - 1 else n
      invariant at < n && at < i ==> backing[n - 1] == NoSession
      invariant forall j | 0 <= j < len :: backing[j] == Found(if at < i && j == at then active[n - 1] else active[j])
    {
      if backing[i] == Found(sid) {
        var l := len - 1;
        backing[i] := backing[l];
        backing[l] := NoSession;
        len := l;
      }
    }
    r := Sids(backing[..len]);
    SwapRemoveAt(active, sid, r);
  }

  lemma SwapRemoveAt(a: seq<Sid>, sid: Sid, r: seq<Sid>)
    requires var at, n := Index(a, sid), |a|;
             && |r| == (if at < n then n - 1 else n)
             && forall j | 0 <= j < |r| :: r[j] == if at < n && j == at then a[n - 1] else a[j]
    ensures r == SwapRemove(a, sid)
  {}

  function Sids(s: seq<Lookup>): (r: seq<Sid>)
    requires forall i | 0 <= i < |s| :: s[i].Found?
    ensures |r| == |s| && forall i | 0 <= i < |s| :: Found(r[i]) == s[i]
  {
    if s == [] then [] else [s[0].sid] + Sids(s[1..])
  }
}
