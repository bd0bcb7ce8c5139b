/** The relay server's session protocol (cmd/strelaysrv/session.go, listener.go) as a state
    machine: session goroutines, connection handlers and timers interleave step by step. */
module Relay {
  import opened Bytes
  import opened Sorting

  type Key = Str
  type Sid = nat
  /** A connection handler; it owns exactly one connection, named by the same number. */
  type Handler = nat

  /** Where a session's Serve goroutine is. */
  datatype Phase =
    | Created                 // registered, Serve has not reached its select
    | Waiting                 // in the select: a hand-over or the timeout can happen
    | Received(conn: Handler) // got a connection, not yet appended
    | Full                    // two connections, channel still open
    | ChanClosed              // channel closed, not yet in activeSessions
    | Active                  // in activeSessions, proxying
    | Ending                  // at `done`, before taking sessionMut
    | Cleaned                 // pending and active entries removed
    | Stopped                 // connections closed

  datatype Session = Session(serverKey: Key, clientKey: Key, phase: Phase, conns: seq<Handler>, chanClosed: bool)
  {
    predicate HasKey(k: Key) { k == serverKey || k == clientKey }
  }

  /** Where a sessionConnectionHandler is. */
  datatype HandlerState =
    | Joining(key: Key)            // has read a JoinSessionRequest
    | Holding(sid: Sid, key: Key)  // findSession returned a session
    | Handed(sid: Sid, key: Key)   // AddConnection succeeded
    | Refused                      // no session, or AddConnection failed

  datatype State = State(
    sessions: map<Sid, Session>,
    pending: map<Key, Sid>,
    active: seq<Sid>,
    handlers: map<Handler, HandlerState>,
    closed: set<Handler>,        // connections that have been closed
    issued: map<Key, Sid>,       // history: which session a key was made for
    redeemed: map<Key, Handler>, // history: which handler took a key
    panicked: bool)

  datatype Step =
    | NewSession(sid: Sid, serverKey: Key, clientKey: Key)
    | StartServe(sid: Sid)
    | Join(h: Handler, key: Key)
    | Find(h: Handler)
    | HandOver(h: Handler)
    | Append(sid: Sid)
    | CloseChan(sid: Sid)
    | Activate(sid: Sid)
    | ProxyEnd(sid: Sid)
    | Timeout(sid: Sid)
    | Cleanup(sid: Sid)
    | CloseConns(sid: Sid)
    | DropSession(sid: Sid)

  const Init := State(map[], map[], [], map[], {}, map[], map[], false)

  /** Random keys never collide with keys made before. */
  predicate FreshKey(s: State, k: Key) { k !in s.issued }

  predicate InPhase(s: State, sid: Sid, p: Phase) {
    sid in s.sessions && s.sessions[sid].phase == p
  }

  predicate Enabled(s: State, step: Step) {
    match step
    case NewSession(sid, sk, ck) => sid !in s.sessions && sk != ck && FreshKey(s, sk) && FreshKey(s, ck)
    case StartServe(sid) => InPhase(s, sid, Created)
    case Join(h, key) => h !in s.handlers
    case Find(h) => h in s.handlers && s.handlers[h].Joining?
    case HandOver(h) => h in s.handlers && s.handlers[h].Holding? && s.handlers[h].sid in s.sessions
    case Append(sid) => sid in s.sessions && s.sessions[sid].phase.Received?
    case CloseChan(sid) => InPhase(s, sid, Full)
    case Activate(sid) => InPhase(s, sid, ChanClosed)
    case ProxyEnd(sid) => InPhase(s, sid, Active)
    case Timeout(sid) => InPhase(s, sid, Waiting)
    case Cleanup(sid) => InPhase(s, sid, Ending)
    case CloseConns(sid) => InPhase(s, sid, Cleaned)
    case DropSession(sid) => sid in s.active && sid in s.sessions
  }

  function Index(a: seq<Sid>, sid: Sid): (i: nat)
    ensures i <= |a| && (i < |a| ==> a[i] == sid) && sid !in a[..i]
  {
    if a == [] || a[0] == sid then 0 else
      var i := Index(a[1..], sid);
      assert a[..i + 1] == [a[0]] + a[1..][..i];
      i + 1
  }

  /** session.go:196-203: the last element takes the place of the removed one. */
  function SwapRemove(a: seq<Sid>, sid: Sid): seq<Sid> {
    var i := Index(a, sid);
    if i == |a| then a else a[i := a[|a| - 1]][..|a| - 1]
  }

  function WithPhase(s: State, sid: Sid, p: Phase): State
    requires sid in s.sessions
  {
    s.(sessions := s.sessions[sid := s.sessions[sid].(phase := p)])
  }

  function Refuse(s: State, h: Handler): State {
    s.(handlers := s.handlers[h := Refused], closed := s.closed + {h})
  }

  function AfterNewSession(s: State, sid: Sid, sk: Key, ck: Key): State {
    s.(sessions := s.sessions[sid := Session(sk, ck, Created, [], false)],
       pending := s.pending[sk := sid][ck := sid],
       issued := s.issued[sk := sid][ck := sid])
  }

  function AfterFind(s: State, h: Handler): State
    requires Enabled(s, Find(h))
  {
    var key := s.handlers[h].key;
    if key !in s.pending then Refuse(s, h)
    else s.(handlers := s.handlers[h := Holding(s.pending[key], key)],
            pending := s.pending - {key},
            redeemed := s.redeemed[key := h])
  }

  /** A non-blocking send: it panics on a closed channel, and succeeds only if the receiver waits. */
  function AfterHandOver(s: State, h: Handler): State
    requires Enabled(s, HandOver(h))
  {
    var Holding(sid, key) := s.handlers[h];
    if s.sessions[sid].chanClosed then s.(panicked := true)
    else if s.sessions[sid].phase != Waiting then Refuse(s, h)
    else WithPhase(s, sid, Received(h)).(handlers := s.handlers[h := Handed(sid, key)])
  }

  function AfterAppend(s: State, sid: Sid): State
    requires Enabled(s, Append(sid))
  {
    var ses := s.sessions[sid];
    var conns := ses.conns + [ses.phase.conn];
    s.(sessions := s.sessions[sid := ses.(conns := conns, phase := if |conns| < 2 then Waiting else Full)])
  }

  function AfterCloseChan(s: State, sid: Sid): State
    requires sid in s.sessions
  {
    var ses := s.sessions[sid];
    if ses.chanClosed then s.(panicked := true)
    else s.(sessions := s.sessions[sid := ses.(chanClosed := true, phase := ChanClosed)])
  }

  function AfterCleanup(s: State, sid: Sid): State
    requires sid in s.sessions
  {
    var ses := s.sessions[sid];
    WithPhase(s, sid, Cleaned).(pending := s.pending - {ses.serverKey, ses.clientKey},
                                active := SwapRemove(s.active, sid))
  }

  function Closing(s: State, sid: Sid): State
    requires sid in s.sessions
  {
    s.(closed := s.closed + set c | c in s.sessions[sid].conns)
  }

  function Next(s: State, step: Step): State
    requires Enabled(s, step)
  {
    match step
    case NewSession(sid, sk, ck) => AfterNewSession(s, sid, sk, ck)
    case StartServe(sid) => WithPhase(s, sid, Waiting)
    case Join(h, key) => s.(handlers := s.handlers[h := Joining(key)])
    case Find(h) => AfterFind(s, h)
    case HandOver(h) => AfterHandOver(s, h)
    case Append(sid) => AfterAppend(s, sid)
    case CloseChan(sid) => AfterCloseChan(s, sid)
    case Activate(sid) => WithPhase(s, sid, Active).(active := s.active + [sid])
    case ProxyEnd(sid) => WithPhase(s, sid, Ending)
    case Timeout(sid) => WithPhase(s, sid, Ending)
    case Cleanup(sid) => AfterCleanup(s, sid)
    case CloseConns(sid) => WithPhase(Closing(s, sid), sid, Stopped)
    case DropSession(sid) => Closing(s, sid)
  }

  /** A step that is not enabled does not happen. */
  function Advance(s: State, step: Step): State {
    if Enabled(s, step) then Next(s, step) else s
  }

  /** The state after any interleaving. */
  function Exec(steps: seq<Step>): State {
    if steps == [] then Init else Advance(Exec(steps[..|steps| - 1]), steps[|steps| - 1])
  }

  // ---------------------------------------------------------------- invariants

  /** The connections a session has accepted, including one not yet appended. */
  function Accepted(ses: Session): seq<Handler> {
    ses.conns + if ses.phase.Received? then [ses.phase.conn] else []
  }

  ghost predicate KeyInv(s: State, k: Key) {
    && (k in s.issued ==> s.issued[k] in s.sessions && s.sessions[s.issued[k]].HasKey(k))
    && (k in s.redeemed ==> k in s.issued)
    && (k in s.pending ==>
          && k in s.issued && k !in s.redeemed && s.pending[k] == s.issued[k]
          && s.pending[k] in s.sessions
          && !s.sessions[s.pending[k]].phase.Cleaned? && !s.sessions[s.pending[k]].phase.Stopped?)
  }

  ghost predicate HandlerInv(s: State, h: Handler)
    requires h in s.handlers
  {
    match s.handlers[h]
    case Joining(_) => true
    case Holding(sid, k) =>
      sid in s.sessions && k in s.issued && s.issued[k] == sid && k in s.redeemed && s.redeemed[k] == h
    case Handed(sid, k) =>
      && sid in s.sessions && k in s.issued && s.issued[k] == sid && k in s.redeemed && s.redeemed[k] == h
      && h in Accepted(s.sessions[sid])
    case Refused => h in s.closed
  }

  ghost predicate SessionInv(s: State, sid: Sid)
    requires sid in s.sessions
  {
    var ses := s.sessions[sid];
    && ses.serverKey != ses.clientKey
    && (forall k | ses.HasKey(k) :: k in s.issued && s.issued[k] == sid)
    && Distinct(Accepted(ses))
    && (forall h | h in Accepted(ses) :: h in s.handlers && s.handlers[h].Handed? && s.handlers[h].sid == sid)
    && (ses.chanClosed ==> |ses.conns| == 2)
    && match ses.phase
       case Created => ses.conns == [] && !ses.chanClosed
       case Waiting => |ses.conns| < 2 && !ses.chanClosed
       case Received(_) => |ses.conns| < 2 && !ses.chanClosed
       case Full => |ses.conns| == 2 && !ses.chanClosed
       case ChanClosed => |ses.conns| == 2 && ses.chanClosed
       case Active => |ses.conns| == 2 && ses.chanClosed
       case Ending => |ses.conns| <= 2
       case Cleaned => |ses.conns| <= 2
       case Stopped => |ses.conns| <= 2 && forall c | c in ses.conns :: c in s.closed
  }

  ghost predicate ActiveInv(s: State) {
    && Distinct(s.active)
    && (forall sid | sid in s.active ::
          sid in s.sessions && |s.sessions[sid].conns| == 2 &&
          (s.sessions[sid].phase.Active? || s.sessions[sid].phase.Ending?))
    && (forall sid | InPhase(s, sid, Active) :: sid in s.active)
  }

  ghost predicate Inv(s: State) {
    && (forall k :: KeyInv(s, k))
    && (forall h | h in s.handlers :: HandlerInv(s, h))
    && (forall sid | sid in s.sessions :: SessionInv(s, sid))
    && ActiveInv(s)
    && !s.panicked
  }

  // ---------------------------------------------------------------- preservation

  /** A session with two connections has used up both its keys. */
  lemma FullUsesBothKeys(s: State, sid: Sid, k: Key)
    requires Inv(s) && sid in s.sessions && s.sessions[sid].HasKey(k) && |s.sessions[sid].conns| == 2
    ensures k in s.redeemed && s.redeemed[k] in s.handlers && s.handlers[s.redeemed[k]].Handed?
  {
    var ses := s.sessions[sid];
    assert SessionInv(s, sid);
    var a, b := ses.conns[0], ses.conns[1];
    assert Accepted(ses)[0] == a && Accepted(ses)[1] == b && a != b;
    assert a in Accepted(ses) && b in Accepted(ses);
    assert HandlerInv(s, a) && HandlerInv(s, b);
    assert KeyInv(s, s.handlers[a].key) && KeyInv(s, s.handlers[b].key);
    assert s.handlers[a].key != s.handlers[b].key;
  }

  /** So no handler still holds a session whose channel is closed. */
  lemma HolderMeansOpen(s: State, h: Handler)
    requires Inv(s) && h in s.handlers && s.handlers[h].Holding?
    ensures s.handlers[h].sid in s.sessions && !s.sessions[s.handlers[h].sid].chanClosed
  {
    var Holding(sid, k) := s.handlers[h];
    assert HandlerInv(s, h) && SessionInv(s, sid) && KeyInv(s, k);
    if |s.sessions[sid].conns| == 2 {
      FullUsesBothKeys(s, sid, k);
    }
  }

  lemma SwapRemoveKeepsOthers(a: seq<Sid>, sid: Sid)
    requires Distinct(a)
    ensures Distinct(SwapRemove(a, sid))
    ensures forall x :: x in SwapRemove(a, sid) <==> x in a && x != sid
    ensures sid in a ==> |SwapRemove(a, sid)| == |a| - 1
  {
    var i, n := Index(a, sid), |a|;
    if i == n {
      assert a[..i] == a;
    } else {
      var b := SwapRemove(a, sid);
      assert forall j | 0 <= j < n - 1 :: b[j] == if j == i then a[n - 1] else a[j];
      forall x | x in a && x != sid ensures x in b {
        var j :| 0 <= j < n && a[j] == x;
        assert b[if j == n - 1 then i else j] == x;
      }
    }
  }

  /** A step that moves one session on without changing what it has accepted. */
  lemma PhaseStep(s: State, sid: Sid, ses: Session, s': State)
    requires Inv(s) && sid in s.sessions && !ses.phase.Received? && !s.sessions[sid].phase.Received?
    requires ses == s.sessions[sid].(phase := ses.phase, chanClosed := ses.chanClosed)
    requires s' == s.(sessions := s.sessions[sid := ses], active := s'.active, closed := s'.closed, pending := s'.pending)
    requires s.closed <= s'.closed
    requires SessionInv(s', sid) && ActiveInv(s')
    requires forall k | k in s'.pending :: k in s.pending && s'.pending[k] == s.pending[k]
    requires ses.phase.Cleaned? || ses.phase.Stopped? ==> forall k | k in s'.pending :: s'.pending[k] != sid
    ensures Inv(s')
  {
    forall k ensures KeyInv(s', k) { assert KeyInv(s, k); }
    forall h | h in s'.handlers ensures HandlerInv(s', h) { assert HandlerInv(s, h); }
    forall x | x in s'.sessions ensures SessionInv(s', x) { assert SessionInv(s, x); }
  }

  lemma NewSessionKeepsInv(s: State, sid: Sid, sk: Key, ck: Key)
    requires Inv(s) && Enabled(s, NewSession(sid, sk, ck))
    ensures Inv(AfterNewSession(s, sid, sk, ck))
  {
    var s' := AfterNewSession(s, sid, sk, ck);
    forall h | h in s'.handlers ensures HandlerInv(s', h) { assert HandlerInv(s, h); }
    forall k ensures KeyInv(s', k) { NewSessionKey(s, sid, sk, ck, k); }
    forall x | x in s'.sessions ensures SessionInv(s', x) { NewSessionOther(s, sid, sk, ck, x); }
  }

  lemma NewSessionKey(s: State, sid: Sid, sk: Key, ck: Key, k: Key)
    requires KeyInv(s, k) && Enabled(s, NewSession(sid, sk, ck))
    ensures KeyInv(AfterNewSession(s, sid, sk, ck), k)
  {}

  lemma NewSessionOther(s: State, sid: Sid, sk: Key, ck: Key, x: Sid)
    requires Enabled(s, NewSession(sid, sk, ck)) && (x != sid ==> x in s.sessions && SessionInv(s, x))
    ensures SessionInv(AfterNewSession(s, sid, sk, ck), x)
  {}

  lemma FindKeepsInv(s: State, h: Handler)
    requires Inv(s) && Enabled(s, Find(h))
    ensures Inv(AfterFind(s, h))
  {
    var s' := AfterFind(s, h);
    assert KeyInv(s, s.handlers[h].key);
    forall x | x in s'.handlers ensures HandlerInv(s', x) { assert HandlerInv(s, x); }
    forall k ensures KeyInv(s', k) { assert KeyInv(s, k); }
    forall x | x in s'.sessions ensures SessionInv(s', x) { assert SessionInv(s, x); }
  }

  lemma HandOverKeepsInv(s: State, h: Handler)
    requires Inv(s) && Enabled(s, HandOver(h))
    ensures Inv(AfterHandOver(s, h))
  {
    var s' := AfterHandOver(s, h);
    HolderMeansOpen(s, h);
    forall k ensures KeyInv(s', k) { HandOverKey(s, h, k); }
    forall x | x in s'.sessions ensures SessionInv(s', x) { HandOverSession(s, h, x); }
    forall x | x in s'.handlers ensures HandlerInv(s', x) { HandOverHandler(s, h, x); }
    HandOverActive(s, h);
  }

  lemma HandOverActive(s: State, h: Handler)
    requires ActiveInv(s) && Enabled(s, HandOver(h))
    ensures ActiveInv(AfterHandOver(s, h))
  {}

  lemma HandOverKey(s: State, h: Handler, k: Key)
    requires KeyInv(s, k) && Enabled(s, HandOver(h))
    ensures KeyInv(AfterHandOver(s, h), k)
  {}

  lemma HandOverHandler(s: State, h: Handler, x: Handler)
    requires Inv(s) && Enabled(s, HandOver(h)) && x in s.handlers
    requires !s.sessions[s.handlers[h].sid].chanClosed
    ensures HandlerInv(AfterHandOver(s, h), x)
  {
    assert HandlerInv(s, x) && HandlerInv(s, h);
  }

  lemma HandOverSession(s: State, h: Handler, x: Sid)
    requires Inv(s) && Enabled(s, HandOver(h)) && x in s.sessions
    requires !s.sessions[s.handlers[h].sid].chanClosed
    ensures SessionInv(AfterHandOver(s, h), x)
  {
    var ses, s' := s.sessions[x], AfterHandOver(s, h);
    assert SessionInv(s, x);
    assert h !in Accepted(ses);
    if x == s.handlers[h].sid && ses.phase == Waiting {
      ReceiverInv(s, h, x, s');
    } else {
      SessionFrame(s, s', x, h);
    }
  }

  lemma SessionFrame(s: State, s': State, x: Sid, h: Handler)
    requires x in s.sessions && SessionInv(s, x) && h !in Accepted(s.sessions[x])
    requires x in s'.sessions && s'.sessions[x] == s.sessions[x]
    requires s'.issued == s.issued && s.closed <= s'.closed
    requires h in s'.handlers && s'.handlers == s.handlers[h := s'.handlers[h]]
    ensures SessionInv(s', x)
  {}

  /** The session that takes the connection over. */
  lemma ReceiverInv(s: State, h: Handler, x: Sid, s': State)
    requires x in s.sessions && SessionInv(s, x) && s.sessions[x].phase == Waiting
    requires h !in Accepted(s.sessions[x])
    requires s'.sessions == s.sessions[x := s.sessions[x].(phase := Received(h))]
    requires s'.issued == s.issued && h in s'.handlers && s'.handlers == s.handlers[h := s'.handlers[h]]
    requires s'.handlers[h].Handed? && s'.handlers[h].sid == x
    ensures SessionInv(s', x)
  {
    var conns := s.sessions[x].conns;
    assert Accepted(s.sessions[x]) == conns && Accepted(s'.sessions[x]) == conns + [h];
  }

  lemma AppendKeepsInv(s: State, sid: Sid)
    requires Inv(s) && Enabled(s, Append(sid))
    ensures Inv(AfterAppend(s, sid))
  {
    var s' := AfterAppend(s, sid);
    assert SessionInv(s, sid);
    assert Accepted(s'.sessions[sid]) == Accepted(s.sessions[sid]);
    forall k ensures KeyInv(s', k) { assert KeyInv(s, k); }
    forall x | x in s'.sessions ensures SessionInv(s', x) { AppendSession(s, sid, x); }
    AppendActive(s, sid);
    forall x | x in s'.handlers ensures HandlerInv(s', x) { assert HandlerInv(s, x); }
  }

  lemma AppendActive(s: State, sid: Sid)
    requires ActiveInv(s) && Enabled(s, Append(sid))
    ensures ActiveInv(AfterAppend(s, sid))
  {}

  lemma AppendSession(s: State, sid: Sid, x: Sid)
    requires Enabled(s, Append(sid)) && x in s.sessions && SessionInv(s, x)
    ensures SessionInv(AfterAppend(s, sid), x)
  {
    if x == sid {
      assert Accepted(AfterAppend(s, sid).sessions[sid]) == Accepted(s.sessions[sid]);
    }
  }

  lemma CloseChanKeepsInv(s: State, sid: Sid)
    requires Inv(s) && Enabled(s, CloseChan(sid))
    ensures Inv(AfterCloseChan(s, sid))
  {
    var s' := AfterCloseChan(s, sid);
    assert SessionInv(s, sid);
    PhaseStep(s, sid, s'.sessions[sid], s');
  }

  lemma CleanupKeepsInv(s: State, sid: Sid)
    requires Inv(s) && Enabled(s, Cleanup(sid))
    ensures Inv(AfterCleanup(s, sid))
  {
    var s' := AfterCleanup(s, sid);
    assert SessionInv(s, sid);
    SwapRemoveKeepsOthers(s.active, sid);
    forall k | k in s'.pending ensures s'.pending[k] != sid { assert KeyInv(s, k); }
    PhaseStep(s, sid, s'.sessions[sid], s');
  }

  lemma StartServeKeepsInv(s: State, sid: Sid)
    requires Inv(s) && Enabled(s, StartServe(sid))
    ensures Inv(WithPhase(s, sid, Waiting))
  {
    var s' := WithPhase(s, sid, Waiting);
    assert SessionInv(s, sid);
    PhaseStep(s, sid, s'.sessions[sid], s');
  }

  lemma ActivateKeepsInv(s: State, sid: Sid)
    requires Inv(s) && Enabled(s, Activate(sid))
    ensures Inv(WithPhase(s, sid, Active).(active := s.active + [sid]))
  {
    var s' := WithPhase(s, sid, Active).(active := s.active + [sid]);
    assert SessionInv(s, sid);
    PhaseStep(s, sid, s'.sessions[sid], s');
  }

  lemma ProxyEndKeepsInv(s: State, sid: Sid)
    requires Inv(s) && Enabled(s, ProxyEnd(sid))
    ensures Inv(WithPhase(s, sid, Ending))
  {
    var s' := WithPhase(s, sid, Ending);
    assert SessionInv(s, sid);
    PhaseStep(s, sid, s'.sessions[sid], s');
  }

  lemma TimeoutKeepsInv(s: State, sid: Sid)
    requires Inv(s) && Enabled(s, Timeout(sid))
    ensures Inv(WithPhase(s, sid, Ending))
  {
    var s' := WithPhase(s, sid, Ending);
    assert SessionInv(s, sid);
    PhaseStep(s, sid, s'.sessions[sid], s');
  }

  lemma CloseConnsKeepsInv(s: State, sid: Sid)
    requires Inv(s) && Enabled(s, CloseConns(sid))
    ensures Inv(WithPhase(Closing(s, sid), sid, Stopped))
  {
    var s' := WithPhase(Closing(s, sid), sid, Stopped);
    assert SessionInv(s, sid);
    forall k | k in s'.pending ensures s'.pending[k] != sid { assert KeyInv(s, k); }
    PhaseStep(s, sid, s'.sessions[sid], s');
  }

  lemma JoinKeepsInv(s: State, h: Handler, key: Key)
    requires Inv(s) && Enabled(s, Join(h, key))
    ensures Inv(s.(handlers := s.handlers[h := Joining(key)]))
  {
    var s' := s.(handlers := s.handlers[h := Joining(key)]);
    forall k ensures KeyInv(s', k) { assert KeyInv(s, k); }
    forall x | x in s'.sessions ensures SessionInv(s', x) { assert SessionInv(s, x); }
    forall x | x in s'.handlers ensures HandlerInv(s', x) { if x != h { assert HandlerInv(s, x); } }
  }

  lemma DropKeepsInv(s: State, sid: Sid)
    requires Inv(s) && Enabled(s, DropSession(sid))
    ensures Inv(Closing(s, sid))
  {
    var s' := Closing(s, sid);
    forall k ensures KeyInv(s', k) { assert KeyInv(s, k); }
    forall x | x in s'.sessions ensures SessionInv(s', x) { assert SessionInv(s, x); }
    forall x | x in s'.handlers ensures HandlerInv(s', x) { assert HandlerInv(s, x); }
  }

  lemma StepKeepsInv(s: State, step: Step)
    requires Inv(s) && Enabled(s, step)
    ensures Inv(Next(s, step))
  {
    match step {
      case NewSession(sid, sk, ck) => NewSessionKeepsInv(s, sid, sk, ck);
      case StartServe(sid) => StartServeKeepsInv(s, sid);
      case Join(h, key) => JoinKeepsInv(s, h, key);
      case Find(h) => FindKeepsInv(s, h);
      case HandOver(h) => HandOverKeepsInv(s, h);
      case Append(sid) => AppendKeepsInv(s, sid);
      case CloseChan(sid) => CloseChanKeepsInv(s, sid);
      case Activate(sid) => ActivateKeepsInv(s, sid);
      case ProxyEnd(sid) => ProxyEndKeepsInv(s, sid);
      case Timeout(sid) => TimeoutKeepsInv(s, sid);
      case Cleanup(sid) => CleanupKeepsInv(s, sid);
      case CloseConns(sid) => CloseConnsKeepsInv(s, sid);
      case DropSession(sid) => DropKeepsInv(s, sid);
    }
  }

  /** Every reachable state of every interleaving satisfies the invariant. */
  lemma {:induction false} Reachable(steps: seq<Step>)
    ensures Inv(Exec(steps))
  {
    if steps != [] {
      var s, last := Exec(steps[..|steps| - 1]), steps[|steps| - 1];
      Reachable(steps[..|steps| - 1]);
      if Enabled(s, last) { StepKeepsInv(s, last); }
    }
  }

  // ---------------------------------------------------------------- theorems

  predicate Over(s: State, sid: Sid) {
    sid in s.sessions && (s.sessions[sid].phase.Cleaned? || s.sessions[sid].phase.Stopped?)
  }

  /** Safety of every interleaving: no send on a closed channel and no double close, never more
      than two connections in a session, each session active at most once and only with two
      connections; after its cleanup a session is neither pending nor active. */
  lemma Safety(steps: seq<Step>)
    ensures var s := Exec(steps);
            && !s.panicked
            && (forall sid | sid in s.sessions :: |Accepted(s.sessions[sid])| <= 2)
            && Distinct(s.active)
            && (forall sid | sid in s.active :: sid in s.sessions && |s.sessions[sid].conns| == 2)
            && (forall sid | Over(s, sid) ::
                  sid !in s.active && forall k | s.sessions[sid].HasKey(k) :: k !in s.pending)
  {
    var s := Exec(steps);
    Reachable(steps);
    forall sid | sid in s.sessions ensures |Accepted(s.sessions[sid])| <= 2 { assert SessionInv(s, sid); }
    forall sid, k | Over(s, sid) && s.sessions[sid].HasKey(k) ensures k !in s.pending {
      assert SessionInv(s, sid) && KeyInv(s, k);
    }
  }

  lemma OverStep(s: State, step: Step, sid: Sid)
    requires Over(s, sid)
    ensures Over(Advance(s, step), sid)
  {}

  predicate Redeems(s: State, step: Step, k: Key) {
    step.Find? && Enabled(s, step) && s.handlers[step.h].key == k && k in s.pending
  }

  lemma RedeemStep(s: State, step: Step, k: Key)
    requires KeyInv(s, k)
    ensures k in Advance(s, step).redeemed <==> k in s.redeemed || Redeems(s, step, k)
    ensures Redeems(s, step, k) ==> k !in s.redeemed
  {
    if Enabled(s, step) && !step.Find? {
      OnlyFindRedeems(s, step);
    }
  }

  lemma OnlyFindRedeems(s: State, step: Step)
    requires Enabled(s, step) && !step.Find?
    ensures Next(s, step).redeemed == s.redeemed
  {}

  /** Once over, a session stays over in every continuation. */
  lemma {:induction false} OverForever(steps: seq<Step>, more: seq<Step>, sid: Sid)
    requires Over(Exec(steps), sid)
    ensures Over(Exec(steps + more), sid)
    decreases |more|
  {
    if more == [] {
      assert steps + more == steps;
    } else {
      var init, all := more[..|more| - 1], steps + more;
      OverForever(steps, init, sid);
      OverStep(Exec(steps + init), more[|more| - 1], sid);
      assert all[..|all| - 1] == steps + init && all[|all| - 1] == more[|more| - 1];
    }
  }

  /** How often a key was exchanged for its session in a run. */
  function Redemptions(steps: seq<Step>, k: Key): nat {
    if steps == [] then 0 else
      Redemptions(steps[..|steps| - 1], k) +
      if Redeems(Exec(steps[..|steps| - 1]), steps[|steps| - 1], k) then 1 else 0
  }

  /** Each session key is redeemed at most once. */
  lemma {:induction false} RedeemedOnce(steps: seq<Step>, k: Key)
    ensures Redemptions(steps, k) == if k in Exec(steps).redeemed then 1 else 0
  {
    if steps != [] {
      var s, last := Exec(steps[..|steps| - 1]), steps[|steps| - 1];
      RedeemedOnce(steps[..|steps| - 1], k);
      Reachable(steps[..|steps| - 1]);
      assert KeyInv(s, k);
      RedeemStep(s, last, k);
    }
  }

  /** No connection is lost: one that was refused is closed, one that was handed over belongs
      to its session, and is closed when that session has stopped. */
  lemma ConnectionsAccounted(steps: seq<Step>, h: Handler)
    requires h in Exec(steps).handlers
    ensures var s := Exec(steps);
            match s.handlers[h]
            case Refused => h in s.closed
            case Handed(sid, _) =>
              && sid in s.sessions && h in Accepted(s.sessions[sid])
              && (s.sessions[sid].phase.Stopped? ==> h in s.closed)
            case _ => true
  {
    var s := Exec(steps);
    Reachable(steps);
    assert HandlerInv(s, h);
    if s.handlers[h].Handed? { assert SessionInv(s, s.handlers[h].sid); }
  }

  // ---------------------------------------------------------------- good keys

  /** A key that was made for a session, and not used yet, leads to it until the session is over. */
  ghost predicate Good(s: State, k: Key) {
    k in s.issued && k !in s.redeemed && !Over(s, s.issued[k]) ==> k in s.pending
  }

  lemma GoodStep(s: State, step: Step, k: Key)
    requires KeyInv(s, k) && Enabled(s, step) && Good(s, k)
    requires step.Cleanup? ==> SessionInv(s, step.sid)
    ensures Good(Next(s, step), k)
  {
    match step {
      case NewSession(sid, sk, ck) => GoodNew(s, sid, sk, ck, k);
      case Find(h) => GoodFind(s, h, k);
      case HandOver(h) => GoodHandOver(s, h, k);
      case Cleanup(sid) => GoodCleanup(s, sid, k);
      case _ => PendingKept(s, step);
    }
  }

  lemma GoodNew(s: State, sid: Sid, sk: Key, ck: Key, k: Key)
    requires KeyInv(s, k) && Enabled(s, NewSession(sid, sk, ck)) && Good(s, k)
    ensures Good(AfterNewSession(s, sid, sk, ck), k)
  {}

  lemma GoodFind(s: State, h: Handler, k: Key)
    requires Enabled(s, Find(h)) && Good(s, k)
    ensures Good(AfterFind(s, h), k)
  {}

  lemma GoodHandOver(s: State, h: Handler, k: Key)
    requires Enabled(s, HandOver(h)) && Good(s, k)
    ensures Good(AfterHandOver(s, h), k)
  {}

  lemma GoodCleanup(s: State, sid: Sid, k: Key)
    requires KeyInv(s, k) && Enabled(s, Cleanup(sid)) && SessionInv(s, sid) && Good(s, k)
    ensures Good(AfterCleanup(s, sid), k)
  {}

  lemma PendingKept(s: State, step: Step)
    requires Enabled(s, step) && (OfSession(step) || step.Join?) && !step.Cleanup?
    ensures var s' := Next(s, step);
            s'.pending == s.pending && s'.issued == s.issued && s'.redeemed == s.redeemed && forall sid | Over(s, sid) :: Over(s', sid)
  {}

  /** In every interleaving a good key stays pending. */
  lemma {:induction false} GoodKeys(steps: seq<Step>, k: Key)
    ensures Good(Exec(steps), k)
  {
    if steps != [] {
      var s, last := Exec(steps[..|steps| - 1]), steps[|steps| - 1];
      GoodKeys(steps[..|steps| - 1], k);
      if Enabled(s, last) {
        Reachable(steps[..|steps| - 1]);
        assert KeyInv(s, k) && (last.Cleanup? ==> SessionInv(s, last.sid));
        GoodStep(s, last, k);
      }
    }
  }

  /** In every reachable state a client that joins is refused exactly if its key was never made, is
      used already, or its session is over; else its handler gets the session the key was made for. */
  lemma FindRefusedIff(steps: seq<Step>, h: Handler)
    requires Enabled(Exec(steps), Find(h))
    ensures var s := Exec(steps);
            var k, found := s.handlers[h].key, AfterFind(s, h).handlers[h];
            if k !in s.issued || k in s.redeemed || Over(s, s.issued[k]) then found.Refused?
            else found == Holding(s.issued[k], k)
  {
    var s := Exec(steps);
    Reachable(steps);
    GoodKeys(steps, s.handlers[h].key);
    assert KeyInv(s, s.handlers[h].key);
  }

  lemma ExecStep(steps: seq<Step>, step: Step)
    ensures Exec(steps + [step]) == Advance(Exec(steps), step)
  {
    assert (steps + [step])[..|steps|] == steps;
  }

  /** A client joins with a key of the session and is taken over without being disturbed. */
  function Serving(sid: Sid, h: Handler, k: Key): seq<Step> { [Join(h, k), Find(h), HandOver(h), Append(sid)] }

  /** The session waits for a connection, and the key is good for it. */
  predicate Awaits(s: State, sid: Sid, k: Key) {
    InPhase(s, sid, Waiting) && k in s.issued && s.issued[k] == sid && k !in s.redeemed
  }

  lemma ServingAdvances(s: State, sid: Sid, h: Handler, k: Key)
    requires Awaits(s, sid, k) && k in s.pending && s.pending[k] == sid && h !in s.handlers && !s.sessions[sid].chanClosed
    ensures Advance(Advance(Advance(Advance(s, Join(h, k)), Find(h)), HandOver(h)), Append(sid)) == Served(s, sid, h, k)
  {
    var joined := s.(handlers := s.handlers[h := Joining(k)]);
    var found := AfterFind(joined, h);
    assert Advance(s, Join(h, k)) == joined && Advance(joined, Find(h)) == found;
    assert found == joined.(handlers := found.handlers, pending := s.pending - {k}, redeemed := s.redeemed[k := h]);
    var handed := AfterHandOver(found, h);
    assert Advance(found, HandOver(h)) == handed && handed.sessions[sid] == s.sessions[sid].(phase := Received(h));
    assert Advance(handed, Append(sid)) == AfterAppend(handed, sid);
    assert AfterAppend(handed, sid).handlers == s.handlers[h := Handed(sid, k)];
  }

  /** The session with one more connection, and the key used up. */
  function Served(s: State, sid: Sid, h: Handler, k: Key): State
    requires sid in s.sessions
  {
    var conns := s.sessions[sid].conns + [h];
    s.(sessions := s.sessions[sid := s.sessions[sid].(conns := conns, phase := if |conns| < 2 then Waiting else Full)],
       pending := s.pending - {k}, redeemed := s.redeemed[k := h], handlers := s.handlers[h := Handed(sid, k)])
  }

  lemma ExecFour(steps: seq<Step>, a: Step, b: Step, c: Step, d: Step)
    ensures Exec(steps + [a, b, c, d]) == Advance(Advance(Advance(Advance(Exec(steps), a), b), c), d)
  {
    ExecStep(steps, a);
    ExecStep(steps + [a], b);
    ExecStep(steps + [a] + [b], c);
    ExecStep(steps + [a] + [b] + [c], d);
    assert steps + [a] + [b] + [c] + [d] == steps + [a, b, c, d];
  }

  lemma ServingRuns(steps: seq<Step>, sid: Sid, h: Handler, k: Key)
    requires Awaits(Exec(steps), sid, k) && h !in Exec(steps).handlers
    ensures Exec(steps + Serving(sid, h, k)) == Served(Exec(steps), sid, h, k)
  {
    var s := Exec(steps);
    Reachable(steps);
    GoodKeys(steps, k);
    assert KeyInv(s, k) && SessionInv(s, sid);
    ServingAdvances(s, sid, h, k);
    ExecFour(steps, Join(h, k), Find(h), HandOver(h), Append(sid));
  }

  /** The session is served twice. */
  lemma ServedTwice(s: State, sid: Sid, h: Handler, k: Key, h': Handler, k': Key)
    requires Awaits(s, sid, k) && Awaits(s, sid, k') && k != k' && s.sessions[sid].conns == []
    requires h' !in s.handlers && h != h'
    ensures var s1 := Served(s, sid, h, k);
            && Awaits(s1, sid, k') && h' !in s1.handlers
            && InPhase(Served(s1, sid, h', k'), sid, Full) && Served(s1, sid, h', k').sessions[sid].conns == [h, h']
  {}

  lemma ActivatesFrom(s: State, sid: Sid)
    requires InPhase(s, sid, Full) && !s.sessions[sid].chanClosed
    ensures var s' := Advance(Advance(s, CloseChan(sid)), Activate(sid));
            InPhase(s', sid, Active) && sid in s'.active && s'.sessions[sid].conns == s.sessions[sid].conns
  {
    var closed := AfterCloseChan(s, sid);
    assert Advance(s, CloseChan(sid)) == closed && InPhase(closed, sid, ChanClosed);
    assert Advance(closed, Activate(sid)) == WithPhase(closed, sid, Active).(active := s.active + [sid]);
  }

  lemma FullActivates(steps: seq<Step>, sid: Sid)
    requires InPhase(Exec(steps), sid, Full)
    ensures var s, s' := Exec(steps), Exec(steps + [CloseChan(sid)] + [Activate(sid)]);
            InPhase(s', sid, Active) && sid in s'.active && s'.sessions[sid].conns == s.sessions[sid].conns
  {
    Reachable(steps);
    assert SessionInv(Exec(steps), sid);
    ActivatesFrom(Exec(steps), sid);
    ExecStep(steps, CloseChan(sid));
    ExecStep(steps + [CloseChan(sid)], Activate(sid));
  }

  /** From every reachable state in which a session waits and both its keys are good, two clients
      that bring them one after the other are connected to each other. */
  lemma ClientsMeet(steps: seq<Step>, sid: Sid, h: Handler, k: Key, h': Handler, k': Key)
    requires Awaits(Exec(steps), sid, k) && Awaits(Exec(steps), sid, k') && k != k'
    requires h !in Exec(steps).handlers && h' !in Exec(steps).handlers && h != h'
    ensures var s := Exec(steps + Serving(sid, h, k) + Serving(sid, h', k') + [CloseChan(sid)] + [Activate(sid)]);
            InPhase(s, sid, Active) && sid in s.active && s.sessions[sid].conns == [h, h']
  {
    Reachable(steps);
    NobodyYet(Exec(steps), sid, k, k');
    ServedTwice(Exec(steps), sid, h, k, h', k');
    ServingRuns(steps, sid, h, k);
    ServingRuns(steps + Serving(sid, h, k), sid, h', k');
    FullActivates(steps + Serving(sid, h, k) + Serving(sid, h', k'), sid);
  }

  /** As long as both keys are good, nobody is connected. */
  lemma NobodyYet(s: State, sid: Sid, k: Key, k': Key)
    requires Inv(s) && Awaits(s, sid, k) && Awaits(s, sid, k') && k != k'
    ensures s.sessions[sid].conns == []
  {
    assert KeyInv(s, k) && KeyInv(s, k');
    if s.sessions[sid].conns != [] {
      var key := UsedKey(s, sid);
    }
  }

  lemma UsedKey(s: State, sid: Sid) returns (key: Key)
    requires Inv(s) && sid in s.sessions && s.sessions[sid].conns != []
    ensures s.sessions[sid].HasKey(key) && key in s.redeemed
  {
    var h := s.sessions[sid].conns[0];
    assert SessionInv(s, sid) && Accepted(s.sessions[sid])[0] == h;
    assert h in Accepted(s.sessions[sid]) && HandlerInv(s, h);
    key := s.handlers[h].key;
    assert KeyInv(s, key);
  }

  lemma NewSessionWaits(steps: seq<Step>, sid: Sid, sk: Key, ck: Key)
    requires Enabled(Exec(steps), NewSession(sid, sk, ck))
    ensures var s := Exec(steps + [NewSession(sid, sk, ck)] + [StartServe(sid)]);
            Awaits(s, sid, sk) && Awaits(s, sid, ck) && s.handlers == Exec(steps).handlers
  {
    Reachable(steps);
    assert KeyInv(Exec(steps), sk) && KeyInv(Exec(steps), ck);
    ExecStep(steps, NewSession(sid, sk, ck));
    ExecStep(steps + [NewSession(sid, sk, ck)], StartServe(sid));
  }

  /** So it is with every new session whose goroutine is given the time to start. */
  lemma NewSessionMeets(steps: seq<Step>, sid: Sid, sk: Key, ck: Key, h: Handler, h': Handler)
    requires Enabled(Exec(steps), NewSession(sid, sk, ck))
    requires h !in Exec(steps).handlers && h' !in Exec(steps).handlers && h != h'
    ensures var s := Exec(steps + [NewSession(sid, sk, ck)] + [StartServe(sid)] + Serving(sid, h, sk) + Serving(sid, h', ck)
                          + [CloseChan(sid)] + [Activate(sid)]);
            InPhase(s, sid, Active) && sid in s.active && s.sessions[sid].conns == [h, h']
  {
    NewSessionWaits(steps, sid, sk, ck);
    ClientsMeet(steps + [NewSession(sid, sk, ck)] + [StartServe(sid)], sid, h, sk, h', ck);
  }

  /** Dropping an active session closes both its connections, and leaves the rest to its goroutine. */
  lemma DropCloses(s: State, sid: Sid)
    requires Inv(s) && Enabled(s, DropSession(sid))
    ensures var s' := Advance(s, DropSession(sid));
            && |s.sessions[sid].conns| == 2 && (forall h | h in Accepted(s.sessions[sid]) :: h in s'.closed)
            && s'.sessions == s.sessions && s'.pending == s.pending && s'.active == s.active && s'.handlers == s.handlers
  {
    assert SessionInv(s, sid);
  }

  /** What the session's goroutine or timer does next, if no client comes. */
  function OwnStep(sid: Sid, p: Phase): Step {
    match p
    case Created => StartServe(sid)
    case Waiting => Timeout(sid)
    case Received(_) => Append(sid)
    case Full => CloseChan(sid)
    case ChanClosed => Activate(sid)
    case Active => ProxyEnd(sid)
    case Ending => Cleanup(sid)
    case Cleaned => CloseConns(sid)
    case Stopped => DropSession(sid)
  }

  function StepsLeft(p: Phase): nat {
    match p
    case Stopped => 0
    case Cleaned => 1
    case Ending => 2
    case Waiting => 3
    case Active => 3
    case Created => 4
    case ChanClosed => 4
    case Full => 5
    case Received(_) => 6
  }

  /** The session after its own step. */
  function Moved(ses: Session): Session {
    match ses.phase
    case Created => ses.(phase := Waiting)
    case Waiting => ses.(phase := Ending)
    case Received(h) => ses.(conns := ses.conns + [h], phase := if |ses.conns| == 0 then Waiting else Full)
    case Full => ses.(phase := ChanClosed, chanClosed := true)
    case ChanClosed => ses.(phase := Active)
    case Active => ses.(phase := Ending)
    case Ending => ses.(phase := Cleaned)
    case Cleaned => ses.(phase := Stopped)
    case Stopped => ses
  }

  lemma OwnStepMoves(s: State, sid: Sid)
    requires sid in s.sessions && !s.sessions[sid].phase.Stopped? && (s.sessions[sid].phase.Full? ==> !s.sessions[sid].chanClosed)
    ensures Advance(s, OwnStep(sid, s.sessions[sid].phase)).sessions == s.sessions[sid := Moved(s.sessions[sid])]
  {
    match s.sessions[sid].phase {
      case Received(_) => OwnAppend(s, sid);
      case Full => OwnClose(s, sid);
      case Ending => OwnCleanup(s, sid);
      case _ => OwnPhase(s, sid);
    }
  }

  lemma OwnAppend(s: State, sid: Sid)
    requires Enabled(s, Append(sid))
    ensures Advance(s, Append(sid)).sessions == s.sessions[sid := Moved(s.sessions[sid])]
  {}

  lemma OwnClose(s: State, sid: Sid)
    requires Enabled(s, CloseChan(sid)) && !s.sessions[sid].chanClosed
    ensures Advance(s, CloseChan(sid)).sessions == s.sessions[sid := Moved(s.sessions[sid])]
  {}

  lemma OwnCleanup(s: State, sid: Sid)
    requires Enabled(s, Cleanup(sid))
    ensures Advance(s, Cleanup(sid)).sessions == s.sessions[sid := Moved(s.sessions[sid])]
  {}

  lemma OwnPhase(s: State, sid: Sid)
    requires sid in s.sessions
    requires var p := s.sessions[sid].phase; p.Created? || p.Waiting? || p.ChanClosed? || p.Active? || p.Cleaned?
    ensures Advance(s, OwnStep(sid, s.sessions[sid].phase)).sessions == s.sessions[sid := Moved(s.sessions[sid])]
  {}

  lemma MovedFacts(ses: Session)
    requires !ses.phase.Stopped?
    ensures StepsLeft(Moved(ses).phase) < StepsLeft(ses.phase) && Accepted(Moved(ses)) == Accepted(ses)
    ensures Moved(ses).serverKey == ses.serverKey && Moved(ses).clientKey == ses.clientKey
  {}

  lemma StoppedFacts(steps: seq<Step>, sid: Sid)
    requires InPhase(Exec(steps), sid, Stopped)
    ensures var s := Exec(steps);
            && sid !in s.active && (forall h | h in Accepted(s.sessions[sid]) :: h in s.closed)
            && forall k | s.sessions[sid].HasKey(k) :: k !in s.pending
  {
    Safety(steps);
    Reachable(steps);
    assert Over(Exec(steps), sid) && SessionInv(Exec(steps), sid);
  }

  lemma OwnStepRuns(steps: seq<Step>, sid: Sid)
    requires sid in Exec(steps).sessions && !Exec(steps).sessions[sid].phase.Stopped?
    ensures var ses := Exec(steps).sessions[sid];
            var s' := Exec(steps + [OwnStep(sid, ses.phase)]); sid in s'.sessions && s'.sessions[sid] == Moved(ses)
  {
    Reachable(steps);
    assert SessionInv(Exec(steps), sid);
    OwnStepMoves(Exec(steps), sid);
    ExecStep(steps, OwnStep(sid, Exec(steps).sessions[sid].phase));
  }

  /** No session gets stuck: from every reachable state its own steps end it, with the connections it
      has accepted closed and none of its keys pending. */
  lemma {:induction false} CanEnd(steps: seq<Step>, sid: Sid) returns (more: seq<Step>)
    requires sid in Exec(steps).sessions
    ensures var s, s' := Exec(steps), Exec(steps + more);
            && InPhase(s', sid, Stopped) && sid !in s'.active
            && (forall h | h in Accepted(s.sessions[sid]) :: h in s'.closed)
            && (forall k | s.sessions[sid].HasKey(k) :: k !in s'.pending)
    decreases StepsLeft(Exec(steps).sessions[sid].phase)
  {
    var s := Exec(steps);
    if s.sessions[sid].phase.Stopped? {
      more := [];
      assert steps + more == steps;
      StoppedFacts(steps, sid);
    } else {
      var step := OwnStep(sid, s.sessions[sid].phase);
      OwnStepRuns(steps, sid);
      MovedFacts(s.sessions[sid]);
      var rest := CanEnd(steps + [step], sid);
      more := [step] + rest;
      assert steps + more == steps + [step] + rest;
    }
  }

  // ---------------------------------------------------------------- refused clients

  /** A client whose key was good is refused exactly if its session is not waiting just then: not
      yet, not any more, or busy with the other connection. */
  lemma HandOverRefusedIff(s: State, h: Handler)
    requires Inv(s) && Enabled(s, HandOver(h))
    ensures AfterHandOver(s, h).handlers[h].Refused? <==> s.sessions[s.handlers[h].sid].phase != Waiting
  {
    HolderMeansOpen(s, h);
  }

  /** The key of session `sid` was used up by a client that was refused. */
  predicate Spoiled(s: State, sid: Sid, k: Key) {
    && k in s.issued && s.issued[k] == sid
    && k in s.redeemed && s.redeemed[k] in s.handlers && s.handlers[s.redeemed[k]].Refused?
  }

  lemma SpoiledStep(s: State, step: Step, sid: Sid, k: Key)
    requires KeyInv(s, k) && Enabled(s, step) && Spoiled(s, sid, k)
    ensures Spoiled(Next(s, step), sid, k)
  {
    match step {
      case Find(h) => SpoiledFind(s, h, sid, k);
      case HandOver(h) => SpoiledHandOver(s, h, sid, k);
      case NewSession(_, _, _) =>
      case Join(_, _) =>
      case _ => SessionsOnly(s, step);
    }
  }

  predicate OfSession(step: Step) { !step.NewSession? && !step.Join? && !step.Find? && !step.HandOver? }

  lemma SessionsOnly(s: State, step: Step)
    requires Enabled(s, step) && OfSession(step)
    ensures var s' := Next(s, step); s'.handlers == s.handlers && s'.issued == s.issued && s'.redeemed == s.redeemed
  {}

  lemma SpoiledFind(s: State, h: Handler, sid: Sid, k: Key)
    requires KeyInv(s, k) && Enabled(s, Find(h)) && Spoiled(s, sid, k)
    ensures Spoiled(AfterFind(s, h), sid, k)
  {}

  lemma SpoiledHandOver(s: State, h: Handler, sid: Sid, k: Key)
    requires Enabled(s, HandOver(h)) && Spoiled(s, sid, k)
    ensures Spoiled(AfterHandOver(s, h), sid, k)
  {}

  lemma SpoiledAdvance(s: State, step: Step, sid: Sid, k: Key)
    requires Inv(s) && Spoiled(s, sid, k)
    ensures Spoiled(Advance(s, step), sid, k)
  {
    if Enabled(s, step) {
      assert KeyInv(s, k);
      SpoiledStep(s, step, sid, k);
    }
  }

  lemma {:induction false} SpoiledForever(steps: seq<Step>, more: seq<Step>, sid: Sid, k: Key)
    requires Spoiled(Exec(steps), sid, k)
    ensures Spoiled(Exec(steps + more), sid, k)
    decreases |more|
  {
    if more == [] {
      assert steps + more == steps;
    } else {
      var init, all := more[..|more| - 1], steps + more;
      assert all[..|all| - 1] == steps + init;
      SpoiledForever(steps, init, sid, k);
      Reachable(steps + init);
      SpoiledAdvance(Exec(steps + init), all[|all| - 1], sid, k);
    }
  }

  /** The session of a client that was refused never gets its two connections, in any continuation. */
  lemma NeverFull(steps: seq<Step>, more: seq<Step>, sid: Sid, k: Key)
    requires Spoiled(Exec(steps), sid, k)
    ensures var s := Exec(steps + more);
            sid in s.sessions && |s.sessions[sid].conns| < 2 && !s.sessions[sid].phase.Active? && sid !in s.active
  {
    var s := Exec(steps + more);
    SpoiledForever(steps, more, sid, k);
    Reachable(steps + more);
    assert KeyInv(s, k) && SessionInv(s, sid);
    if |s.sessions[sid].conns| == 2 {
      FullUsesBothKeys(s, sid, k);
    }
  }

  /** A client that is faster than the session's goroutine is refused. */
  lemma RefusedBeforeServe(sid: Sid, sk: Key, ck: Key, h: Handler)
    requires sk != ck
    ensures Spoiled(Exec([NewSession(sid, sk, ck), Join(h, ck), Find(h), HandOver(h)]), sid, ck)
  {
    var s1 := AfterNewSession(Init, sid, sk, ck);
    var s2 := s1.(handlers := s1.handlers[h := Joining(ck)]);
    ExecStep([], NewSession(sid, sk, ck));
    assert [] + [NewSession(sid, sk, ck)] == [NewSession(sid, sk, ck)];
    ExecStep([NewSession(sid, sk, ck)], Join(h, ck));
    assert [NewSession(sid, sk, ck)] + [Join(h, ck)] == [NewSession(sid, sk, ck), Join(h, ck)];
    FasterThanServe(s2, sid, h, ck);
    ExecStep([NewSession(sid, sk, ck), Join(h, ck)], Find(h));
    ExecStep([NewSession(sid, sk, ck), Join(h, ck)] + [Find(h)], HandOver(h));
    assert [NewSession(sid, sk, ck), Join(h, ck)] + [Find(h)] + [HandOver(h)] ==
           [NewSession(sid, sk, ck), Join(h, ck), Find(h), HandOver(h)];
  }

  /** Finding a session that has not started to serve, and handing over to it. */
  lemma FasterThanServe(s: State, sid: Sid, h: Handler, k: Key)
    requires h in s.handlers && s.handlers[h] == Joining(k) && k in s.pending && s.pending[k] == sid
    requires k in s.issued && s.issued[k] == sid && InPhase(s, sid, Created) && !s.sessions[sid].chanClosed
    ensures var found := Advance(s, Find(h)); Spoiled(Advance(found, HandOver(h)), sid, k)
  {
    var found := AfterFind(s, h);
    assert Advance(s, Find(h)) == found && found.handlers[h] == Holding(sid, k);
    assert Advance(found, HandOver(h)) == Refuse(found, h);
  }
}
