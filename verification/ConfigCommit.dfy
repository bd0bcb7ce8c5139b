/** The configuration wrapper's modify step and its subscribers (lib/config/wrapper.go:186-346):
    rejected changes, and the chain of commits each subscriber sees. */
module ConfigCommit {
  import opened Sorting
  import opened Config
  import ConfigPreparation

  type SubId = nat

  datatype Change = Change(from: Configuration, to: Configuration)

  /** `initial` is the configuration returned to a subscriber by Subscribe, `seen` the changes it
      has been notified of since. */
  datatype State = State(cfg: Configuration, subs: seq<SubId>, initial: map<SubId, Configuration>,
                         seen: map<SubId, seq<Change>>)

  /** Modify carries what the caller's function made of the copy, what preparing that yields, and
      whether a verifier objects. */
  datatype Op =
    | Modify(to: Configuration, prepared: Result<Configuration>, vetoed: bool)
    | Subscribe(id: SubId)
    | Unsubscribe(id: SubId)

  /** What is prepared is what was modified; an unchanged configuration is not prepared. */
  ghost predicate Legal(cfg: Configuration, op: Op, myID: DeviceID) {
    op.Modify? && op.to != cfg ==> Prepares(op.to, myID, op.prepared)
  }

  /** No change, a failed preparation, or a veto (wrapper.go:257-273, 304-321). */
  predicate Rejected(cfg: Configuration, to: Configuration, prepared: Result<Configuration>, vetoed: bool) {
    to == cfg || vetoed || prepared.Err?
  }

  function Notified(s: State, change: Change): map<SubId, seq<Change>> {
    map id | id in s.seen :: if id in s.subs then s.seen[id] + [change] else s.seen[id]
  }

  function Step(s: State, op: Op): State {
    match op
    case Modify(to, prepared, vetoed) =>
      if Rejected(s.cfg, to, prepared, vetoed) then s
      else s.(cfg := prepared.value, seen := Notified(s, Change(s.cfg, prepared.value)))
    case Subscribe(id) =>
      if id in s.seen then s
      else s.(subs := s.subs + [id], initial := s.initial[id := s.cfg], seen := s.seen[id := []])
    case Unsubscribe(id) => s.(subs := Without(s.subs, id))
  }

  /** sliceutil.RemoveAndZero at the first match, wrapper.go:201-206. */
  function Without(subs: seq<SubId>, id: SubId): seq<SubId> {
    if subs == [] then [] else if subs[0] == id then subs[1..] else [subs[0]] + Without(subs[1..], id)
  }

  function Run(cfg: Configuration, ops: seq<Op>): State {
    if ops == [] then State(cfg, [], map[], map[])
    else Step(Run(cfg, ops[..|ops| - 1]), ops[|ops| - 1])
  }

  // ---------------------------------------------------------------- chains

  /** Consecutive changes connect, starting from `start`. */
  ghost predicate Chain(start: Configuration, changes: seq<Change>) {
    changes == [] ||
    (var init := changes[..|changes| - 1];
     Chain(start, init) && changes[|changes| - 1].from == End(start, init))
  }

  function End(start: Configuration, changes: seq<Change>): Configuration {
    if changes == [] then start else changes[|changes| - 1].to
  }

  ghost predicate Inv(s: State) {
    && s.initial.Keys == s.seen.Keys
    && (forall id | id in s.subs :: id in s.seen) && Distinct(s.subs)
    && (forall id | id in s.seen :: Chain(s.initial[id], s.seen[id]))
    && (forall id | id in s.seen && id in s.subs :: End(s.initial[id], s.seen[id]) == s.cfg)
  }

  lemma {:induction false} WithoutFacts(subs: seq<SubId>, id: SubId)
    requires Distinct(subs)
    ensures forall x :: x in Without(subs, id) <==> x in subs && x != id
    ensures Distinct(Without(subs, id))
  {
    if subs != [] {
      var t := subs[1..];
      assert subs == [subs[0]] + t;
      assert subs[0] !in t by { assert forall i | 0 <= i < |t| :: t[i] == subs[i + 1]; }
      WithoutFacts(t, id);
      if subs[0] != id {
        var r := Without(t, id);
        assert Without(subs, id) == [subs[0]] + r;
        assert forall j | 0 <= j < |r| :: r[j] in r;
      }
    }
  }

  lemma ChainSnoc(start: Configuration, changes: seq<Change>, to: Configuration)
    requires Chain(start, changes)
    ensures var changes' := changes + [Change(End(start, changes), to)];
            Chain(start, changes') && End(start, changes') == to
  {
    var changes' := changes + [Change(End(start, changes), to)];
    assert changes'[..|changes'| - 1] == changes;
  }

  lemma ModifyKeepsInv(s: State, op: Op)
    requires Inv(s) && op.Modify?
    ensures Inv(Step(s, op))
  {
    if !Rejected(s.cfg, op.to, op.prepared, op.vetoed) {
      var s' := Step(s, op);
      forall id | id in s'.seen
        ensures Chain(s'.initial[id], s'.seen[id])
        ensures id in s'.subs ==> End(s'.initial[id], s'.seen[id]) == s'.cfg
      {
        ChainSnoc(s.initial[id], s.seen[id], s'.cfg);
      }
    }
  }

  lemma UnsubscribeKeepsInv(s: State, id: SubId)
    requires Inv(s)
    ensures Inv(Step(s, Unsubscribe(id)))
  {
    WithoutFacts(s.subs, id);
  }

  lemma StepKeepsInv(s: State, op: Op)
    requires Inv(s)
    ensures Inv(Step(s, op))
  {
    match op {
      case Modify(_, _, _) => ModifyKeepsInv(s, op);
      case Subscribe(id) =>
      case Unsubscribe(id) => UnsubscribeKeepsInv(s, id);
    }
  }

  /** Each subscriber's changes form a chain from the configuration it was given when it
      subscribed, and while it is subscribed the chain ends at the active configuration. */
  lemma {:induction false} RunChains(cfg: Configuration, ops: seq<Op>)
    ensures Inv(Run(cfg, ops))
  {
    if ops != [] {
      RunChains(cfg, ops[..|ops| - 1]);
      StepKeepsInv(Run(cfg, ops[..|ops| - 1]), ops[|ops| - 1]);
    }
  }

  lemma SilentStep(s: State, op: Op, id: SubId)
    requires Inv(s) && id in s.seen && id !in s.subs
    ensures var s' := Step(s, op); id !in s'.subs && id in s'.seen && s'.seen[id] == s.seen[id]
  {
    if op.Unsubscribe? {
      WithoutFacts(s.subs, op.id);
    }
  }

  lemma RunSnoc(cfg: Configuration, ops: seq<Op>, op: Op)
    ensures Run(cfg, ops + [op]) == Step(Run(cfg, ops), op)
  {
    assert (ops + [op])[..|ops|] == ops;
  }

  /** A subscriber that has unsubscribed gets nothing more. */
  lemma {:induction false} UnsubscribedSilent(cfg: Configuration, ops: seq<Op>, more: seq<Op>, id: SubId)
    requires id in Run(cfg, ops).seen
    ensures var s, s' := Run(cfg, ops), Run(cfg, ops + [Unsubscribe(id)] + more);
            id !in s'.subs && id in s'.seen && s'.seen[id] == s.seen[id]
    decreases |more|
  {
    var off := ops + [Unsubscribe(id)];
    if more == [] {
      RunChains(cfg, ops);
      WithoutFacts(Run(cfg, ops).subs, id);
      RunSnoc(cfg, ops, Unsubscribe(id));
      assert off + more == off;
    } else {
      var init, last := more[..|more| - 1], more[|more| - 1];
      UnsubscribedSilent(cfg, ops, init, id);
      RunChains(cfg, off + init);
      SilentStep(Run(cfg, off + init), last, id);
      RunSnoc(cfg, off + init, last);
      assert off + init + [last] == off + more;
    }
  }

  /** A change is taken over exactly if it is one, prepares without error and no verifier objects;
      otherwise nothing at all happens. */
  lemma RejectedUnchanged(s: State, to: Configuration, prepared: Result<Configuration>, vetoed: bool, myID: DeviceID)
    requires Legal(s.cfg, Modify(to, prepared, vetoed), myID)
    ensures var s' := Step(s, Modify(to, prepared, vetoed));
            if to == s.cfg || vetoed || !Acceptable(to.folders, {}) then s' == s
            else Prepared(s'.cfg, myID) && Prepares(to, myID, Ok(s'.cfg))
  {
    if to != s.cfg {
      PrepareDelivers(to, myID, prepared);
    }
  }

  // ---------------------------------------------------------------- the wrapper object

  class Wrapper {
    const myID: DeviceID
    var cfg: Configuration
    var subs: seq<SubId>
    /** What Subscribe returned to, and notifyListeners passed to, each subscriber. */
    var initial: map<SubId, Configuration>
    var seen: map<SubId, seq<Change>>

    ghost function View(): State
      reads this
    {
      State(cfg, subs, initial, seen)
    }

    constructor (cfg: Configuration, myID: DeviceID)
      ensures View() == Run(cfg, []) && this.myID == myID
    {
      this.cfg, this.myID, subs, initial, seen := cfg, myID, [], map[], map[];
    }

    ghost predicate Valid()
      reads this
    {
      Inv(View())
    }

    /** wrapper.go:257-273 with replaceLocked; `vetoes` has the subscribers that reject the change
        when asked to verify it. Success is reported exactly if nothing was to be changed, or the
        change prepares and nobody objects. */
    method ServeModify(to: Configuration, vetoes: set<SubId>) returns (ok: bool, ghost prepared: Result<Configuration>)
      requires Valid()
      modifies this
      ensures Valid() && Legal(old(cfg), Modify(to, prepared, false), myID)
      ensures View() == Step(old(View()), Modify(to, prepared, Objects(old(subs), vetoes)))
      ensures ok <==> to == old(cfg) || (Acceptable(to.folders, {}) && !Objects(old(subs), vetoes))
    {
      prepared := Ok(to);
      if to == cfg {
        return true, prepared;
      }
      var p := ConfigPreparation.PrepareConfiguration(to, myID);
      prepared := p;
      PrepareDelivers(to, myID, p);
      ModifyKeepsInv(View(), Modify(to, p, Objects(subs, vetoes)));
      if p.Err? {
        return false, prepared;
      }
      var vetoed := VerifyConfiguration(subs, vetoes);
      if vetoed {
        return false, prepared;
      }
      var from := cfg;
      cfg := p.value;
      NotifyListeners(from, cfg);
      return true, prepared;
    }

    /** wrapper.go:330-338 */
    method NotifyListeners(from: Configuration, to: Configuration)
      requires Distinct(subs) && forall id | id in subs :: id in seen
      modifies this`seen
      ensures seen == Notified(old(View()), Change(from, to))
    {
      ghost var seen0 := seen;
      for i := 0 to |subs|
        invariant seen == NotifiedFirst(seen0, subs[..i], Change(from, to))
      {
        NotifiedStep(seen0, subs, i, Change(from, to));
        seen := seen[subs[i] := seen[subs[i]] + [Change(from, to)]];
      }
      assert subs[..|subs|] == subs;
    }

    /** wrapper.go:189-194; a subscriber object subscribes once. */
    method Subscribe(id: SubId) returns (c: Configuration)
      requires Valid() && id !in seen
      modifies this
      ensures Valid() && View() == Step(old(View()), Op.Subscribe(id)) && c == cfg
    {
      subs := subs + [id];
      initial, seen := initial[id := cfg], seen[id := []];
      c := cfg;
    }

    /** wrapper.go:199-206 */
    method Unsubscribe(id: SubId)
      requires Valid()
      modifies this
      ensures Valid() && View() == Step(old(View()), Op.Unsubscribe(id))
    {
      UnsubscribeKeepsInv(View(), id);
      subs := RemoveFirst(subs, id);
    }
  }

  /** Some subscriber objects. */
  ghost predicate Objects(subs: seq<SubId>, vetoes: set<SubId>) { exists id | id in subs :: id in vetoes }

  /** wrapper.go:311-321 */
  method VerifyConfiguration(subs: seq<SubId>, vetoes: set<SubId>) returns (vetoed: bool)
    ensures vetoed <==> Objects(subs, vetoes)
  {
    for i := 0 to |subs|
      invariant forall j | 0 <= j < i :: subs[j] !in vetoes
    {
      if subs[i] in vetoes {
        return true;
      }
    }
    return false;
  }

  ghost function NotifiedFirst(seen: map<SubId, seq<Change>>, subs: seq<SubId>, change: Change): map<SubId, seq<Change>> {
    map id | id in seen :: if id in subs then seen[id] + [change] else seen[id]
  }

  lemma NotifiedStep(seen: map<SubId, seq<Change>>, subs: seq<SubId>, i: nat, change: Change)
    requires Distinct(subs) && i < |subs| && subs[i] in seen
    ensures var s := NotifiedFirst(seen, subs[..i], change);
            NotifiedFirst(seen, subs[..i + 1], change) == s[subs[i] := s[subs[i]] + [change]]
  {
    assert subs[i] !in subs[..i] && subs[..i + 1] == subs[..i] + [subs[i]];
  }

  method RemoveFirst(subs: seq<SubId>, id: SubId) returns (r: seq<SubId>)
    ensures r == Without(subs, id)
  {
    for i := 0 to |subs|
      invariant id !in subs[..i]
    {
      if subs[i] == id {
        WithoutFirst(subs, id, i);
        return subs[..i] + subs[i + 1..];
      }
    }
    WithoutFirst(subs, id, |subs|);
    return subs;
  }

  lemma {:induction false} WithoutFirst(subs: seq<SubId>, id: SubId, i: nat)
    requires i <= |subs| && id !in subs[..i] && (i < |subs| ==> subs[i] == id)
    ensures Without(subs, id) == subs[..i] + if i < |subs| then subs[i + 1..] else []
  {
    if i > 0 {
      assert subs[0] == subs[..i][0] && subs[1..][..i - 1] == subs[..i][1..];
      WithoutFirst(subs[1..], id, i - 1);
      assert subs[..i] == [subs[0]] + subs[1..][..i - 1];
      assert i < |subs| ==> subs[1..][i..] == subs[i + 1..];
    }
  }
}
