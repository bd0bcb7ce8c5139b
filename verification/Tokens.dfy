/** Session and CSRF tokens (lib/api/tokenmanager.go:61-137). Times are nanoseconds since 1970;
    an expiry of zero means never. */
module Tokens {
  import opened Bytes
  import opened Sorting
  import opened Wrappers
  import opened Ints

  type Token = Str
  type TokenSet = map<Token, int>

  const TWO63: int := Half(W64)

  predicate Expired(expiry: int, now: int) { expiry != 0 && expiry < now }

  /** tokenmanager.go:94-99 */
  function NewExpiry(lifetime: int, now: int): int { if lifetime <= 0 then 0 else now + lifetime }

  function Unexpired(s: TokenSet, now: int): TokenSet { map t | t in s && !Expired(s[t], now) :: s[t] }

  /** The width is that of Go's `int`, to which the difference of two expiries is cut. */
  datatype Settings = Settings(lifetime: int, maxItems: int, width: Width)

  /** All differences of expiries fit. */
  ghost predicate Fits(w: Width, live: TokenSet) {
    forall t, u | t in live && u in live :: live[t] - live[u] < Half(w)
  }

  /** What saveLocked (tokenmanager.go:110-145) may leave of `s`. Which of several tokens with the
      same expiry go is decided by the map order and the sort; if differences of expiries do not
      fit, so is which tokens go at all. */
  ghost predicate Saved(s: TokenSet, now: int, c: Settings, r: TokenSet) {
    var live := Unexpired(s, now);
    if c.maxItems > 0 && |live| > c.maxItems
    then KeptSome(live, c.maxItems, r) && (Fits(c.width, live) ==> Kept(live, c.maxItems, r))
    else r == live
  }

  ghost predicate KeptSome(live: TokenSet, maxItems: int, r: TokenSet) {
    |r| == maxItems && forall t | t in r :: t in live && r[t] == live[t]
  }

  /** None that goes expires later than one that is kept. */
  ghost predicate Kept(live: TokenSet, maxItems: int, r: TokenSet) {
    KeptSome(live, maxItems, r) && forall t, u | t in live && t !in r && u in r :: live[t] <= live[u]
  }

  // ---------------------------------------------------------------- runs

  /** The readings of the clock: when expiry is checked, when a new expiry is computed, and when
      expired tokens are removed. */
  datatype Event =
    | Issued(token: Token, given: int, saved: int)
    | Checked(token: Token, now: int, given: int, saved: int, ok: bool)
    | Deleted(token: Token, saved: int)

  ghost predicate Next(c: Settings, s: TokenSet, e: Event, s': TokenSet) {
    match e
    case Issued(t, given, saved) => Saved(s[t := NewExpiry(c.lifetime, given)], saved, c, s')
    case Checked(t, now, given, saved, ok) =>
      if t !in s then !ok && s' == s
      else if Expired(s[t], now) then !ok && Saved(s, saved, c, s')
      else ok && Saved(s[t := NewExpiry(c.lifetime, given)], saved, c, s')
    case Deleted(t, saved) => Saved(s - {t}, saved, c, s')
  }

  datatype Step = Step(event: Event, after: TokenSet)

  function After(loaded: TokenSet, steps: seq<Step>): TokenSet {
    if steps == [] then loaded else steps[|steps| - 1].after
  }

  /** A run from the loaded tokens. */
  ghost predicate Run(c: Settings, loaded: TokenSet, steps: seq<Step>) {
    steps == [] ||
    var init, last := steps[..|steps| - 1], steps[|steps| - 1];
    Run(c, loaded, init) && Next(c, After(loaded, init), last.event, last.after)
  }

  /** What history allows a token: the expiry it got when it was last issued or successfully
      checked (or loaded), nothing if it was deleted since. Neither expiry nor eviction matters. */
  function Allowance(c: Settings, loaded: TokenSet, steps: seq<Step>, t: Token): Option<int> {
    if steps == [] then (if t in loaded then Some(loaded[t]) else None) else
      var before := Allowance(c, loaded, steps[..|steps| - 1], t);
      match steps[|steps| - 1].event
      case Issued(u, given, _) => if u == t then Some(NewExpiry(c.lifetime, given)) else before
      case Checked(u, _, given, _, ok) => if u == t && ok then Some(NewExpiry(c.lifetime, given)) else before
      case Deleted(u, _) => if u == t then None else before
  }

  lemma SavedPart(s: TokenSet, now: int, c: Settings, r: TokenSet)
    requires Saved(s, now, c, r)
    ensures forall t | t in r :: t in s && r[t] == s[t] && !Expired(r[t], now)
  {}

  /** Tokens are only kept as history allows them. */
  lemma {:induction false} KeptAllowed(c: Settings, loaded: TokenSet, steps: seq<Step>, t: Token)
    requires Run(c, loaded, steps)
    ensures t in After(loaded, steps) ==> Allowance(c, loaded, steps, t) == Some(After(loaded, steps)[t])
  {
    if steps != [] {
      var init, last := steps[..|steps| - 1], steps[|steps| - 1];
      var s := After(loaded, init);
      KeptAllowed(c, loaded, init, t);
      match last.event {
        case Issued(u, given, saved) => SavedPart(s[u := NewExpiry(c.lifetime, given)], saved, c, last.after);
        case Checked(u, now, given, saved, ok) =>
          if ok {
            SavedPart(s[u := NewExpiry(c.lifetime, given)], saved, c, last.after);
          } else if u in s {
            SavedPart(s, saved, c, last.after);
          }
        case Deleted(u, saved) => SavedPart(s - {u}, saved, c, last.after);
      }
    }
  }

  /** Over every run, a check succeeds only for a token that history allows and whose expiry, one
      lifetime after it was last issued or successfully checked, has not passed. */
  lemma CheckSound(c: Settings, loaded: TokenSet, steps: seq<Step>, i: nat)
    requires i < |steps| && Run(c, loaded, steps[..i + 1])
    requires steps[i].event.Checked? && steps[i].event.ok
    ensures var a := Allowance(c, loaded, steps[..i], steps[i].event.token);
            a.Some? && (a.value == 0 || steps[i].event.now <= a.value)
  {
    assert steps[..i + 1][..i] == steps[..i];
    KeptAllowed(c, loaded, steps[..i], steps[i].event.token);
  }

  /** An allowance, spelled out: it comes from the last grant after which nothing was deleted. */
  lemma {:induction false} AllowanceMeans(c: Settings, loaded: TokenSet, steps: seq<Step>, t: Token)
    ensures var a := Allowance(c, loaded, steps, t);
            a.Some? ==>
              || (t in loaded && a.value == loaded[t] && forall k | 0 <= k < |steps| :: !Touches(steps[k].event, t))
              || exists j :: GrantedAt(c, steps, t, j, a.value)
  {
    if steps != [] {
      var n := |steps| - 1;
      var init := steps[..n];
      AllowanceMeans(c, loaded, init, t);
      var a := Allowance(c, loaded, steps, t);
      if a.Some? {
        if Grants(steps[n].event, t) {
          assert GrantedAt(c, steps, t, n, a.value);
        } else if exists j :: GrantedAt(c, init, t, j, a.value) {
          var j :| GrantedAt(c, init, t, j, a.value);
          assert GrantedAt(c, steps, t, j, a.value);
        }
      }
    }
  }

  predicate Grants(e: Event, t: Token) { e.token == t && (e.Issued? || (e.Checked? && e.ok)) }

  predicate Touches(e: Event, t: Token) { Grants(e, t) || (e.Deleted? && e.token == t) }

  ghost predicate GrantedAt(c: Settings, steps: seq<Step>, t: Token, j: int, expiry: int) {
    && 0 <= j < |steps| && Grants(steps[j].event, t)
    && expiry == (if c.lifetime > 0 then steps[j].event.given + c.lifetime else 0)
    && forall k | j < k < |steps| :: !Touches(steps[k].event, t)
  }

  /** So a check succeeds only if the token was issued or successfully checked, and not deleted since,
      at most one lifetime ago, or with lifetimes disabled; or was loaded and has not expired. */
  lemma CheckRecent(c: Settings, loaded: TokenSet, steps: seq<Step>, i: nat)
    requires i < |steps| && Run(c, loaded, steps[..i + 1])
    requires steps[i].event.Checked? && steps[i].event.ok
    requires forall j | 0 <= j < i && !steps[j].event.Deleted? :: steps[j].event.given >= 0
    ensures var t, now := steps[i].event.token, steps[i].event.now;
            || (t in loaded && (loaded[t] == 0 || now <= loaded[t]) && forall k | 0 <= k < i :: !Touches(steps[k].event, t))
            || exists j | 0 <= j < i :: LastGrant(steps[..i], t, j) &&
                 (c.lifetime <= 0 || now - steps[j].event.given <= c.lifetime)
  {
    var t := steps[i].event.token;
    CheckSound(c, loaded, steps, i);
    AllowanceMeans(c, loaded, steps[..i], t);
    var a := Allowance(c, loaded, steps[..i], t).value;
    if exists j :: GrantedAt(c, steps[..i], t, j, a) {
      var j :| GrantedAt(c, steps[..i], t, j, a);
      assert LastGrant(steps[..i], t, j) && steps[..i][j] == steps[j];
    } else {
      forall k | 0 <= k < i ensures !Touches(steps[k].event, t) { assert steps[..i][k] == steps[k]; }
    }
  }

  /** Event `j` grants the token, and none after it touches it. */
  ghost predicate LastGrant(steps: seq<Step>, t: Token, j: int) {
    0 <= j < |steps| && Grants(steps[j].event, t) && forall k | j < k < |steps| :: !Touches(steps[k].event, t)
  }

  // ---------------------------------------------------------------- without a limit

  ghost predicate Chronological(steps: seq<Step>) {
    && (forall i | 0 <= i < |steps| && steps[i].event.Checked? :: steps[i].event.now <= steps[i].event.saved)
    && (forall i, j | 0 <= i < j < |steps| && steps[j].event.Checked? :: steps[i].event.saved <= steps[j].event.now)
    && (forall i, j | 0 <= i < j < |steps| :: steps[i].event.saved <= steps[j].event.saved)
  }

  lemma ChronologicalInit(steps: seq<Step>)
    requires steps != [] && Chronological(steps)
    ensures Chronological(steps[..|steps| - 1])
  {}

  /** If no limit is set, a token that history allows is kept until it expires. */
  lemma {:induction false} AllowedKept(c: Settings, loaded: TokenSet, steps: seq<Step>, t: Token, now: int)
    requires Run(c, loaded, steps) && c.maxItems <= 0 && Chronological(steps)
    requires forall i | 0 <= i < |steps| :: steps[i].event.saved <= now
    ensures var a := Allowance(c, loaded, steps, t);
            a.Some? && !Expired(a.value, now) ==> t in After(loaded, steps)
  {
    if steps != [] {
      ChronologicalInit(steps);
      var init, last := steps[..|steps| - 1], steps[|steps| - 1];
      AllowedKept(c, loaded, init, t, now);
      KeptAllowed(c, loaded, init, t);
      assert last.event.saved <= now;
    }
  }

  /** Without a limit, a check succeeds exactly if history allows the token and it has not expired. */
  lemma CheckExact(c: Settings, loaded: TokenSet, steps: seq<Step>, i: nat)
    requires i < |steps| && Run(c, loaded, steps[..i + 1]) && c.maxItems <= 0 && Chronological(steps)
    requires steps[i].event.Checked?
    ensures var a := Allowance(c, loaded, steps[..i], steps[i].event.token);
            steps[i].event.ok <==> a.Some? && (a.value == 0 || steps[i].event.now <= a.value)
  {
    assert steps[..i + 1][..i] == steps[..i];
    KeptAllowed(c, loaded, steps[..i], steps[i].event.token);
    AllowedKept(c, loaded, steps[..i], steps[i].event.token, steps[i].event.now);
  }

  // ---------------------------------------------------------------- eviction

  lemma KeysCard(s: TokenSet)
    ensures |s| == |s.Keys|
  {}

  /** After every save at most `maxItems` tokens remain, none expired; and if the differences fit,
      none has gone for space that expires later than one kept. */
  lemma SavedBounds(s: TokenSet, now: int, c: Settings, r: TokenSet)
    requires Saved(s, now, c, r)
    ensures c.maxItems > 0 ==> |r| <= c.maxItems
    ensures forall t | t in r :: t in s && r[t] == s[t] && !Expired(r[t], now)
    ensures Fits(c.width, Unexpired(s, now)) ==>
              forall t | t in s && t !in r :: Expired(s[t], now) || forall u | u in r :: s[t] <= r[u]
  {
    if c.maxItems > 0 && |Unexpired(s, now)| > c.maxItems {
      var live := Unexpired(s, now);
      assert forall t | t in s && t !in r && !Expired(s[t], now) :: t in live;
    }
  }

  /** `a` expires no later than `b`, where zero is never. */
  predicate NoLater(a: int, b: int) { b == 0 || (a != 0 && a <= b) }

  /** No token evicted for space outlives one that is kept. */
  ghost predicate Fair(live: TokenSet, r: TokenSet) {
    forall t, u | t in live && t !in r && u in live && u in r :: NoLater(live[t], live[u])
  }

  /** Eviction takes tokens that never expire for the oldest ones, so it is fair exactly if tokens
      that never expire are not mixed with others. */
  lemma FairIff(live: TokenSet, maxItems: int, r: TokenSet)
    requires 0 < maxItems < |live| && Kept(live, maxItems, r)
    requires forall t | t in live :: live[t] >= 0
    ensures Fair(live, r) <==> (forall t | t in live :: live[t] == 0) || (forall t | t in live :: live[t] != 0)
  {
    assert exists t :: t in live && t !in r by {
      if forall t | t in live :: t in r {
        assert live.Keys <= r.Keys;
        SubsetCard(live.Keys, r.Keys);
        KeysCard(live);
        KeysCard(r);
        assert false;
      }
    }
    var gone :| gone in live && gone !in r;
    assert r.Keys != {} by { KeysCard(r); }
    var kept :| kept in r;
    if t, u :| t in live && live[t] == 0 && u in live && live[u] != 0 {
      // a token that never expires has gone, and one that does is kept
      var zero := if t in r then gone else t;
      assert live[zero] == 0;
      var other := if u in r then u else kept;
      assert live[other] != 0;
      assert !NoLater(live[zero], live[other]);
    }
  }

  lemma {:induction false} SubsetCard<T>(a: set<T>, b: set<T>)
    requires a <= b
    ensures |a| <= |b|
  {
    if a != {} {
      var x :| x in a;
      SubsetCard(a - {x}, b - {x});
    }
  }

  /** The other tokens that live at least as long as `t`. */
  ghost function Rivals(live: TokenSet, t: Token): set<Token>
    requires t in live
  {
    set u | u in live && u != t && live[u] >= live[t]
  }

  lemma {:induction false} FirstToGo(live: TokenSet) returns (m: Token)
    requires |live| > 0
    ensures m in live && forall t | t in live :: live[m] <= live[t]
    decreases |live|
  {
    KeysCard(live);
    m :| m in live;
    var rest := live - {m};
    RemoveCard(live, m);
    if |rest| > 0 {
      var m' := FirstToGo(rest);
      if live[m'] < live[m] {
        m := m';
      }
    }
    KeysCard(rest);
    assert forall t | t in live :: t in rest || live[t] == live[m] || live[m] <= live[t];
  }

  lemma RemoveCard(s: TokenSet, t: Token)
    requires t in s
    ensures |s - {t}| == |s| - 1
  {
    KeysCard(s);
    KeysCard(s - {t});
    assert (s - {t}).Keys == s.Keys - {t};
  }

  /** Some tokens can always be kept. */
  lemma {:induction false} KeptExists(live: TokenSet, maxItems: nat) returns (r: TokenSet)
    requires maxItems <= |live|
    ensures Kept(live, maxItems, r)
    decreases |live|
  {
    if |live| == maxItems {
      r := live;
    } else {
      var m := FirstToGo(live);
      RemoveCard(live, m);
      r := KeptExists(live - {m}, maxItems);
      forall t, u | t in live && t !in r && u in r ensures live[t] <= live[u] {
        assert u in live;
        assert t != m ==> t in live - {m};
      }
    }
  }

  /** If the rivals of `t` fill the set, the others can be kept without it. */
  lemma KeptWithout(live: TokenSet, maxItems: nat, t: Token) returns (r: TokenSet)
    requires t in live && |Rivals(live, t)| >= maxItems
    ensures Kept(live, maxItems, r) && t !in r
  {
    var rest := live - {t};
    assert Rivals(live, t) <= rest.Keys;
    SubsetCard(Rivals(live, t), rest.Keys);
    KeysCard(rest);
    r := KeptExists(rest, maxItems);
    KeysCard(r);
    forall u | u in r ensures live[t] <= live[u] {
      if live[u] < live[t] {
        assert forall v | v in Rivals(live, t) :: v in r by {
          forall v | v in Rivals(live, t) ensures v in r { assert v in rest && live[v] > live[u]; }
        }
        SubsetCard(Rivals(live, t) + {u}, r.Keys);
        assert false;
      }
    }
    forall v, u | v in live && v !in r && u in r ensures live[v] <= live[u] {
      assert v != t ==> v in rest;
      assert u in rest;
    }
  }

  lemma SurvivesIfFew(s: TokenSet, now: int, c: Settings, r: TokenSet, t: Token)
    requires Saved(s, now, c, r) && Fits(c.width, Unexpired(s, now)) && c.maxItems > 0 && t in s && !Expired(s[t], now)
    requires |Rivals(Unexpired(s, now), t)| < c.maxItems
    ensures t in r
  {
    if t !in r {
      assert r.Keys <= Rivals(Unexpired(s, now), t);
      SubsetCard(r.Keys, Rivals(Unexpired(s, now), t));
      KeysCard(r);
    }
  }

  /** A token is sure to survive the save exactly if fewer than `maxItems` others live as long. */
  lemma SurvivesIff(s: TokenSet, now: int, c: Settings, t: Token)
    requires c.maxItems > 0 && t in s && !Expired(s[t], now) && Fits(c.width, Unexpired(s, now))
    ensures (forall r | Saved(s, now, c, r) :: t in r) <==> |Rivals(Unexpired(s, now), t)| < c.maxItems
  {
    var live := Unexpired(s, now);
    if |Rivals(live, t)| < c.maxItems {
      forall r | Saved(s, now, c, r) ensures t in r { SurvivesIfFew(s, now, c, r, t); }
    } else {
      assert Rivals(live, t) + {t} <= live.Keys;
      SubsetCard(Rivals(live, t) + {t}, live.Keys);
      KeysCard(live);
      var r := KeptWithout(live, c.maxItems, t);
      assert Saved(s, now, c, r);
    }
  }

  /** When tokens do not expire, a new one can be gone before it is handed out. */
  lemma FreshMayGo(earlier: Token, later: Token)
    requires earlier != later
    ensures Next(Settings(0, 1, W64), map[earlier := 0], Issued(later, 0, 0), map[earlier := 0])
  {
    var s: TokenSet := map[earlier := 0][later := 0];
    assert Unexpired(s, 0) == s;
    KeysCard(s);
    assert s.Keys == {earlier, later};
  }

  /** Tokens that never expire, loaded by a manager that gives new ones a lifetime, are mixed with
      others: the session that was never to end makes room for the next. */
  lemma MixedRun(loaded: Token, issued: Token)
    requires loaded != issued
    ensures var c := Settings(10, 1, W64);
            && Run(c, map[loaded := 0], [Step(Issued(issued, 5, 5), map[issued := 15])])
            && !Fair(map[loaded := 0][issued := 15], map[issued := 15])
  {
    var c, live: TokenSet, r: TokenSet := Settings(10, 1, W64), map[loaded := 0][issued := 15], map[issued := 15];
    assert Unexpired(live, 5) == live;
    KeysCard(live);
    assert live.Keys == {loaded, issued};
    assert Next(c, map[loaded := 0], Issued(issued, 5, 5), r);
    var steps := [Step(Issued(issued, 5, 5), r)];
    assert steps[..0] == [] && Run(c, map[loaded := 0], []);
    assert !NoLater(live[loaded], live[issued]);
  }

  // ---------------------------------------------------------------- the token manager

  type Nanos = x: int | 0 <= x < TWO63

  datatype TokenExpiry = TokenExpiry(token: Token, expiry: Nanos)

  /** The comparison of tokenmanager.go:130-132: an int64 difference cut to an `int`. */
  predicate ComparesNotLater(w: Width, a: TokenExpiry, b: TokenExpiry) { Wrap(w, Wrap(W64, a.expiry - b.expiry)) <= 0 }

  function NotLater(w: Width): (TokenExpiry, TokenExpiry) -> bool { (a, b) => ComparesNotLater(w, a, b) }

  predicate ByExpiry(a: TokenExpiry, b: TokenExpiry) { a.expiry <= b.expiry }

  /** The comparison is right for two expiries whose difference fits. */
  lemma ComparesFitting(w: Width, a: TokenExpiry, b: TokenExpiry)
    requires -Half(w) < a.expiry - b.expiry < Half(w)
    ensures ComparesNotLater(w, a, b) <==> a.expiry <= b.expiry
  {}

  /** For all expiries up to `d` apart it is right exactly if `d` fits: always with 64 bits, up to
      about two seconds with 32. */
  lemma ComparesIff(w: Width, d: int)
    requires 0 <= d < TWO63
    ensures (forall a: TokenExpiry, b: TokenExpiry | -d <= a.expiry - b.expiry <= d :: ComparesNotLater(w, a, b) <==> ByExpiry(a, b)) <==> d < Half(w)
  {
    if d < Half(w) {
      forall a: TokenExpiry, b: TokenExpiry | -d <= a.expiry - b.expiry <= d ensures ComparesNotLater(w, a, b) <==> ByExpiry(a, b) {
        ComparesFitting(w, a, b);
      }
    } else {
      var a, b := TokenExpiry([], Half(W32)), TokenExpiry([], 0);
      assert ComparesNotLater(W32, a, b) && !ByExpiry(a, b);
    }
  }

  /** With 32 bits, of two tokens three seconds apart the later one is sorted first. */
  lemma NarrowSortsLaterFirst(early: TokenExpiry, late: TokenExpiry)
    requires late.expiry == early.expiry + 3_000_000_000
    ensures Sort(NotLater(W32), [early, late]) == [late, early] && Sort(NotLater(W32), [late, early]) == [late, early]
  {
    var le := NotLater(W32);
    assert le(late, early) && !le(early, late);
    SortTwo(le, early, late);
    SortTwo(le, late, early);
  }

  lemma SortTwo<T>(le: (T, T) -> bool, x: T, y: T)
    ensures Sort(le, [x, y]) == if le(x, y) then [x, y] else [y, x]
  {
    assert [x, y][1..] == [y] && [y][1..] == [];
    assert Sort(le, []) == [] && Sort(le, [y]) == [y];
    assert Insert(le, x, []) == [x];
  }

  function TokenOf(e: TokenExpiry): Token { e.token }

  ghost function TokensOf(l: seq<TokenExpiry>): set<Token> { set e | e in l :: e.token }

  lemma {:induction false} TokensOfCard(l: seq<TokenExpiry>)
    requires DistinctBy(TokenOf, l)
    ensures |TokensOf(l)| == |l|
  {
    if l != [] {
      var n := |l| - 1;
      TokensOfCard(l[..n]);
      TokensOfSnoc(l, n);
      NotBefore(l, n);
      assert l[..n + 1] == l;
    }
  }

  lemma NotBefore(l: seq<TokenExpiry>, n: nat)
    requires DistinctBy(TokenOf, l) && n < |l|
    ensures l[n].token !in TokensOf(l[..n])
  {
    forall e | e in l[..n] ensures e.token != l[n].token {
      var i :| 0 <= i < n && l[i] == e;
      assert TokenOf(l[i]) != TokenOf(l[n]);
    }
  }

  /** A list of the tokens and their expiries. */
  ghost predicate Lists(l: seq<TokenExpiry>, s: TokenSet) {
    && DistinctBy(TokenOf, l) && TokensOf(l) == s.Keys
    && forall e | e in l :: e.token in s && s[e.token] == e.expiry
  }

  ghost predicate InRange(s: TokenSet) { forall t | t in s :: -TWO63 <= s[t] < TWO63 }

  ghost predicate NonNegative(s: TokenSet) { forall t | t in s :: 0 <= s[t] }

  /** tokenmanager.go:112-117 */
  method RemoveExpired(s: TokenSet, now: int) returns (r: TokenSet)
    ensures r == Unexpired(s, now)
  {
    r := s;
    var todo := s.Keys;
    while todo != {}
      invariant todo <= s.Keys
      invariant r == map t | t in s && (t in todo || !Expired(s[t], now)) :: s[t]
      decreases |todo|
    {
      var t :| t in todo;
      if s[t] != 0 && s[t] < now {
        r := r - {t};
      }
      todo := todo - {t};
    }
  }

  lemma ListsAppend(l: seq<TokenExpiry>, s: TokenSet, t: Token, expiry: Nanos)
    requires Lists(l, s) && t !in s
    ensures Lists(l + [TokenExpiry(t, expiry)], s[t := expiry])
  {
    var l' := l + [TokenExpiry(t, expiry)];
    assert TokensOf(l') == TokensOf(l) + {t};
    forall i, j | 0 <= i < j < |l'| ensures TokenOf(l'[i]) != TokenOf(l'[j]) {
      assert l'[i] in l;
      assert j < |l| ==> l'[j] == l[j];
    }
  }

  /** tokenmanager.go:126-129 */
  method ListTokens(s: TokenSet) returns (l: seq<TokenExpiry>)
    requires InRange(s) && NonNegative(s)
    ensures Lists(l, s)
  {
    l := [];
    var todo := s.Keys;
    ghost var listed: TokenSet := map[];
    while todo != {}
      invariant todo <= s.Keys && Lists(l, listed)
      invariant listed == map t | t in s && t !in todo :: s[t]
      decreases |todo|
    {
      var t :| t in todo;
      ListsAppend(l, listed, t, s[t]);
      l := l + [TokenExpiry(t, s[t])];
      listed := listed[t := s[t]];
      todo := todo - {t};
    }
    assert listed == s;
  }

  lemma TokenAt(l: seq<TokenExpiry>, t: Token) returns (i: nat)
    requires t in TokensOf(l)
    ensures i < |l| && l[i].token == t
  {
    var e :| e in l && e.token == t;
    i :| i < |l| && l[i] == e;
  }

  lemma TokensOfSplit(l: seq<TokenExpiry>, n: nat)
    requires n <= |l|
    ensures TokensOf(l) == TokensOf(l[..n]) + TokensOf(l[n..])
  {
    assert l == l[..n] + l[n..];
  }

  /** The first tokens of a sorted list expire no later than the others. */
  lemma FirstNotLater(live: TokenSet, l: seq<TokenExpiry>, n: nat, t: Token, u: Token)
    requires Lists(l, live) && Ordered(ByExpiry, l) && n <= |l|
    requires t in TokensOf(l[..n]) && u in live && u !in TokensOf(l[..n])
    ensures t in live && live[t] <= live[u]
  {
    TokensOfSplit(l, n);
    var i := TokenAt(l[..n], t);
    var j := TokenAt(l[n..], u);
    FirstInOrder(live, l, i, n + j);
  }

  lemma FirstInOrder(live: TokenSet, l: seq<TokenExpiry>, i: nat, j: nat)
    requires Lists(l, live) && Ordered(ByExpiry, l) && i < j < |l|
    ensures l[i].token in live && l[j].token in live && live[l[i].token] <= live[l[j].token]
  {
    assert l[i] in l && l[j] in l;
    assert ByExpiry(l[i], l[j]);
  }

  /** All but the first tokens of a list, so that `maxItems` remain. */
  ghost function WithoutFirst(live: TokenSet, l: seq<TokenExpiry>, maxItems: int): TokenSet {
    if 0 <= maxItems <= |l| then live - TokensOf(l[..|l| - maxItems]) else live
  }

  /** Deleting the first tokens of a list keeps the others; of a sorted one, the right ones. */
  lemma EvictedKept(live: TokenSet, l: seq<TokenExpiry>, maxItems: int)
    requires 0 < maxItems < |live| && Lists(l, live)
    ensures |l| == |live|
    ensures var r := WithoutFirst(live, l, maxItems);
            KeptSome(live, maxItems, r) && (Ordered(ByExpiry, l) ==> Kept(live, maxItems, r))
  {
    TokensOfCard(l);
    KeysCard(live);
    var n := |l| - maxItems;
    var r := WithoutFirst(live, l, maxItems);
    EvictedCard(live, l, n);
    if Ordered(ByExpiry, l) {
      forall t, u | t in live && t !in r && u in r ensures live[t] <= live[u] {
        FirstNotLater(live, l, n, t, u);
      }
    }
  }

  lemma EvictedCard(live: TokenSet, l: seq<TokenExpiry>, n: nat)
    requires Lists(l, live) && n <= |l| == |live|
    ensures |live - TokensOf(l[..n])| == |live| - n
  {
    var gone := TokensOf(l[..n]);
    TokensOfCard(l[..n]);
    assert gone <= live.Keys by { assert forall e | e in l[..n] :: e in l; }
    var r := live - gone;
    assert r.Keys == live.Keys - gone;
    KeysCard(r);
    KeysCard(live);
    CardDifference(live.Keys, gone);
  }

  lemma CardDifference<T>(a: set<T>, b: set<T>)
    requires b <= a
    ensures |a - b| == |a| - |b|
  {
    assert a == (a - b) + b;
  }

  lemma {:induction false} InsertAgrees<T>(le: (T, T) -> bool, le': (T, T) -> bool, x: T, s: seq<T>)
    requires forall y | y in s :: le(x, y) == le'(x, y)
    ensures Insert(le, x, s) == Insert(le', x, s)
  {
    if s != [] {
      assert s[0] in s && forall y | y in s[1..] :: y in s;
      InsertAgrees(le, le', x, s[1..]);
    }
  }

  /** Sorting only depends on how the elements compare. */
  lemma {:induction false} SortAgrees<T>(le: (T, T) -> bool, le': (T, T) -> bool, s: seq<T>)
    requires forall x, y | x in s && y in s :: le(x, y) == le'(x, y)
    ensures Sort(le, s) == Sort(le', s)
  {
    if s != [] {
      assert s[0] in s && forall y | y in s[1..] :: y in s;
      SortAgrees(le, le', s[1..]);
      var t, rest := s[1..], Sort(le', s[1..]);
      SortPermutes(le', t);
      forall y | y in rest ensures le(s[0], y) == le'(s[0], y) {
        assert y in multiset(rest) && y in multiset(t);
      }
      InsertAgrees(le, le', s[0], rest);
    }
  }

  lemma ListsSorted(w: Width, l: seq<TokenExpiry>, s: TokenSet)
    requires Lists(l, s)
    ensures Lists(Sort(NotLater(w), l), s)
    ensures Fits(w, s) ==> Ordered(ByExpiry, Sort(NotLater(w), l))
  {
    var r := Sort(NotLater(w), l);
    SortPermutes(NotLater(w), l);
    SortDistinctBy(NotLater(w), TokenOf, l);
    assert TokensOf(r) == TokensOf(l);
    if Fits(w, s) {
      forall x, y | x in l && y in l ensures NotLater(w)(x, y) == ByExpiry(x, y) {
        assert s[x.token] == x.expiry && s[y.token] == y.expiry;
        ComparesFitting(w, x, y);
      }
      SortAgrees(NotLater(w), ByExpiry, l);
      SortOrdered(ByExpiry, l);
    }
  }

  /** tokenmanager.go:120-137 */
  method Evict(live: TokenSet, maxItems: int, w: Width) returns (r: TokenSet)
    requires InRange(live) && NonNegative(live) && 0 < maxItems < |live|
    ensures KeptSome(live, maxItems, r) && (Fits(w, live) ==> Kept(live, maxItems, r))
  {
    var tokens := ListTokens(live);
    EvictedFacts(w, live, tokens, maxItems);
    r := DeleteFirst(live, Sort(NotLater(w), tokens), maxItems);
  }

  lemma EvictedFacts(w: Width, live: TokenSet, l: seq<TokenExpiry>, maxItems: int)
    requires Lists(l, live) && 0 < maxItems < |live|
    ensures |Sort(NotLater(w), l)| == |live| && KeptSome(live, maxItems, Evicted(w, live, l, maxItems))
    ensures Fits(w, live) ==> Kept(live, maxItems, Evicted(w, live, l, maxItems))
  {
    ListsSorted(w, l, live);
    EvictedKept(live, Sort(NotLater(w), l), maxItems);
  }

  method DeleteFirst(s: TokenSet, tokens: seq<TokenExpiry>, maxItems: int) returns (r: TokenSet)
    requires 0 <= maxItems <= |tokens|
    ensures r == WithoutFirst(s, tokens, maxItems)
  {
    r := DeleteAll(s, tokens[..|tokens| - maxItems]);
  }

  /** What sorting a listing and deleting the first tokens leaves. */
  ghost function Evicted(w: Width, live: TokenSet, l: seq<TokenExpiry>, maxItems: int): TokenSet {
    WithoutFirst(live, Sort(NotLater(w), l), maxItems)
  }

  /** No two expiries are further apart than `d`. */
  ghost predicate Spread(live: TokenSet, d: int) { forall t, u | t in live && u in live :: live[t] - live[u] <= d }

  /** Whatever the listing, eviction keeps the tokens that expire last ... */
  ghost predicate EvictsRight(w: Width, d: int) {
    forall live, l, maxItems | Spread(live, d) && Lists(l, live) && 0 < maxItems < |live| ::
      Kept(live, maxItems, Evicted(w, live, l, maxItems))
  }

  /** ... for all sets of tokens of a given spread exactly if the spread fits. */
  lemma EvictsRightIff(w: Width, d: int)
    requires 0 <= d < TWO63
    ensures EvictsRight(w, d) <==> d < Half(w)
  {
    if d < Half(w) {
      forall live, l, maxItems | Spread(live, d) && Lists(l, live) && 0 < maxItems < |live|
        ensures Kept(live, maxItems, Evicted(w, live, l, maxItems))
      {
        FittingEvictsRight(w, live, l, maxItems, d);
      }
    } else {
      NarrowEvictsWrong(d);
    }
  }

  lemma FittingEvictsRight(w: Width, live: TokenSet, l: seq<TokenExpiry>, maxItems: int, d: int)
    requires d < Half(w) && Spread(live, d) && Lists(l, live) && 0 < maxItems < |live|
    ensures Kept(live, maxItems, Evicted(w, live, l, maxItems))
  {
    SpreadFits(w, live, d);
    EvictedFacts(w, live, l, maxItems);
  }

  lemma SpreadFits(w: Width, live: TokenSet, d: int)
    requires d < Half(w) && Spread(live, d)
    ensures Fits(w, live)
  {}

  lemma NarrowEvictsWrong(d: int)
    requires Half(W32) <= d
    ensures !EvictsRight(W32, d)
  {
    var early, late := TokenExpiry([2], 0), TokenExpiry([1], Half(W32));
    var live: TokenSet := map[late.token := late.expiry, early.token := early.expiry];
    EvictsFirst(W32, late, early);
    assert late.token != early.token && live[late.token] > live[early.token];
    TwoSpread(late, early, d);
    var r := Evicted(W32, live, [late, early], 1);
    assert late.token in live && late.token !in r && early.token in r;
    assert !Kept(live, 1, r);
  }

  lemma TwoSpread(x: TokenExpiry, y: TokenExpiry, d: int)
    requires -d <= x.expiry - y.expiry <= d
    ensures Spread(map[x.token := x.expiry, y.token := y.expiry], d)
  {}

  /** Of two tokens, the one that is taken for the earlier goes. */
  lemma EvictsFirst(w: Width, x: TokenExpiry, y: TokenExpiry)
    requires x.token != y.token && ComparesNotLater(w, x, y)
    ensures var live: TokenSet := map[x.token := x.expiry, y.token := y.expiry];
            && Lists([x, y], live) && |live| == 2
            && Evicted(w, live, [x, y], 1) == map[y.token := y.expiry]
  {
    var live: TokenSet := map[x.token := x.expiry, y.token := y.expiry];
    SortTwo(NotLater(w), x, y);
    KeysCard(live);
    assert live.Keys == {x.token, y.token};
    assert TokensOf([x, y]) == live.Keys;
    assert [x, y][..1] == [x] && TokensOf([x]) == {x.token};
  }

  /** With 32 bits, of two tokens three seconds apart the later is evicted, in whichever order the
      map yields them. */
  lemma NarrowEvictsLater(early: TokenExpiry, late: TokenExpiry)
    requires early.token != late.token && late.expiry == early.expiry + 3_000_000_000
    ensures var live: TokenSet := map[late.token := late.expiry, early.token := early.expiry];
            forall l | l in {[early, late], [late, early]} ::
              Lists(l, live) && Evicted(W32, live, l, 1) == map[early.token := early.expiry]
  {
    var live: TokenSet := map[late.token := late.expiry, early.token := early.expiry];
    NarrowSortsLaterFirst(early, late);
    EvictsFirst(W32, late, early);
    assert TokensOf([early, late]) == TokensOf([late, early]);
  }

  /** With 64 bits the differences always fit. */
  lemma WideFits(live: TokenSet)
    requires InRange(live) && NonNegative(live)
    ensures Fits(W64, live)
  {}

  /** So with 64 bits, after every save, no token gone for space expires later than one kept. */
  lemma WideSavedBounds(s: TokenSet, now: int, c: Settings, r: TokenSet)
    requires Saved(s, now, c, r) && c.width == W64 && InRange(s) && now >= 0
    ensures forall t, u | t in s && t !in r && u in r :: Expired(s[t], now) || s[t] <= s[u]
  {
    WideFits(Unexpired(s, now));
    SavedBounds(s, now, c, r);
  }

  method DeleteAll(s: TokenSet, victims: seq<TokenExpiry>) returns (r: TokenSet)
    ensures r == s - TokensOf(victims)
  {
    r := s;
    for i := 0 to |victims|
      invariant r == s - TokensOf(victims[..i])
    {
      TokensOfSnoc(victims, i);
      r := r - {victims[i].token};
    }
    assert victims[..|victims|] == victims;
  }

  lemma TokensOfSnoc(l: seq<TokenExpiry>, i: nat)
    requires i < |l|
    ensures TokensOf(l[..i + 1]) == TokensOf(l[..i]) + {l[i].token}
  {
    assert l[..i + 1] == l[..i] + [l[i]];
  }

  class TokenManager {
    const settings: Settings
    var tokens: TokenSet

    ghost predicate Valid() reads this { InRange(tokens) }

    constructor (settings: Settings, loaded: TokenSet)
      requires InRange(loaded)
      ensures Valid() && this.settings == settings && tokens == loaded
    {
      this.settings, tokens := settings, loaded;
    }

    /** tokenmanager.go:110-145. After 1970 negative expiries have passed, so none is left to sort. */
    method SaveLocked(now: int)
      requires Valid() && now >= 0
      modifies this
      ensures Valid() && Saved(old(tokens), now, settings, tokens)
    {
      tokens := RemoveExpired(tokens, now);
      if settings.maxItems > 0 && |tokens| > settings.maxItems {
        tokens := Evict(tokens, settings.maxItems, settings.width);
      }
    }

    /** tokenmanager.go:61-79 */
    method Check(token: Token, now: int, given: int, saved: int) returns (ok: bool)
      requires Valid() && 0 <= given && given + settings.lifetime < TWO63 && saved >= 0
      modifies this
      ensures Valid() && Next(settings, old(tokens), Checked(token, now, given, saved, ok), tokens)
    {
      if token !in tokens {
        return false;
      }
      if Expired(tokens[token], now) {
        SaveLocked(saved);
        return false;
      }
      tokens := tokens[token := NewExpiry(settings.lifetime, given)];
      SaveLocked(saved);
      return true;
    }

    /** tokenmanager.go:82-92, with the random string that is drawn. */
    method New(token: Token, given: int, saved: int)
      requires Valid() && 0 <= given && given + settings.lifetime < TWO63 && saved >= 0
      modifies this
      ensures Valid() && Next(settings, old(tokens), Issued(token, given, saved), tokens)
    {
      tokens := tokens[token := NewExpiry(settings.lifetime, given)];
      SaveLocked(saved);
    }

    /** tokenmanager.go:102-108 */
    method Delete(token: Token, saved: int)
      requires Valid() && saved >= 0
      modifies this
      ensures Valid() && Next(settings, old(tokens), Deleted(token, saved), tokens)
    {
      tokens := tokens - {token};
      SaveLocked(saved);
    }
  }
}
