/** Case resolution with cached directory listings (lib/fs/casefs.go). Paths are lists of
    components, the root being the empty list. `fold` is UnicodeLowercaseNormalized. */
module CaseCache {
  import opened Bytes
  import opened Wrappers
  import opened Folding

  type Path = seq<Str>
  type Folder = Str -> Str

  datatype FsError = NotExist | OtherError

  /** What DirNames returns. */
  datatype Listing = Names(names: seq<Str>) | Unreadable(error: FsError)

  type Tree = Path -> Listing

  const CACHE_TIMEOUT: int := 1_000_000_000

  datatype CaseNode = CaseNode(expires: int, lowerToReal: map<Str, Str>, children: set<Str>)
                    | ErrorNode(expires: int, error: FsError)

  // ---------------------------------------------------------------- a listing's node

  /** The map and `lastLower` after the loop of casefs.go:497-504, which remembers the real name
      and not the folded one. */
  function Scan(fold: Folder, names: seq<Str>): (map<Str, Str>, Str) {
    if names == [] then (map[], []) else
      var (m, last) := Scan(fold, names[..|names| - 1]);
      var n := names[|names| - 1];
      if fold(n) != last then (m[fold(n) := n], n) else (m, last)
  }

  function NodeOf(fold: Folder, l: Listing, expires: int): CaseNode {
    match l
    case Names(names) => CaseNode(expires, Scan(fold, names).0, set n | n in names)
    case Unreadable(e) => ErrorNode(expires, e)
  }

  /** newCaseNode, casefs.go:482-507. */
  method NewCaseNode(fold: Folder, listing: Listing, now: int) returns (node: CaseNode)
    ensures node == NodeOf(fold, listing, now + CACHE_TIMEOUT)
  {
    var expires := now + CACHE_TIMEOUT;
    if listing.Unreadable? {
      return ErrorNode(expires, listing.error);
    }
    var names := listing.names;
    var children: set<Str>, lowerToReal: map<Str, Str>, lastLower: Str := {}, map[], [];
    for i := 0 to |names|
      invariant children == set n | n in names[..i]
      invariant (lowerToReal, lastLower) == Scan(fold, names[..i])
    {
      var n := names[i];
      assert names[..i + 1] == names[..i] + [n] && names[..i + 1][..i] == names[..i];
      children := children + {n};
      var lower := fold(n);
      if lower != lastLower {
        lowerToReal := lowerToReal[lower := n];
        lastLower := n;
      }
    }
    assert names[..|names|] == names;
    return CaseNode(expires, lowerToReal, children);
  }

  /** The map leads from folded names to names of the listing that fold like that. */
  lemma {:induction false} ScanSound(fold: Folder, names: seq<Str>)
    ensures var (m, last) := Scan(fold, names);
            && (forall l | l in m :: m[l] in names && fold(m[l]) == l)
            && (last == [] || fold(last) in m)
  {
    if names != [] {
      ScanSound(fold, names[..|names| - 1]);
    }
  }

  /** No name of the listing is missed. */
  ghost predicate Covers(fold: Folder, names: seq<Str>) {
    forall n | n in names :: fold(n) in Scan(fold, names).0
  }

  ghost predicate Idempotent(fold: Folder) { forall s :: s != [] ==> fold(fold(s)) == fold(s) }

  ghost predicate KeepsNonEmpty(fold: Folder) { forall s :: s != [] ==> fold(s) != [] }

  ghost predicate Proper(names: seq<Str>) { [] !in names }

  /** Folding the listed names again changes nothing, and none becomes empty. */
  ghost predicate FoldsWell(fold: Folder, names: seq<Str>) {
    forall n | n in names :: fold(fold(n)) == fold(n) && fold(n) != []
  }

  lemma {:induction false} ScanCovers(fold: Folder, names: seq<Str>)
    requires FoldsWell(fold, names)
    ensures Covers(fold, names)
  {
    if names != [] {
      var init, n := names[..|names| - 1], names[|names| - 1];
      assert names == init + [n];
      ScanCovers(fold, init);
      ScanSound(fold, init);
      var (m, last) := Scan(fold, init);
      if fold(n) == last {
        assert fold(last) == fold(fold(n)) == fold(n);
      }
    }
  }

  /** Since real names are compared with folded ones, all listings are covered exactly if folding
      is idempotent. */
  lemma CoversIff(fold: Folder)
    requires KeepsNonEmpty(fold)
    ensures (forall names | Proper(names) :: Covers(fold, names)) <==> Idempotent(fold)
  {
    if Idempotent(fold) {
      forall names | Proper(names) ensures Covers(fold, names) { ScanCovers(fold, names); }
    } else {
      var n :| n != [] && fold(fold(n)) != fold(n);
      var a := fold(n);
      assert [a, n][..1] == [a] && [a][..0] == [];
      assert Scan(fold, [a]) == (map[fold(a) := a], a);
      assert Scan(fold, [a, n]) == Scan(fold, [a]);
      assert n in [a, n] && Proper([a, n]) && !Covers(fold, [a, n]);
    }
  }

  ghost predicate ASCIINames(names: seq<Str>) { forall n | n in names :: n != [] && ASCII(n) }

  /** The folding of folding.go:19-28. */
  function CodeFold(unicode: Str -> Str): Folder { (s: Str) => Fold(unicode, s) }

  /** Whatever the Unicode part does, listings of ASCII names are completely covered. */
  lemma ASCIICovers(unicode: Str -> Str, names: seq<Str>)
    requires ASCIINames(names)
    ensures FoldsWell(CodeFold(unicode), names) && Covers(CodeFold(unicode), names)
  {
    forall n | n in names ensures CodeFold(unicode)(CodeFold(unicode)(n)) == CodeFold(unicode)(n) != [] {
      FoldASCII(unicode, n, n);
    }
    ScanCovers(CodeFold(unicode), names);
  }

  /** So are all listings, if what the Unicode part yields folds to itself and is not empty. */
  lemma UnicodeCovers(unicode: Str -> Str, names: seq<Str>)
    requires Proper(names) && forall s | !ASCII(s) :: unicode(s) != []
    requires forall s | !ASCII(s) :: if ASCII(unicode(s)) then NoUpper(unicode(s)) else unicode(unicode(s)) == unicode(s)
    ensures FoldsWell(CodeFold(unicode), names) && Covers(CodeFold(unicode), names)
  {
    FoldIdempotentIff(unicode);
    forall n | n in names ensures CodeFold(unicode)(CodeFold(unicode)(n)) == CodeFold(unicode)(n) != [] {
      assert Fold(unicode, Fold(unicode, n)) == Fold(unicode, n);
      if ASCII(n) {
        FoldASCII(unicode, n, n);
      }
    }
    ScanCovers(CodeFold(unicode), names);
  }

  // ---------------------------------------------------------------- resolution without a cache

  datatype Resolved = Real(path: Path) | Fail(error: FsError)

  /** One component, casefs.go:428-438: a direct match, else a case match. */
  function Pick(node: CaseNode, fold: Folder, comp: Str): Resolved {
    if node.ErrorNode? then Fail(node.error)
    else if comp in node.children then Real([comp])
    else if fold(comp) in node.lowerToReal then Real([node.lowerToReal[fold(comp)]])
    else Fail(NotExist)
  }

  function PickFrom(l: Listing, fold: Folder, comp: Str): Resolved { Pick(NodeOf(fold, l, 0), fold, comp) }

  /** Resolution that reads every listing anew. */
  function Resolve(tree: Tree, fold: Folder, comps: Path): Resolved {
    if comps == [] then Real([]) else
      match Resolve(tree, fold, comps[..|comps| - 1])
      case Fail(e) => Fail(e)
      case Real(p) =>
        match PickFrom(tree(p), fold, comps[|comps| - 1])
        case Fail(e) => Fail(e)
        case Real(c) => Real(p + c)
  }

  /** `real` exists in the tree and is `comps` up to folding. */
  ghost predicate Matches(tree: Tree, fold: Folder, found: Path, comps: Path) {
    && |found| == |comps|
    && forall i | 0 <= i < |found| ::
         tree(found[..i]).Names? && found[i] in tree(found[..i]).names && fold(found[i]) == fold(comps[i])
  }

  /** `comps` exists in the tree as it is written. */
  ghost predicate Exists(tree: Tree, comps: Path) {
    forall i | 0 <= i < |comps| :: tree(comps[..i]).Names? && comps[i] in tree(comps[..i]).names
  }

  lemma PickSound(l: Listing, fold: Folder, comp: Str)
    ensures PickFrom(l, fold, comp).Real? ==>
              var c := PickFrom(l, fold, comp).path; |c| == 1 && l.Names? && c[0] in l.names && fold(c[0]) == fold(comp)
  {
    if l.Names? {
      ScanSound(fold, l.names);
    }
  }

  lemma MatchesSnoc(tree: Tree, fold: Folder, found: Path, comps: Path, r: Str, c: Str)
    requires Matches(tree, fold, found, comps)
    requires tree(found).Names? && r in tree(found).names && fold(r) == fold(c)
    ensures Matches(tree, fold, found + [r], comps + [c])
  {
    var found' := found + [r];
    forall i | 0 <= i < |found'|
      ensures tree(found'[..i]).Names? && found'[i] in tree(found'[..i]).names && fold(found'[i]) == fold((comps + [c])[i])
    {
      assert found'[..i] == if i < |found| then found[..i] else found;
    }
  }

  /** Every resolved component is a real child with the folded name of the requested one. */
  lemma {:induction false} ResolveSound(tree: Tree, fold: Folder, comps: Path)
    ensures Resolve(tree, fold, comps).Real? ==> Matches(tree, fold, Resolve(tree, fold, comps).path, comps)
  {
    if comps != [] && Resolve(tree, fold, comps).Real? {
      var init, c := comps[..|comps| - 1], comps[|comps| - 1];
      ResolveSound(tree, fold, init);
      var p := Resolve(tree, fold, init).path;
      PickSound(tree(p), fold, c);
      MatchesSnoc(tree, fold, p, init, PickFrom(tree(p), fold, c).path[0], c);
      assert comps == init + [c];
    }
  }

  lemma ExistsInit(tree: Tree, comps: Path)
    requires comps != [] && Exists(tree, comps)
    ensures var init, c := comps[..|comps| - 1], comps[|comps| - 1];
            Exists(tree, init) && tree(init).Names? && c in tree(init).names
  {
    var init := comps[..|comps| - 1];
    forall i | 0 <= i < |init| ensures tree(init[..i]).Names? && init[i] in tree(init[..i]).names {
      assert init[..i] == comps[..i] && init[i] == comps[i];
    }
  }

  lemma PickDirect(l: Listing, fold: Folder, c: Str)
    requires l.Names? && c in l.names
    ensures PickFrom(l, fold, c) == Real([c])
  {}

  /** A path that exists as written resolves to itself. */
  lemma {:induction false} ResolveExisting(tree: Tree, fold: Folder, comps: Path)
    requires Exists(tree, comps)
    ensures Resolve(tree, fold, comps) == Real(comps)
  {
    if comps != [] {
      var init, c := comps[..|comps| - 1], comps[|comps| - 1];
      ExistsInit(tree, comps);
      ResolveExisting(tree, fold, init);
      PickDirect(tree(init), fold, c);
      assert comps == init + [c];
    }
  }

  /** Resolution gets as far as `p`, where the next listing fails or has no name that folds like
      the next component. */
  ghost predicate Stuck(tree: Tree, fold: Folder, comps: Path, p: Path, e: FsError) {
    && |p| < |comps| && Matches(tree, fold, p, comps[..|p|])
    && match tree(p)
       case Unreadable(error) => e == error
       case Names(names) => e == NotExist && forall n | n in names :: n != comps[|p|] && fold(n) != fold(comps[|p|])
  }

  lemma StuckExtends(tree: Tree, fold: Folder, comps: Path, p: Path, e: FsError)
    requires comps != [] && Stuck(tree, fold, comps[..|comps| - 1], p, e)
    ensures Stuck(tree, fold, comps, p, e)
  {
    assert comps[..|comps| - 1][..|p|] == comps[..|p|];
  }

  lemma PickComplete(l: Listing, fold: Folder, c: Str)
    requires l.Names? ==> FoldsWell(fold, l.names)
    ensures PickFrom(l, fold, c).Fail? ==>
              match l
              case Unreadable(error) => PickFrom(l, fold, c).error == error
              case Names(names) => PickFrom(l, fold, c).error == NotExist && forall n | n in names :: n != c && fold(n) != fold(c)
  {
    if l.Names? {
      ScanCovers(fold, l.names);
    }
  }

  /** If the listed names fold well, resolution fails only when it is stuck. */
  lemma {:induction false} ResolveComplete(tree: Tree, fold: Folder, comps: Path)
    requires forall p: Path :: tree(p).Names? ==> FoldsWell(fold, tree(p).names)
    ensures Resolve(tree, fold, comps).Fail? ==> exists p :: Stuck(tree, fold, comps, p, Resolve(tree, fold, comps).error)
  {
    if comps != [] && Resolve(tree, fold, comps).Fail? {
      var init, c := comps[..|comps| - 1], comps[|comps| - 1];
      ResolveComplete(tree, fold, init);
      match Resolve(tree, fold, init)
      case Fail(e) =>
        var p :| Stuck(tree, fold, init, p, e);
        StuckExtends(tree, fold, comps, p, e);
      case Real(p) =>
        ResolveSound(tree, fold, init);
        assert comps[..|p|] == init;
        PickComplete(tree(p), fold, c);
        assert Stuck(tree, fold, comps, p, Resolve(tree, fold, comps).error);
    }
  }

  /** In a tree of ASCII names the code's resolution fails only when it is stuck, for every path. */
  lemma ResolveASCII(tree: Tree, unicode: Str -> Str, comps: Path)
    requires forall p: Path :: tree(p).Names? ==> ASCIINames(tree(p).names)
    ensures Resolve(tree, CodeFold(unicode), comps).Fail? ==>
              exists p :: Stuck(tree, CodeFold(unicode), comps, p, Resolve(tree, CodeFold(unicode), comps).error)
  {
    forall p: Path | tree(p).Names? ensures FoldsWell(CodeFold(unicode), tree(p).names) {
      ASCIICovers(unicode, tree(p).names);
    }
    ResolveComplete(tree, CodeFold(unicode), comps);
  }

  lemma {:induction false} ResolvePrefixFails(tree: Tree, fold: Folder, comps: Path, i: nat)
    requires i <= |comps| && Resolve(tree, fold, comps[..i]).Fail?
    ensures Resolve(tree, fold, comps) == Resolve(tree, fold, comps[..i])
    decreases |comps| - i
  {
    if i < |comps| {
      assert comps[..i + 1][..i] == comps[..i];
      ResolvePrefixFails(tree, fold, comps, i + 1);
    } else {
      assert comps[..i] == comps;
    }
  }

  lemma ResolveStep(tree: Tree, fold: Folder, comps: Path, i: nat)
    requires i < |comps| && Resolve(tree, fold, comps[..i]).Real?
    ensures var p := Resolve(tree, fold, comps[..i]).path;
            match PickFrom(tree(p), fold, comps[i])
            case Fail(e) => Resolve(tree, fold, comps) == Fail(e)
            case Real(c) => Resolve(tree, fold, comps[..i + 1]) == Real(p + c)
  {
    assert comps[..i + 1][..i] == comps[..i];
    if Resolve(tree, fold, comps[..i + 1]).Fail? {
      ResolvePrefixFails(tree, fold, comps, i + 1);
    }
  }

  // ---------------------------------------------------------------- resolution with the cache

  /** The node that getExpireAdd gives (casefs.go:452-466); it stays in the cache, whether or not it
      has an error. */
  function Fetched(cache: map<Path, CaseNode>, fold: Folder, tree: Tree, key: Path, now: int, done: int): CaseNode {
    if key in cache && cache[key].expires >= now then cache[key] else NodeOf(fold, tree(key), done + CACHE_TIMEOUT)
  }

  /** A listing, read for the first time or to refresh an expired one, is served until it expires, also
      if it has failed: the next node agrees with the directory, whatever has become of it and
      whatever is looked for, exactly if more than a second has passed since it was read. */
  lemma ListingsStayIff(cache: map<Path, CaseNode>, fold: Folder, tree: Tree, key: Path,
                        now: int, done: int, now': int, done': int)
    requires key in cache ==> cache[key].expires < now
    ensures var cache' := cache[key := Fetched(cache, fold, tree, key, now, done)];
            (forall tree': Tree, c: Str ::
               Pick(Fetched(cache', fold, tree', key, now', done'), fold, c) == PickFrom(tree'(key), fold, c))
            <==> now' > done + 1_000_000_000
  {
    var cache' := cache[key := Fetched(cache, fold, tree, key, now, done)];
    if now' > done + CACHE_TIMEOUT {
      forall tree': Tree, c: Str
        ensures Pick(Fetched(cache', fold, tree', key, now', done'), fold, c) == PickFrom(tree'(key), fold, c)
      {
        assert Fetched(cache', fold, tree', key, now', done') == NodeOf(fold, tree'(key), done' + CACHE_TIMEOUT);
      }
    } else {
      var other: Tree := (p: Path) => if tree(key).Unreadable? then Names([[97]]) else Unreadable(OtherError);
      PickDirect(Names([[97]]), fold, [97]);
      assert Fetched(cache', fold, other, key, now', done') == cache'[key];
      assert Pick(cache'[key], fold, [97]) != PickFrom(other(key), fold, [97]);
    }
  }

  /** The cached nodes are old ones or as the tree is now. */
  ghost predicate Kept(tree: Tree, cache: map<Path, CaseNode>, listed: map<Path, Listing>,
                       cache': map<Path, CaseNode>, listed': map<Path, Listing>) {
    && listed.Keys == cache.Keys && listed'.Keys == cache'.Keys
    && forall p | p in cache' ::
         || listed'[p] == tree(p)
         || (p in cache && cache'[p] == cache[p] && listed'[p] == listed[p])
  }

  lemma KeptTransitive(tree: Tree, cache: map<Path, CaseNode>, listed: map<Path, Listing>,
                       cache1: map<Path, CaseNode>, listed1: map<Path, Listing>,
                       cache2: map<Path, CaseNode>, listed2: map<Path, Listing>)
    requires Kept(tree, cache, listed, cache1, listed1) && Kept(tree, cache1, listed1, cache2, listed2)
    ensures Kept(tree, cache, listed, cache2, listed2)
  {}

  /** All nodes of the second cache are of the first, or expire a second after one of the times given. */
  ghost predicate ReadAt(cache: map<Path, CaseNode>, cache': map<Path, CaseNode>, times: set<int>) {
    forall p | p in cache' :: (p in cache && cache'[p] == cache[p]) || cache'[p].expires - 1_000_000_000 in times
  }

  lemma ReadAtAdded(cache: map<Path, CaseNode>, evicted: set<Path>, key: Path, node: CaseNode, time: int)
    requires node.expires == time + CACHE_TIMEOUT
    ensures ReadAt(cache, (cache - evicted)[key := node], {time})
  {}

  /** When the listings of `n` components have been read. */
  ghost function Readings(clock: nat -> int, n: nat): set<int> { set k: nat | 0 < k <= n :: clock(k) }

  lemma ReadAtStep(cache: map<Path, CaseNode>, cache1: map<Path, CaseNode>, cache2: map<Path, CaseNode>,
                   clock: nat -> int, i: nat, n: nat)
    requires i < n && ReadAt(cache, cache1, Readings(clock, n)) && ReadAt(cache1, cache2, {clock(i + 1)})
    ensures ReadAt(cache, cache2, Readings(clock, n))
  {}

  /** The name is listed now, or was in a listing cached and not yet expired. */
  ghost predicate Listed(tree: Tree, cache: map<Path, CaseNode>, listed: map<Path, Listing>, now: int, p: Path, n: Str) {
    || (tree(p).Names? && n in tree(p).names)
    || (p in cache && p in listed && listed[p].Names? && n in listed[p].names && now <= cache[p].expires)
  }

  ghost predicate Attested(tree: Tree, cache: map<Path, CaseNode>, listed: map<Path, Listing>, fold: Folder,
                           clock: nat -> int, found: Path, comps: Path) {
    && |found| == |comps|
    && forall i | 0 <= i < |found| ::
         Listed(tree, cache, listed, clock(i), found[..i], found[i]) && fold(found[i]) == fold(comps[i])
  }

  /** `node` is of a listing that may be used at time `now`. */
  ghost predicate Usable(tree: Tree, cache: map<Path, CaseNode>, listed: map<Path, Listing>, fold: Folder, now: int,
                         p: Path, node: CaseNode) {
    exists l :: node == NodeOf(fold, l, node.expires) &&
                (l == tree(p) || (p in cache && p in listed && l == listed[p] && now <= cache[p].expires))
  }

  /** What is picked from a usable node is listed. */
  lemma PickListed(tree: Tree, cache: map<Path, CaseNode>, listed: map<Path, Listing>, fold: Folder, now: int,
                   p: Path, node: CaseNode, c: Str)
    requires Usable(tree, cache, listed, fold, now, p, node) && Pick(node, fold, c).Real?
    ensures ListedChild(tree, cache, listed, fold, now, p, Pick(node, fold, c).path, c)
  {
    var l :| node == NodeOf(fold, l, node.expires) &&
      (l == tree(p) || (p in cache && p in listed && l == listed[p] && now <= cache[p].expires));
    PickSound(l, fold, c);
    assert PickFrom(l, fold, c) == Pick(node, fold, c);
  }

  ghost predicate ListedChild(tree: Tree, cache: map<Path, CaseNode>, listed: map<Path, Listing>, fold: Folder,
                              now: int, p: Path, child: Path, c: Str) {
    |child| == 1 && Listed(tree, cache, listed, now, p, child[0]) && fold(child[0]) == fold(c)
  }

  lemma ListedBefore(tree: Tree, cache: map<Path, CaseNode>, listed: map<Path, Listing>,
                     cache1: map<Path, CaseNode>, listed1: map<Path, Listing>, fold: Folder, now: int,
                     p: Path, child: Path, c: Str)
    requires Kept(tree, cache, listed, cache1, listed1) && ListedChild(tree, cache1, listed1, fold, now, p, child, c)
    ensures ListedChild(tree, cache, listed, fold, now, p, child, c)
  {}

  lemma AttestedSnoc(tree: Tree, cache: map<Path, CaseNode>, listed: map<Path, Listing>, fold: Folder,
                     clock: nat -> int, found: Path, comps: Path, child: Path, c: Str)
    requires Attested(tree, cache, listed, fold, clock, found, comps)
    requires ListedChild(tree, cache, listed, fold, clock(|comps|), found, child, c)
    ensures Attested(tree, cache, listed, fold, clock, found + child, comps + [c])
  {
    var found' := found + child;
    forall i | 0 <= i < |found'|
      ensures Listed(tree, cache, listed, clock(i), found'[..i], found'[i]) && fold(found'[i]) == fold((comps + [c])[i])
    {
      assert found'[..i] == if i < |found| then found[..i] else found;
    }
  }

  lemma AttestedStep(tree: Tree, cache: map<Path, CaseNode>, listed: map<Path, Listing>,
                     cache1: map<Path, CaseNode>, listed1: map<Path, Listing>,
                     cache2: map<Path, CaseNode>, listed2: map<Path, Listing>, fold: Folder,
                     clock: nat -> int, found: Path, comps: Path, i: nat, child: Path)
    requires i < |comps| && Attested(tree, cache, listed, fold, clock, found, comps[..i])
    requires Kept(tree, cache, listed, cache1, listed1) && Kept(tree, cache1, listed1, cache2, listed2)
    requires ListedChild(tree, cache1, listed1, fold, clock(i), found, child, comps[i])
    ensures Kept(tree, cache, listed, cache2, listed2)
    ensures Attested(tree, cache, listed, fold, clock, found + child, comps[..i + 1])
  {
    KeptTransitive(tree, cache, listed, cache1, listed1, cache2, listed2);
    ListedBefore(tree, cache, listed, cache1, listed1, fold, clock(i), found, child, comps[i]);
    AttestedSnoc(tree, cache, listed, fold, clock, found, comps[..i], child, comps[i]);
    assert comps[..i + 1] == comps[..i] + [comps[i]];
  }

  datatype Checked = Fine | Conflict(found: Path) | Failed(error: FsError)

  /** casefs.go:385-394, for a resolution of the name; `nfc` normalises paths. */
  function Verdict(r: Resolved, nfc: Path -> Path, comps: Path): Checked {
    match r
    case Fail(e) => Failed(e)
    case Real(p) => if nfc(p) != nfc(comps) then Conflict(p) else Fine
  }

  /** What Lstat says of a name. */
  datatype Stat = Present | Absent | StatError(error: FsError)

  function CheckedName(tree: Tree, fold: Folder, nfc: Path -> Path, comps: Path, stat: Stat): Checked {
    match stat
    case Absent => Fine
    case StatError(e) => Failed(e)
    case Present => Verdict(Resolve(tree, fold, comps), nfc, comps)
  }

  /** The name is there as it is written, or nothing is. */
  ghost predicate Written(tree: Tree, comps: Path, stat: Stat) {
    stat.Absent? || (stat.Present? && Exists(tree, comps))
  }

  /** What checking a name that is there may answer: a conflict is a real path that matches up to
      folding and is written differently, also when normalised; the name is fine only if one that
      matches is written the same. A name that is there as written is always fine. */
  ghost predicate Judged(tree: Tree, fold: Folder, nfc: Path -> Path, comps: Path, c: Checked) {
    && (c.Conflict? ==> Matches(tree, fold, c.found, comps) && nfc(c.found) != nfc(comps))
    && (c.Fine? ==> exists found :: Matches(tree, fold, found, comps) && nfc(found) == nfc(comps))
    && (Exists(tree, comps) ==> c.Fine?)
  }

  lemma VerdictMeans(tree: Tree, fold: Folder, nfc: Path -> Path, comps: Path)
    ensures Judged(tree, fold, nfc, comps, Verdict(Resolve(tree, fold, comps), nfc, comps))
  {
    ResolveSound(tree, fold, comps);
    if Exists(tree, comps) {
      ResolveExisting(tree, fold, comps);
    }
  }

  class CaseFilesystem {
    const fold: Folder
    const nfc: Path -> Path
    var tree: Tree                      // the underlying filesystem
    var cache: map<Path, CaseNode>
    ghost var listed: map<Path, Listing> // the listings the cached nodes were made from

    ghost predicate Valid() reads this {
      && listed.Keys == cache.Keys
      && forall p | p in cache :: cache[p] == NodeOf(fold, listed[p], cache[p].expires)
    }

    /** Nothing cached is out of date. */
    ghost predicate Current() reads this { forall p | p in listed :: listed[p] == tree(p) }

    constructor (fold: Folder, nfc: Path -> Path, tree: Tree)
      ensures Valid() && Current() && this.fold == fold && this.nfc == nfc && this.tree == tree
    {
      this.fold, this.nfc, this.tree, cache, listed := fold, nfc, tree, map[], map[];
    }

    /** The tree changes behind our back. */
    method ChangeExternally(tree': Tree)
      requires Valid()
      modifies this`tree
      ensures Valid() && tree == tree'
    {
      tree := tree';
    }

    /** casefs.go:446-448, also the registry's cleaner at 109-129. */
    method DropCache()
      requires Valid()
      modifies this`cache, this`listed
      ensures Valid() && Current() && cache == map[]
    {
      cache, listed := map[], map[];
    }

    /** casefs.go:452-466. The cache may drop any entries when one is added. A node is of the
        listing as it is now, or was read at most CACHE_TIMEOUT ago. */
    method GetExpireAdd(key: Path, now: int, done: int, evicted: set<Path>) returns (node: CaseNode)
      requires Valid()
      modifies this`cache, this`listed
      ensures Valid() && (old(Current()) ==> Current())
      ensures Kept(tree, old(cache), old(listed), cache, listed)
      ensures Usable(tree, old(cache), old(listed), fold, now, key, node)
      ensures old(Current()) ==> node == NodeOf(fold, tree(key), node.expires)
      ensures node == Fetched(old(cache), fold, tree, key, now, done) && key in cache && cache[key] == node
      ensures ReadAt(old(cache), cache, {done})
    {
      if key !in cache {
        node := NewCaseNode(fold, tree(key), done);
        ReadAtAdded(cache, evicted, key, node, done);
        cache, listed := (cache - evicted)[key := node], (listed - evicted)[key := tree(key)];
        return;
      }
      node := cache[key];
      if node.expires < now {
        node := NewCaseNode(fold, tree(key), done);
        ReadAtAdded(cache, evicted, key, node, done);
        cache, listed := (cache - evicted)[key := node], (listed - evicted)[key := tree(key)];
      } else {
        assert node == NodeOf(fold, listed[key], node.expires);
      }
    }

    /** One component, casefs.go:426-438. */
    method FindChild(p: Path, c: Str, now: int, done: int, evicted: set<Path>) returns (r: Resolved)
      requires Valid()
      modifies this`cache, this`listed
      ensures Valid() && Kept(tree, old(cache), old(listed), cache, listed)
      ensures old(Current()) ==> Current() && r == PickFrom(tree(p), fold, c)
      ensures r.Real? ==> ListedChild(tree, old(cache), old(listed), fold, now, p, r.path, c)
      ensures ReadAt(old(cache), cache, {done})
    {
      var node := GetExpireAdd(p, now, done, evicted);
      if node.ErrorNode? {
        return Fail(node.error);
      }
      var comp := c;
      if comp !in node.children {
        if fold(comp) !in node.lowerToReal {
          return Fail(NotExist);
        }
        comp := node.lowerToReal[fold(comp)];
      }
      PickListed(tree, old(cache), old(listed), fold, now, p, node, c);
      return Real([comp]);
    }

    /** The next round of the loop of casefs.go:425-442, when `found` is what the first ones found. */
    method FindNext(found: Path, comps: Path, i: nat, clock: nat -> int, evicted: set<Path>,
                    ghost cache0: map<Path, CaseNode>, ghost listed0: map<Path, Listing>)
      returns (r: Resolved)
      requires Valid() && i < |comps| && Kept(tree, cache0, listed0, cache, listed)
      requires Attested(tree, cache0, listed0, fold, clock, found, comps[..i])
      requires ReadAt(cache0, cache, Readings(clock, |comps|))
      modifies this`cache, this`listed
      ensures Valid() && Kept(tree, cache0, listed0, cache, listed)
      ensures old(Current()) ==> Current() && r == PickFrom(tree(found), fold, comps[i])
      ensures r.Real? ==> Attested(tree, cache0, listed0, fold, clock, found + r.path, comps[..i + 1])
      ensures ReadAt(cache0, cache, Readings(clock, |comps|))
    {
      ghost var cache1, listed1 := cache, listed;
      r := FindChild(found, comps[i], clock(i), clock(i + 1), evicted);
      ReadAtStep(cache0, cache1, cache, clock, i, |comps|);
      KeptTransitive(tree, cache0, listed0, cache1, listed1, cache, listed);
      if r.Real? {
        AttestedStep(tree, cache0, listed0, cache1, listed1, cache, listed, fold, clock, found, comps, i, r.path);
      }
    }

    /** casefs.go:419-444. With a current cache this is resolution without one. In any case each
        component found was listed at most CACHE_TIMEOUT ago, with the folded name asked for. */
    method RealCase(comps: Path, clock: nat -> int, evicted: nat -> set<Path>) returns (r: Resolved)
      requires Valid()
      modifies this`cache, this`listed
      ensures Valid()
      ensures old(Current()) ==> Current() && r == Resolve(tree, fold, comps)
      ensures r.Real? ==> Attested(tree, old(cache), old(listed), fold, clock, r.path, comps)
      ensures ReadAt(old(cache), cache, Readings(clock, |comps|))
    {
      var found: Path := [];
      ghost var cache0, listed0, current := cache, listed, Current();
      for i := 0 to |comps|
        invariant Valid() && Kept(tree, cache0, listed0, cache, listed)
        invariant current ==> Current() && Resolve(tree, fold, comps[..i]) == Real(found)
        invariant Attested(tree, cache0, listed0, fold, clock, found, comps[..i])
        invariant ReadAt(cache0, cache, Readings(clock, |comps|))
      {
        r := FindNext(found, comps, i, clock, evicted(i), cache0, listed0);
        if current { ResolveStep(tree, fold, comps, i); }
        if r.Fail? {
          return;
        }
        found := found + r.path;
      }
      assert comps[..|comps|] == comps;
      return Real(found);
    }

    /** casefs.go:378-395. An outdated cache never makes an existing name vanish: if the name is
        reported missing, it is missing. */
    method CheckCaseExisting(comps: Path, clock: nat -> int, evicted: nat -> set<Path>) returns (c: Checked)
      requires Valid()
      modifies this`cache, this`listed
      ensures Valid()
      ensures old(Current()) ==> Current() && c == Verdict(Resolve(tree, fold, comps), nfc, comps)
      ensures old(Current()) ==> Judged(tree, fold, nfc, comps, c)
      ensures c.Conflict? ==> nfc(c.found) != nfc(comps)
      ensures c == Failed(NotExist) ==> Resolve(tree, fold, comps) == Fail(NotExist)
    {
      VerdictMeans(tree, fold, nfc, comps);
      var r := RealCase(comps, clock, evicted);
      if r == Fail(NotExist) {
        DropCache();
        r := RealCase(comps, clock, evicted);
      }
      if r.Fail? {
        return Failed(r.error);
      }
      if nfc(r.path) != nfc(comps) {
        return Conflict(r.path);
      }
      return Fine;
    }

    /** casefs.go:360-374, for a canonical name. */
    method CheckCase(comps: Path, stat: Stat, clock: nat -> int, evicted: nat -> set<Path>) returns (c: Checked)
      requires Valid()
      modifies this`cache, this`listed
      ensures Valid()
      ensures old(Current()) ==> Current() && c == CheckedName(tree, fold, nfc, comps, stat)
      ensures stat.Absent? ==> c.Fine?
      ensures stat.StatError? ==> c == Failed(stat.error)
      ensures stat.Present? && old(Current()) ==> Judged(tree, fold, nfc, comps, c)
    {
      match stat {
        case Absent => return Fine;
        case StatError(e) => return Failed(e);
        case Present => c := CheckCaseExisting(comps, clock, evicted);
      }
    }

    /** Mkdir, MkdirAll, Remove, RemoveAll, OpenFile, Create and CreateSymlink (casefs.go:177-197,
        214-234, 283-323): `op` is the underlying operation; a failure changes nothing. */
    method Mutate(comps: Path, stat: Stat, op: Tree -> Option<Tree>, clock: nat -> int, evicted: nat -> set<Path>)
      returns (ok: bool)
      requires Valid()
      modifies this
      ensures Valid() && (old(Current()) ==> Current())
      ensures if ok then op(old(tree)) == Some(tree) && Current() else tree == old(tree)
      ensures old(Current()) ==>
                (ok <==> CheckedName(old(tree), fold, nfc, comps, stat) == Fine && op(old(tree)).Some?)
      ensures old(Current()) && Written(old(tree), comps, stat) ==> (ok <==> op(old(tree)).Some?)
    {
      VerdictMeans(tree, fold, nfc, comps);
      var c := CheckCase(comps, stat, clock, evicted);
      if c != Fine {
        return false;
      }
      var done := op(tree);
      if done.None? {
        return false;
      }
      tree := done.value;
      DropCache();
      return true;
    }

    /** casefs.go:236-252: a conflict of the new name with the old one is no obstacle. */
    method Rename(from: Path, fromStat: Stat, to: Path, toStat: Stat, op: Tree -> Option<Tree>,
                  clock: nat -> int, evicted: nat -> set<Path>)
      returns (ok: bool)
      requires Valid()
      modifies this
      ensures Valid() && (old(Current()) ==> Current())
      ensures if ok then op(old(tree)) == Some(tree) && Current() else tree == old(tree)
      ensures old(Current()) ==>
                (ok <==> && CheckedName(old(tree), fold, nfc, from, fromStat) == Fine
                         && CheckedName(old(tree), fold, nfc, to, toStat) in {Fine, Conflict(from)}
                         && op(old(tree)).Some?)
      ensures old(Current()) && Written(old(tree), from, fromStat) &&
              (Written(old(tree), to, toStat) || (toStat.Present? && Resolve(old(tree), fold, to) == Real(from))) ==>
                (ok <==> op(old(tree)).Some?)
    {
      VerdictMeans(tree, fold, nfc, from);
      VerdictMeans(tree, fold, nfc, to);
      var c := CheckCase(from, fromStat, clock, evicted);
      if c != Fine {
        return false;
      }
      c := CheckCase(to, toStat, clock, evicted);
      if c != Fine && !(c.Conflict? && c.found == from) {
        return false;
      }
      var done := op(tree);
      if done.None? {
        return false;
      }
      tree := done.value;
      DropCache();
      return true;
    }
  }
}
